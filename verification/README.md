# Verified models of the relay's end-to-end encryption and of the development scripts

A Dafny 4.11 project that models the parts of the repository whose correctness is
hardest to see from one function at a time, and proves what they promise. Three
groups, hardest first:

- **The relay's encrypted channel.** The record sequence with its silent rekey
  (`RecordSequence`, `RecordSession`, `SessionGates`), the authenticated close of one
  endpoint (`CloseRules`, `CloseReceipts`, `CloseEndings`, `CloseMachine`) and of two
  (`CloseProtocol`, `CloseCrossing`, `CloseAgreement`, `CloseSettles`, `CloseRuns`,
  `CloseTraffic`), the node's mode machine (`NodeModeMachine`, `NodeEndings`), the
  withdrawal of admission policies (`PolicyWithdrawal`, `PolicyModes`, `PolicyStore`),
  the prunable key-rotation chain (`RotationChain`) and the canonical encoding
  (`CanonicalCbor`).
- **Stateful scripts.** The device helper's frame collector and JSON-RPC client
  (`FrameCollector`, `HelperClient`); the dev runner's home collection, environment
  and port search (`DevHomes`, `DevRunnerEnv`, `PortSearch`).
- **Orders and partitions.** Release tags (`ReleaseTags`, `NightlyTags`) and the
  test partition (`TestPartition`).

The fixture generator drives these machines; the machines themselves are in
`packages/shared/src` and `apps/server/src`, and it is their code the models follow,
branch by branch. Objects that update fields are classes proved against functions;
the theorems are about those functions, over every run.

## How to read it

The record layer is a schedule: where a direction stands after a list of record
sizes. A sender run puts a chained log on the wire (`SenderRunIsChained`); against an
attacker without the keys a receiver accepts exactly a prefix of it
(`DeliveryIsLongestPrefix`). That is what lets the two-endpoint model keep, per
direction, one log and one count of what was accepted, and lets every other
interference be a step that ends an endpoint.

A close record takes three turns of the channel's send section: it is built at the
position read there, protected and put on the wire, and committed to the close machine.
Received records are accepted between those turns, so the commit can find that the
machine has left the state the record answers, and throw. `CloseProtocol` proves safety
under all of it - a clean verdict means nothing was lost. `CloseCrossing` follows an end
whose commit threw: it never completes. `CloseAgreement` proves how honest ends come out
once they have settled, clean and in agreement exactly when nobody was interrupted that
way and both held the reserve; `CloseSettles` that a close that has begun does settle, in
every run that keeps serving both ends; `CloseRuns` gives the runs that show each
condition is needed.

Beside the theorems about runs each machine has its behaviour said a second time, from
the side of what can be seen of it and without its own helper functions, and proved
equal to it on every input: what a session protects and authenticates (`SessionGates`),
what the close machine takes, owes and ends with (`CloseReceipts`, `CloseEndings`), what
an endpoint puts on its log (`CloseTraffic`), which channels a mode admits and how a
sweep counts them (`PolicyModes`), what ends the node's channel and what it shows
(`NodeEndings`), and in the other modules the lemmas whose names end in `Exactly`. So the
safety theorems are not about machines that do nothing: traffic gets through, closes
settle, a published policy is enforced, both kinds of channel carry their payloads.

In `NodeModeMachine` a channel has keys once the accept is on the send path. The record
session and its secrets exist a few lines earlier, and a queue that refuses the accept
still ends such a channel keyless, as the source means it to: its peer holds no keys.

## What the proofs found

- The capacity simulation looks at the two rekey thresholds and not at the counter.
  It is exact if and only if what the current epoch still carries fits under the
  counter ceiling (`CapacityIsExact`), which every reachable state satisfies and a
  synthetic state need not.
- A wait can be armed by something other than an endpoint's own record: a close read
  at the last position of the peer's direction, from a peer that spent its reserve.
  `WaitArmedExactly` gives the exact events; the bound on the phase holds all the same.
- The third record of the reserve is not only for the error. The channel session gives
  up on a received record once its own direction is spent. So an end with room for its
  two close records only fails a simultaneous close exactly when it sends its ack before
  it has accepted the peer's (`CloseOutcome`); both orders happen from every such start
  (`ShortCloseCanFail`, `ShortCloseCanSucceed`). With two such ends a simultaneous close
  always fails one (`ShortPairsOutcome`). Sessions that started with the reserve keep it
  until they close (`ReserveKept`).
- Changes of policy are not serialised above the client, whose sweep acts on what its
  snapshot froze. When a later change readmits what an earlier one refused, the earlier
  sweep can end as a handshake a channel established meanwhile - exactly then
  (`EndedAsWhatItIs`, `ReadmissionEndsTheWrongThing`). Only callers that let a turn pass
  between selecting and establishing get there; the node's session does it in one.
- Overlapping sweeps can both end and both count one encrypted channel, whose ending
  takes a turn of its own (`OverlapCountsTwice`); a sweep that began alone shares none
  with another (`ClosedOnceAcrossSweeps`).
- Closing at the same time as the peer can fail an honest close, reserve or not. If the
  peer's close is accepted after an end has built its own and before it has committed it,
  the commit throws with the record on the wire; the ack the end then owes fixes its
  anchor one record too late, and no ack of the peer's equals it. That end is never clean
  (`InterruptedNeverCompletes`), such a run exists from every start
  (`InterruptedCloseFails`), its peer can be clean all the same (`OneEndClean`), and
  nothing else stands between an honest pair that holds the reserve and agreement
  (`CloseAgreement`). The comment beside the throw in
  `relayE2eeClose.ts` names the hazard. The drivers re-read the state when they build, in
  the section, but not after the wait for admission and protection. Their callers answer
  the throw by failing the channel, which is one of the endings the theorem ranges over.
- A handshake turn that fails after the accept is away - the session directory throws -
  is answered a turn later with the ending of a channel that has no keys, although this
  one has them: exactly when nothing ended the channel first (`EndingFollowsKeys`,
  `AnswerCanMissKeys`, `SweepBeatsAnswer`). The directory in the repository only writes a
  map and does not throw; the throw is an input of the session's interface.
- Pruning the dev homes twice can remove more than pruning once, when all that spares a
  home lies inside a home the first pass removes - exactly then
  (`SecondPassRemovesNothing`).
- For the values modelled the strict reader alone already accepts nothing but canonical
  bytes (`StrictIsCanonical`); the re-encode comparison decides the reason it reports.

## Assumptions

- Authenticated encryption, signatures, commitments and fingerprints are ideal: a
  ciphertext opens only under what it was sealed with, a signature is its key and
  message, a commitment its fields. That no ciphertext is forged is a hypothesis of
  the theorems that need it (`Unforged`), and so is that honest keys sign only their
  own rotation (`Genuine`).
- Numbers stay below 2^53; positions stay in their field ranges.
- One inbound payload is taken after another; a hello is split in three inputs, its
  arrival, its borrowed turn and the answer to a failure. In the two-endpoint model any
  record may be accepted between any two turns of a section, which is more than a driver
  that answers inside one payload's turn allows: there only the section of a close the
  application began can be interrupted.
- A channel that has been closed takes no further send, so no accept can follow its end.
- An expired wait is noticed at the first tick it has expired, and before anything else.
- The comparison of alphanumeric identifiers is a total preorder; the names of dev homes
  are injective; the environment record's codec reads back what it wrote; setting and
  deleting variables are plain map writes; the frame decoder and the classification of
  an output line are arbitrary total functions; a line that parses as JSON is not null.
- A port is free or not for the length of one search.

## Model

| member | source | states |
|---|---|---|
| RecordSequence.NextPositionIsAdvance | packages/shared/src/relayE2eeClose.ts:127-137 | the close machine’s next position, computed from a position and the epoch flag alone, is where the record session’s own advance goes, or nothing exactly when that exhausts the direction |
| RecordSequence.PositionsIncrease | scripts/generate-e2ee-fixtures.ts:5470-5573 | over any run of record sizes, across both thresholds, a later live position is strictly after every earlier one: no position and no nonce repeats |
| RecordSequence.PositionsNeverDecrease | packages/shared/src/relayE2eeSession.ts:641-693 | even a spent direction never stands before a position it has used |
| RecordSequence.CounterCeilingUnreachable | packages/shared/src/relayE2eeSession.ts:648-659 | from the start the counter is the epoch’s record count and stays under the record threshold; only completing the last epoch ends a direction |
| RecordSequence.EpochIsItsRecords | packages/shared/src/relayE2eeSession.ts:641-693 | from the start, over any sizes, an epoch’s two books are exactly the records sent since it began, their number and their bytes, both under their thresholds |
| RecordSequence.EpochTurnsExactly | packages/shared/src/relayE2eeSession.ts:641-686 | an epoch ends exactly with the record that brings its number of records or of bytes to the threshold, and the direction exactly when that epoch is the last |
| RecordSequence.CapacityIsExact | packages/shared/src/relayE2eeSession.ts:612-629 | the capacity simulation says exactly which runs of records can be protected if and only if the records the current epoch still carries fit under the counter ceiling, which it does not look at |
| RecordSequence.CoherentCapacityIsExact | packages/shared/src/relayE2eeSession.ts:602-629 | in every state traffic can reach the simulation is exact |
| RecordSequence.CapacityOverstatesAtTheCounterCeiling | scripts/generate-e2ee-fixtures.ts:5004-5011 | a synthetic state at the counter ceiling is granted a second record that cannot exist |
| RecordSequence.CapacityMonotone | packages/shared/src/relayE2eeSession.ts:602-629 | a run that fits from one point of the schedule fits from any earlier one, and so does any shorter run of no larger records |
| RecordSequence.DirectionalRecordState.CapacityFor | packages/shared/src/relayE2eeSession.ts:612-629 | the loop decides exactly the simulation and changes nothing |
| RecordSequence.DirectionalRecordState.Advance | packages/shared/src/relayE2eeSession.ts:641-686 | the update in place is the schedule’s step, and the flag says the record completed its epoch |
| RecordSession.SenderRunIsChained | packages/shared/src/relayE2eeSession.ts:1108-1292 | whatever is requested and however admission, sealing, delivery and erasure go, the envelopes handed to the relay are sealed at consecutive schedule positions, and a usable send path stands exactly behind them |
| RecordSession.WirePositionsIncrease | packages/shared/src/relayE2eeSession.ts:1108-1292 | envelopes on the wire carry strictly increasing positions |
| RecordSession.MismatchBeforeDecryption | packages/shared/src/relayE2eeSession.ts:1394-1405 | off the expected position the result does not depend on the ciphertext |
| RecordSession.ReceiveUnexpected | scripts/generate-e2ee-fixtures.ts:5575-5633 | a genuine record out of place - dropped, repeated, reordered, early, late or of a skipped epoch - is refused for its position, anything else off the log is refused too, and the direction is latched |
| RecordSession.DeliveryIsLongestPrefix | packages/shared/src/relayE2eeSession.ts:1352-1466 | against an attacker who cannot forge, exactly the longest in-order prefix is accepted, the expectation is then the sender’s next position, the first departure is fatal and everything after it is refused |
| RecordSession.SilentRekey | scripts/generate-e2ee-fixtures.ts:5470-5573 | the same for a real sender run: with everything delivered in order the receiver ends exactly where a usable sender stands, with no signalling |
| RecordSession.ReserveKept | packages/shared/src/relayE2eeSession.ts:1117-1131 | in every run a send path open to the application holds the whole post-application reserve |
| RecordSession.CloseRequiredExactly | packages/shared/src/relayE2eeSession.ts:1117-1129 | an application record is turned away exactly when after it the reserve could no longer be protected, and then nothing is consumed |
| RecordSession.ReserveCoversClose | scripts/generate-e2ee-fixtures.ts:5918-5983 | after any run with the application phase open, both close records and the terminal error reach the wire, in order, intact, at fresh positions |
| RecordSession.FreshSessionIsReserved | packages/shared/src/relayE2eeSession.ts:372-378 | a new channel under the protocol’s constants holds the reserve |
| RecordSession.E2eeRecordSession.Protect | packages/shared/src/relayE2eeSession.ts:1108-1292 | the send in place: new state, result and envelope are those of the send step, gate before ceiling before capacity before admission before the pair; an envelope leaves only an open send path, or a closing one for anything but an application record |
| RecordSession.E2eeRecordSession.Unprotect | packages/shared/src/relayE2eeSession.ts:1352-1466 | the receive in place: new state and result are those of the receive step, position before decryption before type |
| SessionGates.InnerRoundTrip | packages/shared/src/relayE2eeWire.ts:485-530 | the inner encoding is a bijection onto the plaintexts that begin with one of the four registered types |
| SessionGates.ProtectedExactly | packages/shared/src/relayE2eeSession.ts:1108-1292 | a record reaches the relay exactly when the send path admits its type, it fits, it and what must stay behind it can be protected, the queue admits it and it is sealed; it is then the requested one at the schedule’s position |
| SessionGates.RefusedExactly | packages/shared/src/relayE2eeSession.ts:1108-1190 | a request that is not admissible consumes nothing, and which reason it is told, in both directions |
| SessionGates.WhatMayFollow | packages/shared/src/relayE2eeSession.ts:1295-1332 | after a record that may have gone out what may follow is what might have before, less application records once a close record is out and everything once the error is; after a failed seal, an escape or a record the relay took nothing of, nothing may |
| SessionGates.MayEmitErrorIsTrue | packages/shared/src/relayE2eeSession.ts:1263-1292 | a failed send says the error may still be emitted exactly when an error may still follow and the secrets are there |
| SessionGates.NoApplicationAfterCloseRecord | packages/shared/src/relayE2eeSession.ts:1295-1332 | over any requests and surroundings: no application record follows a close record of either kind on the log, and a terminal error is the last record of its log |
| SessionGates.SilentStaysSilent | packages/shared/src/relayE2eeSession.ts:1295-1311 | a spent, unusable or erased session puts nothing on the wire ever again |
| SessionGates.AuthenticatedExactly | packages/shared/src/relayE2eeSession.ts:1352-1466 | a live receiver takes exactly what the peer’s direction seals at the expected position with a registered type, advances by it, and ends the direction on anything else |
| SessionGates.ReceiveRefusedFor | packages/shared/src/relayE2eeSession.ts:1352-1405 | the order of the refusals: envelope, version, suite, sequence, before decryption |
| CloseRules.ApplyKeeps | packages/shared/src/relayE2eeClose.ts:787-810 | every call keeps the machine valid - at most two close records, two waits, states that match what was sent and heard - and undoes nothing achieved |
| CloseRules.RunPersists | packages/shared/src/relayE2eeClose.ts:515-541 | over any calls the verdict only rises, the anchor never moves, and completion, proofs and terminal flags stay |
| CloseRules.CleanMeansComplete | packages/shared/src/relayE2eeClose.ts:1449-1456 | a clean verdict is a completed exchange with the peer’s proof and no degenerate position; a completed exchange loses it only by ending |
| CloseRules.OneTerminalError | packages/shared/src/relayE2eeClose.ts:1171-1179 | over any run at most one terminal error is sent |
| CloseRules.SilentAfterTerminalError | scripts/generate-e2ee-fixtures.ts:6408-6500 | after a terminal error in either direction nothing more can be built or sent, whatever follows, and the verdict is failed |
| CloseRules.WaitArmedExactly | scripts/generate-e2ee-fixtures.ts:6538-6612 | exactly which events arm a wait, by how much the deadline moves, and that nothing else moves it: the own close, the own ack unless it completes the exchange, and a close received at the last position of the peer’s direction |
| CloseRules.WaitArmedWithoutOwnRecord | packages/shared/src/relayE2eeClose.ts:1271-1283 | the last of these happens under any limits: traffic brings a direction to where one close record completes the last epoch, and any open machine that reads that close arms a wait with no own record sent |
| CloseRules.ClosePhaseIsBounded | scripts/generate-e2ee-fixtures.ts:6753-6817 | on every timed run whose expiries are noticed, an endpoint is done no later than two close timeouts after its first wait began, or one and a linger |
| CloseRules.ApplicationPhaseStaysOver | packages/shared/src/relayE2eeClose.ts:938-952 | once the application phase of an endpoint is over it never comes back, whatever follows |
| CloseRules.OuterCloseGuardsVerdict | packages/shared/src/relayE2eeClose.ts:1406-1423 | in a close phase whose wait has not expired the outer close is refused exactly while it would cost the verdict; a degenerate exchange has none to lose |
| CloseMachine.E2eeCloseMachine.BuildClose | packages/shared/src/relayE2eeClose.ts:996-1001 | the initiating close, only from the application phase |
| CloseMachine.E2eeCloseMachine.BuildCloseAck | packages/shared/src/relayE2eeClose.ts:1015-1029 | the owed ack, only with the declaration fixed at the peer’s close |
| CloseMachine.E2eeCloseMachine.NoteTransmitted | packages/shared/src/relayE2eeClose.ts:1077-1165 | a transmitted record is committed exactly when it is the pending one at its declared position in a state it answers |
| CloseMachine.E2eeCloseMachine.Receive | packages/shared/src/relayE2eeClose.ts:1187-1242 | an authenticated record moves the machine and is answered as the rules say |
| CloseMachine.E2eeCloseMachine.ReceiveClose | packages/shared/src/relayE2eeClose.ts:1244-1302 | a close is taken exactly when it is expected, carries its envelope’s position under a commitment that covers type, peer’s direction, channel and both positions, and declares nothing past next-send; then the sequential or simultaneous turn |
| CloseMachine.E2eeCloseMachine.ReceiveCloseAck | packages/shared/src/relayE2eeClose.ts:1304-1347 | an ack is taken exactly when one is expected, it is genuine in the same sense and declares the anchor itself; then what it completes |
| CloseMachine.E2eeCloseMachine.NoteChannelEnded | packages/shared/src/relayE2eeClose.ts:1380-1392 | truncation supersedes, an unfinished exchange is abrupt, a finished one keeps its verdict |
| CloseReceipts.CloseAcceptedExactly | packages/shared/src/relayE2eeClose.ts:1244-1302 | the same for every valid machine, with the state and branch an accepted close leads to; every other close ends the machine failed |
| CloseReceipts.CloseRefusedFor | packages/shared/src/relayE2eeClose.ts:451-491 | which reason a refused close gets, in both directions; past next-send it is the passed-through rule |
| CloseReceipts.AckAcceptedExactly | packages/shared/src/relayE2eeClose.ts:1304-1347 | the same for acks, and that an accepted one completes exactly a responder’s exchange or one whose second record is out |
| CloseReceipts.AckRefusedFor | packages/shared/src/relayE2eeClose.ts:489-505 | which reason a refused ack gets; off the anchor it is the strict rule |
| CloseReceipts.ApplicationAcceptedExactly | packages/shared/src/relayE2eeClose.ts:1226-1238 | an application record is delivered, changing nothing, exactly until the peer has closed or proved its close or the machine has ended |
| CloseReceipts.ErrorEnds | packages/shared/src/relayE2eeClose.ts:1203-1223 | a conforming error ends the machine failed with no answer, a malformed one is a fatal condition that still has one |
| CloseReceipts.FailedExactly | packages/shared/src/relayE2eeClose.ts:1187-1242 | over every run: an endpoint that has not failed has taken no record that was not what it had to be, and one that fails neither by itself nor by its own error fails exactly because of such a record |
| CloseEndings.WorstVerdictStands | packages/shared/src/relayE2eeClose.ts:515-541 | a later condition replaces the recorded verdict exactly when it is the worse one |
| CloseEndings.EndingsGiveTheirVerdict | packages/shared/src/relayE2eeClose.ts:1360-1404 | every ending - expiry, channel end with or without a partial message, failure elsewhere, own error - ends the machine with its own verdict or the worse one there was and keeps what was achieved; what is no ending changes nothing |
| CloseEndings.EndingsFromUndecided | packages/shared/src/relayE2eeClose.ts:1360-1404 | undecided, the verdict is the ending’s own: abrupt, truncation or failed; a clean one falls only to truncation or failure |
| CloseEndings.CompletionExactly | packages/shared/src/relayE2eeClose.ts:1461-1468 | an exchange completes with the machine’s own record or the peer’s ack and nothing else; undecided it is then clean at once, and no wait, debt or pending record is left |
| CloseEndings.ApplicationPhaseExactly | packages/shared/src/relayE2eeClose.ts:938-952 | the application phase is the time before any close-machine record either way and before any end |
| CloseEndings.CloseBuiltExactly | packages/shared/src/relayE2eeClose.ts:996-1001 | an initiating close can be built exactly then, and says what it is given under a commitment that covers it |
| CloseEndings.OwedExactly | packages/shared/src/relayE2eeClose.ts:903-911 | an ack is owed from the peer’s close until it is sent, if there is a position to declare; the confirmation from the peer’s ack until it is sent, by the one that closed first; nothing else |
| CloseEndings.AckBuiltExactly | packages/shared/src/relayE2eeClose.ts:1015-1029 | what is owed can be built, with the declaration fixed at the peer’s close if it answers one; what is not owed cannot |
| CloseEndings.OuterCloseAllowedOutside | packages/shared/src/relayE2eeClose.ts:1419-1423 | an outer close is allowed before a close phase, after it, and once a wait has run out |
| CloseEndings.LingersExactly | packages/shared/src/relayE2eeClose.ts:1425-1436 | the sender of the last record lingers from that record for the linger bound and no longer; no other record starts a linger |
| CloseEndings.OnlyOwnRecordsLinger | packages/shared/src/relayE2eeClose.ts:1425-1436 | and nothing but an own record starts or moves one |
| CloseProtocol.CompletedLosesNothing | scripts/generate-e2ee-fixtures.ts:6153-6257 | an endpoint whose exchange is complete knows every application record of both directions was accepted and neither side can send another |
| CloseProtocol.CleanLosesNothing | scripts/generate-e2ee-fixtures.ts:5061-5432 | from any starts, under every interleaving of application sends, the three turns of a close record - built, put on the wire, committed - deliveries, delays, refusals, failures, expiries and terminal errors, a clean verdict means no application record was lost either way |
| CloseProtocol.ActKeeps | apps/server/src/hubConnector/NodeE2eeChannelSession.ts:1380-1442 | every turn of either endpoint keeps the pair consistent - a commit that throws with its record on the wire and an end for want of a position included: logs on schedule, applications first, nothing declared past what was accepted, no anchor before the first close record |
| CloseProtocol.AcceptAckLearns | packages/shared/src/relayE2eeClose.ts:489-505 | an ack that equals the anchor proves the peer accepted everything up to the first close record, also when the anchor was fixed by a later one |
| CloseTraffic.ApplicationGoesExactly | packages/shared/src/relayE2eeSession.ts:1117-1131 | an application record goes out exactly while no close record has, the machine has not ended, the section is free and the whole reserve stays protectable behind it; the log then grows by it alone, at its place in the schedule |
| CloseTraffic.CloseIsBuiltExactly | apps/server/src/hubConnector/NodeE2eeChannelSession.ts:1444-1480 | in the application phase a free section builds the close at its own next position, declaring what it expects of the peer; with either direction spent the exchange is over |
| CloseTraffic.OwedIsBuiltExactly | apps/server/src/hubConnector/NodeE2eeChannelSession.ts:1414-1442 | what is owed is built in a free section, the answer to a close with the declaration fixed when it came, the confirmation with the present one; with no position for it the exchange is over |
| CloseTraffic.CloseRecordGoesExactly | apps/server/src/hubConnector/NodeE2eeChannelSession.ts:1380-1412 | what becomes of a built close record: on the wire and waiting for its commit, refused and still owed, or the end of the exchange |
| CloseTraffic.ErrorGoesExactly | apps/server/src/hubConnector/NodeE2eeChannelSession.ts:515-552 | the terminal error goes out at most once, with room for it, and the endpoint has then failed |
| CloseTraffic.RunsStayInStep | packages/shared/src/relayE2eeSession.ts:641-693 | at every point of every run both tracks are in step, so these hold there |
| CloseTraffic.TrafficGetsThrough | packages/shared/src/relayE2eeSession.ts:1108-1131 | from any pair in step, whatever both ends have to say and in whatever order, if every message leaves its sender’s reserve when its turn comes an honest run takes it all across: each log holds exactly what its end said, in order and in place, and all of it was accepted |
| CloseCrossing.InterruptedNeverCompletes | packages/shared/src/relayE2eeClose.ts:1095-1107 | an end that took the peer’s close record between building its own first close record and committing it never completes and is never clean, whatever else happens before and after, unless it was itself refused admission for a close record: the commit throws, the record is on the wire, and the anchor is fixed past where any ack can declare |
| CloseCrossing.ActTraced | apps/server/src/hubConnector/NodeE2eeChannelSession.ts:1420-1432 | over every turn: whoever’s peer opened with a close never declares, on its log or in what it owes or has built, anything past that close, and never owes a final confirmation |
| CloseAgreement.HonestKeeps | apps/server/src/hubConnector/NodeE2eeChannelSession.ts:1380-1442 | from any pair with room for its close records every honest turn - built, put on the wire, committed, accepted - leaves such a pair, so nothing is refused by the peer and no commit throws, but for one: taking the peer’s close record between the building and the commit of an own first one |
| CloseAgreement.CloseOutcome | apps/server/src/hubConnector/NodeE2eeChannelSession.ts:1414-1442 | from any starts with room for two close records and under every interleaving of the turns, a settled honest close is clean on both ends if and only if neither took the peer’s close record between building and committing its own first one and neither, short of the whole reserve, answered a simultaneous close before it had accepted the peer’s answer; which end is not clean, and how; two clean ends are on the same branch |
| CloseAgreement.CloseAgreement | scripts/generate-e2ee-fixtures.ts:5061-5432 | from any pair holding the reserve, whatever the interleaving of honest turns, once nothing is in flight, owed or under way after a close began both verdicts are clean if and only if no end took the peer’s close record between building and committing its own first one; and then both ends are on the same branch, after three records or four |
| CloseAgreement.ShortPairsOutcome | apps/server/src/hubConnector/NodeE2eeChannelSession.ts:1525-1535 | with both ends short and neither interrupted in that way a settled close is clean on both exactly when it was not simultaneous |
| CloseSettles.ChangesAreBounded | packages/shared/src/relayE2eeSession.ts:641-686 | of any honest run, interrupted or not, only so many steps change anything: what the two directions can carry bounds them, application records included |
| CloseSettles.FairRunsSettle | apps/server/src/hubConnector/NodeE2eeChannelSession.ts:1414-1442 | once a close has begun, of more rounds than that budget in which both ends get to accept, to build what they owe, to send it and to commit it, some leave nothing in flight, owed or under way, interrupted or not |
| CloseSettles.HonestCloseSettles | scripts/generate-e2ee-fixtures.ts:5239-5432 | so from a synchronised pair, after any honest run in which a close began, such a continuation settles on the way; it ends with both ends clean if and only if no end was interrupted between building and committing its first close record, and then settled and on one branch |
| CloseAgreement.FreshPairIsSynchronised | packages/shared/src/relayE2eeSession.ts:372-378 | a new channel under the protocol’s constants is such a pair |
| CloseAgreement.NoApplicationAfterClose | packages/shared/src/relayE2eeSession.ts:1302-1308 | after its first close record an endpoint adds no application record |
| CloseAgreement.AckDeclaresAnchor | scripts/generate-e2ee-fixtures.ts:6139-6257 | every ack in flight declares exactly the advance of the peer’s first close record |
| CloseAgreement.NextSendIsPastAnchor | scripts/generate-e2ee-fixtures.ts:6288-6310 | once a side has sent its second record and can still send, its next-send is past its anchor, and comparing the honest ack with that instead would refuse it |
| CloseAgreement.SpentDirectionCannotFinish | apps/server/src/hubConnector/NodeE2eeChannelSession.ts:1525-1535 | an end that has not completed and whose own direction is spent gives up when the next record comes, and is never clean whatever follows |
| CloseRuns.InterruptedCloseFails | packages/shared/src/relayE2eeClose.ts:1095-1107 | from any starts with room, the reserve included, there is an honest run that interrupts an end in that way and settles with it not clean |
| CloseRuns.OneEndClean | apps/server/src/hubConnector/NodeE2eeChannelSession.ts:1380-1442 | and from any synchronised start one after which, with nothing in flight or owed and nothing failed from outside, the two ends disagree: one is clean and the interrupted one failed |
| CloseRuns.ShortStart | scripts/generate-e2ee-fixtures.ts:4979-5002 | starts without the reserve exist: two records short of the end of the last epoch |
| CloseRuns.ShortCloseCanFail | apps/server/src/hubConnector/NodeE2eeChannelSession.ts:1525-1535 | from every start short of the reserve there is an honest, uninterrupted run that settles with the short end abrupt |
| CloseRuns.ShortCloseCanSucceed | apps/server/src/hubConnector/NodeE2eeChannelSession.ts:1414-1442 | and against a peer that holds the reserve one that settles a simultaneous close clean on both: the answers in the other order |
| PolicyWithdrawal.TestsAgree | apps/server/src/hubIdentity/NodeE2eePolicyClient.ts:282-302 | a handshake in flight is refused exactly when the channel it would become is |
| PolicyWithdrawal.NarrowsMeansWithdraws | apps/server/src/hubIdentity/NodeE2eePolicyStore.ts:224-232 | a change narrows exactly when it withdraws some channel the old policy admits |
| PolicyWithdrawal.AcknowledgementIsTrue | apps/server/src/hubIdentity/NodeE2eePolicyClient.ts:354-399 | for every interleaving of registrations, handshakes, locks, releases, commits and other sweeps, a sweep that finished without failure leaves no open legacy or e2ee channel its policy refuses, as long as nothing wider was published since |
| PolicyWithdrawal.CountsAreClosures | apps/server/src/hubIdentity/NodeE2eePolicyClient.ts:314-328 | its class counts add up to the channels it ended, each once, gone for good, and each one its policy refused |
| PolicyWithdrawal.EndedAsWhatItIs | apps/server/src/hubIdentity/NodeE2eePolicyClient.ts:282-302 | an entry is ended as what it still is, unless what it was refused for was readmitted during the sweep |
| PolicyWithdrawal.ReadmissionEndsTheWrongThing | apps/server/src/hubIdentity/NodeE2eePolicyClient.ts:366-394 | for the client that condition is exact: for every policy pair that readmits, callers that establish in a later turn let an overlapping change end an established channel as a handshake |
| PolicyWithdrawal.ClosedOnceAcrossSweeps | apps/server/src/hubIdentity/NodeE2eePolicyClient.ts:440-463 | a sweep begun after the others finished ends no channel another one ended |
| PolicyWithdrawal.OverlapCountsTwice | apps/server/src/hubIdentity/NodeE2eePolicyClient.ts:366-394 | beginning alone is what it takes: any two policies that withdraw an encrypted channel, in overlapping sweeps, can both end and both count it |
| PolicyWithdrawal.WideningClosesNone | scripts/generate-e2ee-fixtures.ts:9045-9470 | a policy published over channels it all admits closes none, however its sweep goes |
| PolicyWithdrawal.WideningSnapshotConforms | apps/server/src/hubIdentity/NodeE2eePolicyClient.ts:431-438 | a change that does not narrow, made while every channel conforms, is such a policy |
| PolicyWithdrawal.PolicyClient.EstablishOn | apps/server/src/hubIdentity/NodeE2eePolicyClient.ts:507-545 | the transition re-applies the test to the committed policy and retires what it refuses |
| PolicyWithdrawal.PolicyClient.Lock | apps/server/src/hubIdentity/NodeE2eePolicyClient.ts:564-577 | a channel locks legacy exactly if it is negotiating and the policy in force is the compatibility one |
| PolicyWithdrawal.PolicyClient.BeginChange | apps/server/src/hubIdentity/NodeE2eePolicyClient.ts:440-463 | publishing and the snapshot are one turn |
| PolicyWithdrawal.PolicyClient.CallReturned | apps/server/src/hubIdentity/NodeE2eePolicyClient.ts:377-395 | an ended channel is retired and counted, a failed one stays registered and counts as a failure |
| PolicyModes.AdmittedExactly | apps/server/src/hubIdentity/NodeE2eePolicyStore.ts:180-196 | a legacy channel is admitted under compatibility alone, a browser one under compatibility and required encryption, one on an account grant under anything but local approval, every other always |
| PolicyModes.ModesAreAChain | apps/server/src/hubIdentity/NodeE2eePolicyStore.ts:180-196 | the four modes form a strict chain of admitted channels |
| PolicyModes.NarrowsMeansStricter | apps/server/src/hubIdentity/NodeE2eePolicyStore.ts:224-232 | a change narrows exactly when it goes up that chain |
| PolicyModes.FailClosedIsStrictest | apps/server/src/hubIdentity/NodeE2eePolicyStore.ts:208-210 | the fail-closed policy admits nothing any mode refuses |
| PolicyModes.LocksExactly | apps/server/src/hubIdentity/NodeE2eePolicyClient.ts:564-577 | a channel becomes legacy exactly by locking while it negotiates under compatibility |
| PolicyModes.EstablishesExactly | apps/server/src/hubIdentity/NodeE2eePolicyClient.ts:507-545 | a handshake becomes an encrypted channel exactly when the mode of that moment admits its pattern and suite, and is retired otherwise |
| PolicyModes.CallsExactly | apps/server/src/hubIdentity/NodeE2eePolicyClient.ts:366-376 | a sweep calls out for exactly the entries still registered that its mode refuses |
| PolicyModes.ReturnsExactly | apps/server/src/hubIdentity/NodeE2eePolicyClient.ts:377-395 | a call that succeeds takes its channel off the list and into the counts, one that fails leaves it and counts as a failure; the sweep goes on either way |
| PolicyModes.SweptAsItsClass | apps/server/src/hubIdentity/NodeE2eePolicyClient.ts:298-306 | what a sweep ends it ends under the channel’s own class |
| PolicyModes.ClassCountsAreClosures | apps/server/src/hubIdentity/NodeE2eePolicyClient.ts:308-328 | in every run each class count is the number of snapshot channels of that class the sweep ended |
| PolicyModes.AcknowledgedModeHolds | apps/server/src/hubIdentity/NodeE2eePolicyClient.ts:354-399 | after an acknowledged sweep with nothing wider published since, no legacy channel is open if the mode requires encryption, no browser channel if it requires native clients, no account-grant channel if it requires local approval |
| PolicyModes.PublishedModeIsEnforced | apps/server/src/hubIdentity/NodeE2eePolicyClient.ts:354-399 | from any point of any run, publishing a mode and letting its sweep go through is acknowledged and leaves none of the channels the mode rules out open |
| PolicyStore.GenerationsOnlyGrow | apps/server/src/hubIdentity/NodeE2eePolicyStore.ts:704-767 | after any commits, recoveries and crashes the cross-check passes and a change, widening or narrowing, takes a generation above every one written, marked or reserved; a no-op takes none |
| PolicyStore.RollbackIsCaught | apps/server/src/hubIdentity/NodeE2eePolicyStore.ts:778-815 | a restored older record is refused, and recovery takes the fail-closed policy above every mark |
| PolicyStore.CommitExactly | apps/server/src/hubIdentity/NodeE2eePolicyStore.ts:704-767 | a commit is refused exactly behind the mark, spends nothing on a no-op, and otherwise takes the generation just above everything used and writes it, or a crash leaves a prefix of reservation, record, mark |
| PolicyStore.RecoverExactly | apps/server/src/hubIdentity/NodeE2eePolicyStore.ts:778-815 | recovery keeps the mode of a record that is not behind its mark, takes the strictest for one that is, and writes in the same order |
| RotationChain.Validate | packages/shared/src/relayE2eeTranscripts.ts:865-943 | the loop gives exactly the first failure of the walk, or how the pin stands |
| RotationChain.AcceptedExactly | packages/shared/src/relayE2eeTranscripts.ts:825-864 | acceptance without the walk: length, links, signatures, the current key at the end, the pin current or an outgoing key on the way |
| RotationChain.BuildLineage | scripts/generate-e2ee-fixtures.ts:581-606 | the lineage is each key’s rotation in order, numbered from the first generation, signed by the outgoing key |
| RotationChain.PinsReached | scripts/generate-e2ee-fixtures.ts:1596-1854 | after any number of rotations: the current pin unchanged, an outgoing key of a retained rotation followed silently, an older one refused |
| RotationChain.OnlyRunsAccepted | scripts/generate-e2ee-fixtures.ts:1596-1854 | of chains made of the node’s own certificates only unbroken runs up to the current key are accepted: no drop, swap, repeat or gap |
| RotationChain.PinFollowsHistory | packages/shared/src/relayE2eeTranscripts.ts:846-851 | whoever presents the chain, a pin at an honest key is only ever moved along the honest lineage |
| RotationChain.StoreKeepsLineage | apps/server/src/hubIdentity/NodeIdentityContinuityStore.ts:789-890 | over any attempts and crashes the stored chain is the most recent rotations of one lineage, unrenumbered, as promoted or one ahead |
| RotationChain.RotationKeepsPins | apps/server/src/hubIdentity/NodeIdentityContinuityStore.ts:789-890 | after an uninterrupted attempt the published chain verifies and exactly the retained pins follow it |
| RotationChain.AppendIdempotent | apps/server/src/hubIdentity/NodeIdentityContinuityStore.ts:817-847 | a pair that is already newest is only reported, and the mark is raised to it |
| RotationChain.AppendExactly | apps/server/src/hubIdentity/NodeIdentityContinuityStore.ts:789-890 | what an append does to any store, crashes included: the newest pair reported, a mark ahead refused, else the next generation reserved, the chain written only if it verifies, the mark raised only after it |
| RotationChain.RefusedForFirstBroken | packages/shared/src/relayE2eeTranscripts.ts:865-943 | a chain is refused for its first broken link, under that link’s own name |
| RotationChain.RefusedForExactly | packages/shared/src/relayE2eeTranscripts.ts:865-943 | the reasons in full: length, identity key, first broken link, last key |
| NodeModeMachine.RunKeepsPromises | scripts/generate-e2ee-fixtures.ts:8293-8863 | over every input sequence and policy history: at most one hello served, one fallback occurrence, one fatal outcome; plaintext only on legacy channels; envelope bodies only in e2ee after the finish; no keyed ending without keys |
| NodeModeMachine.StepKeeps | apps/server/src/hubConnector/NodeE2eeChannelSession.ts:493-540 | every input keeps those promises, and the ending follows the keys on every input but one, named exactly: the answer to a failed handshake turn that finds the channel open and with keys |
| NodeModeMachine.EndingFollowsKeys | apps/server/src/hubConnector/NodeE2eeChannelSession.ts:1033-1091 | over every run a fatal outcome is the keyed one exactly when keys exist, if and only if no failure of the handshake turn was answered while the channel was still open and had its keys |
| NodeModeMachine.AnswerCanMissKeys | apps/server/src/hubConnector/NodeE2eeChannelSession.ts:1033-1091 | a run in which one was: the session directory throws after the accept is away, and the answer a turn later ends the keyed channel keyless |
| NodeModeMachine.SweepBeatsAnswer | apps/server/src/hubConnector/NodeE2eeChannelSession.ts:1033-1091 | and one in which the directory throws all the same and a policy sweep lands before the answer: the ending is the keyed one |
| NodeModeMachine.RequiredMeansNeverLegacy | apps/server/src/hubConnector/NodeE2eeChannelSession.ts:1098-1126 | while encryption is required no channel is legacy, none sees plaintext, none counts a fallback |
| NodeModeMachine.PlaintextReachesParser | apps/server/src/hubConnector/NodeE2eeChannelSession.ts:1128-1182 | a plaintext message reaches the parser exactly on a legacy channel or one that becomes it |
| NodeModeMachine.ClosedIsFinal | apps/server/src/hubConnector/NodeE2eeChannelSession.ts:433-435 | after the end nothing more is seen, not even of a handshake waiting for its prekey |
| NodeEndings.EndsExactly | apps/server/src/hubConnector/NodeE2eeChannelSession.ts:493-552 | mode by mode, everything that ends an open channel and with which outcome: every payload, the deadline, both sweeps, a revocation, a failed send path, an abandonment, the close phase’s end, disposal, and nothing else |
| NodeEndings.RevocationIsFinal | apps/server/src/hubConnector/NodeE2eeChannelSession.ts:1675-1681 | at any point of any run a revocation ends the channel for good, keyed exactly in e2ee; a disposal ends it in silence |
| NodeEndings.SweepLeavesNothingSettled | apps/server/src/hubConnector/NodeE2eeChannelSession.ts:788-855 | after a policy sweep the channel is neither legacy nor e2ee, whatever came before |
| NodeEndings.HistoryIsTallied | apps/server/src/hubConnector/NodeE2eeChannelSession.ts:1098-1256 | over every run each tally is the count of what the channel showed, input by input: nothing twice, under another kind, or not at all |
| NodeEndings.EntersLegacyExactly | apps/server/src/hubConnector/NodeE2eeChannelSession.ts:1098-1126 | the one way into legacy: plaintext that finds the channel negotiating under a policy that allows it |
| NodeEndings.EntersE2eeExactly | apps/server/src/hubConnector/NodeE2eeChannelSession.ts:788-855 | the one way into e2ee: the hello’s turn comes back admitted while the channel waits for it; the keys come with it |
| NodeEndings.HelloTakenExactly | apps/server/src/hubConnector/NodeE2eeChannelSession.ts:1128-1158 | a hello is taken once, from a listening channel that advertised |
| NodeEndings.HelloReturnsExactly | apps/server/src/hubConnector/NodeE2eeChannelSession.ts:857-1096 | what a returning turn leaves to be answered, and with which row |
| NodeEndings.AnsweredExactly | apps/server/src/hubConnector/NodeE2eeChannelSession.ts:1033-1091 | a failure waits for its answer and nothing else clears it |
| NodeEndings.FinishedExactly | apps/server/src/hubConnector/NodeE2eeChannelSession.ts:1184-1213 | the finish is confirmed by the first authentic record with no reason to refuse it |
| NodeEndings.DeadlineRunsExactly | apps/server/src/hubConnector/NodeE2eeChannelSession.ts:720-771 | the deadline runs from the one announcement until it expires or the channel ends |
| NodeEndings.E2eeCarriesBodies | apps/server/src/hubConnector/NodeE2eeChannelSession.ts:1592-1645 | under any policy an advertising channel gets its handshake through and carries bodies both ways |
| NodeEndings.LegacyCarriesPlaintext | apps/server/src/hubConnector/NodeE2eeChannelSession.ts:1592-1645 | where the policy allows it a channel becomes legacy and carries plaintext both ways |
| NodeEndings.PlanExactly | apps/server/src/hubConnector/NodeE2eeChannelAdvertiser.ts:199-230 | a statement that fits is advertised; without one the channel opens bare, or fatally when encryption is required |
| CanonicalCbor.RoundTrip | packages/shared/src/relayE2eeTranscripts.ts:170-180 | what is encoded decodes to itself whatever follows and whatever the reader insists on |
| CanonicalCbor.StrictIsCanonical | packages/shared/src/relayE2eeTranscripts.ts:230-262 | the strict reader takes nothing but the deterministic encoding of what it returns |
| CanonicalCbor.CanonicalIsInverse | packages/shared/src/relayE2eeTranscripts.ts:230-262 | the canonical decoder accepts exactly the encodings, each to its value |
| CanonicalCbor.NonCanonicalExactly | packages/shared/src/relayE2eeTranscripts.ts:235-249 | a refusal is called non-canonical exactly when the lax reader makes out a value with other canonical bytes |
| CanonicalCbor.EncodingIsShortest | packages/shared/src/relayE2eeTranscripts.ts:235-262 | of all the bytes a reader of definite lengths takes for a value, its encoding is the shortest |
| CanonicalCbor.IndefiniteIsAnArray | packages/shared/src/relayE2eeTranscripts.ts:170-180 | nothing of indefinite length is read but an array, and only where admitted |
| CanonicalCbor.WidenArrayHeader | scripts/generate-e2ee-fixtures.ts:541-549 | the widened bytes, or nothing when the head is not a small definite array |
| CanonicalCbor.IndefiniteArray | scripts/generate-e2ee-fixtures.ts:552-560 | the indefinite bytes, or nothing when the head is not a small definite array |
| CanonicalCbor.WidenedIsRefused | scripts/generate-e2ee-fixtures.ts:2358-2366 | a widened header keeps the value for a lax reader; the strict reader and the re-encode check refuse it as non-canonical |
| CanonicalCbor.IndefiniteIsRefused | scripts/generate-e2ee-fixtures.ts:2367-2371 | an indefinite array keeps the value where admitted and is refused as malformed |
| FrameCollector.AnyChunking | scripts/device-helper-smoke.ts:298-318 | however the stream is cut, the collector ends as one parse of all of it: frames, leftover and first error |
| FrameCollector.FramesRoundTrip | scripts/device-helper-smoke.ts:298-318 | encoded frames that decode come out as they went in and parsing continues with what follows |
| FrameCollector.FirstBadFrameEnds | scripts/device-helper-smoke.ts:305-309 | the frames before the first bad one are kept, its reason is kept, and nothing after it counts |
| FrameCollector.Collector.Consume | scripts/device-helper-smoke.ts:298-318 | one chunk consumed in place is the resumed parse |
| HelperClient.RunSplits | scripts/device-helper-smoke.ts:186-240 | over any interleaving of calls, output, timeouts and the helper’s end, issued ids split into waiting and settled, none settles twice, and live timers are exactly those of the waiting |
| HelperClient.LateResponseIgnored | scripts/device-helper-smoke.ts:205-209 | a response to an id that is not waiting changes nothing |
| HelperClient.ResponseSettles | scripts/device-helper-smoke.ts:205-213 | a response to a waiting call settles that call alone, with its error if it has one and else with its result |
| HelperClient.LineArrives | scripts/device-helper-smoke.ts:191-214 | at any point of any run a whole line is handled at once, joined to what was left of the line before |
| HelperClient.TimeoutSettles | scripts/device-helper-smoke.ts:216-240 | a call’s timer settles it as timed out if it still waits, and else does nothing |
| HelperClient.ExitRejectsAll | scripts/device-helper-smoke.ts:186-189 | when the helper goes everything waiting is rejected, oldest first, and no timer is left |
| HelperClient.AnyChunking | scripts/device-helper-smoke.ts:191-214 | at any point of any run, output cut into any chunks leaves the client as all of it at once: what is handled, and in what order, does not depend on chunking |
| HelperClient.Helper.OnData | scripts/device-helper-smoke.ts:191-214 | the loop in place handles every complete line, settles with the result or the error, and keeps the rest |
| HelperClient.Helper.OnGone | scripts/device-helper-smoke.ts:186-189 | everything waiting is rejected, oldest first |
| DevHomes.DevHomesDirectory.PruneDevHomes | scripts/dev-runner.ts:335-369 | the pass in place, and exactly which homes it reports removed |
| DevHomes.KeptHomeStays | scripts/dev-runner.ts:351-351 | the home this run keeps is never removed |
| DevHomes.LivingHomeStays | scripts/dev-runner.ts:326-334 | a worktree whose checkout’s git entry, or whose git dir under its own record, stands after the pass keeps its home, whatever reads fail, in any order and wherever the checkout lies |
| DevHomes.ForgottenHomeGoes | scripts/dev-runner.ts:326-334 | without faults the home of a forgotten worktree whose repository lies outside the homes is removed |
| DevHomes.SecondPassRemovesNothing | scripts/dev-runner.ts:335-369 | a second faultless pass is sure to find nothing, whatever the listing order, if every home spared for its checkout or git dir has one of them outside the homes the first pass is about to remove; and, with repositories outside the homes, only if |
| DevHomes.PruneRemovesExactly | scripts/dev-runner.ts:326-334 | under that condition a pass removes exactly the homes that were forgotten when it began and are not the one to keep |
| DevHomes.SecondPassCanRemoveMore | scripts/dev-runner.ts:331-334 | that condition can fail |
| DevHomes.ClaimedHomeStays | scripts/dev-runner.ts:312-324 | over any history of claims, faulty passes and paths coming and going, a claimed home stays recorded for its checkout while the checkout’s git entry stands |
| DevHomes.ClaimedHomeGoes | scripts/dev-runner.ts:312-334 | after any such history a faultless pass removes every claimed home, other than the kept one, whose worktree is gone and whose repository stands |
| DevHomes.DoubtKeepsHome | scripts/dev-runner.ts:326-348 | any doubt keeps a home: a failed read, probe or removal, no record, another checkout’s record, or a repository that is not there |
| DevHomes.RemovedHomeIsGone | scripts/dev-runner.ts:335-369 | a removed home is gone with everything below it |
| DevRunnerEnv.StripInheritedDevRunnerEnv | scripts/dev-runner.ts:417-449 | the two loops give the stripped environment, the removed and the kept keys in order, and where it was inherited from |
| DevRunnerEnv.CreateDevRunnerEnv | scripts/dev-runner.ts:532-628 | the hand-out with its record |
| DevRunnerEnv.CreatedHolds | scripts/dev-runner.ts:532-628 | what every variable of a hand-out holds, mode by mode: ports, addresses, home, host, mode and switches, what is deleted and what is inherited |
| DevRunnerEnv.StripUndoesCreate | scripts/dev-runner.ts:404-449 | stripping an unmodified hand-out leaves nothing a runner owns and every other variable as in the base |
| DevRunnerEnv.StripKeepsEdits | scripts/dev-runner.ts:404-449 | after any edits exactly the listed variables that differ from the record survive; stripped and kept split the listed variables that were set |
| DevRunnerEnv.InheritedHomeIsHandedOut | scripts/dev-runner.ts:440-448 | whatever was edited but the markers, a nested run learns the checkout and the home the runner around it handed out |
| DevRunnerEnv.StripIdempotent | scripts/dev-runner.ts:417-421 | a second strip changes nothing |
| DevRunnerEnv.NestingLosesNothing | scripts/dev-runner.ts:404-416 | at every nesting depth a run strips back to the outermost environment, less what runners own |
| PortSearch.OffsetPreferred | scripts/dev-runner.ts:166-198 | an explicit offset before a numeric instance before a seed before the worktree before the default ports; a hashed offset is congruent to its hash and off the default; only a negative explicit offset is an error |
| PortSearch.FindFirstAvailableOffset | scripts/dev-runner.ts:671-727 | the least offset from the start whose required ports are in range, not blocked and free; failure exactly when there is none |
| PortSearch.ResolveModePortOffsets | scripts/dev-runner.ts:735-787 | the search lifted to every mode; dev and dev:desktop share one offset |
| PortSearch.FirstIsUnique | scripts/dev-runner.ts:671-727 | the answer is determined by the ports |
| ReleaseTags.CompareStableVersions | scripts/resolve-previous-release-tag.ts:46-69 | the index loop compares as the recursive order does |
| ReleaseTags.PrecedenceIsTotalPreorder | scripts/resolve-previous-release-tag.ts:30-69 | version precedence is a total preorder whenever the comparison of alphanumeric identifiers is |
| ReleaseTags.PrecedenceDecided | scripts/resolve-previous-release-tag.ts:30-69 | the rules of precedence without the loop: the core decides, a release is above its prereleases, two prereleases are decided by the first identifier that differs - numerals by value and below words - or by length |
| ReleaseTags.NightlyIsTotalPreorder | scripts/resolve-previous-release-tag.ts:92-98 | so is the nightly order |
| ReleaseTags.HeadIsFirstGreatest | scripts/resolve-previous-release-tag.ts:130-137 | the head of the stably sorted candidates is a greatest one, and the first of those in tag order |
| ReleaseTags.PreviousIsGreatestBelow | scripts/resolve-previous-release-tag.ts:118-152 | the previous tag is a greatest tag strictly below the current one, and missing exactly when there is none |
| ReleaseTags.WalkVisitsEachClassOnce | scripts/resolve-previous-release-tag.ts:118-152 | previous after previous ends, goes strictly down and meets every version below the start |
| ReleaseTags.GoesDownDistinct | scripts/resolve-previous-release-tag.ts:118-152 | so no two tags of the walk share a precedence |
| NightlyTags.NightlyRoundTrip | scripts/resolve-nightly-release.ts:46-61 | the nightly parser inverts the printer for every core, date and run number |
| NightlyTags.NeverBoth | scripts/resolve-previous-release-tag.ts:71-90 | no tag parses both as nightly and as stable |
| NightlyTags.StableParsedExactly | scripts/resolve-previous-release-tag.ts:71-90 | the stable parser takes exactly the stable tags - a core, an optional prerelease that is not a nightly’s, an optional build - and reads what they were written with |
| NightlyTags.NightlyParsedExactly | scripts/resolve-previous-release-tag.ts:100-116 | the nightly parser takes exactly the nightly tags, old prefix or not, and reads what they were written with |
| NightlyTags.SplitIsJoined | scripts/resolve-previous-release-tag.ts:78-78 | prerelease identifiers hold no dot and joined give the prerelease back |
| NightlyTags.BaseVersionExactly | scripts/resolve-nightly-release.ts:33-44 | the base of a version is what stands before its first hyphen or plus |
| NightlyTags.TargetExactly | scripts/resolve-nightly-release.ts:33-44 | a version has a nightly target exactly when its base is a core |
| NightlyTags.TargetIsNextPatch | scripts/resolve-nightly-release.ts:33-44 | the target of a desktop version is the next patch of its core |
| NightlyTags.NightlyIsBetween | scripts/resolve-nightly-release.ts:35-61 | a nightly stands strictly between the current stable core and the next patch |
| NightlyTags.OrdersAgree | scripts/resolve-previous-release-tag.ts:46-98 | the nightly order agrees in sign with the version order on the same tags read as prerelease identifiers |
| NightlyTags.LaterIsGreater | scripts/resolve-previous-release-tag.ts:92-116 | a later date, or the same date and a later run, is strictly greater |
| TestPartition.OwnerIsDeepest | scripts/check-changed.ts:106-112 | the owner found is exactly the affected package with the longest path containing the file |
| TestPartition.PartitionIsExact | scripts/check-changed.ts:96-116 | whenever tests run the two parts split the affected packages without loss or overlap, each in order |
| TestPartition.RunsAllExactly | scripts/check-changed.ts:89-95 | in related mode without a global change a package runs everything exactly when it owns some escalating change |
| TestPartition.EverythingRunsExactly | scripts/check-changed.ts:96-116 | a change that concerns every package, or the mode, makes every affected package run everything; without tests nothing runs; related packages are the rest |
| TestPartition.ContainsBelow | scripts/check-changed.ts:106-112 | a package contains what lies below its path and no sibling whose name begins alike |
| TestPartition.OrderDoesNotMatter | scripts/check-changed.ts:96-116 | order and repetition of changes and packages do not matter |
| TestPartition.MoreChangesEscalateMore | scripts/check-changed.ts:96-116 | more changes only move packages from related to all |

## Left out

- Concrete cryptography, key schedules and erasure of buffers: ideal functions stand for them; a spent direction’s keys are never asked for because capacity is refused first.
- Wire formats of envelopes, close bodies, error bodies and negotiation records: records carry their decoded fields, an error body is conforming or not.
- RecordSequence.DirectionalRecordState.constructor: takes a start that leaves its epoch live; the out-of-range synthetic starts the source throws on are not modelled.
- RecordSession.E2eeRecordSession.Protect: one serialised send at a time, as the send queue makes it; the queue itself and argument type checks are not modelled.
- CloseMachine.E2eeCloseMachine.NoteTransmitted: the pending record is compared by value, the source compares the object; the anchor with its flags, the owed declaration with its flag and the wait and linger deadlines are each one field.
- CloseMachine.E2eeCloseMachine.Receive: range checks of positions and timestamps, which throw, are not modelled.
- CloseProtocol.CleanLosesNothing: the record session stands as a log and an accepted prefix, which is what DeliveryIsLongestPrefix proves of it; the turns between an application record’s gate and its envelope are one step, with only the session’s gate.
- CloseCrossing.InterruptedNeverCompletes: says nothing of runs in which the interrupted end was refused a close record; a built close that is refused leaves nothing on the wire and the end can still answer and finish clean.
- CloseAgreement.CloseAgreement: expiry, refusal and failure steps are absent from honest runs, so it says nothing about how slow they may be, and an end whose commit threw goes on instead of being failed by its caller.
- CloseSettles.FairRunsSettle: a record the relay refuses to admit stays owed and is built again in a later round; that a round comes at all is its hypothesis.
- PolicyWithdrawal.OverlapCountsTwice: a callback that ends its channel within the call is a release right after the call begins; that legacy and handshake callbacks are such is not part of the client’s model.
- NodeModeMachine.RunKeepsPromises: modelled on values, counting what is seen by kind; the close machine’s part in an envelope is one of four outcomes, and the turns inside one envelope’s processing are one step.
- PolicyWithdrawal.AcknowledgementIsTrue: a commit, its publication and its snapshot are one step; a commit that fails after its record landed is the step that publishes without a sweep.
- RotationChain.Validate: certificate timestamps and key identifiers are not modelled; the idempotence test compares the keys.
- CanonicalCbor.RoundTrip: unsigned integers, byte and text strings, booleans and arrays; maps, tags, negative numbers, floats and text validity are not modelled.
- HelperClient.Helper.OnData: results and error messages are strings; the retry of input calls is left out.
- FrameCollector.Collector.Consume: sockets and their errors are left out.
- DevHomes.DevHomesDirectory.PruneDevHomes: a removal happens whole or not at all; symbolic links and path normalisation are not modelled.
- DevRunnerEnv.CreateDevRunnerEnv: the straight-line settings are one list applied in order; path resolution of the home is left out.
- NightlyTags.TargetIsNextPatch: line breaks inside a version string are not modelled.
- The client’s mode rows, the pin store and the capability-statement verifier: the repository defers them.
- Relay chunking, prelude stripping, corpus and manifest writing, process spawning, simulator control, git calls, logging and command-line parsing: input and output.
- Seed planning, home resolution and other single-branch helpers: they would only add easy members.
