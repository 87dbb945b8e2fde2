/**
 The dev homes of linked worktrees: claiming one, and removing those of worktrees
 git has forgotten. Paths are segment sequences, a removal takes a whole subtree,
 and any read or removal may fail.
 */
module DevHomes {
  import opened Prelude

  type Path = seq<string>

  datatype Worktree = Worktree(root: Path, gitDir: Path, commonDir: Path)

  /**
   The paths that exist, and the entries of the dev homes directory with the owner
   record each holds, when it holds a readable one.
   */
  datatype World = World(present: set<Path>, homes: map<string, Option<Worktree>>)

  /** Where homes live, and the name a worktree's home gets. */
  datatype Layout = Layout(root: Path, name: Path -> string) {
    function Home(n: string): Path { root + [n] }

    ghost predicate Injective() { forall a: Path, b: Path :: name(a) == name(b) ==> a == b }
  }

  /** What fails this time: existence checks, record reads, removals. */
  datatype Faults = Faults(exists_: Path -> bool, read: string -> bool, remove: string -> bool) {
    ghost predicate None() {
      (forall p: Path :: !exists_(p)) && (forall n: string :: !read(n)) && (forall n: string :: !remove(n))
    }
  }

  predicate Inside(home: Path, p: Path) { home <= p }

  function Removed(l: Layout, w: World, n: string): World {
    World((set p | p in w.present && !Inside(l.Home(n), p)), w.homes - {n})
  }

  /** Claiming makes the home and records its worktree. */
  function Claimed(l: Layout, w: World, t: Worktree): World {
    var n := l.name(t.root);
    World(w.present + {l.Home(n)}, w.homes[n := Some(t)])
  }

  const DOT_GIT := ".git"

  /** Doubt keeps a home: no error, no other name, the checkout and its git dir gone, the repository there. */
  predicate Forgotten(l: Layout, w: World, f: Faults, n: string) {
    && n in w.homes && !f.read(n) && w.homes[n].Some?
    && (var t := w.homes[n].value;
        && l.name(t.root) == n
        && !f.exists_(t.root + [DOT_GIT]) && t.root + [DOT_GIT] !in w.present
        && !f.exists_(t.gitDir) && t.gitDir !in w.present
        && !f.exists_(t.commonDir) && t.commonDir in w.present)
  }

  predicate Removes(l: Layout, w: World, f: Faults, keep: Option<Path>, n: string) {
    keep != Some(l.Home(n)) && Forgotten(l, w, f, n) && !f.remove(n)
  }

  function PruneOne(l: Layout, w: World, f: Faults, keep: Option<Path>, n: string): World {
    if Removes(l, w, f, keep, n) then Removed(l, w, n) else w
  }

  /** One pass over the listing, in its order. */
  function Prune(l: Layout, w: World, f: Faults, keep: Option<Path>, names: seq<string>): World {
    if names == [] then w
    else PruneOne(l, Prune(l, w, f, keep, names[..|names| - 1]), f, keep, names[|names| - 1])
  }

  /** The path is a home removed when the pass came to it, among the first k names. */
  ghost predicate RemovedWithin(l: Layout, w: World, f: Faults, keep: Option<Path>, names: seq<string>, k: nat, p: Path)
    requires k <= |names|
  {
    exists i :: 0 <= i < k && p == l.Home(names[i]) && Removes(l, Prune(l, w, f, keep, names[..i]), f, keep, names[i])
  }

  class DevHomesDirectory {
    const l: Layout
    var present: set<Path>
    var homes: map<string, Option<Worktree>>

    ghost function Value(): World
      reads this
    {
      World(present, homes)
    }

    constructor (l: Layout, w: World)
      ensures this.l == l && Value() == w
    {
      this.l := l;
      present, homes := w.present, w.homes;
    }

    method Claim(t: Worktree)
      modifies this
      ensures Value() == Claimed(l, old(Value()), t)
    {
      var n := l.name(t.root);
      present := present + {l.Home(n)};
      homes := homes[n := Some(t)];
    }

    method PruneDevHomes(f: Faults, keep: Option<Path>, names: seq<string>) returns (removed: seq<Path>)
      modifies this
      ensures Value() == Prune(l, old(Value()), f, keep, names)
      ensures forall p :: p in removed <==> RemovedWithin(l, old(Value()), f, keep, names, |names|, p)
    {
      removed := [];
      for k := 0 to |names|
        invariant Value() == Prune(l, old(Value()), f, keep, names[..k])
        invariant forall p :: p in removed <==> RemovedWithin(l, old(Value()), f, keep, names, k, p)
      {
        assert names[..k + 1][..k] == names[..k];
        var name := names[k];
        ghost var before := Value();
        if keep == Some(l.Home(name)) { continue; }
        if name !in homes || f.read(name) || homes[name].None? { continue; }
        var owner := homes[name].value;
        if l.name(owner.root) != name { continue; }
        if f.exists_(owner.root + [DOT_GIT]) || owner.root + [DOT_GIT] in present { continue; }
        if f.exists_(owner.gitDir) || owner.gitDir in present { continue; }
        if f.exists_(owner.commonDir) || owner.commonDir !in present { continue; }
        if f.remove(name) { continue; }
        present := set p | p in present && !Inside(l.Home(name), p);
        homes := homes - {name};
        removed := removed + [l.Home(name)];
        assert Removes(l, before, f, keep, name);
      }
      assert names[..|names|] == names;
    }
  }

  // ----------------------------------------------------------------------- safety

  /** What one pass leaves is a part of what was there, and what it takes is homes and what lies inside them. */
  lemma {:induction false} PruneShrinks(l: Layout, w: World, f: Faults, keep: Option<Path>, names: seq<string>)
    ensures var v := Prune(l, w, f, keep, names);
            && v.present <= w.present && v.homes.Keys <= w.homes.Keys
            && (forall n :: n in v.homes ==> v.homes[n] == w.homes[n])
            && (forall p :: p in w.present && p !in v.present ==>
                  exists n :: n in w.homes && n !in v.homes && Inside(l.Home(n), p))
  {
    if names != [] {
      var before, n := names[..|names| - 1], names[|names| - 1];
      PruneShrinks(l, w, f, keep, before);
      var u, v := Prune(l, w, f, keep, before), Prune(l, w, f, keep, names);
      forall p | p in w.present && p !in v.present ensures exists m :: m in w.homes && m !in v.homes && Inside(l.Home(m), p) {
        if p in u.present {
          assert n in w.homes && n !in v.homes && Inside(l.Home(n), p);
        } else {
          var m :| m in w.homes && m !in u.homes && Inside(l.Home(m), p);
          assert m !in v.homes;
        }
      }
    }
  }

  /** A path nothing removed contains is there after the pass if it was there before. */
  lemma OutsideStays(l: Layout, w: World, f: Faults, keep: Option<Path>, names: seq<string>, p: Path)
    requires p in w.present && forall n :: n in w.homes ==> !Inside(l.Home(n), p)
    ensures p in Prune(l, w, f, keep, names).present
  {
    PruneShrinks(l, w, f, keep, names);
  }

  /** The home this run keeps is never removed. */
  lemma {:induction false} KeptHomeStays(l: Layout, w: World, f: Faults, n: string, names: seq<string>)
    requires n in w.homes
    ensures n in Prune(l, w, f, Some(l.Home(n)), names).homes
  {
    if names != [] {
      KeptHomeStays(l, w, f, n, names[..|names| - 1]);
    }
  }

  /**
   A worktree that is still there keeps its home, whatever reads fail, in any listing
   order and wherever its checkout lies: with its checkout's git entry standing
   whatever its record says, and with only its git dir standing when the record is
   its own. Injective names are what makes the record under its name a record of its
   checkout. Both are looked at after the pass: a checkout inside a home goes with it.
   */
  lemma {:induction false} LivingHomeStays(l: Layout, w: World, f: Faults, keep: Option<Path>, names: seq<string>, t: Worktree)
    requires l.Injective() && l.name(t.root) in w.homes
    ensures var v := Prune(l, w, f, keep, names);
            t.root + [DOT_GIT] in v.present || (t.gitDir in v.present && w.homes[l.name(t.root)] == Some(t))
            ==> l.name(t.root) in v.homes
  {
    if names != [] {
      LivingHomeStays(l, w, f, keep, names[..|names| - 1], t);
      PruneShrinks(l, w, f, keep, names[..|names| - 1]);
    }
  }

  /** Anything that could be wrong with a home's record, its repository, or the reading and removing of it this time. */
  predicate Doubtful(l: Layout, w: World, f: Faults, n: string)
    requires n in w.homes
  {
    || f.read(n) || f.remove(n) || w.homes[n] == None
    || (var t := w.homes[n].value;
        || l.name(t.root) != n || f.exists_(t.root + [".git"]) || f.exists_(t.gitDir) || f.exists_(t.commonDir)
        || t.commonDir !in w.present)
  }

  /** Any doubt about a home keeps it, whatever else the pass removes and in whatever order. */
  lemma {:induction false} DoubtKeepsHome(l: Layout, w: World, f: Faults, keep: Option<Path>, names: seq<string>, n: string)
    requires n in w.homes && Doubtful(l, w, f, n)
    ensures n in Prune(l, w, f, keep, names).homes
  {
    if names != [] {
      DoubtKeepsHome(l, w, f, keep, names[..|names| - 1], n);
      PruneShrinks(l, w, f, keep, names[..|names| - 1]);
    }
  }

  /** A home that was removed is gone with all that lay below it; nothing else is. */
  lemma {:induction false} RemovedHomeIsGone(l: Layout, w: World, f: Faults, keep: Option<Path>, names: seq<string>, n: string, p: Path)
    requires n in w.homes && n !in Prune(l, w, f, keep, names).homes
    ensures l.root + [n] <= p ==> p !in Prune(l, w, f, keep, names).present
  {
    if names != [] {
      var before, last := names[..|names| - 1], names[|names| - 1];
      PruneShrinks(l, w, f, keep, before);
      if n !in Prune(l, w, f, keep, before).homes { RemovedHomeIsGone(l, w, f, keep, before, n, p); }
    }
  }

  /** Claiming makes the worktree's home under its name and records the worktree there; every other home and path is as it was. */
  lemma ClaimRecords(l: Layout, w: World, t: Worktree)
    ensures var v, n := Claimed(l, w, t), l.name(t.root);
            && v.homes.Keys == w.homes.Keys + {n} && v.homes[n] == Some(t)
            && (forall m :: m in w.homes && m != n ==> v.homes[m] == w.homes[m])
            && (forall p :: p in v.present <==> p in w.present || p == l.root + [n])
  {}

  // ---------------------------------------------------------------------- liveness

  /** A recorded path no home contains: pruning other homes cannot change whether it exists. */
  predicate Apart(l: Layout, w: World, p: Path) { forall n :: n in w.homes ==> !Inside(l.Home(n), p) }

  predicate RepositoriesApart(l: Layout, w: World) {
    forall n :: n in w.homes && w.homes[n].Some? ==> Apart(l, w, w.homes[n].value.commonDir)
  }

  /** The homes a pass is for: forgotten, and not the one to keep. */
  predicate Due(l: Layout, w: World, f: Faults, keep: Option<Path>, n: string) {
    keep != Some(l.Home(n)) && Forgotten(l, w, f, n)
  }

  /** A home forgotten before a faultless pass, whose repository the pass leaves standing, is gone after it. */
  lemma {:induction false} ForgottenGoes(l: Layout, w: World, f: Faults, keep: Option<Path>, names: seq<string>, n: string)
    requires f.None() && n in names && Due(l, w, f, keep, n)
    requires w.homes[n].value.commonDir in Prune(l, w, f, keep, names).present
    ensures n !in Prune(l, w, f, keep, names).homes
  {
    var before, last := names[..|names| - 1], names[|names| - 1];
    PruneShrinks(l, w, f, keep, before);
    assert Prune(l, w, f, keep, names).present <= Prune(l, w, f, keep, before).present;
    if last != n {
      assert names == before + [last];
      ForgottenGoes(l, w, f, keep, before, n);
    }
  }

  /** So every home of a forgotten worktree whose repository lies outside the homes is removed. */
  lemma ForgottenHomeGoes(l: Layout, w: World, f: Faults, keep: Option<Path>, names: seq<string>, n: string)
    requires f.None() && n in names && Due(l, w, f, keep, n)
    requires Apart(l, w, w.homes[n].value.commonDir)
    ensures n !in Prune(l, w, f, keep, names).homes
  {
    OutsideStays(l, w, f, keep, names, w.homes[n].value.commonDir);
    ForgottenGoes(l, w, f, keep, names, n);
  }

  // ------------------------------------------------------------------ a second pass

  /** Each entry of the directory once, in any order. */
  ghost predicate Lists(w: World, names: seq<string>) {
    && (forall n :: n in names <==> n in w.homes)
    && (forall i, j :: 0 <= i < j < |names| ==> names[i] != names[j])
  }

  /** Not due, and only because of its checkout or git dir: name and repository are right. */
  predicate Spared(l: Layout, w: World, f: Faults, keep: Option<Path>, n: string) {
    && n in w.homes && w.homes[n].Some? && keep != Some(l.Home(n)) && l.name(w.homes[n].value.root) == n
    && w.homes[n].value.commonDir in w.present && !Forgotten(l, w, f, n)
  }

  /** The path stands, and not in a home the pass is about to remove. */
  predicate StandsClear(l: Layout, w: World, f: Faults, keep: Option<Path>, p: Path) {
    p in w.present && forall m :: m in w.homes && Due(l, w, f, keep, m) ==> !Inside(l.Home(m), p)
  }

  /** What spares a home outlasts the pass. */
  predicate Blocked(l: Layout, w: World, f: Faults, keep: Option<Path>, n: string)
    requires n in w.homes && w.homes[n].Some?
  {
    var t := w.homes[n].value;
    StandsClear(l, w, f, keep, t.root + [DOT_GIT]) || StandsClear(l, w, f, keep, t.gitDir)
  }

  predicate AllBlocked(l: Layout, w: World, f: Faults, keep: Option<Path>) {
    forall n :: n in w.homes && Spared(l, w, f, keep, n) ==> Blocked(l, w, f, keep, n)
  }

  /** A further pass finds nothing to remove. */
  ghost predicate NothingLeft(l: Layout, w: World, f: Faults, keep: Option<Path>) {
    forall n :: !Removes(l, w, f, keep, n)
  }

  lemma {:induction false} NothingLeftMeansUnchanged(l: Layout, w: World, f: Faults, keep: Option<Path>, names: seq<string>)
    requires NothingLeft(l, w, f, keep)
    ensures Prune(l, w, f, keep, names) == w
  {
    if names != [] {
      NothingLeftMeansUnchanged(l, w, f, keep, names[..|names| - 1]);
    }
  }

  /** What spares a blocked home is there after any removal of homes that were due. */
  lemma BlockedStays(l: Layout, w: World, f: Faults, keep: Option<Path>, names: seq<string>, n: string)
    requires f.None() && AllBlocked(l, w, f, keep) && Spared(l, w, f, keep, n)
    requires forall m :: m in w.homes && m !in Prune(l, w, f, keep, names).homes ==> Due(l, w, f, keep, m)
    ensures !Forgotten(l, Prune(l, w, f, keep, names), f, n)
  {
    PruneShrinks(l, w, f, keep, names);
    var t := w.homes[n].value;
    var p := if StandsClear(l, w, f, keep, t.root + [DOT_GIT]) then t.root + [DOT_GIT] else t.gitDir;
    assert StandsClear(l, w, f, keep, p);
  }

  /** When what spares the others outlasts it, a pass removes only homes that were due before it began. */
  lemma {:induction false} OnlyDueRemoved(l: Layout, w: World, f: Faults, keep: Option<Path>, names: seq<string>)
    requires f.None() && AllBlocked(l, w, f, keep)
    ensures var v := Prune(l, w, f, keep, names);
            && (forall n :: n in w.homes && n !in v.homes ==> Due(l, w, f, keep, n))
            && (forall n :: Removes(l, v, f, keep, n) ==> Due(l, w, f, keep, n))
  {
    var v := Prune(l, w, f, keep, names);
    if names != [] {
      OnlyDueRemoved(l, w, f, keep, names[..|names| - 1]);
      PruneShrinks(l, w, f, keep, names[..|names| - 1]);
    }
    PruneShrinks(l, w, f, keep, names);
    forall n | Removes(l, v, f, keep, n) ensures Due(l, w, f, keep, n) {
      if !Forgotten(l, w, f, n) {
        assert Spared(l, w, f, keep, n);
        BlockedStays(l, w, f, keep, names, n);
        assert false;
      }
    }
  }

  /** Then a complete faultless pass leaves nothing for a second one. */
  lemma BlockedLeavesNothing(l: Layout, w: World, f: Faults, keep: Option<Path>, names: seq<string>)
    requires f.None() && AllBlocked(l, w, f, keep) && Lists(w, names)
    ensures NothingLeft(l, Prune(l, w, f, keep, names), f, keep)
  {
    var v := Prune(l, w, f, keep, names);
    PruneShrinks(l, w, f, keep, names);
    OnlyDueRemoved(l, w, f, keep, names);
    forall n ensures !Removes(l, v, f, keep, n) {
      if Removes(l, v, f, keep, n) {
        ForgottenGoes(l, w, f, keep, names, n);
      }
    }
  }

  /** What lay in a removed home is gone with it. */
  lemma {:induction false} RemovedTakesItsContents(l: Layout, w: World, f: Faults, keep: Option<Path>, names: seq<string>,
                                                   m: string, p: Path)
    requires m in w.homes && m !in Prune(l, w, f, keep, names).homes && Inside(l.Home(m), p)
    ensures p !in Prune(l, w, f, keep, names).present
  {
    var before := names[..|names| - 1];
    if m !in Prune(l, w, f, keep, before).homes {
      RemovedTakesItsContents(l, w, f, keep, before, m, p);
    }
  }

  lemma ListingOf(s: set<string>) returns (names: seq<string>)
    ensures forall n :: n in names <==> n in s
    ensures forall i, j :: 0 <= i < j < |names| ==> names[i] != names[j]
    decreases s
  {
    if s == {} {
      names := [];
    } else {
      var n :| n in s;
      var others := ListingOf(s - {n});
      names := [n] + others;
    }
  }

  /** A home listed first that is not due then is there after the pass. */
  lemma {:induction false} ListedFirstStays(l: Layout, w: World, f: Faults, keep: Option<Path>, n: string, others: seq<string>)
    requires n in w.homes && !Forgotten(l, w, f, n) && n !in others
    ensures n in Prune(l, w, f, keep, [n] + others).homes
  {
    if others == [] {
      assert ([n] + others)[..0] == [];
    } else {
      var before := others[..|others| - 1];
      assert ([n] + others)[..|others|] == [n] + before;
      ListedFirstStays(l, w, f, keep, n, before);
    }
  }

  /** A spared home that is not blocked, listed first, is forgotten once the pass is over. */
  lemma UnblockedIsLeft(l: Layout, w: World, f: Faults, keep: Option<Path>, n: string) returns (names: seq<string>)
    requires f.None() && RepositoriesApart(l, w)
    requires Spared(l, w, f, keep, n) && !Blocked(l, w, f, keep, n)
    ensures Lists(w, names) && Removes(l, Prune(l, w, f, keep, names), f, keep, n)
  {
    var others := ListingOf(w.homes.Keys - {n});
    names := [n] + others;
    ListedFirstStays(l, w, f, keep, n, others);
    var v, t := Prune(l, w, f, keep, names), w.homes[n].value;
    PruneShrinks(l, w, f, keep, names);
    forall p | !StandsClear(l, w, f, keep, p) ensures p !in v.present {
      if p in w.present {
        var m :| m in w.homes && Due(l, w, f, keep, m) && Inside(l.Home(m), p);
        ForgottenHomeGoes(l, w, f, keep, names, m);
        RemovedTakesItsContents(l, w, f, keep, names, m, p);
      }
    }
    OutsideStays(l, w, f, keep, names, t.commonDir);
  }

  /**
   When a second faultless pass is sure to find nothing, whatever order the first
   listing had: when every home spared for its checkout or git dir has one of them
   standing outside the homes the first pass is about to remove. If repositories are
   kept outside the dev homes, exactly then; with a repository inside one, removing
   that home can make the others of its repository stay for good.
   */
  lemma SecondPassRemovesNothing(l: Layout, w: World, f: Faults, keep: Option<Path>)
    requires f.None()
    ensures AllBlocked(l, w, f, keep) ==> forall names :: Lists(w, names) ==> NothingLeft(l, Prune(l, w, f, keep, names), f, keep)
    ensures RepositoriesApart(l, w) && (forall names :: Lists(w, names) ==> NothingLeft(l, Prune(l, w, f, keep, names), f, keep))
            ==> AllBlocked(l, w, f, keep)
  {
    if AllBlocked(l, w, f, keep) {
      forall names | Lists(w, names) ensures NothingLeft(l, Prune(l, w, f, keep, names), f, keep) {
        BlockedLeavesNothing(l, w, f, keep, names);
      }
    } else if RepositoriesApart(l, w) {
      var n :| n in w.homes && Spared(l, w, f, keep, n) && !Blocked(l, w, f, keep, n);
      var names := UnblockedIsLeft(l, w, f, keep, n);
      assert !NothingLeft(l, Prune(l, w, f, keep, names), f, keep);
    }
  }

  /** Under that condition a pass removes exactly the homes that were due when it began. */
  lemma PruneRemovesExactly(l: Layout, w: World, f: Faults, keep: Option<Path>, names: seq<string>, n: string)
    requires f.None() && RepositoriesApart(l, w) && AllBlocked(l, w, f, keep) && Lists(w, names) && n in w.homes
    ensures n !in Prune(l, w, f, keep, names).homes <==> Due(l, w, f, keep, n)
  {
    OnlyDueRemoved(l, w, f, keep, names);
    if Due(l, w, f, keep, n) {
      ForgottenHomeGoes(l, w, f, keep, names, n);
    }
  }

  /**
   The condition can fail: a home listed first is kept because its checkout stands
   inside a second home, the second is removed with everything in it, and the next
   pass finds the first forgotten.
   */
  lemma SecondPassCanRemoveMore(l: Layout, f: Faults) returns (w: World)
    requires f.None() && l.Injective()
    ensures RepositoriesApart(l, w) && !AllBlocked(l, w, f, None)
  {
    var outer := Worktree(["outer"], ["outer.git"], []);
    var o := l.name(outer.root);
    var inner := Worktree(l.Home(o) + ["inner"], ["inner.git"], []);
    var n := l.name(inner.root);
    assert outer.root != inner.root by { assert |outer.root| == 1 && |inner.root| > 1; }
    var git := inner.root + [DOT_GIT];
    w := World({[], git}, map[o := Some(outer), n := Some(inner)]);
    assert |git| > 2 && Inside(l.Home(o), git);
    assert Due(l, w, f, None, o) && Spared(l, w, f, None, n) && !Blocked(l, w, f, None, n);
  }

  // --------------------------------------------------------------------------- runs

  /** What happens to the homes over time: claims, passes with any faults, and paths that come and go. */
  datatype Change =
    | Claims(t: Worktree)
    | Prunes(f: Faults, keep: Option<Path>, names: seq<string>)
    | Moves(added: set<Path>, dropped: set<Path>)

  function Changed(l: Layout, w: World, c: Change): World {
    match c
    case Claims(t) => Claimed(l, w, t)
    case Prunes(f, keep, names) => Prune(l, w, f, keep, names)
    case Moves(added, dropped) => w.(present := w.present + added - dropped)
  }

  /** Paths come and go as they please, whatever the homes are: any set of them can be there next. */
  lemma AnyPathsNext(l: Layout, w: World, next: set<Path>) returns (c: Change)
    ensures Changed(l, w, c) == World(next, w.homes)
  {
    c := Moves(next, w.present - next);
  }

  function History(l: Layout, w: World, changes: seq<Change>): World {
    if changes == [] then w else Changed(l, History(l, w, changes[..|changes| - 1]), changes[|changes| - 1])
  }

  /** The home records a worktree of its own name; `root` is the checkout it must be of. */
  predicate RecordsCheckout(l: Layout, w: World, root: Path) {
    var n := l.name(root);
    n in w.homes && w.homes[n].Some? && w.homes[n].value.root == root
  }

  /** Once claimed, a home stays, recorded for its checkout, for as long as the checkout's git entry stands. */
  lemma {:induction false} ClaimedHomeStays(l: Layout, w: World, t: Worktree, changes: seq<Change>)
    requires l.Injective()
    requires forall k :: 0 <= k <= |changes| ==> t.root + [DOT_GIT] in History(l, Claimed(l, w, t), changes[..k]).present
    ensures RecordsCheckout(l, History(l, Claimed(l, w, t), changes), t.root)
    decreases |changes|
  {
    if changes != [] {
      var before, last := changes[..|changes| - 1], changes[|changes| - 1];
      forall k | 0 <= k <= |before| ensures t.root + [DOT_GIT] in History(l, Claimed(l, w, t), before[..k]).present {
        assert before[..k] == changes[..k];
      }
      ClaimedHomeStays(l, w, t, before);
      if last.Prunes? {
        var mid := History(l, Claimed(l, w, t), before);
        assert changes[..|changes|] == changes;
        LivingHomeStays(l, mid, last.f, last.keep, last.names, t);
        PruneShrinks(l, mid, last.f, last.keep, last.names);
      }
    }
  }

  /** Every home has a record, of a worktree of its own name. */
  predicate OwnRecords(l: Layout, w: World) {
    forall n :: n in w.homes ==> w.homes[n].Some? && l.name(w.homes[n].value.root) == n
  }

  lemma {:induction false} HistoryKeepsRecords(l: Layout, w: World, changes: seq<Change>)
    requires OwnRecords(l, w)
    ensures OwnRecords(l, History(l, w, changes))
    decreases |changes|
  {
    if changes != [] {
      var before, last := changes[..|changes| - 1], changes[|changes| - 1];
      HistoryKeepsRecords(l, w, before);
      if last.Prunes? {
        PruneShrinks(l, History(l, w, before), last.f, last.keep, last.names);
      }
    }
  }

  /**
   So after any history a faultless pass removes every claimed home, other than the
   kept one, whose worktree git has forgotten while its repository stands.
   */
  lemma ClaimedHomeGoes(l: Layout, present: set<Path>, changes: seq<Change>, f: Faults, keep: Option<Path>, names: seq<string>, n: string)
    requires var w := History(l, World(present, map[]), changes);
             f.None() && RepositoriesApart(l, w) && Lists(w, names) && n in w.homes
    ensures var w := History(l, World(present, map[]), changes);
            w.homes[n].Some?
            && var t := w.homes[n].value;
               (keep != Some(l.Home(n)) && t.root + [DOT_GIT] !in w.present && t.gitDir !in w.present && t.commonDir in w.present
                ==> n !in Prune(l, w, f, keep, names).homes)
  {
    HistoryKeepsRecords(l, World(present, map[]), changes);
    var w := History(l, World(present, map[]), changes);
    if Due(l, w, f, keep, n) {
      ForgottenHomeGoes(l, w, f, keep, names, n);
    }
  }
}
