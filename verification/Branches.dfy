/** Reading branches: the parent-pointer walk, the fork-by-reference graph, and the
    recursive context builder. */
module Branches {
  import opened Wrappers
  import opened HistoryModel

  // ----- Branch paths -----

  function BranchPath(entries: Entries, coords: Coordinates, leaf: EntryId): Result<seq<Entry>>
    requires Forest(entries)
    decreases if leaf in entries then entries[leaf].row + 1 else 0
  {
    match LoadEntry(entries, coords.thread, leaf)
    case None => Err(EntryNotFound(leaf))
    case Some(e) =>
      var _ :- ValidateCoordinates(coords, e);
      assert RowOk(entries, leaf);
      match e.parent
      case None => Ok([e])
      case Some(p) =>
        var up :- BranchPath(entries, coords, p);
        Ok(up + [e])
  }

  /** `path` runs from a root to `leaf` along parent pointers, all rows under `coords`. */
  ghost predicate IsBranch(entries: Entries, coords: Coordinates, leaf: EntryId, path: seq<Entry>) {
    && path != []
    && path[|path| - 1].id == leaf
    && (forall k :: 0 <= k < |path| ==> IsRow(entries, path[k]) && path[k].coords == coords)
    && (forall k {:trigger Before(path, k)} :: 0 <= k < |path| ==> path[k].parent == Before(path, k))
  }

  ghost function Before(path: seq<Entry>, k: nat): Option<EntryId>
    requires k < |path|
  {
    if k == 0 then None else Some(path[k - 1].id)
  }

  ghost predicate IsRow(entries: Entries, e: Entry) {
    e.id in entries && entries[e.id] == e
  }

  ghost predicate Extends(before: Entries, after: Entries) {
    forall id :: id in before ==> id in after && after[id] == before[id]
  }

  /** The walk fails only on its first row; when it succeeds it returns the branch to the leaf. */
  lemma {:induction false} PathIsBranch(entries: Entries, coords: Coordinates, leaf: EntryId)
    requires Forest(entries)
    ensures BranchPath(entries, coords, leaf).Ok? <==> leaf in entries && entries[leaf].coords == coords
    ensures BranchPath(entries, coords, leaf).Ok? ==>
              IsBranch(entries, coords, leaf, BranchPath(entries, coords, leaf).value)
    ensures BranchPath(entries, coords, leaf).Err? && leaf in entries && entries[leaf].coords.thread == coords.thread ==>
              BranchPath(entries, coords, leaf).error == ThreadScopeMismatch(coords, entries[leaf].coords)
    decreases if leaf in entries then entries[leaf].row + 1 else 0
  {
    if leaf in entries && entries[leaf].coords == coords {
      assert RowOk(entries, leaf);
      if entries[leaf].parent.Some? {
        PathIsBranch(entries, coords, entries[leaf].parent.value);
        var up := BranchPath(entries, coords, entries[leaf].parent.value).value;
        var path := BranchPath(entries, coords, leaf).value;
        forall k | 0 <= k < |path| ensures path[k].parent == Before(path, k) {
          assert k < |up| ==> Before(path, k) == Before(up, k);
        }
      }
    }
  }

  lemma {:induction false} InitIsBranch(entries: Entries, coords: Coordinates, leaf: EntryId, p: seq<Entry>)
    requires IsBranch(entries, coords, leaf, p) && |p| > 1
    ensures p[|p| - 1].parent.Some? && IsBranch(entries, coords, p[|p| - 1].parent.value, p[..|p| - 1])
  {
    var init := p[..|p| - 1];
    assert p[|p| - 1].parent == Before(p, |p| - 1);
    forall k | 0 <= k < |init| ensures init[k].parent == Before(init, k) {
      assert init[k] == p[k] && Before(p, k) == Before(init, k);
    }
  }

  /** A leaf has one branch only, and it is the one the walk returns. */
  lemma {:induction false} BranchIsPath(entries: Entries, coords: Coordinates, leaf: EntryId, p: seq<Entry>)
    requires Forest(entries) && IsBranch(entries, coords, leaf, p)
    ensures BranchPath(entries, coords, leaf) == Ok(p)
    decreases |p|
  {
    var e := p[|p| - 1];
    assert IsRow(entries, e) && RowOk(entries, leaf);
    if |p| == 1 {
      assert p == [e] && e.parent == Before(p, 0);
    } else {
      InitIsBranch(entries, coords, leaf, p);
      BranchIsPath(entries, coords, e.parent.value, p[..|p| - 1]);
      assert p == p[..|p| - 1] + [e];
    }
  }

  /** Rows added later never change a branch. */
  lemma {:induction false} PathStable(before: Entries, after: Entries, coords: Coordinates, leaf: EntryId)
    requires Forest(before) && Forest(after) && Extends(before, after)
    requires BranchPath(before, coords, leaf).Ok?
    ensures BranchPath(after, coords, leaf) == BranchPath(before, coords, leaf)
  {
    PathIsBranch(before, coords, leaf);
    var p := BranchPath(before, coords, leaf).value;
    assert IsBranch(after, coords, leaf, p) by {
      forall k | 0 <= k < |p| ensures IsRow(after, p[k]) {
        assert IsRow(before, p[k]);
      }
    }
    BranchIsPath(after, coords, leaf, p);
  }

  // ----- The fork graph -----

  ghost predicate RankOk(bases: Bases, rank: ThreadId -> nat) {
    forall t :: t in bases ==> rank(bases[t].parent) < rank(t)
  }

  ghost predicate Acyclic(bases: Bases) {
    exists rank: ThreadId -> nat :: RankOk(bases, rank)
  }

  /** The walk that admits a fork: up from the new parent, refusing the child or a repeat. */
  function CheckBaseCycle(bases: Bases, child: ThreadId, cursor: ThreadId, visited: set<ThreadId>): Result<()>
    decreases bases.Keys - visited
  {
    if cursor == child || cursor in visited then Err(ThreadBaseCycle(child, cursor))
    else if cursor !in bases then Ok(())
    else CheckBaseCycle(bases, child, bases[cursor].parent, visited + {cursor})
  }

  ghost predicate Reaches(bases: Bases, rank: ThreadId -> nat, t: ThreadId, goal: ThreadId)
    requires RankOk(bases, rank)
    decreases rank(t)
  {
    t == goal || (t in bases && Reaches(bases, rank, bases[t].parent, goal))
  }

  /** On an acyclic graph the walk refuses exactly when the child is among the ancestors. */
  lemma {:induction false} CheckIsReach(bases: Bases, rank: ThreadId -> nat, child: ThreadId, cursor: ThreadId, visited: set<ThreadId>)
    requires RankOk(bases, rank)
    requires forall v :: v in visited ==> rank(cursor) < rank(v)
    ensures CheckBaseCycle(bases, child, cursor, visited).Err? <==> Reaches(bases, rank, cursor, child)
    decreases rank(cursor)
  {
    if cursor != child && cursor in bases {
      CheckIsReach(bases, rank, child, bases[cursor].parent, visited + {cursor});
    }
  }

  lemma {:induction false} ReachLowersRank(bases: Bases, rank: ThreadId -> nat, t: ThreadId, child: ThreadId, base: Base, rank': ThreadId -> nat)
    requires RankOk(bases, rank) && RankOk(bases[child := base], rank')
    requires Reaches(bases, rank, t, child)
    ensures rank'(child) <= rank'(t)
    decreases rank(t)
  {
    if t != child {
      ReachLowersRank(bases, rank, bases[t].parent, child, base, rank');
      assert bases[child := base][t] == bases[t];
    }
  }

  lemma {:induction false} ReachClosed(bases: Bases, rank: ThreadId -> nat, child: ThreadId, base: Base, t: ThreadId, lifted: ThreadId -> nat)
    requires RankOk(bases, rank) && !Reaches(bases, rank, base.parent, child)
    requires forall u :: lifted(u) == if Reaches(bases, rank, u, child) then rank(u) + rank(base.parent) + 1 else rank(u)
    requires t in bases[child := base]
    ensures lifted(bases[child := base][t].parent) < lifted(t)
  {
    if t == child {
      assert lifted(base.parent) == rank(base.parent);
      assert Reaches(bases, rank, child, child);
    } else {
      var up := bases[t].parent;
      assert bases[child := base][t] == bases[t];
      assert Reaches(bases, rank, t, child) == Reaches(bases, rank, up, child);
    }
  }

  lemma {:induction false} AdmittedForkKeepsAcyclic(bases: Bases, rank: ThreadId -> nat, child: ThreadId, base: Base)
    requires RankOk(bases, rank) && !Reaches(bases, rank, base.parent, child)
    ensures Acyclic(bases[child := base])
  {
    var lifted := (t: ThreadId) =>
      if Reaches(bases, rank, t, child) then rank(t) + rank(base.parent) + 1 else rank(t);
    var after := bases[child := base];
    forall t | t in after ensures lifted(after[t].parent) < lifted(t) {
      ReachClosed(bases, rank, child, base, t, lifted);
    }
    assert RankOk(after, lifted);
  }

  lemma {:induction false} RefusedForkClosesCycle(bases: Bases, rank: ThreadId -> nat, child: ThreadId, base: Base)
    requires RankOk(bases, rank) && Reaches(bases, rank, base.parent, child)
    ensures !Acyclic(bases[child := base])
  {
    if Acyclic(bases[child := base]) {
      var rank' :| RankOk(bases[child := base], rank');
      assert bases[child := base][child] == base;
      ReachLowersRank(bases, rank, base.parent, child, base, rank');
      assert false;
    }
  }

  /** The check is exact: it admits a fork, new or replacing, precisely when the graph stays acyclic. */
  lemma {:induction false} CycleCheckIsExact(bases: Bases, child: ThreadId, base: Base)
    requires Acyclic(bases)
    ensures CheckBaseCycle(bases, child, base.parent, {}).Ok? <==> Acyclic(bases[child := base])
  {
    var rank :| RankOk(bases, rank);
    CheckIsReach(bases, rank, child, base.parent, {});
    if Reaches(bases, rank, base.parent, child) {
      RefusedForkClosesCycle(bases, rank, child, base);
    } else {
      AdmittedForkKeepsAcyclic(bases, rank, child, base);
    }
  }

  lemma {:induction false} RemovalKeepsAcyclic(bases: Bases, child: ThreadId)
    requires Acyclic(bases)
    ensures Acyclic(bases - {child})
  {
    var rank :| RankOk(bases, rank);
    assert RankOk(bases - {child}, rank);
  }

  // ----- Contexts -----

  datatype Cut = Cut(coords: Coordinates, inherited: bool, ids: seq<EntryId>)
  datatype Context = Context(entries: seq<Entry>, cuts: seq<Cut>)

  function Ids(entries: seq<Entry>): seq<EntryId> {
    seq(|entries|, i requires 0 <= i < |entries| => entries[i].id)
  }

  function IdentityIds(entries: seq<Entry>): set<EntryId> {
    set e | e in entries && e.kind.ThreadStarted? :: e.id
  }

  function KeepEntries(entries: seq<Entry>, hidden: set<EntryId>): seq<Entry> {
    if entries == [] then [] else
      var rest := KeepEntries(entries[..|entries| - 1], hidden);
      if entries[|entries| - 1].id in hidden then rest else rest + [entries[|entries| - 1]]
  }

  function KeepIds(ids: seq<EntryId>, hidden: set<EntryId>): seq<EntryId> {
    if ids == [] then [] else
      var rest := KeepIds(ids[..|ids| - 1], hidden);
      if ids[|ids| - 1] in hidden then rest else rest + [ids[|ids| - 1]]
  }

  function KeepCuts(cuts: seq<Cut>, hidden: set<EntryId>): seq<Cut> {
    if cuts == [] then [] else
      var rest := KeepCuts(cuts[..|cuts| - 1], hidden);
      var last := cuts[|cuts| - 1];
      var ids := KeepIds(last.ids, hidden);
      if ids == [] then rest else rest + [last.(ids := ids)]
  }

  /** Thread-start identity entries are dropped from the entries and from the cuts. */
  function StripIdentity(ctx: Context): Context {
    var hidden := IdentityIds(ctx.entries);
    if hidden == {} then ctx else Context(KeepEntries(ctx.entries, hidden), KeepCuts(ctx.cuts, hidden))
  }

  function LocalLeaf(s: Store, thread: ThreadId, pinned: Option<EntryId>): Option<EntryId> {
    match pinned
    case Some(leaf) => Some(leaf)
    case None =>
      match ActiveLeaf(s, thread)
      case Some(e) => Some(e.id)
      case None => None
  }

  function LocalPath(s: Store, coords: Coordinates, pinned: Option<EntryId>): Result<seq<Entry>>
    requires Forest(s.entries)
  {
    match LocalLeaf(s, coords.thread, pinned)
    case None => Ok([])
    case Some(leaf) => BranchPath(s.entries, coords, leaf)
  }

  function Joined(up: Context, coords: Coordinates, inherited: bool, path: seq<Entry>): Context {
    StripIdentity(Context(
      up.entries + path,
      if path == [] then up.cuts else up.cuts + [Cut(coords, inherited, Ids(path))]))
  }

  function ParentCoordinates(coords: Coordinates, base: Base): Coordinates {
    Coordinates(coords.scope, base.parent)
  }

  function BuildContext(s: Store, coords: Coordinates, pinned: Option<EntryId>, inherited: bool,
                        visiting: set<ThreadId>): Result<Context>
    requires Forest(s.entries)
    decreases s.bases.Keys - visiting
  {
    var t := coords.thread;
    if t in visiting then Err(ThreadBaseCycle(t, t)) else
    var up :- Inherited(s, coords, visiting);
    var path :- LocalPath(s, coords, pinned);
    Ok(Joined(up, coords, inherited, path))
  }

  /** What a thread takes from its base: the parent's context at the cut, or nothing. */
  function Inherited(s: Store, coords: Coordinates, visiting: set<ThreadId>): Result<Context>
    requires Forest(s.entries) && coords.thread !in visiting
    decreases s.bases.Keys - visiting, 0
  {
    var t := coords.thread;
    if t !in s.bases then Ok(Context([], []))
    else if s.bases[t].child != t then Err(Storage)
    else BuildContext(s, ParentCoordinates(coords, s.bases[t]), s.bases[t].leaf, true, visiting + {t})
  }
}
