/** What a reader of a thread sees, and how each operation changes it: an append adds one entry,
    a selection moves to another branch, a clone shows the copied branch, a fork its parent. */
module Views {
  import opened Wrappers
  import opened HistoryModel
  import opened Journal
  import opened Branches
  import opened Transactions
  import opened Contexts

  /** The thread's context at its active leaf. */
  function View(s: Store, coords: Coordinates): Result<Context>
    requires Forest(s.entries)
  {
    BuildContext(s, coords, None, false, {})
  }

  // ----- Operations on one thread leave the others' contexts alone -----

  /** Rows were added; only thread `t` may have another leaf or base. */
  ghost predicate TouchesOnly(s: Store, after: Store, t: ThreadId) {
    && Forest(s.entries) && Forest(after.entries) && Grows(s, after)
    && LeavesOk(s.entries, s.leaves)
    && forall u {:trigger SameThread(s, after, u)} :: u != t ==> SameThread(s, after, u)
  }

  ghost predicate SameThread(s: Store, after: Store, u: ThreadId) {
    Lookup(after.leaves, u) == Lookup(s.leaves, u) && Lookup(after.bases, u) == Lookup(s.bases, u)
  }

  lemma {:induction false} SamePath(s: Store, after: Store, t: ThreadId, coords: Coordinates, pinned: Option<EntryId>)
    requires TouchesOnly(s, after, t) && (coords.thread != t || pinned.Some?)
    requires LocalPath(s, coords, pinned).Ok?
    ensures LocalPath(after, coords, pinned) == LocalPath(s, coords, pinned)
  {
    if pinned.None? {
      assert SameThread(s, after, coords.thread);
    }
    var leaf := LocalLeaf(s, coords.thread, pinned);
    if leaf.Some? {
      PathStable(s.entries, after.entries, coords, leaf.value);
    }
  }

  /** A context that is built without entering `t` is the same after an operation on `t`. */
  lemma {:induction false} Undisturbed(s: Store, after: Store, t: ThreadId, coords: Coordinates,
                                       pinned: Option<EntryId>, inherited: bool, visiting: set<ThreadId>)
    requires TouchesOnly(s, after, t) && t in visiting
    requires BuildContext(s, coords, pinned, inherited, visiting).Ok?
    ensures BuildContext(after, coords, pinned, inherited, visiting) == BuildContext(s, coords, pinned, inherited, visiting)
    decreases s.bases.Keys - visiting
  {
    var u := coords.thread;
    assert SameThread(s, after, u);
    SamePath(s, after, t, coords, pinned);
    if u in s.bases {
      var base := s.bases[u];
      Undisturbed(s, after, t, ParentCoordinates(coords, base), base.leaf, true, visiting + {u});
    }
  }

  /** When a thread's own base stays, so does what it inherits. */
  lemma {:induction false} InheritedUndisturbed(s: Store, after: Store, coords: Coordinates)
    requires TouchesOnly(s, after, coords.thread) && after.bases == s.bases
    requires Inherited(s, coords, {}).Ok?
    ensures Inherited(after, coords, {}) == Inherited(s, coords, {})
  {
    var t := coords.thread;
    if t in s.bases {
      Undisturbed(s, after, t, ParentCoordinates(coords, s.bases[t]), s.bases[t].leaf, true, {} + {t});
    }
  }

  /** The view of a thread whose leaf moved to a branch that can be read. */
  lemma {:induction false} MovedView(s: Store, after: Store, coords: Coordinates, path: seq<Entry>)
    requires TouchesOnly(s, after, coords.thread) && after.bases == s.bases
    requires Inherited(s, coords, {}).Ok? && LocalPath(after, coords, None) == Ok(path)
    ensures View(after, coords).Ok?
    ensures View(after, coords).value.entries == Inherited(s, coords, {}).value.entries + Visible(path)
  {
    InheritedUndisturbed(s, after, coords);
    ContextDecomposes(after, coords, None, false, {});
  }

  // ----- Appending -----

  /** The branch a row hangs from. */
  function BranchAbove(s: Store, coords: Coordinates, parent: Option<EntryId>): Result<seq<Entry>>
    requires Forest(s.entries)
  {
    match parent
    case None => Ok([])
    case Some(p) => BranchPath(s.entries, coords, p)
  }

  lemma {:induction false} NewRowBranch(before: Entries, after: Entries, e: Entry)
    requires Forest(before) && Forest(after) && Extends(before, after) && e.id in after && after[e.id] == e
    requires e.parent.Some? ==> e.parent.value in before && before[e.parent.value].coords == e.coords
    ensures e.parent.None? ==> BranchPath(after, e.coords, e.id) == Ok([e])
    ensures e.parent.Some? ==>
              && BranchPath(before, e.coords, e.parent.value).Ok?
              && BranchPath(after, e.coords, e.id) == Ok(BranchPath(before, e.coords, e.parent.value).value + [e])
  {
    if e.parent.Some? {
      PathIsBranch(before, e.coords, e.parent.value);
      PathStable(before, after, e.coords, e.parent.value);
    }
  }

  /** A row added through the fence becomes the tip: its branch is its parent's, then itself. */
  lemma {:induction false} EntryExtends(s: Store, epoch: nat, e: Entry, event: EventId, admissible: bool, after: Store)
    requires WellFounded(s) && AppendEntry(s, epoch, e, event, admissible) == Ok(after) && e.row == |s.entries|
    requires e.parent.Some? ==> e.parent.value in s.entries && s.entries[e.parent.value].coords == e.coords
    ensures TouchesOnly(s, after, e.coords.thread) && after.bases == s.bases
    ensures BranchAbove(s, e.coords, e.parent).Ok?
    ensures LocalPath(after, e.coords, None) == Ok(BranchAbove(s, e.coords, e.parent).value + [e])
  {
    var fenced := s.(epochs := EnforceLease(s.epochs, ThreadStream(e.coords.thread), epoch).value);
    InsertKeepsForest(fenced, e, event, admissible);
    NewRowBranch(s.entries, after.entries, e);
    assert ActiveLeaf(after, e.coords.thread) == Some(e);
    if e.parent.None? {
      assert [] + [e] == [e];
    }
  }

  /** Without an explicit parent the row hangs from the active leaf, so the view grows by it. */
  lemma {:induction false} TipExtendsView(s: Store, epoch: nat, e: Entry, event: EventId, admissible: bool, after: Store)
    requires WellFounded(s) && AppendEntry(s, epoch, e, event, admissible) == Ok(after) && e.row == |s.entries|
    requires ActiveParent(s, e.coords) == Ok(e.parent) && View(s, e.coords).Ok?
    ensures Forest(after.entries) && View(after, e.coords).Ok?
    ensures View(after, e.coords).value.entries == View(s, e.coords).value.entries + Visible([e])
  {
    ParentOk(s, e.coords, None);
    EntryExtends(s, epoch, e, event, admissible, after);
    var path := BranchAbove(s, e.coords, e.parent).value;
    MovedView(s, after, e.coords, path + [e]);
    VisibleConcat(path, [e]);
    TipIsActive(s, e.coords, e.parent);
    ContextDecomposes(s, e.coords, None, false, {});
    AssocEntries(Inherited(s, e.coords, {}).value.entries, Visible(path), Visible([e]));
  }

  lemma {:induction false} AssocEntries(a: seq<Entry>, b: seq<Entry>, c: seq<Entry>)
    ensures a + (b + c) == a + b + c
  {
  }

  /** An append reads as one more entry: the branch it hangs from, then the entry as given. Without
      an explicit parent that is the view before it, and one more. */
  lemma {:induction false} AppendExtendsView(s: Store, epoch: nat, coords: Coordinates, parent: Option<EntryId>,
                                             kind: EntryKind, ids: FreshIds, admissible: bool)
    requires WellFounded(s) && AppendTx(s, epoch, coords, parent, kind, ids, admissible).Ok?
    requires View(s, coords).Ok?
    ensures var (after, e) := AppendTx(s, epoch, coords, parent, kind, ids, admissible).value;
      && Forest(after.entries)
      && e.kind == kind && e.id == ids.entry && e.id !in s.entries && e.coords == coords
      && View(after, coords).Ok?
      && (parent.None? ==> View(after, coords).value.entries == View(s, coords).value.entries + Visible([e]))
      && (parent.Some? ==>
            && BranchPath(s.entries, coords, parent.value).Ok?
            && View(after, coords).value.entries
                 == Inherited(s, coords, {}).value.entries
                    + (Visible(BranchPath(s.entries, coords, parent.value).value) + Visible([e])))
  {
    var (after, e) := AppendTx(s, epoch, coords, parent, kind, ids, admissible).value;
    if parent.None? {
      TipExtendsView(s, epoch, e, ids.event, admissible, after);
    } else {
      ParentOk(s, coords, parent);
      EntryExtends(s, epoch, e, ids.event, admissible, after);
      var path := BranchPath(s.entries, coords, parent.value).value;
      MovedView(s, after, coords, path + [e]);
      VisibleConcat(path, [e]);
    }
  }

  lemma {:induction false} TipIsActive(s: Store, coords: Coordinates, tip: Option<EntryId>)
    requires Forest(s.entries) && ActiveParent(s, coords) == Ok(tip)
    ensures LocalPath(s, coords, None) == BranchAbove(s, coords, tip)
  {
  }

  lemma {:induction false} FirstTurnInput(s: Store, epoch: nat, coords: Coordinates, turn: string, kind: EntryKind, ids: FreshIds)
    returns (after: Store, e: Entry)
    requires TurnTx(s, epoch, coords, turn, kind, ids).Ok? && !TurnRecorded(s.entries, coords.thread, turn)
    ensures TurnTx(s, epoch, coords, turn, kind, ids) == Ok((after, e))
    ensures AppendEntry(s, epoch, e, ids.event, true) == Ok(after) && e.row == |s.entries|
    ensures ActiveParent(s, coords) == Ok(e.parent) && e.kind == kind && e.turn == Some(turn) && e.coords == coords
  {
    after, e := TurnTx(s, epoch, coords, turn, kind, ids).value.0, TurnTx(s, epoch, coords, turn, kind, ids).value.1;
  }

  /** A turn input seen for the first time reads as one more entry at the end. */
  lemma {:induction false} TurnInputExtendsView(s: Store, epoch: nat, coords: Coordinates, turn: string, kind: EntryKind, ids: FreshIds)
    requires WellFounded(s) && TurnTx(s, epoch, coords, turn, kind, ids).Ok? && !TurnRecorded(s.entries, coords.thread, turn)
    requires View(s, coords).Ok?
    ensures var (after, e) := TurnTx(s, epoch, coords, turn, kind, ids).value;
      && Forest(after.entries)
      && e.kind == kind && e.turn == Some(turn) && View(after, coords).Ok?
      && View(after, coords).value.entries == View(s, coords).value.entries + Visible([e])
  {
    var after, e := FirstTurnInput(s, epoch, coords, turn, kind, ids);
    TipExtendsView(s, epoch, e, ids.event, true, after);
  }

  // ----- Selecting -----

  /** Selecting a leaf shows the branch to it; selecting none shows only what is inherited. */
  lemma {:induction false} SelectShowsBranch(s: Store, epoch: nat, coords: Coordinates, leaf: Option<EntryId>, event: EventId)
    requires WellFounded(s) && SelectTx(s, epoch, coords, leaf, event).Ok? && View(s, coords).Ok?
    ensures var after := SelectTx(s, epoch, coords, leaf, event).value;
      && Forest(after.entries) && View(after, coords).Ok? && BranchAbove(s, coords, leaf).Ok?
      && View(after, coords).value.entries
           == Inherited(s, coords, {}).value.entries + Visible(BranchAbove(s, coords, leaf).value)
  {
    var after := SelectTx(s, epoch, coords, leaf, event).value;
    if leaf.Some? {
      PathIsBranch(s.entries, coords, leaf.value);
      assert RowOk(s.entries, leaf.value);
    }
    assert after.entries == s.entries;
    MovedView(s, after, coords, BranchAbove(s, coords, leaf).value);
  }

  // ----- Cloning -----

  /** `copies` repeat `path` kind by kind under `target`, with fresh ids and no turn. */
  ghost predicate Repeats(copies: seq<Entry>, path: seq<Entry>, target: Coordinates, supply: nat -> FreshIds) {
    && |copies| == |path|
    && forall k :: 0 <= k < |copies| ==>
         && copies[k].kind == path[k].kind && copies[k].coords == target
         && copies[k].id == supply(k).entry && copies[k].turn == None
  }

  lemma {:induction false} LastCopy(s: Store, target: Coordinates, path: seq<Entry>, supply: nat -> FreshIds)
    returns (before: Store, after: Store, e: Entry)
    requires Forest(s.entries) && path != [] && CopyPath(s, target, path, supply).Ok?
    ensures CopyPath(s, target, path[..|path| - 1], supply) == Ok(before) && CopyPath(s, target, path, supply) == Ok(after)
    ensures Forest(before.entries) && Forest(after.entries) && Extends(before.entries, after.entries)
    ensures e.id in after.entries && after.entries[e.id] == e
    ensures e.id == supply(|path| - 1).entry && e.turn == None && e.coords == target && e.kind == path[|path| - 1].kind
    ensures e.parent == if |path| == 1 then None else Some(supply(|path| - 2).entry)
  {
    var n := |path| - 1;
    before := CopyPath(s, target, path[..n], supply).value;
    after := CopyPath(s, target, path, supply).value;
    var parent := if n == 0 then None else Some(supply(n - 1).entry);
    e := Entry(supply(n).entry, parent, None, target, path[n].kind, |before.entries|);
    CopyEffect(s, target, path[..n], supply);
    CopyEffect(s, target, path, supply);
  }

  /** One more copy at the tip of a copied branch. */
  lemma {:induction false} CopyTip(before: Entries, after: Entries, e: Entry, up: seq<Entry>, path: seq<Entry>,
                                   target: Coordinates, supply: nat -> FreshIds)
    requires Forest(before) && Forest(after) && Extends(before, after) && e.id in after && after[e.id] == e
    requires path != [] && e.id == supply(|path| - 1).entry && e.turn == None && e.coords == target
    requires e.kind == path[|path| - 1].kind && Repeats(up, path[..|path| - 1], target, supply)
    requires |path| == 1 ==> e.parent == None
    requires |path| > 1 ==> e.parent.Some? && BranchPath(before, target, e.parent.value) == Ok(up)
    ensures BranchPath(after, target, e.id) == Ok(up + [e]) && Repeats(up + [e], path, target, supply)
  {
    if |path| > 1 {
      PathIsBranch(before, target, e.parent.value);
    } else {
      assert up + [e] == [e];
    }
    NewRowBranch(before, after, e);
  }

  lemma {:induction false} CopyIsBranch(s: Store, target: Coordinates, path: seq<Entry>, supply: nat -> FreshIds, after: Store)
    returns (copies: seq<Entry>)
    requires Forest(s.entries) && path != [] && CopyPath(s, target, path, supply) == Ok(after)
    ensures Forest(after.entries)
    ensures BranchPath(after.entries, target, supply(|path| - 1).entry) == Ok(copies)
    ensures Repeats(copies, path, target, supply)
    decreases |path|
  {
    var before, last, e := LastCopy(s, target, path, supply);
    var up := [];
    if |path| > 1 {
      up := CopyIsBranch(s, target, path[..|path| - 1], supply, before);
    }
    CopyTip(before.entries, last.entries, e, up, path, target, supply);
    copies := up + [e];
  }

  function Kinds(entries: seq<Entry>): seq<EntryKind> {
    if entries == [] then [] else Kinds(entries[..|entries| - 1]) + [entries[|entries| - 1].kind]
  }

  lemma {:induction false} SameKindsSameVisible(a: seq<Entry>, b: seq<Entry>)
    requires |a| == |b| && forall k :: 0 <= k < |a| ==> a[k].kind == b[k].kind
    ensures Kinds(Visible(a)) == Kinds(Visible(b))
  {
    if a != [] {
      SameKindsSameVisible(a[..|a| - 1], b[..|b| - 1]);
    }
  }

  lemma {:induction false} CloneForm(s: Store, epoch: nat, source: Coordinates, leaf: EntryId, target: Coordinates, supply: nat -> FreshIds)
    returns (path: seq<Entry>, copies: seq<Entry>, after: Store)
    requires Forest(s.entries) && CloneTx(s, epoch, source, Some(leaf), target, supply).Ok?
    ensures after == CloneTx(s, epoch, source, Some(leaf), target, supply).value.0
    ensures BranchPath(s.entries, source, leaf) == Ok(path) && path != []
    ensures Forest(after.entries) && Repeats(copies, path, target, supply)
    ensures Lookup(after.leaves, target.thread) == Some(supply(|path| - 1).entry)
    ensures BranchPath(after.entries, target, supply(|path| - 1).entry) == Ok(copies)
  {
    PathIsBranch(s.entries, source, leaf);
    path := BranchPath(s.entries, source, leaf).value;
    var fenced := Detached(s, target.thread, EnforceLease(s.epochs, ThreadStream(target.thread), epoch).value);
    var copied := CopyPath(fenced, target, path, supply).value;
    copies := CopyIsBranch(fenced, target, path, supply, copied);
    after := Landed(copied, target.thread, path, supply).0;
  }

  /** A clone shows, kind by kind and in order, the source branch it copied and nothing else; the
      source's own rows are as before. */
  lemma {:induction false} CloneShowsBranch(s: Store, epoch: nat, source: Coordinates, leaf: EntryId, target: Coordinates,
                                            supply: nat -> FreshIds)
    requires Forest(s.entries) && CloneTx(s, epoch, source, Some(leaf), target, supply).Ok?
    ensures var after := CloneTx(s, epoch, source, Some(leaf), target, supply).value.0;
      && Forest(after.entries) && Extends(s.entries, after.entries)
      && BranchPath(s.entries, source, leaf).Ok?
      && View(after, target).Ok?
      && Kinds(View(after, target).value.entries) == Kinds(Visible(BranchPath(s.entries, source, leaf).value))
  {
    CloneEffect(s, epoch, source, Some(leaf), target, supply);
    var path, copies, after := CloneForm(s, epoch, source, leaf, target, supply);
    PathIsBranch(after.entries, target, supply(|path| - 1).entry);
    OwnViewOnly(after, target, copies);
    SameKindsSameVisible(copies, path);
  }

  /** A thread without a base shows its own branch alone. */
  lemma {:induction false} OwnViewOnly(s: Store, coords: Coordinates, path: seq<Entry>)
    requires Forest(s.entries) && coords.thread !in s.bases && LocalPath(s, coords, None) == Ok(path)
    ensures View(s, coords).Ok? && View(s, coords).value.entries == Visible(path)
  {
    ContextDecomposes(s, coords, None, false, {});
    assert [] + Visible(path) == Visible(path);
  }

  // ----- Forking -----

  /** A context that never reaches `t` builds just as well with `t` under way. */
  lemma {:induction false} AvoidsThread(s: Store, rank: ThreadId -> nat, t: ThreadId, coords: Coordinates,
                                        pinned: Option<EntryId>, flag: bool, flag': bool, visiting: set<ThreadId>)
    requires Forest(s.entries) && RankOk(s.bases, rank) && !Reaches(s.bases, rank, coords.thread, t)
    requires BuildContext(s, coords, pinned, flag, visiting).Ok?
    ensures BuildContext(s, coords, pinned, flag', visiting + {t}).Ok?
    decreases s.bases.Keys - visiting
  {
    var u := coords.thread;
    if u in s.bases {
      var base := s.bases[u];
      AvoidsThread(s, rank, t, ParentCoordinates(coords, base), base.leaf, true, true, visiting + {u});
      assert visiting + {u} + {t} == visiting + {t} + {u};
    }
  }

  /** A fresh fork shows exactly its parent's context at the cut. */
  lemma {:induction false} ForkShowsParent(s: Store, source: Coordinates, target: Coordinates, base: Base)
    requires WellFounded(s) && ForkTx(s, source, target, base).Ok?
    requires BuildContext(s, source, base.leaf, false, {}).Ok?
    ensures var after := ForkTx(s, source, target, base).value;
      && Forest(after.entries) && View(after, target).Ok?
      && View(after, target).value.entries == BuildContext(s, source, base.leaf, false, {}).value.entries
  {
    var after := ForkTx(s, source, target, base).value;
    var t := target.thread;
    ForkEffect(s, source, target, base);
    var rank :| RankOk(s.bases, rank);
    CheckIsReach(s.bases, rank, t, source.thread, {});
    AvoidsThread(s, rank, t, source, base.leaf, false, true, {});
    EntriesIgnoreVisiting(s, source, base.leaf, true, false, {} + {t}, {});
    assert TouchesOnly(s, after, t);
    Undisturbed(s, after, t, source, base.leaf, true, {} + {t});
    ForkInherits(after, source, target, base);
  }

  lemma {:induction false} ForkInherits(after: Store, source: Coordinates, target: Coordinates, base: Base)
    requires Forest(after.entries) && Lookup(after.bases, target.thread) == Some(base) && target.thread !in after.leaves
    requires source.scope == target.scope && base.parent == source.thread && base.child == target.thread
    requires BuildContext(after, source, base.leaf, true, {} + {target.thread}).Ok?
    ensures View(after, target).Ok?
    ensures View(after, target).value.entries
         == BuildContext(after, source, base.leaf, true, {} + {target.thread}).value.entries
  {
    assert ParentCoordinates(target, base) == source;
    assert LocalPath(after, target, None) == Ok([]);
    ContextDecomposes(after, target, None, false, {});
  }
}
