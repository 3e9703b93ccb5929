/** What contexts hold in every reachable state: they always build, their provenance is
    exact, and the prefix a fork inherits through a pinned cut is frozen. */
module Contexts {
  import opened Wrappers
  import opened HistoryModel
  import opened Branches
  import opened Transactions

  // ----- Well-founded tables -----

  ghost predicate LeavesOk(entries: Entries, leaves: map<ThreadId, EntryId>) {
    forall t :: t in leaves ==> LoadEntry(entries, t, leaves[t]).Some?
  }

  ghost predicate BasesOk(entries: Entries, bases: Bases) {
    forall t :: t in bases ==>
      && bases[t].child == t
      && (bases[t].leaf.Some? ==> LoadEntry(entries, bases[t].parent, bases[t].leaf.value).Some?)
  }

  ghost predicate WellFounded(s: Store) {
    Forest(s.entries) && LeavesOk(s.entries, s.leaves) && BasesOk(s.entries, s.bases) && Acyclic(s.bases)
  }

  lemma {:induction false} EmptyIsWellFounded()
    ensures WellFounded(EMPTY)
  {
    assert RankOk(EMPTY.bases, (t: ThreadId) => 0);
  }

  lemma {:induction false} ReplayKeepsLeaves(entries: Entries, selected: set<ThreadId>, leaves: map<ThreadId, EntryId>, events: seq<Event>)
    requires LeavesOk(entries, leaves) && ReplayEvents(entries, selected, leaves, events).Ok?
    ensures LeavesOk(entries, ReplayEvents(entries, selected, leaves, events).value)
  {
    if events != [] {
      ReplayKeepsLeaves(entries, selected, leaves, events[..|events| - 1]);
    }
  }

  lemma {:induction false} RebuildKeepsWellFounded(s: Store)
    requires WellFounded(s) && RebuildTx(s).Ok?
    ensures WellFounded(RebuildTx(s).value)
  {
    var selected := SelectedThreads(s.events);
    if selected != {} {
      ReplayKeepsLeaves(s.entries, selected, s.leaves - selected, s.events);
    }
  }

  lemma {:induction false} ForkKeepsWellFounded(s: Store, source: Coordinates, target: Coordinates, base: Base)
    requires WellFounded(s) && ForkTx(s, source, target, base).Ok?
    ensures WellFounded(ForkTx(s, source, target, base).value)
  {
    CycleCheckIsExact(s.bases, base.child, base);
    if base.leaf.Some? {
      assert BuildContext(s, source, base.leaf, false, {}).Ok?;
      assert LocalPath(s, source, base.leaf).Ok?;
      PathIsBranch(s.entries, source, base.leaf.value);
    }
  }

  lemma {:induction false} EntryKeepsWellFounded(s: Store, epoch: nat, e: Entry, event: EventId, admissible: bool)
    requires WellFounded(s) && AppendEntry(s, epoch, e, event, admissible).Ok?
    requires Forest(AppendEntry(s, epoch, e, event, admissible).value.entries)
    ensures WellFounded(AppendEntry(s, epoch, e, event, admissible).value)
  {
  }

  lemma {:induction false} CloneKeepsWellFounded(before: Store, after: Store, leaf: Option<EntryId>, target: Coordinates)
    requires WellFounded(before) && Cloned(before, after, leaf, target)
    ensures WellFounded(after)
  {
    RemovalKeepsAcyclic(before.bases, target.thread);
  }

  lemma {:induction false} SelectKeepsWellFounded(s: Store, epoch: nat, coords: Coordinates, leaf: Option<EntryId>, event: EventId)
    requires WellFounded(s) && SelectTx(s, epoch, coords, leaf, event).Ok?
    ensures WellFounded(SelectTx(s, epoch, coords, leaf, event).value)
  {
    if leaf.Some? {
      PathIsBranch(s.entries, coords, leaf.value);
    }
  }

  lemma {:induction false} StepKeepsWellFounded(s: Store, c: Call)
    requires WellFounded(s)
    ensures WellFounded(Commit(s, c))
  {
    if Commits(s, c) {
      StepEffect(s, c);
      match c.op
      case Append(coords, parent, kind, ids, admissible) =>
        var r := AppendTx(s, c.epoch, coords, parent, kind, ids, admissible).value;
        EntryKeepsWellFounded(s, c.epoch, r.1, ids.event, admissible);
      case TurnInput(coords, turn, kind, ids) =>
        if !TurnRecorded(s.entries, coords.thread, turn) {
          var r := TurnTx(s, c.epoch, coords, turn, kind, ids).value;
          EntryKeepsWellFounded(s, c.epoch, r.1, ids.event, true);
        }
      case Select(coords, leaf, event) => SelectKeepsWellFounded(s, c.epoch, coords, leaf, event);
      case Clone(source, leaf, target, supply) =>
        CloneEffect(s, c.epoch, source, leaf, target, supply);
        CloneKeepsWellFounded(s, Commit(s, c), leaf, target);
      case Fork(source, target, base) => ForkKeepsWellFounded(s, source, target, base);
      case Reopen => RebuildKeepsWellFounded(s);
      case _ =>
    }
  }

  /** Both graphs stay well-founded in every reachable state. */
  lemma {:induction false} RunKeepsWellFounded(s: Store, calls: seq<Call>)
    requires WellFounded(s)
    ensures WellFounded(Run(s, calls))
  {
    if calls != [] {
      RunKeepsWellFounded(s, calls[..|calls| - 1]);
      StepKeepsWellFounded(Run(s, calls[..|calls| - 1]), calls[|calls| - 1]);
    }
  }

  // ----- Contexts always build -----

  /** Every row and every fork edge respects the scope each thread belongs to. */
  ghost predicate Scoped(s: Store, scopeOf: ThreadId -> Scope) {
    && (forall id :: id in s.entries ==> s.entries[id].coords.scope == scopeOf(s.entries[id].coords.thread))
    && (forall t :: t in s.bases ==> scopeOf(s.bases[t].parent) == scopeOf(t))
  }

  ghost predicate InScope(coords: Coordinates, scopeOf: ThreadId -> Scope) {
    coords.scope == scopeOf(coords.thread)
  }

  ghost predicate ScopedCall(c: Call, scopeOf: ThreadId -> Scope) {
    match c.op
    case Append(coords, _, _, _, _) => InScope(coords, scopeOf)
    case TurnInput(coords, _, _, _) => InScope(coords, scopeOf)
    case Clone(_, _, target, _) => InScope(target, scopeOf)
    case Fork(source, target, _) => InScope(source, scopeOf) && InScope(target, scopeOf)
    case _ => true
  }

  lemma {:induction false} StepKeepsScoped(s: Store, c: Call, scopeOf: ThreadId -> Scope)
    requires Forest(s.entries) && Scoped(s, scopeOf) && ScopedCall(c, scopeOf)
    ensures Scoped(Commit(s, c), scopeOf)
  {
    if Commits(s, c) {
      CommitEffect(s, c);
      ScopedGrows(s, Commit(s, c), c, scopeOf);
    }
  }

  lemma {:induction false} ScopedGrows(s: Store, after: Store, c: Call, scopeOf: ThreadId -> Scope)
    requires Scoped(s, scopeOf) && ScopedCall(c, scopeOf) && Effect(s, after, c.op)
    ensures Scoped(after, scopeOf)
  {
    forall id | id in after.entries ensures after.entries[id].coords.scope == scopeOf(after.entries[id].coords.thread) {
      if id in s.entries {
        assert after.entries[id] == s.entries[id];
      }
    }
  }

  lemma {:induction false} RunKeepsScoped(s: Store, calls: seq<Call>, scopeOf: ThreadId -> Scope)
    requires Forest(s.entries) && Scoped(s, scopeOf)
    requires forall c :: c in calls ==> ScopedCall(c, scopeOf)
    ensures Scoped(Run(s, calls), scopeOf)
  {
    if calls != [] {
      RunKeepsScoped(s, calls[..|calls| - 1], scopeOf);
      StepKeepsScoped(Run(s, calls[..|calls| - 1]), calls[|calls| - 1], scopeOf);
    }
  }

  ghost predicate OnlyScopeErrors(r: Result<Context>) {
    r.Err? ==> r.error.ThreadScopeMismatch?
  }

  lemma {:induction false} LocalPathBuilds(s: Store, coords: Coordinates, pinned: Option<EntryId>, scopeOf: ThreadId -> Scope)
    requires WellFounded(s)
    requires pinned.Some? ==> LoadEntry(s.entries, coords.thread, pinned.value).Some?
    ensures LocalPath(s, coords, pinned).Err? ==> LocalPath(s, coords, pinned).error.ThreadScopeMismatch?
    ensures Scoped(s, scopeOf) && InScope(coords, scopeOf) ==> LocalPath(s, coords, pinned).Ok?
  {
    var leaf := LocalLeaf(s, coords.thread, pinned);
    if leaf.Some? {
      if pinned.None? {
        assert RowOk(s.entries, s.leaves[coords.thread]);
      }
      PathIsBranch(s.entries, coords, leaf.value);
    }
  }

  lemma {:induction false} Builds(s: Store, rank: ThreadId -> nat, scopeOf: ThreadId -> Scope, coords: Coordinates,
                                  pinned: Option<EntryId>, inherited: bool, visiting: set<ThreadId>)
    requires WellFounded(s) && RankOk(s.bases, rank)
    requires forall v :: v in visiting ==> rank(coords.thread) < rank(v)
    requires pinned.Some? ==> LoadEntry(s.entries, coords.thread, pinned.value).Some?
    ensures OnlyScopeErrors(BuildContext(s, coords, pinned, inherited, visiting))
    ensures Scoped(s, scopeOf) && InScope(coords, scopeOf) ==> BuildContext(s, coords, pinned, inherited, visiting).Ok?
    decreases rank(coords.thread)
  {
    var t := coords.thread;
    if t in s.bases {
      var base := s.bases[t];
      Builds(s, rank, scopeOf, ParentCoordinates(coords, base), base.leaf, true, visiting + {t});
    }
    LocalPathBuilds(s, coords, pinned, scopeOf);
  }

  /** Building a context never reports a fork cycle or a missing entry; with one scope per thread
      it always succeeds. */
  lemma {:induction false} ContextAlwaysBuilds(calls: seq<Call>, coords: Coordinates, scopeOf: ThreadId -> Scope)
    ensures OnlyScopeErrors(BuildContext(Run(EMPTY, calls), coords, None, false, {}))
    ensures InScope(coords, scopeOf) && (forall c :: c in calls ==> ScopedCall(c, scopeOf)) ==>
              BuildContext(Run(EMPTY, calls), coords, None, false, {}).Ok?
  {
    EmptyIsWellFounded();
    RunKeepsWellFounded(EMPTY, calls);
    var s := Run(EMPTY, calls);
    var rank :| RankOk(s.bases, rank);
    if forall c :: c in calls ==> ScopedCall(c, scopeOf) {
      RunKeepsScoped(EMPTY, calls, scopeOf);
    }
    Builds(s, rank, scopeOf, coords, None, false, {});
  }

  // ----- When a build reports another scope -----

  /** Threads in a row, each the fork parent of the one before, from `t` on. */
  ghost predicate IsLine(bases: Bases, t: ThreadId, line: seq<ThreadId>)
    decreases |line|
  {
    && line != [] && line[0] == t
    && (|line| > 1 ==> t in bases && IsLine(bases, bases[t].parent, line[1..]))
  }

  /** The leaf that the last thread of the line is read at, given the one for the first. */
  ghost function LeafAtEnd(s: Store, t: ThreadId, pinned: Option<EntryId>, line: seq<ThreadId>): Option<EntryId>
    requires IsLine(s.bases, t, line)
    decreases |line|
  {
    if |line| == 1 then LocalLeaf(s, t, pinned) else LeafAtEnd(s, s.bases[t].parent, s.bases[t].leaf, line[1..])
  }

  /** The line ends at a thread whose leaf, and so every row above it, carries another scope. */
  ghost predicate EndsInOtherScope(s: Store, coords: Coordinates, pinned: Option<EntryId>, line: seq<ThreadId>) {
    && IsLine(s.bases, coords.thread, line)
    && var leaf := LeafAtEnd(s, coords.thread, pinned, line);
       leaf.Some? && leaf.value in s.entries && s.entries[leaf.value].coords.scope != coords.scope
  }

  lemma {:induction false} LocalPathFails(s: Store, coords: Coordinates, pinned: Option<EntryId>)
    requires WellFounded(s)
    requires pinned.Some? ==> LoadEntry(s.entries, coords.thread, pinned.value).Some?
    ensures LocalPath(s, coords, pinned).Err? <==> EndsInOtherScope(s, coords, pinned, [coords.thread])
  {
    var leaf := LocalLeaf(s, coords.thread, pinned);
    if leaf.Some? {
      if pinned.None? {
        assert RowOk(s.entries, s.leaves[coords.thread]);
      }
      PathIsBranch(s.entries, coords, leaf.value);
    }
  }

  lemma {:induction false} LongerLine(s: Store, coords: Coordinates, pinned: Option<EntryId>, rest: seq<ThreadId>)
    requires coords.thread in s.bases
    ensures var base := s.bases[coords.thread];
      EndsInOtherScope(s, coords, pinned, [coords.thread] + rest) && rest != []
      <==> EndsInOtherScope(s, ParentCoordinates(coords, base), base.leaf, rest)
  {
    assert ([coords.thread] + rest)[1..] == rest;
  }

  lemma {:induction false} OtherScopeFound(s: Store, rank: ThreadId -> nat, coords: Coordinates, pinned: Option<EntryId>,
                                           inherited: bool, visiting: set<ThreadId>) returns (line: seq<ThreadId>)
    requires WellFounded(s) && RankOk(s.bases, rank)
    requires forall v :: v in visiting ==> rank(coords.thread) < rank(v)
    requires pinned.Some? ==> LoadEntry(s.entries, coords.thread, pinned.value).Some?
    requires BuildContext(s, coords, pinned, inherited, visiting).Err?
    ensures EndsInOtherScope(s, coords, pinned, line)
    decreases rank(coords.thread)
  {
    var t := coords.thread;
    if Inherited(s, coords, visiting).Err? {
      var base := s.bases[t];
      var rest := OtherScopeFound(s, rank, ParentCoordinates(coords, base), base.leaf, true, visiting + {t});
      LongerLine(s, coords, pinned, rest);
      line := [t] + rest;
    } else {
      LocalPathFails(s, coords, pinned);
      line := [t];
    }
  }

  lemma {:induction false} OtherScopeFails(s: Store, rank: ThreadId -> nat, coords: Coordinates, pinned: Option<EntryId>,
                                           inherited: bool, visiting: set<ThreadId>, line: seq<ThreadId>)
    requires WellFounded(s) && RankOk(s.bases, rank)
    requires forall v :: v in visiting ==> rank(coords.thread) < rank(v)
    requires pinned.Some? ==> LoadEntry(s.entries, coords.thread, pinned.value).Some?
    requires EndsInOtherScope(s, coords, pinned, line)
    ensures BuildContext(s, coords, pinned, inherited, visiting).Err?
    decreases |line|
  {
    var t := coords.thread;
    if |line| == 1 {
      assert line == [t];
      LocalPathFails(s, coords, pinned);
    } else {
      var base := s.bases[t];
      assert line == [t] + line[1..];
      LongerLine(s, coords, pinned, line[1..]);
      OtherScopeFails(s, rank, ParentCoordinates(coords, base), base.leaf, true, visiting + {t}, line[1..]);
    }
  }

  /** In every reachable state, building a context fails if and only if some thread on the fork line
      is read at a leaf of another scope, and then it reports the scope mismatch. */
  lemma {:induction false} ScopeMismatchExactly(calls: seq<Call>, coords: Coordinates)
    ensures var s := Run(EMPTY, calls);
      var r := BuildContext(s, coords, None, false, {});
      && (r.Err? <==> exists line :: EndsInOtherScope(s, coords, None, line))
      && (r.Err? ==> r.error.ThreadScopeMismatch?)
  {
    EmptyIsWellFounded();
    RunKeepsWellFounded(EMPTY, calls);
    var s := Run(EMPTY, calls);
    var rank :| RankOk(s.bases, rank);
    Builds(s, rank, t => coords.scope, coords, None, false, {});
    if BuildContext(s, coords, None, false, {}).Err? {
      var line := OtherScopeFound(s, rank, coords, None, false, {});
    }
    forall line | EndsInOtherScope(s, coords, None, line) ensures BuildContext(s, coords, None, false, {}).Err? {
      OtherScopeFails(s, rank, coords, None, false, {}, line);
    }
  }

  // ----- Provenance -----

  function CutIds(cuts: seq<Cut>): seq<EntryId> {
    if cuts == [] then [] else CutIds(cuts[..|cuts| - 1]) + cuts[|cuts| - 1].ids
  }

  lemma {:induction false} KeepIdsConcat(a: seq<EntryId>, b: seq<EntryId>, hidden: set<EntryId>)
    ensures KeepIds(a + b, hidden) == KeepIds(a, hidden) + KeepIds(b, hidden)
  {
    if b == [] {
      assert a + b == a;
    } else {
      KeepIdsConcat(a, b[..|b| - 1], hidden);
      assert (a + b)[..|a + b| - 1] == a + b[..|b| - 1];
    }
  }

  lemma {:induction false} KeepEntriesIds(entries: seq<Entry>, hidden: set<EntryId>)
    ensures Ids(KeepEntries(entries, hidden)) == KeepIds(Ids(entries), hidden)
  {
    if entries != [] {
      KeepEntriesIds(entries[..|entries| - 1], hidden);
      assert Ids(entries)[..|entries| - 1] == Ids(entries[..|entries| - 1]);
    }
  }

  lemma {:induction false} KeepCutsIds(cuts: seq<Cut>, hidden: set<EntryId>)
    ensures CutIds(KeepCuts(cuts, hidden)) == KeepIds(CutIds(cuts), hidden)
  {
    if cuts != [] {
      KeepCutsIds(cuts[..|cuts| - 1], hidden);
      KeepIdsConcat(CutIds(cuts[..|cuts| - 1]), cuts[|cuts| - 1].ids, hidden);
    }
  }

  /** The flags a builder started with `inherited` may leave on its cuts: only the last cut can be
      the thread's own, and no cut is empty. */
  ghost predicate FlagsOk(cuts: seq<Cut>, inherited: bool, coords: Coordinates) {
    forall k :: 0 <= k < |cuts| ==>
      && cuts[k].ids != []
      && (cuts[k].inherited || (k == |cuts| - 1 && !inherited && cuts[k].coords == coords))
  }

  lemma {:induction false} KeepCutsInherited(cuts: seq<Cut>, hidden: set<EntryId>, coords: Coordinates)
    requires FlagsOk(cuts, true, coords)
    ensures FlagsOk(KeepCuts(cuts, hidden), true, coords)
  {
    if cuts != [] {
      KeepCutsInherited(cuts[..|cuts| - 1], hidden, coords);
    }
  }

  lemma {:induction false} KeepCutsFlags(cuts: seq<Cut>, hidden: set<EntryId>, inherited: bool, coords: Coordinates)
    requires FlagsOk(cuts, inherited, coords)
    ensures FlagsOk(KeepCuts(cuts, hidden), inherited, coords)
  {
    if cuts != [] {
      assert FlagsOk(cuts[..|cuts| - 1], true, coords);
      KeepCutsInherited(cuts[..|cuts| - 1], hidden, coords);
    }
  }

  ghost predicate Provenance(ctx: Context, inherited: bool, coords: Coordinates) {
    CutIds(ctx.cuts) == Ids(ctx.entries) && FlagsOk(ctx.cuts, inherited, coords)
  }

  lemma {:induction false} StripKeepsProvenance(ctx: Context, inherited: bool, coords: Coordinates)
    requires Provenance(ctx, inherited, coords)
    ensures Provenance(StripIdentity(ctx), inherited, coords)
  {
    var hidden := IdentityIds(ctx.entries);
    KeepEntriesIds(ctx.entries, hidden);
    KeepCutsIds(ctx.cuts, hidden);
    KeepCutsFlags(ctx.cuts, hidden, inherited, coords);
  }

  lemma {:induction false} JoinKeepsProvenance(up: Context, coords: Coordinates, inherited: bool, path: seq<Entry>, above: Coordinates)
    requires Provenance(up, true, above)
    ensures Provenance(Joined(up, coords, inherited, path), inherited, coords)
  {
    var cut := Cut(coords, inherited, Ids(path));
    var raw := Context(up.entries + path, if path == [] then up.cuts else up.cuts + [cut]);
    assert Ids(raw.entries) == Ids(up.entries) + Ids(path);
    if path != [] {
      assert (up.cuts + [cut])[..|up.cuts|] == up.cuts;
    }
    assert Provenance(raw, inherited, coords);
    StripKeepsProvenance(raw, inherited, coords);
  }

  /** The source cuts account for the context entries exactly, in order, after identity stripping too. */
  lemma {:induction false} ContextProvenance(s: Store, coords: Coordinates, pinned: Option<EntryId>, inherited: bool, visiting: set<ThreadId>)
    requires Forest(s.entries) && BuildContext(s, coords, pinned, inherited, visiting).Ok?
    ensures Provenance(BuildContext(s, coords, pinned, inherited, visiting).value, inherited, coords)
    decreases s.bases.Keys - visiting
  {
    var t := coords.thread;
    var up := Inherited(s, coords, visiting).value;
    var above := coords;
    if t in s.bases {
      above := ParentCoordinates(coords, s.bases[t]);
      ContextProvenance(s, above, s.bases[t].leaf, true, visiting + {t});
    }
    JoinKeepsProvenance(up, coords, inherited, LocalPath(s, coords, pinned).value, above);
  }

  // ----- Decomposition and the frozen prefix -----

  // ----- Which thread a cut belongs to -----

  /** Every id of the cut is a row under the cut's coordinates; the cut counts as inherited exactly
      when all of the context does, or its thread is not the one asked for. */
  ghost predicate CutOk(entries: Entries, cut: Cut, coords: Coordinates, inherited: bool, visiting: set<ThreadId>) {
    && cut.coords.scope == coords.scope && cut.coords.thread !in visiting
    && (cut.inherited <==> inherited || cut.coords.thread != coords.thread)
    && forall id :: id in cut.ids ==> id in entries && entries[id].coords == cut.coords
  }

  ghost predicate CutsOk(entries: Entries, cuts: seq<Cut>, coords: Coordinates, inherited: bool, visiting: set<ThreadId>) {
    && (forall k :: 0 <= k < |cuts| ==> CutOk(entries, cuts[k], coords, inherited, visiting))
    && (forall j, k :: 0 <= j < k < |cuts| ==> cuts[j].coords.thread != cuts[k].coords.thread)
  }

  lemma {:induction false} KeepIdsFrom(ids: seq<EntryId>, hidden: set<EntryId>)
    ensures forall id :: id in KeepIds(ids, hidden) ==> id in ids
  {
    if ids != [] {
      KeepIdsFrom(ids[..|ids| - 1], hidden);
    }
  }

  lemma {:induction false} KeepCutsFrom(cuts: seq<Cut>, hidden: set<EntryId>)
    ensures forall c :: c in KeepCuts(cuts, hidden) ==> exists k :: 0 <= k < |cuts| && cuts[k].coords == c.coords
  {
    if cuts != [] {
      var init, last := cuts[..|cuts| - 1], cuts[|cuts| - 1];
      KeepCutsFrom(init, hidden);
      forall c | c in KeepCuts(cuts, hidden) ensures exists k :: 0 <= k < |cuts| && cuts[k].coords == c.coords {
        if c in KeepCuts(init, hidden) {
          var k :| 0 <= k < |init| && init[k].coords == c.coords;
          assert cuts[k].coords == c.coords;
        } else {
          assert cuts[|init|].coords == c.coords;
        }
      }
    }
  }

  lemma {:induction false} KeepCutsOk(entries: Entries, cuts: seq<Cut>, hidden: set<EntryId>, coords: Coordinates,
                                      inherited: bool, visiting: set<ThreadId>)
    requires CutsOk(entries, cuts, coords, inherited, visiting)
    ensures CutsOk(entries, KeepCuts(cuts, hidden), coords, inherited, visiting)
  {
    if cuts != [] {
      var init, last := cuts[..|cuts| - 1], cuts[|cuts| - 1];
      KeepCutsOk(entries, init, hidden, coords, inherited, visiting);
      KeepCutsFrom(init, hidden);
      KeepIdsFrom(last.ids, hidden);
      assert CutOk(entries, cuts[|init|], coords, inherited, visiting);
      var rest := KeepCuts(init, hidden);
      forall j | 0 <= j < |rest| ensures rest[j].coords.thread != last.coords.thread {
        assert rest[j] in rest;
        var k :| 0 <= k < |init| && init[k].coords == rest[j].coords;
        assert cuts[k] == init[k];
      }
    }
  }

  lemma {:induction false} JoinedCutsOk(entries: Entries, up: Context, coords: Coordinates, inherited: bool, path: seq<Entry>,
                                        visiting: set<ThreadId>, above: Coordinates)
    requires coords.thread !in visiting && above.scope == coords.scope
    requires CutsOk(entries, up.cuts, above, true, visiting + {coords.thread})
    requires forall e :: e in path ==> IsRow(entries, e) && e.coords == coords
    ensures CutsOk(entries, Joined(up, coords, inherited, path).cuts, coords, inherited, visiting)
  {
    var own := Cut(coords, inherited, Ids(path));
    var cuts := if path == [] then up.cuts else up.cuts + [own];
    assert forall id :: id in own.ids ==> exists k :: 0 <= k < |path| && path[k].id == id && path[k] in path;
    assert CutOk(entries, own, coords, inherited, visiting);
    forall k | 0 <= k < |cuts| ensures CutOk(entries, cuts[k], coords, inherited, visiting) {
      if k < |up.cuts| {
        assert CutOk(entries, up.cuts[k], above, true, visiting + {coords.thread});
      }
    }
    KeepCutsOk(entries, cuts, IdentityIds(up.entries + path), coords, inherited, visiting);
  }

  /** Every cut of a context names the thread its entries belong to, once, and is marked as inherited
      exactly when that is not the thread asked for. */
  lemma {:induction false} CutsNameTheirThread(s: Store, coords: Coordinates, pinned: Option<EntryId>, inherited: bool, visiting: set<ThreadId>)
    requires Forest(s.entries) && BuildContext(s, coords, pinned, inherited, visiting).Ok?
    ensures CutsOk(s.entries, BuildContext(s, coords, pinned, inherited, visiting).value.cuts, coords, inherited, visiting)
    decreases s.bases.Keys - visiting
  {
    var t := coords.thread;
    var above := coords;
    if t in s.bases {
      above := ParentCoordinates(coords, s.bases[t]);
      CutsNameTheirThread(s, above, s.bases[t].leaf, true, visiting + {t});
    }
    var path := LocalPath(s, coords, pinned).value;
    PathUnder(s, coords, pinned);
    JoinedCutsOk(s.entries, Inherited(s, coords, visiting).value, coords, inherited, path, visiting, above);
  }

  lemma {:induction false} PathUnder(s: Store, coords: Coordinates, pinned: Option<EntryId>)
    requires Forest(s.entries) && LocalPath(s, coords, pinned).Ok?
    ensures forall e :: e in LocalPath(s, coords, pinned).value ==> IsRow(s.entries, e) && e.coords == coords
  {
    var leaf := LocalLeaf(s, coords.thread, pinned);
    if leaf.Some? {
      PathIsBranch(s.entries, coords, leaf.value);
    }
  }

  /** Entries the model may see: everything but thread-start identities. */
  function Visible(entries: seq<Entry>): seq<Entry> {
    if entries == [] then [] else
      var rest := Visible(entries[..|entries| - 1]);
      if entries[|entries| - 1].kind.ThreadStarted? then rest else rest + [entries[|entries| - 1]]
  }

  ghost predicate AllRows(entries: Entries, es: seq<Entry>) {
    forall e :: e in es ==> IsRow(entries, e)
  }

  lemma {:induction false} KeepIsVisible(table: Entries, es: seq<Entry>, whole: seq<Entry>)
    requires AllRows(table, whole) && es <= whole
    ensures KeepEntries(es, IdentityIds(whole)) == Visible(es)
  {
    if es != [] {
      var e := es[|es| - 1];
      KeepIsVisible(table, es[..|es| - 1], whole);
      assert e in whole by { assert whole[|es| - 1] == e; }
      if e.id in IdentityIds(whole) {
        var f :| f in whole && f.kind.ThreadStarted? && f.id == e.id;
        assert IsRow(table, f) && IsRow(table, e);
      }
    }
  }

  lemma {:induction false} VisibleOfClear(es: seq<Entry>)
    requires forall e :: e in es ==> !e.kind.ThreadStarted?
    ensures Visible(es) == es
  {
    if es != [] {
      VisibleOfClear(es[..|es| - 1]);
      assert es[|es| - 1] in es;
    }
  }

  lemma {:induction false} VisibleMembers(es: seq<Entry>)
    ensures forall e :: e in Visible(es) ==> e in es && !e.kind.ThreadStarted?
  {
    if es != [] {
      VisibleMembers(es[..|es| - 1]);
      assert es == es[..|es| - 1] + [es[|es| - 1]];
    }
  }

  lemma {:induction false} VisibleConcat(a: seq<Entry>, b: seq<Entry>)
    ensures Visible(a + b) == Visible(a) + Visible(b)
  {
    if b == [] {
      assert a + b == a;
    } else {
      VisibleConcat(a, b[..|b| - 1]);
      assert (a + b)[..|a + b| - 1] == a + b[..|b| - 1];
    }
  }

  lemma {:induction false} StripIsVisible(table: Entries, ctx: Context)
    requires AllRows(table, ctx.entries)
    ensures StripIdentity(ctx).entries == Visible(ctx.entries)
  {
    KeepIsVisible(table, ctx.entries, ctx.entries);
    if IdentityIds(ctx.entries) == {} {
      forall e | e in ctx.entries ensures !e.kind.ThreadStarted? {
        assert e.kind.ThreadStarted? ==> e.id in IdentityIds(ctx.entries);
      }
      VisibleOfClear(ctx.entries);
    }
  }

  ghost predicate Clear(s: Store, es: seq<Entry>) {
    AllRows(s.entries, es) && Visible(es) == es
  }

  lemma {:induction false} PathRows(s: Store, coords: Coordinates, pinned: Option<EntryId>)
    requires Forest(s.entries) && LocalPath(s, coords, pinned).Ok?
    ensures AllRows(s.entries, LocalPath(s, coords, pinned).value)
  {
    var leaf := LocalLeaf(s, coords.thread, pinned);
    if leaf.Some? {
      PathIsBranch(s.entries, coords, leaf.value);
    }
  }

  /** A context is what the thread inherits, then the visible part of its own branch. */
  lemma {:induction false} ContextDecomposes(s: Store, coords: Coordinates, pinned: Option<EntryId>, inherited: bool, visiting: set<ThreadId>)
    requires Forest(s.entries) && BuildContext(s, coords, pinned, inherited, visiting).Ok?
    ensures BuildContext(s, coords, pinned, inherited, visiting).value.entries
         == Inherited(s, coords, visiting).value.entries + Visible(LocalPath(s, coords, pinned).value)
    ensures Clear(s, BuildContext(s, coords, pinned, inherited, visiting).value.entries)
    decreases s.bases.Keys - visiting
  {
    var t := coords.thread;
    var up := Inherited(s, coords, visiting).value;
    var path := LocalPath(s, coords, pinned).value;
    if t in s.bases {
      ContextDecomposes(s, ParentCoordinates(coords, s.bases[t]), s.bases[t].leaf, true, visiting + {t});
    }
    PathRows(s, coords, pinned);
    var raw := Context(up.entries + path, if path == [] then up.cuts else up.cuts + [Cut(coords, inherited, Ids(path))]);
    StripIsVisible(s.entries, raw);
    VisibleConcat(up.entries, path);
    VisibleMembers(path);
    VisibleOfClear(Visible(path));
    VisibleConcat(up.entries, Visible(path));
  }

  /** Fewer threads under way, or another flag, never changes the entries of a context that built. */
  lemma {:induction false} EntriesIgnoreVisiting(s: Store, coords: Coordinates, pinned: Option<EntryId>,
                                                 flag: bool, flag': bool, visiting: set<ThreadId>, fewer: set<ThreadId>)
    requires Forest(s.entries) && fewer <= visiting
    requires BuildContext(s, coords, pinned, flag, visiting).Ok?
    ensures BuildContext(s, coords, pinned, flag', fewer).Ok?
    ensures BuildContext(s, coords, pinned, flag', fewer).value.entries
         == BuildContext(s, coords, pinned, flag, visiting).value.entries
    decreases s.bases.Keys - visiting
  {
    var t := coords.thread;
    if t in s.bases {
      EntriesIgnoreVisiting(s, ParentCoordinates(coords, s.bases[t]), s.bases[t].leaf, true, true, visiting + {t}, fewer + {t});
    }
    ContextDecomposes(s, coords, pinned, flag, visiting);
    ContextDecomposes(s, coords, pinned, flag', fewer);
  }

  /** A fork's context is its parent's context at the cut, then its own visible branch. */
  lemma {:induction false} ForkContext(s: Store, coords: Coordinates)
    requires Forest(s.entries) && coords.thread in s.bases && BuildContext(s, coords, None, false, {}).Ok?
    ensures var base := s.bases[coords.thread];
      var atCut := BuildContext(s, ParentCoordinates(coords, base), base.leaf, false, {});
      && atCut.Ok?
      && BuildContext(s, coords, None, false, {}).value.entries
           == atCut.value.entries + Visible(LocalPath(s, coords, None).value)
  {
    var base := s.bases[coords.thread];
    ContextDecomposes(s, coords, None, false, {});
    EntriesIgnoreVisiting(s, ParentCoordinates(coords, base), base.leaf, true, false, {} + {coords.thread}, {});
  }

  /** A set of threads closed under base edges, every edge naming its parent leaf. */
  ghost predicate PinnedLine(bases: Bases, line: set<ThreadId>) {
    forall t :: t in line && t in bases ==> bases[t].leaf.Some? && bases[t].parent in line
  }

  ghost predicate SameOn(before: Bases, after: Bases, line: set<ThreadId>) {
    forall t :: t in line ==> Lookup(before, t) == Lookup(after, t)
  }

  /** The call neither clones over nor re-forks a thread of the line. */
  ghost predicate Spares(c: Call, line: set<ThreadId>) {
    (c.op.Clone? || c.op.Fork?) ==> c.op.target.thread !in line
  }

  lemma {:induction false} PinnedContextStable(s: Store, after: Store, line: set<ThreadId>, coords: Coordinates,
                                               leaf: EntryId, inherited: bool, visiting: set<ThreadId>)
    requires Forest(s.entries) && Forest(after.entries) && Grows(s, after)
    requires PinnedLine(s.bases, line) && SameOn(s.bases, after.bases, line) && coords.thread in line
    requires BuildContext(s, coords, Some(leaf), inherited, visiting).Ok?
    ensures BuildContext(after, coords, Some(leaf), inherited, visiting) == BuildContext(s, coords, Some(leaf), inherited, visiting)
    decreases s.bases.Keys - visiting
  {
    var t := coords.thread;
    PathStable(s.entries, after.entries, coords, leaf);
    assert Lookup(s.bases, t) == Lookup(after.bases, t);
    if t in s.bases {
      var base := s.bases[t];
      PinnedContextStable(s, after, line, ParentCoordinates(coords, base), base.leaf.value, true, visiting + {t});
    }
  }

  lemma {:induction false} StepSpares(s: Store, c: Call, line: set<ThreadId>)
    requires Forest(s.entries) && Spares(c, line)
    ensures SameOn(s.bases, Commit(s, c).bases, line)
  {
    if Commits(s, c) {
      CommitEffect(s, c);
    }
  }

  lemma {:induction false} RunSpares(s: Store, calls: seq<Call>, line: set<ThreadId>)
    requires Forest(s.entries) && forall c :: c in calls ==> Spares(c, line)
    ensures SameOn(s.bases, Run(s, calls).bases, line)
  {
    if calls != [] {
      RunSpares(s, calls[..|calls| - 1], line);
      StepSpares(Run(s, calls[..|calls| - 1]), calls[|calls| - 1], line);
    }
  }

  /** The frozen prefix: whatever else a run does, what a thread inherits through pinned cuts stays
      exactly as it was, and later contexts still start with it. */
  lemma {:induction false} InheritedPrefixIsFrozen(s: Store, calls: seq<Call>, line: set<ThreadId>, coords: Coordinates)
    requires Forest(s.entries) && PinnedLine(s.bases, line) && coords.thread in line
    requires forall c :: c in calls ==> Spares(c, line)
    requires Inherited(s, coords, {}).Ok?
    ensures Inherited(Run(s, calls), coords, {}) == Inherited(s, coords, {})
    ensures BuildContext(Run(s, calls), coords, None, false, {}).Ok? ==>
              Inherited(s, coords, {}).value.entries <= BuildContext(Run(s, calls), coords, None, false, {}).value.entries
  {
    var after := Run(s, calls);
    var t := coords.thread;
    RunGrows(s, calls);
    RunSpares(s, calls, line);
    assert Lookup(s.bases, t) == Lookup(after.bases, t);
    if t in s.bases {
      var base := s.bases[t];
      PinnedContextStable(s, after, line, ParentCoordinates(coords, base), base.leaf.value, true, {} + {t});
    }
    if BuildContext(after, coords, None, false, {}).Ok? {
      ContextDecomposes(after, coords, None, false, {});
    }
  }
}
