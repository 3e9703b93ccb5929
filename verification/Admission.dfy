/** Exactly when each call commits, and what its journal rows say. */
module Admission {
  import opened Wrappers
  import opened HistoryModel
  import opened Journal
  import opened Branches
  import opened Transactions
  import opened Contexts
  import opened Replay

  // ----- The fence -----

  /** The epoch is at the recorded minimum or above it; a new minimum must fit the column. */
  predicate FenceAdmits(epochs: map<StreamId, nat>, stream: StreamId, epoch: nat) {
    var minimum := MinimumEpoch(epochs, stream);
    minimum <= epoch && (minimum < epoch ==> epoch <= I64_MAX)
  }

  /** The fence admits exactly those epochs, stands at the epoch afterwards, touches no other stream
      and says why it refuses. So a handle may write again and again at its own epoch. */
  lemma {:induction false} FenceExactly(epochs: map<StreamId, nat>, stream: StreamId, epoch: nat)
    ensures var r := EnforceLease(epochs, stream, epoch);
      && (r.Ok? <==> FenceAdmits(epochs, stream, epoch))
      && (r.Ok? ==> MinimumEpoch(r.value, stream) == epoch && FenceAdmits(r.value, stream, epoch))
      && (r.Ok? ==> forall st :: st != stream ==> MinimumEpoch(r.value, st) == MinimumEpoch(epochs, st))
      && (r.Err? ==> r.error == if epoch < MinimumEpoch(epochs, stream)
                                then StaleLeaseEpoch(stream, epoch, MinimumEpoch(epochs, stream)) else Storage)
  {
  }

  // ----- What each operation asks for -----

  /** The thread has no leaf that can be loaded, or one under these very coordinates. */
  predicate LeafFits(s: Store, coords: Coordinates) {
    var t := coords.thread;
    t in s.leaves && s.leaves[t] in s.entries && s.entries[s.leaves[t]].coords.thread == t ==>
      s.entries[s.leaves[t]].coords == coords
  }

  predicate HasRow(s: Store, coords: Coordinates, id: EntryId) {
    id in s.entries && s.entries[id].coords == coords
  }

  /** A new row and its event find their ids unused, the event passes validation, and the fence of
      the thread's stream admits the epoch. */
  predicate RowAdmitted(s: Store, epoch: nat, coords: Coordinates, ids: FreshIds, admissible: bool) {
    && FenceAdmits(s.epochs, ThreadStream(coords.thread), epoch)
    && ids.entry !in s.entries && !HasEventId(s.events, ids.event) && admissible
  }

  predicate FreshSupply(s: Store, n: nat, supply: nat -> FreshIds) {
    && (forall k :: 0 <= k < n ==> supply(k).entry !in s.entries && !HasEventId(s.events, supply(k).event))
    && (forall j, k :: 0 <= j < k < n ==> supply(j).entry != supply(k).entry && supply(j).event != supply(k).event)
  }

  predicate FreshRecords(events: seq<Event>, records: seq<Record>) {
    && (forall k :: 0 <= k < |records| ==> records[k].admissible && !HasEventId(events, records[k].id))
    && (forall j, k :: 0 <= j < k < |records| ==> records[j].id != records[k].id)
  }

  function BranchLength(s: Store, coords: Coordinates, leaf: EntryId): nat
    requires Forest(s.entries)
  {
    match BranchPath(s.entries, coords, leaf)
    case Ok(path) => |path|
    case Err(_) => 0
  }

  ghost predicate Admitted(s: Store, c: Call)
    requires Forest(s.entries)
  {
    match c.op
    case Append(coords, parent, _, ids, admissible) =>
      && (if parent.Some? then HasRow(s, coords, parent.value) else LeafFits(s, coords))
      && RowAdmitted(s, c.epoch, coords, ids, admissible)
    case TurnInput(coords, turn, kind, ids) =>
      if TurnRecorded(s.entries, coords.thread, turn) then
        var e := RecordedTurn(s.entries, coords.thread, turn); e.coords == coords && TurnKindsMatch(e.kind, kind)
      else LeafFits(s, coords) && RowAdmitted(s, c.epoch, coords, ids, true)
    case Select(coords, leaf, event) =>
      && LeafFits(s, coords) && (leaf.Some? ==> HasRow(s, coords, leaf.value))
      && FenceAdmits(s.epochs, ThreadStream(coords.thread), c.epoch) && !HasEventId(s.events, event)
    case Clone(source, leaf, target, supply) =>
      leaf.Some? ==>
        && HasRow(s, source, leaf.value)
        && FenceAdmits(s.epochs, ThreadStream(target.thread), c.epoch)
        && FreshSupply(s, BranchLength(s, source, leaf.value), supply)
    case Fork(source, target, base) =>
      && source.scope == target.scope && base.parent == source.thread && base.child == target.thread
      && base.stream == ThreadStream(source.thread)
      && Acyclic(s.bases[target.thread := base])
      && (base.leaf.Some? ==> BuildContext(s, source, base.leaf, false, {}).Ok?)
    case AppendEvents(stream, records) =>
      FenceAdmits(s.epochs, stream, c.epoch) && FreshRecords(s.events, records)
    case AppendFenced(stream, expected, records) =>
      && FenceAdmits(s.epochs, stream, c.epoch) && FreshRecords(s.events, records)
      && NextSequence(s.events, stream) == expected
    case Reopen => Openable(s)
  }

  // ----- Every call commits exactly when it is admitted -----

  lemma {:induction false} EntryAdmission(s: Store, epoch: nat, e: Entry, event: EventId, admissible: bool)
    ensures AppendEntry(s, epoch, e, event, admissible).Ok? <==>
              RowAdmitted(s, epoch, e.coords, FreshIds(e.id, event), admissible)
  {
    FenceExactly(s.epochs, ThreadStream(e.coords.thread), epoch);
  }

  lemma {:induction false} ParentAdmission(s: Store, coords: Coordinates, parent: Option<EntryId>)
    requires Forest(s.entries)
    ensures ResolveParent(s, coords, parent).Ok? <==>
              if parent.Some? then HasRow(s, coords, parent.value) else LeafFits(s, coords)
    ensures ActiveParent(s, coords).Ok? <==> LeafFits(s, coords)
  {
    if coords.thread in s.leaves && s.leaves[coords.thread] in s.entries {
      assert RowOk(s.entries, s.leaves[coords.thread]);
    }
  }

  function EntryIds(n: nat, supply: nat -> FreshIds): set<EntryId> {
    if n == 0 then {} else EntryIds(n - 1, supply) + {supply(n - 1).entry}
  }

  function EventIds(n: nat, supply: nat -> FreshIds): set<EventId> {
    if n == 0 then {} else EventIds(n - 1, supply) + {supply(n - 1).event}
  }

  lemma {:induction false} InSupply(n: nat, supply: nat -> FreshIds)
    ensures forall id :: id in EntryIds(n, supply) <==> exists k :: 0 <= k < n && supply(k).entry == id
    ensures forall id :: id in EventIds(n, supply) <==> exists k :: 0 <= k < n && supply(k).event == id
  {
    if n > 0 {
      InSupply(n - 1, supply);
    }
  }

  /** The ids that the first `n` copies have used up. */
  ghost predicate UsedUp(before: Store, after: Store, n: nat, supply: nat -> FreshIds) {
    && after.entries.Keys == before.entries.Keys + EntryIds(n, supply)
    && IdsOf(after.events) == IdsOf(before.events) + EventIds(n, supply)
  }

  function IdsOf(events: seq<Event>): set<EventId> {
    set e | e in events :: e.id
  }

  lemma {:induction false} HasIsIn(events: seq<Event>, id: EventId)
    ensures HasEventId(events, id) <==> id in IdsOf(events)
  {
  }

  lemma {:induction false} IdsSnoc(events: seq<Event>, e: Event)
    ensures IdsOf(events + [e]) == IdsOf(events) + {e.id}
  {
    assert forall x :: x in events + [e] <==> x in events || x == e;
    assert e in events + [e];
  }

  /** One row and one event more, under these ids. */
  ghost predicate AddsRow(before: Store, after: Store, target: Coordinates, ids: FreshIds) {
    && after.entries.Keys == before.entries.Keys + {ids.entry}
    && IdsOf(after.events) == IdsOf(before.events) + {ids.event}
    && |after.events| == |before.events| + 1 && before.events <= after.events
    && CopyRow(after.events[|before.events|], target, ids)
  }

  ghost predicate CopyRow(e: Event, target: Coordinates, ids: FreshIds) {
    e.id == ids.event && e.stream == ThreadStream(target.thread) && e.coords == target && e.body == EntryAppended(Some(ids.entry))
  }

  ghost predicate StepKeeps(holds: (nat, Store) -> bool, target: Coordinates, supply: nat -> FreshIds) {
    forall n: nat, before: Store, after: Store {:trigger holds(n, before), AddsRow(before, after, target, supply(n))} ::
      holds(n, before) && AddsRow(before, after, target, supply(n)) ==> holds(n + 1, after)
  }

  lemma {:induction false} LastCopyAdds(s: Store, target: Coordinates, path: seq<Entry>, supply: nat -> FreshIds)
    requires path != []
    ensures CopyPath(s, target, path, supply).Ok? ==>
              && CopyPath(s, target, path[..|path| - 1], supply).Ok?
              && AddsRow(CopyPath(s, target, path[..|path| - 1], supply).value, CopyPath(s, target, path, supply).value,
                         target, supply(|path| - 1))
  {
    if CopyPath(s, target, path, supply).Ok? {
      var before, after := CopyPath(s, target, path[..|path| - 1], supply).value, CopyPath(s, target, path, supply).value;
      assert after.events == before.events + [after.events[|before.events|]];
      IdsSnoc(before.events, after.events[|before.events|]);
    }
  }

  /** What holds before a copy and is kept by every copied row holds after it. */
  lemma {:induction false} CopyKeeps(s: Store, target: Coordinates, path: seq<Entry>, supply: nat -> FreshIds, holds: (nat, Store) -> bool)
    requires CopyPath(s, target, path, supply).Ok? && holds(0, s) && StepKeeps(holds, target, supply)
    ensures holds(|path|, CopyPath(s, target, path, supply).value)
  {
    if path != [] {
      LastCopyAdds(s, target, path, supply);
      CopyKeeps(s, target, path[..|path| - 1], supply, holds);
      assert holds(|path| - 1, CopyPath(s, target, path[..|path| - 1], supply).value);
    }
  }

  lemma {:induction false} CopyUses(s: Store, target: Coordinates, path: seq<Entry>, supply: nat -> FreshIds)
    requires CopyPath(s, target, path, supply).Ok?
    ensures UsedUp(s, CopyPath(s, target, path, supply).value, |path|, supply)
  {
    var entries := (n: nat, after: Store) => after.entries.Keys == s.entries.Keys + EntryIds(n, supply);
    EntriesKept(s, target, supply, entries);
    CopyKeeps(s, target, path, supply, entries);
    var events := (n: nat, after: Store) => IdsOf(after.events) == IdsOf(s.events) + EventIds(n, supply);
    EventsKept(s, target, supply, events);
    CopyKeeps(s, target, path, supply, events);
  }

  lemma {:induction false} EntriesKept(s: Store, target: Coordinates, supply: nat -> FreshIds, holds: (nat, Store) -> bool)
    requires forall n: nat, after {:trigger holds(n, after)} ::
               holds(n, after) <==> after.entries.Keys == s.entries.Keys + EntryIds(n, supply)
    ensures StepKeeps(holds, target, supply)
  {
  }

  lemma {:induction false} EventsKept(s: Store, target: Coordinates, supply: nat -> FreshIds, holds: (nat, Store) -> bool)
    requires forall n: nat, after {:trigger holds(n, after)} ::
               holds(n, after) <==> IdsOf(after.events) == IdsOf(s.events) + EventIds(n, supply)
    ensures StepKeeps(holds, target, supply)
  {
  }

  lemma {:induction false} HasIdSnoc(events: seq<Event>, e: Event)
    ensures forall id :: HasEventId(events + [e], id) <==> HasEventId(events, id) || id == e.id
  {
    assert forall x :: x in events + [e] <==> x in events || x == e;
    assert e in events + [e];
  }

  lemma {:induction false} SupplySnoc(s: Store, n: nat, supply: nat -> FreshIds)
    ensures FreshSupply(s, n + 1, supply) <==>
              && FreshSupply(s, n, supply)
              && supply(n).entry !in s.entries && !HasEventId(s.events, supply(n).event)
              && forall j :: 0 <= j < n ==> supply(j).entry != supply(n).entry && supply(j).event != supply(n).event
  {
  }

  lemma {:induction false} CopyAdmission(s: Store, target: Coordinates, path: seq<Entry>, supply: nat -> FreshIds)
    ensures CopyPath(s, target, path, supply).Ok? <==> FreshSupply(s, |path|, supply)
  {
    if path != [] {
      var init, n := path[..|path| - 1], |path| - 1;
      CopyAdmission(s, target, init, supply);
      SupplySnoc(s, n, supply);
      if CopyPath(s, target, init, supply).Ok? {
        var before := CopyPath(s, target, init, supply).value;
        CopyUses(s, target, init, supply);
        LastCopyAdmission(s, target, path, supply, before);
        UnusedIsFresh(s, before, n, supply);
      }
    }
  }

  lemma {:induction false} LastCopyAdmission(s: Store, target: Coordinates, path: seq<Entry>, supply: nat -> FreshIds, before: Store)
    requires path != [] && CopyPath(s, target, path[..|path| - 1], supply) == Ok(before)
    ensures CopyPath(s, target, path, supply).Ok? <==>
              supply(|path| - 1).entry !in before.entries && !HasEventId(before.events, supply(|path| - 1).event)
  {
  }

  lemma {:induction false} UnusedIsFresh(s: Store, before: Store, n: nat, supply: nat -> FreshIds)
    requires UsedUp(s, before, n, supply)
    ensures supply(n).entry !in before.entries && !HasEventId(before.events, supply(n).event) <==>
              && supply(n).entry !in s.entries && !HasEventId(s.events, supply(n).event)
              && forall j :: 0 <= j < n ==> supply(j).entry != supply(n).entry && supply(j).event != supply(n).event
  {
    InSupply(n, supply);
    HasIsIn(before.events, supply(n).event);
    HasIsIn(s.events, supply(n).event);
    assert supply(n).entry in before.entries <==> supply(n).entry in before.entries.Keys;
    assert supply(n).entry in s.entries <==> supply(n).entry in s.entries.Keys;
  }

  lemma {:induction false} BatchUses(events: seq<Event>, stream: StreamId, records: seq<Record>, after: seq<Event>)
    requires InsertEvents(events, stream, records) == Ok(after)
    ensures forall id :: HasEventId(after, id) <==>
              HasEventId(events, id) || exists k :: 0 <= k < |records| && records[k].id == id
    decreases |records|
  {
    if records != [] {
      var init, r := records[..|records| - 1], records[|records| - 1];
      var before := InsertEvents(events, stream, init).value;
      BatchUses(events, stream, init, before);
      HasIdSnoc(before, after[|before|]);
      assert forall k :: 0 <= k < |init| ==> init[k] == records[k];
    }
  }

  lemma {:induction false} FreshSnoc(events: seq<Event>, init: seq<Record>, r: Record)
    ensures FreshRecords(events, init + [r]) <==>
              && FreshRecords(events, init) && r.admissible && !HasEventId(events, r.id)
              && forall j :: 0 <= j < |init| ==> init[j].id != r.id
  {
    var all := init + [r];
    assert all[|init|] == r && forall k :: 0 <= k < |init| ==> all[k] == init[k];
  }

  lemma {:induction false} BatchAdmission(events: seq<Event>, stream: StreamId, records: seq<Record>)
    ensures InsertEvents(events, stream, records).Ok? <==> FreshRecords(events, records)
  {
    if records != [] {
      var init, r := records[..|records| - 1], records[|records| - 1];
      BatchAdmission(events, stream, init);
      assert records == init + [r];
      FreshSnoc(events, init, r);
      if InsertEvents(events, stream, init).Ok? {
        BatchUses(events, stream, init, InsertEvents(events, stream, init).value);
      }
    }
  }

  lemma {:induction false} TurnAdmission(s: Store, epoch: nat, coords: Coordinates, turn: string, kind: EntryKind, ids: FreshIds)
    requires Forest(s.entries)
    ensures TurnTx(s, epoch, coords, turn, kind, ids).Ok? <==> Admitted(s, Call(epoch, TurnInput(coords, turn, kind, ids)))
  {
    ParentAdmission(s, coords, None);
    if !TurnRecorded(s.entries, coords.thread, turn) && ActiveParent(s, coords).Ok? {
      var e := Entry(ids.entry, ActiveParent(s, coords).value, Some(turn), coords, kind, |s.entries|);
      EntryAdmission(s, epoch, e, ids.event, true);
    }
  }

  lemma {:induction false} AppendAdmission(s: Store, epoch: nat, coords: Coordinates, parent: Option<EntryId>, kind: EntryKind,
                                           ids: FreshIds, admissible: bool)
    requires Forest(s.entries)
    ensures AppendTx(s, epoch, coords, parent, kind, ids, admissible).Ok? <==>
              Admitted(s, Call(epoch, Append(coords, parent, kind, ids, admissible)))
  {
    ParentAdmission(s, coords, parent);
    if ResolveParent(s, coords, parent).Ok? {
      var e := Entry(ids.entry, ResolveParent(s, coords, parent).value, None, coords, kind, |s.entries|);
      EntryAdmission(s, epoch, e, ids.event, admissible);
    }
  }

  lemma {:induction false} SelectAdmission(s: Store, epoch: nat, coords: Coordinates, leaf: Option<EntryId>, event: EventId)
    requires Forest(s.entries)
    ensures SelectTx(s, epoch, coords, leaf, event).Ok? <==> Admitted(s, Call(epoch, Select(coords, leaf, event)))
  {
    ParentAdmission(s, coords, None);
    FenceExactly(s.epochs, ThreadStream(coords.thread), epoch);
    if leaf.Some? {
      PathIsBranch(s.entries, coords, leaf.value);
    }
  }

  lemma {:induction false} CloneAdmission(s: Store, epoch: nat, source: Coordinates, leaf: EntryId, target: Coordinates, supply: nat -> FreshIds)
    requires Forest(s.entries)
    ensures CloneTx(s, epoch, source, Some(leaf), target, supply).Ok? <==>
              Admitted(s, Call(epoch, Clone(source, Some(leaf), target, supply)))
  {
    PathIsBranch(s.entries, source, leaf);
    FenceExactly(s.epochs, ThreadStream(target.thread), epoch);
    if BranchPath(s.entries, source, leaf).Ok? && EnforceLease(s.epochs, ThreadStream(target.thread), epoch).Ok? {
      var path := BranchPath(s.entries, source, leaf).value;
      var fenced := Detached(s, target.thread, EnforceLease(s.epochs, ThreadStream(target.thread), epoch).value);
      CopyAdmission(fenced, target, path, supply);
      assert FreshSupply(fenced, |path|, supply) <==> FreshSupply(s, |path|, supply);
    }
  }

  lemma {:induction false} ForkAdmission(s: Store, epoch: nat, source: Coordinates, target: Coordinates, base: Base)
    requires WellFounded(s)
    ensures ForkTx(s, source, target, base).Ok? <==> Admitted(s, Call(epoch, Fork(source, target, base)))
  {
    if base.parent == source.thread {
      CycleCheckIsExact(s.bases, target.thread, base);
    }
  }

  /** In a well-founded store, every call commits if and only if its inputs exist, its ids are unused,
      its records are admissible and the fence admits its epoch, each as the operation asks. */
  lemma {:induction false} CommitsExactly(s: Store, c: Call)
    requires WellFounded(s)
    ensures Commits(s, c) <==> Admitted(s, c)
  {
    match c.op
    case Append(coords, parent, kind, ids, admissible) => AppendAdmission(s, c.epoch, coords, parent, kind, ids, admissible);
    case TurnInput(coords, turn, kind, ids) => TurnAdmission(s, c.epoch, coords, turn, kind, ids);
    case Select(coords, leaf, event) => SelectAdmission(s, c.epoch, coords, leaf, event);
    case Clone(source, leaf, target, supply) =>
      if leaf.Some? {
        CloneAdmission(s, c.epoch, source, leaf.value, target, supply);
      }
    case Fork(source, target, base) => ForkAdmission(s, c.epoch, source, target, base);
    case AppendEvents(stream, records) =>
      FenceExactly(s.epochs, stream, c.epoch);
      BatchAdmission(s.events, stream, records);
    case AppendFenced(stream, expected, records) =>
      FenceExactly(s.epochs, stream, c.epoch);
      BatchAdmission(s.events, stream, records);
    case Reopen => RebuildRestoresFold(s);
  }

  // ----- Why a call is refused -----

  /** A batch is refused for its first bad record, by the id of that record. */
  lemma {:induction false} BatchRefusal(events: seq<Event>, stream: StreamId, records: seq<Record>) returns (k: nat)
    requires InsertEvents(events, stream, records).Err?
    ensures k < |records| && FreshRecords(events, records[..k]) && !FreshRecords(events, records[..k + 1])
    ensures InsertEvents(events, stream, records).error ==
              if records[k].admissible then DuplicateEventId(records[k].id) else Rejected(records[k].id)
  {
    var init, r := records[..|records| - 1], records[|records| - 1];
    if InsertEvents(events, stream, init).Err? {
      k := BatchRefusal(events, stream, init);
      assert records[..k] == init[..k] && records[..k + 1] == init[..k + 1];
    } else {
      k := |init|;
      BatchAdmission(events, stream, init);
      BatchAdmission(events, stream, records);
      assert records[..k + 1] == records;
    }
  }

  /** A fenced append names the fence first, then the sequence it missed, then the bad record. */
  lemma {:induction false} FencedRefusal(s: Store, epoch: nat, stream: StreamId, expected: int, records: seq<Record>)
    ensures var r, minimum, next := AppendFencedTx(s, epoch, stream, expected, records), MinimumEpoch(s.epochs, stream), NextSequence(s.events, stream);
      && (epoch < minimum ==> r == Err(StaleLeaseEpoch(stream, epoch, minimum)))
      && (FenceAdmits(s.epochs, stream, epoch) && next != expected ==> r == Err(AppendFenceConflict(stream, expected, next)))
      && (FenceAdmits(s.epochs, stream, epoch) && next == expected && r.Err? ==>
            InsertEvents(s.events, stream, records) == Err(r.error))
  {
    FenceExactly(s.epochs, stream, epoch);
  }

  /** A parent named by the caller: unknown in the thread, or known under another scope. */
  lemma {:induction false} ParentRefusal(s: Store, coords: Coordinates, parent: EntryId)
    ensures var r := ResolveParent(s, coords, Some(parent));
      r == if parent !in s.entries || s.entries[parent].coords.thread != coords.thread then Err(EntryNotFound(parent))
           else if s.entries[parent].coords != coords then Err(ThreadScopeMismatch(coords, s.entries[parent].coords))
           else Ok(Some(parent))
  {
  }

  // ----- What the journal is told -----

  /** One more row on the thread's own stream, with the next sequence. */
  ghost predicate Journals(before: seq<Event>, after: seq<Event>, coords: Coordinates, id: EventId, body: Body) {
    after == before + [Event(id, ThreadStream(coords.thread), NextSequence(before, ThreadStream(coords.thread)), coords, body)]
  }

  /** An append tells the journal of its entry. */
  lemma {:induction false} AppendJournals(s: Store, epoch: nat, coords: Coordinates, parent: Option<EntryId>, kind: EntryKind,
                                          ids: FreshIds, admissible: bool)
    requires AppendTx(s, epoch, coords, parent, kind, ids, admissible).Ok?
    ensures var after := AppendTx(s, epoch, coords, parent, kind, ids, admissible).value.0;
      Journals(s.events, after.events, coords, ids.event, EntryAppended(Some(ids.entry)))
  {
  }

  /** A selection tells the journal where the thread goes and where it stood: in a well-founded store
      the prior leaf is the one the thread had. */
  lemma {:induction false} SelectJournals(s: Store, epoch: nat, coords: Coordinates, leaf: Option<EntryId>, event: EventId)
    requires WellFounded(s) && SelectTx(s, epoch, coords, leaf, event).Ok?
    ensures var after := SelectTx(s, epoch, coords, leaf, event).value;
      Journals(s.events, after.events, coords, event, BranchSelected(coords.thread, leaf, Lookup(s.leaves, coords.thread)))
  {
    if coords.thread in s.leaves {
      assert RowOk(s.entries, s.leaves[coords.thread]);
    }
  }

  /** A clone tells the journal of every copy, in order. */
  lemma {:induction false} CloneJournals(s: Store, epoch: nat, source: Coordinates, leaf: EntryId, target: Coordinates, supply: nat -> FreshIds)
    requires Forest(s.entries) && CloneTx(s, epoch, source, Some(leaf), target, supply).Ok?
    ensures var after := CloneTx(s, epoch, source, Some(leaf), target, supply).value.0;
      CopyRows(s.events, after.events, target, BranchLength(s, source, leaf), supply)
  {
    var path := BranchPath(s.entries, source, leaf).value;
    var fenced := Detached(s, target.thread, EnforceLease(s.epochs, ThreadStream(target.thread), epoch).value);
    CopyJournals(fenced, target, path, supply);
    CloneLands(s, epoch, source, leaf, target, supply);
  }

  lemma {:induction false} CloneLands(s: Store, epoch: nat, source: Coordinates, leaf: EntryId, target: Coordinates, supply: nat -> FreshIds)
    requires Forest(s.entries) && CloneTx(s, epoch, source, Some(leaf), target, supply).Ok?
    ensures EnforceLease(s.epochs, ThreadStream(target.thread), epoch).Ok? && BranchPath(s.entries, source, leaf).Ok?
    ensures var fenced := Detached(s, target.thread, EnforceLease(s.epochs, ThreadStream(target.thread), epoch).value);
      var copied := CopyPath(fenced, target, BranchPath(s.entries, source, leaf).value, supply);
      copied.Ok? && CloneTx(s, epoch, source, Some(leaf), target, supply).value.0.events == copied.value.events
  {
  }

  ghost predicate CopyRows(before: seq<Event>, after: seq<Event>, target: Coordinates, n: nat, supply: nat -> FreshIds) {
    && |after| == |before| + n && before <= after
    && forall k :: 0 <= k < n ==> CopyRow(after[|before| + k], target, supply(k))
  }

  lemma {:induction false} CopyJournals(s: Store, target: Coordinates, path: seq<Entry>, supply: nat -> FreshIds)
    requires CopyPath(s, target, path, supply).Ok?
    ensures CopyRows(s.events, CopyPath(s, target, path, supply).value.events, target, |path|, supply)
  {
    var holds := (n: nat, after: Store) => CopyRows(s.events, after.events, target, n, supply);
    RowsKept(s, target, supply, holds);
    CopyKeeps(s, target, path, supply, holds);
  }

  lemma {:induction false} RowsKept(s: Store, target: Coordinates, supply: nat -> FreshIds, holds: (nat, Store) -> bool)
    requires forall n: nat, after {:trigger holds(n, after)} :: holds(n, after) <==> CopyRows(s.events, after.events, target, n, supply)
    ensures holds(0, s) && StepKeeps(holds, target, supply)
  {
    forall n: nat, before: Store, after: Store | holds(n, before) && AddsRow(before, after, target, supply(n)) ensures holds(n + 1, after) {
      OneMoreRow(s.events, before.events, after.events, target, n, supply);
    }
  }

  lemma {:induction false} OneMoreRow(events: seq<Event>, before: seq<Event>, after: seq<Event>, target: Coordinates, n: nat, supply: nat -> FreshIds)
    requires CopyRows(events, before, target, n, supply)
    requires |after| == |before| + 1 && before <= after && CopyRow(after[|before|], target, supply(n))
    ensures CopyRows(events, after, target, n + 1, supply)
  {
    forall k | 0 <= k < n ensures CopyRow(after[|events| + k], target, supply(k)) {
      assert after[|events| + k] == before[|events| + k];
    }
  }
}
