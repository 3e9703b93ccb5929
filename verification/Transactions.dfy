/** Each mutation of the store as one atomic transaction, and runs of calls by any handles.
    A transaction that returns an error is rolled back. */
module Transactions {
  import opened Wrappers
  import opened HistoryModel
  import opened Journal
  import opened Branches

  /** The fresh ids a call draws: one for the entry it inserts, one for the event. */
  datatype FreshIds = FreshIds(entry: EntryId, event: EventId)

  datatype Op =
    | Append(coords: Coordinates, parent: Option<EntryId>, kind: EntryKind, ids: FreshIds, admissible: bool)
    | TurnInput(coords: Coordinates, turn: string, kind: EntryKind, ids: FreshIds)
    | Select(coords: Coordinates, leaf: Option<EntryId>, event: EventId)
    | Clone(source: Coordinates, leaf: Option<EntryId>, target: Coordinates, supply: nat -> FreshIds)
    | Fork(source: Coordinates, target: Coordinates, base: Base)
    | AppendEvents(stream: StreamId, records: seq<Record>)
    | AppendFenced(stream: StreamId, expected: int, records: seq<Record>)
    | Reopen

  /** One call through a handle that presents lease epoch `epoch`. */
  datatype Call = Call(epoch: nat, op: Op)

  function SetLeaf(s: Store, thread: ThreadId, id: EntryId): Store {
    s.(leaves := s.leaves[thread := id])
  }

  function ClearLeaf(s: Store, thread: ThreadId): Store {
    s.(leaves := s.leaves - {thread})
  }

  /** Insert an entry row and journal it on the thread's own stream. */
  function InsertEntry(s: Store, e: Entry, event: EventId, admissible: bool): Result<Store> {
    if e.id in s.entries then Err(Storage) else
    var record := Record(event, e.coords, EntryAppended(Some(e.id)), admissible);
    var events :- InsertEvent(s.events, ThreadStream(e.coords.thread), record);
    Ok(s.(entries := s.entries[e.id := e], events := events))
  }

  function ActiveParent(s: Store, coords: Coordinates): Result<Option<EntryId>> {
    match ActiveLeaf(s, coords.thread)
    case None => Ok(None)
    case Some(e) =>
      var _ :- ValidateCoordinates(coords, e);
      Ok(Some(e.id))
  }

  function ResolveParent(s: Store, coords: Coordinates, parent: Option<EntryId>): Result<Option<EntryId>> {
    match parent
    case None => ActiveParent(s, coords)
    case Some(p) =>
      match LoadEntry(s.entries, coords.thread, p)
      case None => Err(EntryNotFound(p))
      case Some(e) =>
        var _ :- ValidateCoordinates(coords, e);
        Ok(Some(p))
  }

  function AppendEntry(s: Store, epoch: nat, e: Entry, event: EventId, admissible: bool): Result<Store> {
    var epochs :- EnforceLease(s.epochs, ThreadStream(e.coords.thread), epoch);
    var inserted :- InsertEntry(s.(epochs := epochs), e, event, admissible);
    Ok(SetLeaf(inserted, e.coords.thread, e.id))
  }

  function AppendTx(s: Store, epoch: nat, coords: Coordinates, parent: Option<EntryId>, kind: EntryKind,
                    ids: FreshIds, admissible: bool): Result<(Store, Entry)>
  {
    var up :- ResolveParent(s, coords, parent);
    var e := Entry(ids.entry, up, None, coords, kind, |s.entries|);
    var after :- AppendEntry(s, epoch, e, ids.event, admissible);
    Ok((after, e))
  }

  predicate TurnRecorded(entries: Entries, thread: ThreadId, turn: string) {
    exists id :: id in entries && HoldsTurn(entries, id, thread, turn)
  }

  ghost function RecordedTurn(entries: Entries, thread: ThreadId, turn: string): Entry
    requires TurnRecorded(entries, thread, turn)
  {
    var id :| id in entries && HoldsTurn(entries, id, thread, turn);
    entries[id]
  }

  ghost function TurnTx(s: Store, epoch: nat, coords: Coordinates, turn: string, kind: EntryKind,
                        ids: FreshIds): Result<(Store, Entry)>
  {
    if TurnRecorded(s.entries, coords.thread, turn) then
      var existing := RecordedTurn(s.entries, coords.thread, turn);
      var _ :- ValidateCoordinates(coords, existing);
      if TurnKindsMatch(existing.kind, kind) then Ok((s, existing)) else Err(Storage)
    else
      var up :- ActiveParent(s, coords);
      var e := Entry(ids.entry, up, Some(turn), coords, kind, |s.entries|);
      var after :- AppendEntry(s, epoch, e, ids.event, true);
      Ok((after, e))
  }

  function SelectTx(s: Store, epoch: nat, coords: Coordinates, leaf: Option<EntryId>, event: EventId): Result<Store>
    requires Forest(s.entries)
  {
    var prior :- ActiveParent(s, coords);
    var _ :- if leaf.Some? then BranchPath(s.entries, coords, leaf.value) else Ok([]);
    var stream := ThreadStream(coords.thread);
    var epochs :- EnforceLease(s.epochs, stream, epoch);
    var events :- InsertEvent(s.events, stream, Record(event, coords, BranchSelected(coords.thread, leaf, prior), true));
    var logged := s.(epochs := epochs, events := events);
    Ok(if leaf.Some? then SetLeaf(logged, coords.thread, leaf.value) else ClearLeaf(logged, coords.thread))
  }

  /** Copy `path` under `target`, each copy the child of the one before. */
  function CopyPath(s: Store, target: Coordinates, path: seq<Entry>, supply: nat -> FreshIds): Result<Store> {
    if path == [] then Ok(s) else
      var n := |path| - 1;
      var before :- CopyPath(s, target, path[..n], supply);
      var parent := if n == 0 then None else Some(supply(n - 1).entry);
      var e := Entry(supply(n).entry, parent, None, target, path[n].kind, |before.entries|);
      InsertEntry(before, e, supply(n).event, true)
  }

  /** The target loses its base before anything is copied. */
  function Detached(s: Store, thread: ThreadId, epochs: map<StreamId, nat>): Store {
    s.(bases := s.bases - {thread}, epochs := epochs)
  }

  /** The last copy becomes the target's leaf. */
  function Landed(copied: Store, thread: ThreadId, path: seq<Entry>, supply: nat -> FreshIds): (Store, Option<EntryId>) {
    if path == [] then (copied, None) else
    var last := supply(|path| - 1).entry;
    (SetLeaf(copied, thread, last), Some(last))
  }

  function CloneTx(s: Store, epoch: nat, source: Coordinates, leaf: Option<EntryId>, target: Coordinates,
                   supply: nat -> FreshIds): Result<(Store, Option<EntryId>)>
    requires Forest(s.entries)
  {
    if leaf.None? then Ok((ClearLeaf(Detached(s, target.thread, s.epochs), target.thread), None)) else
    var path :- BranchPath(s.entries, source, leaf.value);
    var epochs :- EnforceLease(s.epochs, ThreadStream(target.thread), epoch);
    var copied :- CopyPath(Detached(s, target.thread, epochs), target, path, supply);
    Ok(Landed(copied, target.thread, path, supply))
  }

  function ValidateBase(source: Coordinates, target: Coordinates, base: Base): Result<()> {
    if source.scope != target.scope then Err(ThreadScopeMismatch(target, source))
    else if base.parent != source.thread || base.child != target.thread
         || base.stream != ThreadStream(source.thread) then Err(Storage)
    else Ok(())
  }

  function ForkTx(s: Store, source: Coordinates, target: Coordinates, base: Base): Result<Store>
    requires Forest(s.entries)
  {
    var _ :- ValidateBase(source, target, base);
    var _ :- CheckBaseCycle(s.bases, target.thread, source.thread, {});
    var _ :- if base.leaf.Some? then BuildContext(s, source, base.leaf, false, {}) else Ok(Context([], []));
    var cleared := ClearLeaf(s, target.thread);
    Ok(cleared.(bases := cleared.bases[base.child := base]))
  }

  function AppendEventsTx(s: Store, epoch: nat, stream: StreamId, records: seq<Record>): Result<Store> {
    var epochs :- EnforceLease(s.epochs, stream, epoch);
    var events :- InsertEvents(s.events, stream, records);
    Ok(s.(epochs := epochs, events := events))
  }

  function AppendFencedTx(s: Store, epoch: nat, stream: StreamId, expected: int, records: seq<Record>): Result<Store> {
    var epochs :- EnforceLease(s.epochs, stream, epoch);
    var actual := NextSequence(s.events, stream);
    if actual != expected then Err(AppendFenceConflict(stream, expected, actual)) else
    var events :- InsertEvents(s.events, stream, records);
    Ok(s.(epochs := epochs, events := events))
  }

  // ----- The rebuild on open -----

  /** Threads whose journal holds a branch-selection row. */
  function SelectedThreads(events: seq<Event>): set<ThreadId> {
    set e | e in events && (e.body.BranchSelected? || (e.body.Undecodable? && e.body.selection)) :: e.coords.thread
  }

  /** One journal row replayed onto the leaf table. */
  function ReplayEvent(entries: Entries, selected: set<ThreadId>, leaves: map<ThreadId, EntryId>, e: Event): Result<map<ThreadId, EntryId>> {
    var t := e.coords.thread;
    if e.body.OtherBody? || t !in selected then Ok(leaves)
    else if e.body.Undecodable? || (e.body.BranchSelected? && e.body.thread != t) then Err(Codec)
    else
      match (if e.body.EntryAppended? then e.body.entry else e.body.selected)
      case None => Ok(leaves - {t})
      case Some(id) =>
        if LoadEntry(entries, t, id).None? then Err(EntryNotFound(id)) else Ok(leaves[t := id])
  }

  function ReplayEvents(entries: Entries, selected: set<ThreadId>, leaves: map<ThreadId, EntryId>, events: seq<Event>): Result<map<ThreadId, EntryId>> {
    if events == [] then Ok(leaves) else
      var before :- ReplayEvents(entries, selected, leaves, events[..|events| - 1]);
      ReplayEvent(entries, selected, before, events[|events| - 1])
  }

  function RebuildTx(s: Store): Result<Store> {
    var selected := SelectedThreads(s.events);
    if selected == {} then Ok(s) else
    var leaves :- ReplayEvents(s.entries, selected, s.leaves - selected, s.events);
    Ok(s.(leaves := leaves))
  }

  // ----- Calls and runs -----

  ghost function Transact(s: Store, c: Call): Result<Store>
    requires Forest(s.entries)
  {
    match c.op
    case Append(coords, parent, kind, ids, admissible) =>
      var r :- AppendTx(s, c.epoch, coords, parent, kind, ids, admissible); Ok(r.0)
    case TurnInput(coords, turn, kind, ids) =>
      var r :- TurnTx(s, c.epoch, coords, turn, kind, ids); Ok(r.0)
    case Select(coords, leaf, event) => SelectTx(s, c.epoch, coords, leaf, event)
    case Clone(source, leaf, target, supply) =>
      var r :- CloneTx(s, c.epoch, source, leaf, target, supply); Ok(r.0)
    case Fork(source, target, base) => ForkTx(s, source, target, base)
    case AppendEvents(stream, records) => AppendEventsTx(s, c.epoch, stream, records)
    case AppendFenced(stream, expected, records) => AppendFencedTx(s, c.epoch, stream, expected, records)
    case Reopen => RebuildTx(s)
  }

  ghost predicate Commits(s: Store, c: Call)
    requires Forest(s.entries)
  {
    Transact(s, c).Ok?
  }

  ghost function Commit(s: Store, c: Call): Store
    requires Forest(s.entries)
  {
    if Commits(s, c) then Transact(s, c).value else s
  }

  /** Rows are only ever added: entries and events of `before` are rows of `after`. */
  ghost predicate Grows(before: Store, after: Store) {
    before.events <= after.events && Extends(before.entries, after.entries)
  }

  lemma {:induction false} InsertKeepsForest(s: Store, e: Entry, event: EventId, admissible: bool)
    requires Forest(s.entries) && InsertEntry(s, e, event, admissible).Ok?
    requires e.row == |s.entries|
    requires e.parent.Some? ==> e.parent.value in s.entries && s.entries[e.parent.value].coords == e.coords
    ensures Forest(InsertEntry(s, e, event, admissible).value.entries)
  {
    var after := InsertEntry(s, e, event, admissible).value.entries;
    if e.parent.Some? {
      assert RowOk(s.entries, e.parent.value);
    }
    forall id | id in after ensures RowOk(after, id) {
      if id != e.id {
        assert RowOk(s.entries, id);
      }
    }
  }

  lemma {:induction false} ParentOk(s: Store, coords: Coordinates, parent: Option<EntryId>)
    requires Forest(s.entries) && ResolveParent(s, coords, parent).Ok?
    ensures var up := ResolveParent(s, coords, parent).value;
      up.Some? ==> up.value in s.entries && s.entries[up.value].coords == coords
  {
    if parent.None? && coords.thread in s.leaves && s.leaves[coords.thread] in s.entries {
      assert RowOk(s.entries, s.leaves[coords.thread]);
    }
  }

  /** Rows added under `target`, none of them a turn input. */
  ghost predicate AddsUnder(before: Entries, after: Entries, target: Coordinates) {
    forall id :: id in after && id !in before ==> after[id].coords == target && after[id].turn == None
  }

  ghost predicate SameElsewhere(before: Store, after: Store) {
    after.leaves == before.leaves && after.bases == before.bases && after.epochs == before.epochs
  }

  /** What copying a branch leaves behind. */
  ghost predicate Copied(before: Store, after: Store, target: Coordinates, path: seq<Entry>, supply: nat -> FreshIds) {
    && Forest(after.entries)
    && Grows(before, after)
    && (path != [] ==> RowUnder(after.entries, supply(|path| - 1).entry, target))
    && SameElsewhere(before, after)
    && AddsUnder(before.entries, after.entries, target)
  }

  ghost predicate RowUnder(entries: Entries, id: EntryId, coords: Coordinates) {
    id in entries && entries[id].coords == coords
  }

  lemma {:induction false} GrowsTrans(a: Store, b: Store, c: Store)
    requires Grows(a, b) && Grows(b, c)
    ensures Grows(a, c)
  {
  }

  lemma {:induction false} AddsUnderTrans(a: Store, b: Store, c: Store, target: Coordinates)
    requires Grows(b, c)
    requires AddsUnder(a.entries, b.entries, target) && AddsUnder(b.entries, c.entries, target)
    ensures AddsUnder(a.entries, c.entries, target)
  {
  }

  lemma {:induction false} CopyOneMore(s: Store, before: Store, e: Entry, event: EventId, target: Coordinates, path: seq<Entry>, supply: nat -> FreshIds)
    requires path != [] && Copied(s, before, target, path[..|path| - 1], supply)
    requires e.id == supply(|path| - 1).entry && e.turn == None && e.coords == target && e.row == |before.entries|
    requires e.parent == if |path| == 1 then None else Some(supply(|path| - 2).entry)
    requires InsertEntry(before, e, event, true).Ok?
    ensures Copied(s, InsertEntry(before, e, event, true).value, target, path, supply)
  {
    var after := InsertEntry(before, e, event, true).value;
    assert |path| > 1 ==> RowUnder(before.entries, supply(|path| - 2).entry, target);
    InsertKeepsForest(before, e, event, true);
    assert AddsUnder(before.entries, after.entries, target);
    GrowsTrans(s, before, after);
    AddsUnderTrans(s, before, after, target);
  }

  lemma {:induction false} CopyEffect(s: Store, target: Coordinates, path: seq<Entry>, supply: nat -> FreshIds)
    requires Forest(s.entries) && CopyPath(s, target, path, supply).Ok?
    ensures Copied(s, CopyPath(s, target, path, supply).value, target, path, supply)
  {
    if path != [] {
      var n := |path| - 1;
      CopyEffect(s, target, path[..n], supply);
      var before := CopyPath(s, target, path[..n], supply).value;
      var parent := if n == 0 then None else Some(supply(n - 1).entry);
      var e := Entry(supply(n).entry, parent, None, target, path[n].kind, |before.entries|);
      CopyOneMore(s, before, e, supply(n).event, target, path, supply);
    }
  }

  /** A clone detaches the target, adds rows only under it, and points its leaf at the last copy. */
  ghost predicate Cloned(before: Store, after: Store, leaf: Option<EntryId>, target: Coordinates) {
    && Forest(after.entries) && Grows(before, after)
    && after.bases == before.bases - {target.thread}
    && AddsUnder(before.entries, after.entries, target)
    && (leaf.None? ==> after.leaves == before.leaves - {target.thread})
    && (leaf.Some? ==>
          && target.thread in after.leaves
          && after.leaves == before.leaves[target.thread := after.leaves[target.thread]]
          && RowUnder(after.entries, after.leaves[target.thread], target))
  }

  lemma {:induction false} CopiedIsCloned(s: Store, fenced: Store, copied: Store, leaf: EntryId, target: Coordinates, path: seq<Entry>, supply: nat -> FreshIds)
    requires path != [] && Copied(fenced, copied, target, path, supply)
    requires fenced == Detached(s, target.thread, fenced.epochs)
    ensures Cloned(s, Landed(copied, target.thread, path, supply).0, Some(leaf), target)
  {
  }

  lemma {:induction false} CloneEffect(s: Store, epoch: nat, source: Coordinates, leaf: Option<EntryId>, target: Coordinates, supply: nat -> FreshIds)
    requires Forest(s.entries) && CloneTx(s, epoch, source, leaf, target, supply).Ok?
    ensures Cloned(s, CloneTx(s, epoch, source, leaf, target, supply).value.0, leaf, target)
  {
    if leaf.Some? {
      CopyingClone(s, epoch, source, leaf.value, target, supply);
    }
  }

  lemma {:induction false} CopyingClone(s: Store, epoch: nat, source: Coordinates, leaf: EntryId, target: Coordinates, supply: nat -> FreshIds)
    requires Forest(s.entries) && CloneTx(s, epoch, source, Some(leaf), target, supply).Ok?
    ensures Cloned(s, CloneTx(s, epoch, source, Some(leaf), target, supply).value.0, Some(leaf), target)
  {
    PathIsBranch(s.entries, source, leaf);
    var path := BranchPath(s.entries, source, leaf).value;
    var epochs := EnforceLease(s.epochs, ThreadStream(target.thread), epoch).value;
    var fenced := Detached(s, target.thread, epochs);
    CopyEffect(fenced, target, path, supply);
    CopiedIsCloned(s, fenced, CopyPath(fenced, target, path, supply).value, leaf, target, path, supply);
  }

  // ----- What a committed call does to the rows -----

  /** The coordinates of the rows an operation may add. */
  function RowCoords(op: Op): Option<Coordinates> {
    match op
    case Append(coords, _, _, _, _) => Some(coords)
    case TurnInput(coords, _, _, _) => Some(coords)
    case Clone(_, _, target, _) => Some(target)
    case _ => None
  }

  /** New rows carry the operation's coordinates, and only a turn input names a turn. */
  ghost predicate NewRows(before: Entries, after: Entries, op: Op) {
    forall id :: id in after && id !in before ==>
      && RowCoords(op) == Some(after[id].coords)
      && after[id].turn == if op.TurnInput? then Some(op.turn) else None
  }

  /** The fork edges after an operation commits. */
  function MovedBases(bases: Bases, op: Op): Bases {
    match op
    case Clone(_, _, target, _) => bases - {target.thread}
    case Fork(_, target, base) => bases[target.thread := base]
    case _ => bases
  }

  ghost predicate Effect(before: Store, after: Store, op: Op) {
    && Forest(after.entries)
    && Grows(before, after)
    && NewRows(before.entries, after.entries, op)
    && after.bases == MovedBases(before.bases, op)
    && (op.Fork? ==> op.source.scope == op.target.scope && op.base.parent == op.source.thread)
  }

  lemma {:induction false} EntryEffect(s: Store, epoch: nat, e: Entry, event: EventId, admissible: bool, after: Store, op: Op)
    requires Forest(s.entries) && AppendEntry(s, epoch, e, event, admissible) == Ok(after)
    requires e.row == |s.entries|
    requires e.parent.Some? ==> e.parent.value in s.entries && s.entries[e.parent.value].coords == e.coords
    requires op.Append? || op.TurnInput?
    requires RowCoords(op) == Some(e.coords) && e.turn == if op.TurnInput? then Some(op.turn) else None
    ensures Effect(s, after, op)
  {
    var fenced := s.(epochs := EnforceLease(s.epochs, ThreadStream(e.coords.thread), epoch).value);
    InsertKeepsForest(fenced, e, event, admissible);
  }

  lemma {:induction false} SelectEffect(s: Store, epoch: nat, coords: Coordinates, leaf: Option<EntryId>, event: EventId, after: Store)
    requires Forest(s.entries) && SelectTx(s, epoch, coords, leaf, event) == Ok(after)
    ensures Effect(s, after, Select(coords, leaf, event))
  {
  }

  lemma {:induction false} ForkEffect(s: Store, source: Coordinates, target: Coordinates, base: Base)
    requires Forest(s.entries) && ForkTx(s, source, target, base).Ok?
    ensures ForkTx(s, source, target, base).value
         == s.(leaves := s.leaves - {target.thread}, bases := s.bases[target.thread := base])
    ensures source.scope == target.scope && base.parent == source.thread && base.child == target.thread
  {
  }

  lemma {:induction false} BatchEffect(s: Store, after: Store, stream: StreamId, records: seq<Record>, op: Op)
    requires Forest(s.entries) && InsertEvents(s.events, stream, records) == Ok(after.events)
    requires after.entries == s.entries && after.bases == s.bases && (op.AppendEvents? || op.AppendFenced?)
    ensures Effect(s, after, op)
  {
    InsertsAppend(s.events, stream, records);
  }

  lemma {:induction false} ClonedEffect(s: Store, after: Store, op: Op)
    requires op.Clone? && Cloned(s, after, op.leaf, op.target)
    ensures Effect(s, after, op)
  {
  }

  lemma {:induction false} ForkedEffect(s: Store, source: Coordinates, target: Coordinates, base: Base, after: Store)
    requires Forest(s.entries) && ForkTx(s, source, target, base) == Ok(after)
    ensures Effect(s, after, Fork(source, target, base))
  {
    ForkEffect(s, source, target, base);
  }

  lemma {:induction false} CommitEffect(s: Store, c: Call)
    requires Forest(s.entries) && Commits(s, c)
    ensures Effect(s, Commit(s, c), c.op)
  {
    var after := Commit(s, c);
    match c.op
    case Append(coords, parent, kind, ids, admissible) =>
      var r := AppendTx(s, c.epoch, coords, parent, kind, ids, admissible).value;
      ParentOk(s, coords, parent);
      EntryEffect(s, c.epoch, r.1, ids.event, admissible, after, c.op);
    case TurnInput(coords, turn, kind, ids) =>
      if !TurnRecorded(s.entries, coords.thread, turn) {
        var r := TurnTx(s, c.epoch, coords, turn, kind, ids).value;
        ParentOk(s, coords, None);
        EntryEffect(s, c.epoch, r.1, ids.event, true, after, c.op);
      }
    case Select(coords, leaf, event) => SelectEffect(s, c.epoch, coords, leaf, event, after);
    case Clone(source, leaf, target, supply) =>
      CloneEffect(s, c.epoch, source, leaf, target, supply);
      ClonedEffect(s, after, c.op);
    case Fork(source, target, base) => ForkedEffect(s, source, target, base, after);
    case AppendEvents(stream, records) => BatchEffect(s, after, stream, records, c.op);
    case AppendFenced(stream, expected, records) => BatchEffect(s, after, stream, records, c.op);
    case Reopen =>
  }

  lemma {:induction false} StepEffect(s: Store, c: Call)
    requires Forest(s.entries)
    ensures Forest(Commit(s, c).entries)
    ensures Grows(s, Commit(s, c))
  {
    if Commits(s, c) {
      CommitEffect(s, c);
    }
  }

  /** The state after a run of calls, in the order their transactions commit. */
  ghost function Run(s: Store, calls: seq<Call>): (after: Store)
    requires Forest(s.entries)
    ensures Forest(after.entries)
  {
    if calls == [] then s else
      var before := Run(s, calls[..|calls| - 1]);
      StepEffect(before, calls[|calls| - 1]);
      Commit(before, calls[|calls| - 1])
  }

  lemma {:induction false} RunSnoc(s: Store, calls: seq<Call>, k: nat)
    requires Forest(s.entries) && k < |calls|
    ensures Run(s, calls[..k + 1]) == Commit(Run(s, calls[..k]), calls[k])
  {
    assert calls[..k + 1][..k] == calls[..k];
  }

  ghost function Fold<S, C>(step: (S, C) -> S, s: S, calls: seq<C>): S {
    if calls == [] then s else step(Fold(step, s, calls[..|calls| - 1]), calls[|calls| - 1])
  }

  lemma {:induction false} FoldConcat<S, C>(step: (S, C) -> S, s: S, first: seq<C>, rest: seq<C>)
    ensures Fold(step, s, first + rest) == Fold(step, Fold(step, s, first), rest)
  {
    if rest == [] {
      assert first + rest == first;
    } else {
      FoldConcat(step, s, first, rest[..|rest| - 1]);
      assert (first + rest)[..|first + rest| - 1] == first + rest[..|rest| - 1];
    }
  }

  ghost function TotalCommit(s: Store, c: Call): Store {
    if Forest(s.entries) then Commit(s, c) else s
  }

  lemma {:induction false} RunIsFold(s: Store, calls: seq<Call>)
    requires Forest(s.entries)
    ensures Run(s, calls) == Fold(TotalCommit, s, calls)
  {
    if calls != [] {
      RunIsFold(s, calls[..|calls| - 1]);
    }
  }

  lemma {:induction false} RunConcat(s: Store, first: seq<Call>, rest: seq<Call>)
    requires Forest(s.entries)
    ensures Run(s, first + rest) == Run(Run(s, first), rest)
  {
    RunIsFold(s, first + rest);
    RunIsFold(s, first);
    RunIsFold(Run(s, first), rest);
    FoldConcat(TotalCommit, s, first, rest);
  }

  lemma {:induction false} RunGrows(s: Store, calls: seq<Call>)
    requires Forest(s.entries)
    ensures Grows(s, Run(s, calls))
  {
    if calls != [] {
      var before := Run(s, calls[..|calls| - 1]);
      RunGrows(s, calls[..|calls| - 1]);
      StepEffect(before, calls[|calls| - 1]);
    }
  }
}
