/** The leaf cache against the journal: replay restores it, and exactly when the two agree. */
module Replay {
  import opened Wrappers
  import opened HistoryModel
  import opened Journal
  import opened Branches
  import opened Transactions

  predicate IsBranchBody(b: Body) {
    !b.OtherBody?
  }

  /** The leaf a branch row leaves its thread at. */
  function Selection(b: Body): Option<EntryId> {
    match b
    case EntryAppended(entry) => entry
    case BranchSelected(_, selected, _) => selected
    case _ => None
  }

  /** The last branch row of a thread decides; a thread with none has no leaf. */
  function LeafFold(events: seq<Event>, t: ThreadId): Option<EntryId> {
    if events == [] then None else
      var e := events[|events| - 1];
      if e.coords.thread == t && IsBranchBody(e.body) then Selection(e.body)
      else LeafFold(events[..|events| - 1], t)
  }

  /** The leaf cache is the fold of the journal. */
  ghost predicate CacheAgrees(s: Store) {
    forall t :: Lookup(s.leaves, t) == LeafFold(s.events, t)
  }

  /** Branch rows parse, name their own thread, and select rows of that thread. */
  ghost predicate Sound(entries: Entries, events: seq<Event>) {
    forall k :: 0 <= k < |events| ==> SoundEvent(entries, events[k])
  }

  ghost predicate SoundEvent(entries: Entries, e: Event) {
    IsBranchBody(e.body) ==>
      && !e.body.Undecodable?
      && (e.body.BranchSelected? ==> e.body.thread == e.coords.thread)
      && (Selection(e.body).Some? ==> LoadEntry(entries, e.coords.thread, Selection(e.body).value).Some?)
  }

  // ----- Replay restores the fold -----

  /** Replay gives selected threads the fold of the rows read so far and touches no other thread. */
  lemma {:induction false} ReplayIsFold(entries: Entries, selected: set<ThreadId>, leaves: map<ThreadId, EntryId>, events: seq<Event>, t: ThreadId)
    requires forall u :: u in selected ==> u !in leaves
    requires ReplayEvents(entries, selected, leaves, events).Ok?
    ensures Lookup(ReplayEvents(entries, selected, leaves, events).value, t)
         == if t in selected then LeafFold(events, t) else Lookup(leaves, t)
  {
    if events != [] {
      ReplayIsFold(entries, selected, leaves, events[..|events| - 1], t);
    }
  }

  /** The branch rows of the given threads are sound. */
  ghost predicate SoundOn(entries: Entries, threads: set<ThreadId>, events: seq<Event>) {
    forall k :: 0 <= k < |events| ==> events[k].coords.thread in threads ==> SoundEvent(entries, events[k])
  }

  lemma {:induction false} SoundOnSnoc(entries: Entries, threads: set<ThreadId>, events: seq<Event>, e: Event)
    ensures SoundOn(entries, threads, events + [e])
        <==> SoundOn(entries, threads, events) && (e.coords.thread in threads ==> SoundEvent(entries, e))
  {
    var after := events + [e];
    assert after[|events|] == e;
    if SoundOn(entries, threads, after) {
      forall k | 0 <= k < |events| && events[k].coords.thread in threads ensures SoundEvent(entries, events[k]) {
        assert after[k] == events[k];
      }
    }
  }

  /** Replay fails at the first unsound row of a selected thread, and only there. */
  lemma {:induction false} ReplaySucceedsExactly(entries: Entries, selected: set<ThreadId>, leaves: map<ThreadId, EntryId>, events: seq<Event>)
    ensures ReplayEvents(entries, selected, leaves, events).Ok? <==> SoundOn(entries, selected, events)
  {
    if events != [] {
      var init, last := events[..|events| - 1], events[|events| - 1];
      ReplaySucceedsExactly(entries, selected, leaves, init);
      SoundOnSnoc(entries, selected, init, last);
      assert events == init + [last];
    }
  }

  /** Every branch row of a selected thread is sound. */
  ghost predicate Openable(s: Store) {
    SoundOn(s.entries, SelectedThreads(s.events), s.events)
  }

  /** Opening the store succeeds exactly when every branch row of a selected thread is sound.
      Whatever the cache held, it then gives every thread with a selection row the fold of its
      journal, and leaves the other threads and tables alone. */
  lemma {:induction false} RebuildRestoresFold(s: Store)
    ensures RebuildTx(s).Ok? <==> Openable(s)
    ensures RebuildTx(s).Ok? ==>
      var after := RebuildTx(s).value;
      && after == s.(leaves := after.leaves)
      && forall t :: Lookup(after.leaves, t)
           == if t in SelectedThreads(s.events) then LeafFold(s.events, t) else Lookup(s.leaves, t)
  {
    var selected := SelectedThreads(s.events);
    ReplaySucceedsExactly(s.entries, selected, s.leaves - selected, s.events);
    if RebuildTx(s).Ok? && selected != {} {
      forall t ensures Lookup(RebuildTx(s).value.leaves, t)
           == if t in selected then LeafFold(s.events, t) else Lookup(s.leaves, t)
      {
        ReplayIsFold(s.entries, selected, s.leaves - selected, s.events, t);
      }
    }
  }

  lemma {:induction false} SameLookupSameMap(a: map<ThreadId, EntryId>, b: map<ThreadId, EntryId>)
    requires forall t :: Lookup(a, t) == Lookup(b, t)
    ensures a == b
  {
    forall t ensures t in a <==> t in b {
      assert Lookup(a, t) == Lookup(b, t);
    }
    forall t | t in a ensures a[t] == b[t] {
      assert Lookup(a, t) == Lookup(b, t);
    }
  }

  /** When the cache agrees with the journal, a rebuild that succeeds changes nothing. */
  lemma {:induction false} RebuildOfAgreeingCache(s: Store)
    requires CacheAgrees(s) && RebuildTx(s).Ok?
    ensures RebuildTx(s).value == s
  {
    RebuildRestoresFold(s);
    var after := RebuildTx(s).value;
    forall t ensures Lookup(after.leaves, t) == Lookup(s.leaves, t) {
      assert Lookup(s.leaves, t) == LeafFold(s.events, t);
    }
    SameLookupSameMap(after.leaves, s.leaves);
  }

  // ----- When a step keeps the agreement -----

  /** The last branch record of a batch for one thread, if it has any. */
  function LastSelection(records: seq<Record>, t: ThreadId): Option<Option<EntryId>> {
    if records == [] then None else
      var r := records[|records| - 1];
      if r.coords.thread == t && IsBranchBody(r.body) then Some(Selection(r.body))
      else LastSelection(records[..|records| - 1], t)
  }

  /** What a caller can check beforehand: a fork or an emptying clone must target a thread without a
      leaf, and raw records must leave every thread they speak of at the leaf it already has. */
  ghost predicate KeepsCache(s: Store, op: Op) {
    match op
    case Fork(_, target, _) => Lookup(s.leaves, target.thread).None?
    case Clone(_, leaf, target, _) => leaf.None? ==> Lookup(s.leaves, target.thread).None?
    case AppendEvents(_, records) => RecordsRestateLeaves(s, records)
    case AppendFenced(_, _, records) => RecordsRestateLeaves(s, records)
    case _ => true
  }

  ghost predicate RecordsRestateLeaves(s: Store, records: seq<Record>) {
    forall t :: LastSelection(records, t).Some? ==> LastSelection(records, t).value == Lookup(s.leaves, t)
  }

  lemma {:induction false} FoldSnoc(events: seq<Event>, e: Event, t: ThreadId)
    ensures LeafFold(events + [e], t)
         == if e.coords.thread == t && IsBranchBody(e.body) then Selection(e.body) else LeafFold(events, t)
  {
    assert (events + [e])[..|events|] == events;
  }

  lemma {:induction false} FoldOfBatch(events: seq<Event>, stream: StreamId, records: seq<Record>, t: ThreadId)
    requires InsertEvents(events, stream, records).Ok?
    ensures LeafFold(InsertEvents(events, stream, records).value, t)
         == if LastSelection(records, t).Some? then LastSelection(records, t).value else LeafFold(events, t)
  {
    if records != [] {
      var init := records[..|records| - 1];
      FoldOfBatch(events, stream, init, t);
      var before := InsertEvents(events, stream, init).value;
      var after := InsertEvents(events, stream, records).value;
      FoldSnoc(before, after[|before|], t);
      assert after == before + [after[|before|]];
    }
  }

  /** One thread's leaf and fold move together; the others stand still. */
  ghost predicate MovesTogether(before: Store, after: Store, t: ThreadId, leaf: Option<EntryId>) {
    && (forall u :: u != t ==>
          Lookup(after.leaves, u) == Lookup(before.leaves, u) && LeafFold(after.events, u) == LeafFold(before.events, u))
    && Lookup(after.leaves, t) == leaf == LeafFold(after.events, t)
  }

  lemma {:induction false} EntryMoves(s: Store, epoch: nat, e: Entry, event: EventId, admissible: bool)
    requires AppendEntry(s, epoch, e, event, admissible).Ok?
    ensures MovesTogether(s, AppendEntry(s, epoch, e, event, admissible).value, e.coords.thread, Some(e.id))
  {
    var after := AppendEntry(s, epoch, e, event, admissible).value;
    var last := after.events[|s.events|];
    assert after.events == s.events + [last];
    forall u ensures LeafFold(after.events, u) == if u == e.coords.thread then Some(e.id) else LeafFold(s.events, u) {
      FoldSnoc(s.events, last, u);
    }
  }

  lemma {:induction false} SelectMoves(s: Store, epoch: nat, coords: Coordinates, leaf: Option<EntryId>, event: EventId)
    requires Forest(s.entries) && SelectTx(s, epoch, coords, leaf, event).Ok?
    ensures MovesTogether(s, SelectTx(s, epoch, coords, leaf, event).value, coords.thread, leaf)
  {
    var after := SelectTx(s, epoch, coords, leaf, event).value;
    var last := after.events[|s.events|];
    assert after.events == s.events + [last];
    forall u ensures LeafFold(after.events, u) == if u == coords.thread then leaf else LeafFold(s.events, u) {
      FoldSnoc(s.events, last, u);
    }
  }

  lemma {:induction false} CopyFold(s: Store, target: Coordinates, path: seq<Entry>, supply: nat -> FreshIds, t: ThreadId)
    requires CopyPath(s, target, path, supply).Ok?
    ensures LeafFold(CopyPath(s, target, path, supply).value.events, t)
         == if t == target.thread && path != [] then Some(supply(|path| - 1).entry) else LeafFold(s.events, t)
  {
    if path != [] {
      CopyFold(s, target, path[..|path| - 1], supply, t);
      var before := CopyPath(s, target, path[..|path| - 1], supply).value;
      var after := CopyPath(s, target, path, supply).value;
      FoldSnoc(before.events, after.events[|before.events|], t);
      assert after.events == before.events + [after.events[|before.events|]];
    }
  }

  lemma {:induction false} CloneMoves(s: Store, epoch: nat, source: Coordinates, leaf: EntryId, target: Coordinates, supply: nat -> FreshIds)
    requires Forest(s.entries) && CloneTx(s, epoch, source, Some(leaf), target, supply).Ok?
    ensures var r := CloneTx(s, epoch, source, Some(leaf), target, supply).value;
      MovesTogether(s, r.0, target.thread, r.1)
  {
    PathIsBranch(s.entries, source, leaf);
    var path := BranchPath(s.entries, source, leaf).value;
    var epochs := EnforceLease(s.epochs, ThreadStream(target.thread), epoch).value;
    var fenced := Detached(s, target.thread, epochs);
    var last := supply(|path| - 1).entry;
    CopyMoves(fenced, target, path, supply);
    var after := Landed(CopyPath(fenced, target, path, supply).value, target.thread, path, supply).0;
    assert CloneTx(s, epoch, source, Some(leaf), target, supply) == Ok((after, Some(last)));
    assert MovesTogether(fenced, after, target.thread, Some(last)) && fenced.leaves == s.leaves && fenced.events == s.events;
  }

  lemma {:induction false} CopyMoves(s: Store, target: Coordinates, path: seq<Entry>, supply: nat -> FreshIds)
    requires path != [] && Forest(s.entries) && CopyPath(s, target, path, supply).Ok?
    ensures var last := supply(|path| - 1).entry;
      MovesTogether(s, SetLeaf(CopyPath(s, target, path, supply).value, target.thread, last), target.thread, Some(last))
  {
    CopyEffect(s, target, path, supply);
    forall t ensures LeafFold(CopyPath(s, target, path, supply).value.events, t)
         == if t == target.thread then Some(supply(|path| - 1).entry) else LeafFold(s.events, t)
    {
      CopyFold(s, target, path, supply, t);
    }
  }

  lemma {:induction false} MovingKeepsAgreement(before: Store, after: Store, t: ThreadId, leaf: Option<EntryId>)
    requires CacheAgrees(before) && MovesTogether(before, after, t, leaf)
    ensures CacheAgrees(after)
  {
    forall u ensures Lookup(after.leaves, u) == LeafFold(after.events, u) {
      assert Lookup(before.leaves, u) == LeafFold(before.events, u);
    }
  }

  lemma {:induction false} ClearingAgreement(before: Store, after: Store, t: ThreadId)
    requires CacheAgrees(before) && after.leaves == before.leaves - {t} && after.events == before.events
    ensures CacheAgrees(after) <==> Lookup(before.leaves, t).None?
  {
    assert Lookup(before.leaves, t) == LeafFold(before.events, t);
    assert Lookup(after.leaves, t) == None;
    if Lookup(before.leaves, t).None? {
      assert after.leaves == before.leaves;
    }
  }

  lemma {:induction false} BatchAgreement(before: Store, after: Store, stream: StreamId, records: seq<Record>)
    requires CacheAgrees(before) && after.leaves == before.leaves
    requires InsertEvents(before.events, stream, records) == Ok(after.events)
    ensures CacheAgrees(after) <==> RecordsRestateLeaves(before, records)
  {
    forall t ensures LeafFold(after.events, t)
      == if LastSelection(records, t).Some? then LastSelection(records, t).value else Lookup(before.leaves, t)
    {
      FoldOfBatch(before.events, stream, records, t);
      assert Lookup(before.leaves, t) == LeafFold(before.events, t);
    }
    if CacheAgrees(after) {
      forall t | LastSelection(records, t).Some? ensures LastSelection(records, t).value == Lookup(before.leaves, t) {
        assert Lookup(after.leaves, t) == LeafFold(after.events, t);
      }
    }
  }

  /** From an agreeing state, a committed call leaves cache and journal in agreement if and only if
      it keeps to `KeepsCache`. */
  lemma {:induction false} AgreementKeptExactly(s: Store, c: Call)
    requires Forest(s.entries) && CacheAgrees(s) && Commits(s, c)
    ensures CacheAgrees(Commit(s, c)) <==> KeepsCache(s, c.op)
  {
    var after := Commit(s, c);
    match c.op
    case Append(coords, parent, kind, ids, admissible) =>
      var r := AppendTx(s, c.epoch, coords, parent, kind, ids, admissible).value;
      EntryMoves(s, c.epoch, r.1, ids.event, admissible);
      MovingKeepsAgreement(s, after, coords.thread, Some(r.1.id));
    case TurnInput(coords, turn, kind, ids) =>
      if !TurnRecorded(s.entries, coords.thread, turn) {
        var r := TurnTx(s, c.epoch, coords, turn, kind, ids).value;
        EntryMoves(s, c.epoch, r.1, ids.event, true);
        MovingKeepsAgreement(s, after, coords.thread, Some(r.1.id));
      }
    case Select(coords, leaf, event) =>
      SelectMoves(s, c.epoch, coords, leaf, event);
      MovingKeepsAgreement(s, after, coords.thread, leaf);
    case Clone(source, leaf, target, supply) =>
      if leaf.Some? {
        CloneMoves(s, c.epoch, source, leaf.value, target, supply);
        MovingKeepsAgreement(s, after, target.thread, CloneTx(s, c.epoch, source, leaf, target, supply).value.1);
      } else {
        ClearingAgreement(s, after, target.thread);
      }
    case Fork(source, target, base) =>
      ForkEffect(s, source, target, base);
      ClearingAgreement(s, after, target.thread);
    case AppendEvents(stream, records) => BatchAgreement(s, after, stream, records);
    case AppendFenced(stream, expected, records) => BatchAgreement(s, after, stream, records);
    case Reopen => RebuildOfAgreeingCache(s);
  }

  // ----- Runs -----

  ghost predicate NoBranchRecords(op: Op) {
    (op.AppendEvents? || op.AppendFenced?) ==> forall k :: 0 <= k < |op.records| ==> op.records[k].body.OtherBody?
  }

  /** Raw appends carry no branch kinds; forks and emptying clones target threads without a leaf. */
  ghost predicate Disciplined(s: Store, c: Call) {
    NoBranchRecords(c.op) && KeepsCache(s, c.op)
  }

  ghost predicate DisciplinedRun(s: Store, calls: seq<Call>)
    requires Forest(s.entries)
  {
    forall k :: 0 <= k < |calls| ==> Disciplined(Run(s, calls[..k]), calls[k])
  }

  lemma {:induction false} SoundSnoc(entries: Entries, events: seq<Event>, e: Event)
    requires Sound(entries, events) && SoundEvent(entries, e)
    ensures Sound(entries, events + [e])
  {
  }

  lemma {:induction false} SoundGrows(before: Entries, after: Entries, events: seq<Event>)
    requires Sound(before, events) && Extends(before, after)
    ensures Sound(after, events)
  {
    forall k | 0 <= k < |events| ensures SoundEvent(after, events[k]) {
      assert SoundEvent(before, events[k]);
    }
  }

  lemma {:induction false} InsertKeepsSound(s: Store, e: Entry, event: EventId, admissible: bool)
    requires Sound(s.entries, s.events) && InsertEntry(s, e, event, admissible).Ok?
    ensures var after := InsertEntry(s, e, event, admissible).value; Sound(after.entries, after.events)
  {
    var after := InsertEntry(s, e, event, admissible).value;
    SoundGrows(s.entries, after.entries, s.events);
    SoundSnoc(after.entries, s.events, after.events[|s.events|]);
  }

  lemma {:induction false} CopyKeepsSound(s: Store, target: Coordinates, path: seq<Entry>, supply: nat -> FreshIds)
    requires Sound(s.entries, s.events) && CopyPath(s, target, path, supply).Ok?
    ensures var after := CopyPath(s, target, path, supply).value; Sound(after.entries, after.events)
  {
    if path != [] {
      var n := |path| - 1;
      CopyKeepsSound(s, target, path[..n], supply);
      var before := CopyPath(s, target, path[..n], supply).value;
      var parent := if n == 0 then None else Some(supply(n - 1).entry);
      InsertKeepsSound(before, Entry(supply(n).entry, parent, None, target, path[n].kind, |before.entries|), supply(n).event, true);
    }
  }

  lemma {:induction false} BatchKeepsSound(entries: Entries, events: seq<Event>, stream: StreamId, records: seq<Record>)
    requires Sound(entries, events) && InsertEvents(events, stream, records).Ok?
    requires forall k :: 0 <= k < |records| ==> records[k].body.OtherBody?
    ensures Sound(entries, InsertEvents(events, stream, records).value)
  {
    InsertsAppend(events, stream, records);
    var after := InsertEvents(events, stream, records).value;
    forall k | 0 <= k < |after| ensures SoundEvent(entries, after[k]) {
      if k >= |events| {
        assert after[k] == after[|events|..][k - |events|];
      } else {
        assert after[k] == events[k];
      }
    }
  }

  lemma {:induction false} SelectKeepsSound(s: Store, epoch: nat, coords: Coordinates, leaf: Option<EntryId>, event: EventId)
    requires Forest(s.entries) && Sound(s.entries, s.events) && SelectTx(s, epoch, coords, leaf, event).Ok?
    ensures Sound(s.entries, SelectTx(s, epoch, coords, leaf, event).value.events)
  {
    if leaf.Some? {
      PathIsBranch(s.entries, coords, leaf.value);
    }
    SoundSnoc(s.entries, s.events, SelectTx(s, epoch, coords, leaf, event).value.events[|s.events|]);
  }

  lemma {:induction false} EntryKeepsSound(s: Store, epoch: nat, e: Entry, event: EventId, admissible: bool, after: Store)
    requires Sound(s.entries, s.events) && AppendEntry(s, epoch, e, event, admissible) == Ok(after)
    ensures Sound(after.entries, after.events)
  {
    var epochs := EnforceLease(s.epochs, ThreadStream(e.coords.thread), epoch).value;
    InsertKeepsSound(s.(epochs := epochs), e, event, admissible);
  }

  lemma {:induction false} CloneKeepsSound(s: Store, epoch: nat, source: Coordinates, leaf: EntryId, target: Coordinates, supply: nat -> FreshIds)
    requires Forest(s.entries) && Sound(s.entries, s.events) && CloneTx(s, epoch, source, Some(leaf), target, supply).Ok?
    ensures var after := CloneTx(s, epoch, source, Some(leaf), target, supply).value.0; Sound(after.entries, after.events)
  {
    var path := BranchPath(s.entries, source, leaf).value;
    var epochs := EnforceLease(s.epochs, ThreadStream(target.thread), epoch).value;
    CopyKeepsSound(Detached(s, target.thread, epochs), target, path, supply);
  }

  lemma {:induction false} StepKeepsSound(s: Store, c: Call)
    requires Forest(s.entries) && Sound(s.entries, s.events) && NoBranchRecords(c.op)
    ensures Sound(Commit(s, c).entries, Commit(s, c).events)
  {
    if Commits(s, c) {
      var after := Commit(s, c);
      match c.op
      case Append(coords, parent, kind, ids, admissible) =>
        var r := AppendTx(s, c.epoch, coords, parent, kind, ids, admissible).value;
        EntryKeepsSound(s, c.epoch, r.1, ids.event, admissible, after);
      case TurnInput(coords, turn, kind, ids) =>
        if !TurnRecorded(s.entries, coords.thread, turn) {
          var r := TurnTx(s, c.epoch, coords, turn, kind, ids).value;
          EntryKeepsSound(s, c.epoch, r.1, ids.event, true, after);
        }
      case Select(coords, leaf, event) => SelectKeepsSound(s, c.epoch, coords, leaf, event);
      case Clone(source, leaf, target, supply) =>
        if leaf.Some? {
          CloneKeepsSound(s, c.epoch, source, leaf.value, target, supply);
        }
      case AppendEvents(stream, records) => BatchKeepsSound(s.entries, s.events, stream, records);
      case AppendFenced(stream, expected, records) => BatchKeepsSound(s.entries, s.events, stream, records);
      case Fork(source, target, base) => ForkEffect(s, source, target, base);
      case Reopen =>
    }
  }

  lemma {:induction false} JournalStaysSound(s: Store, calls: seq<Call>)
    requires Forest(s.entries) && Sound(s.entries, s.events)
    requires forall c :: c in calls ==> NoBranchRecords(c.op)
    ensures Sound(Run(s, calls).entries, Run(s, calls).events)
  {
    if calls != [] {
      JournalStaysSound(s, calls[..|calls| - 1]);
      StepKeepsSound(Run(s, calls[..|calls| - 1]), calls[|calls| - 1]);
    }
  }

  lemma {:induction false} CacheEqualsReplay(s: Store, calls: seq<Call>)
    requires Forest(s.entries) && CacheAgrees(s) && DisciplinedRun(s, calls)
    ensures CacheAgrees(Run(s, calls))
  {
    if calls != [] {
      var n := |calls| - 1;
      var init := calls[..n];
      forall k | 0 <= k < |init| ensures Disciplined(Run(s, init[..k]), init[k]) {
        assert init[..k] == calls[..k] && init[k] == calls[k];
      }
      CacheEqualsReplay(s, init);
      assert Disciplined(Run(s, calls[..n]), calls[n]);
      if Commits(Run(s, init), calls[n]) {
        AgreementKeptExactly(Run(s, init), calls[n]);
      }
    }
  }

  /** In every state a disciplined run reaches, the cache is the fold of the journal and reopening
      the store changes nothing; and from any corruption of the cache, reopening gives back the
      fold on every thread with a selection row. */
  lemma {:induction false} ReopenIsIdentity(calls: seq<Call>, corrupted: map<ThreadId, EntryId>)
    requires DisciplinedRun(EMPTY, calls)
    ensures CacheAgrees(Run(EMPTY, calls))
    ensures RebuildTx(Run(EMPTY, calls)) == Ok(Run(EMPTY, calls))
    ensures var damaged := Run(EMPTY, calls).(leaves := corrupted);
      && RebuildTx(damaged).Ok?
      && forall t :: t in SelectedThreads(damaged.events) ==>
           Lookup(RebuildTx(damaged).value.leaves, t) == Lookup(Run(EMPTY, calls).leaves, t)
  {
    forall c | c in calls ensures NoBranchRecords(c.op) {
      var k :| 0 <= k < |calls| && calls[k] == c;
      assert Disciplined(Run(EMPTY, calls[..k]), calls[k]);
    }
    var s := Run(EMPTY, calls);
    CacheEqualsReplay(EMPTY, calls);
    JournalStaysSound(EMPTY, calls);
    RebuildRestoresFold(s);
    RebuildOfAgreeingCache(s);
    RebuildRestoresFold(s.(leaves := corrupted));
  }

  // ----- A run outside the discipline -----

  const HERE := Coordinates(Scope("tenant", "user", "session"), 1)
  const THERE := Coordinates(Scope("tenant", "user", "session"), 2)

  const NOTE := Entry(7, None, None, HERE, OtherKind("note"), 0)
  const NOTED := Event(1, ThreadStream(1), 1, HERE, EntryAppended(Some(7)))
  const PICKED := Event(2, ThreadStream(1), 2, HERE, BranchSelected(1, Some(7), Some(7)))
  const OVER := Base(1, 2, None, ThreadStream(2))

  const APPEND_NOTE := Append(HERE, None, OtherKind("note"), FreshIds(7, 1), true)
  const PICK_NOTE := Select(HERE, Some(7), 2)
  const FORK_OVER := Fork(THERE, HERE, OVER)

  const AFTER_NOTE := Store([NOTED], map[7 := NOTE], map[1 := 7], map[], map[])
  const AFTER_PICK := Store([NOTED, PICKED], map[7 := NOTE], map[1 := 7], map[], map[])
  const AFTER_FORK := Store([NOTED, PICKED], map[7 := NOTE], map[], map[1 := OVER], map[])

  lemma {:induction false} NoteIsForest()
    ensures Forest(AFTER_NOTE.entries)
  {
    assert RowOk(AFTER_NOTE.entries, 7);
  }

  lemma {:induction false} WitnessAppend()
    ensures AppendTx(EMPTY, 0, HERE, None, OtherKind("note"), FreshIds(7, 1), true) == Ok((AFTER_NOTE, NOTE))
  {
    var events: seq<Event> := [];
    var entries: Entries := map[];
    var leaves: map<ThreadId, EntryId> := map[];
    assert events + [NOTED] == [NOTED] && entries[7 := NOTE] == map[7 := NOTE] && leaves[1 := 7] == map[1 := 7];
    assert InsertEvent(EMPTY.events, ThreadStream(1), Record(1, HERE, EntryAppended(Some(7)), true)) == Ok([NOTED]);
  }

  lemma {:induction false} WitnessSelect()
    requires Forest(AFTER_NOTE.entries)
    ensures SelectTx(AFTER_NOTE, 0, HERE, Some(7), 2) == Ok(AFTER_PICK)
  {
    assert RowOk(AFTER_NOTE.entries, 7);
    assert BranchPath(AFTER_NOTE.entries, HERE, 7) == Ok([NOTE]);
    assert [NOTED][..0] == [];
    assert MaxSequence([NOTED], ThreadStream(1)) == 1;
    assert [NOTED] + [PICKED] == [NOTED, PICKED];
    assert InsertEvent([NOTED], ThreadStream(1), Record(2, HERE, BranchSelected(1, Some(7), Some(7)), true))
        == Ok([NOTED, PICKED]);
    assert AFTER_NOTE.leaves[1 := 7] == map[1 := 7];
  }

  lemma {:induction false} WitnessFork()
    requires Forest(AFTER_PICK.entries)
    ensures ForkTx(AFTER_PICK, THERE, HERE, OVER) == Ok(AFTER_FORK)
  {
    assert CheckBaseCycle(AFTER_PICK.bases, 1, 2, {}) == Ok(());
    assert AFTER_PICK.leaves - {1} == map[];
  }

  lemma {:induction false} WitnessRun()
    ensures Run(EMPTY, [Call(0, APPEND_NOTE), Call(0, PICK_NOTE), Call(0, FORK_OVER)]) == AFTER_FORK
  {
    NoteIsForest();
    WitnessAppend();
    WitnessSelect();
    WitnessFork();
    RunOfThree(EMPTY, Call(0, APPEND_NOTE), Call(0, PICK_NOTE), Call(0, FORK_OVER));
  }

  /** The agreement is not unconditional: append to a thread, select the entry, then fork another
      thread over it. The fork clears the leaf, and reopening the store brings it back. */
  lemma {:induction false} ForkOverSelectionResurrects()
    ensures Run(EMPTY, [Call(0, APPEND_NOTE), Call(0, PICK_NOTE), Call(0, FORK_OVER)]) == AFTER_FORK
    ensures Lookup(AFTER_FORK.leaves, 1) == None
    ensures RebuildTx(AFTER_FORK).Ok? && Lookup(RebuildTx(AFTER_FORK).value.leaves, 1) == Some(7)
  {
    WitnessRun();
    assert Sound(AFTER_FORK.entries, AFTER_FORK.events);
    RebuildRestoresFold(AFTER_FORK);
    assert PICKED in AFTER_FORK.events;
    assert 1 in SelectedThreads(AFTER_FORK.events);
  }

  lemma {:induction false} RunOfThree(s: Store, a: Call, b: Call, c: Call)
    requires Forest(s.entries)
    ensures Forest(Commit(s, a).entries) && Forest(Commit(Commit(s, a), b).entries)
    ensures Run(s, [a, b, c]) == Commit(Commit(Commit(s, a), b), c)
  {
    StepEffect(s, a);
    StepEffect(Commit(s, a), b);
    RunSnoc(s, [a, b, c], 0);
    RunSnoc(s, [a, b, c], 1);
    RunSnoc(s, [a, b, c], 2);
    assert [a, b, c][..3] == [a, b, c] && Run(s, [a, b, c][..0]) == s;
  }
}
