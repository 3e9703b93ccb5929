/** Opening the store again: exactly which journals can be opened, which stores an opening leaves as
    they are, and which calls keep it so. */
module Reopen {
  import opened Wrappers
  import opened HistoryModel
  import opened Journal
  import opened Branches
  import opened Transactions
  import opened Replay

  // ----- Which stores open, and which open unchanged -----

  ghost predicate AgreesOnSelected(s: Store) {
    forall t :: t in SelectedThreads(s.events) ==> Lookup(s.leaves, t) == LeafFold(s.events, t)
  }

  /** Opening changes nothing. */
  ghost predicate Settled(s: Store) {
    RebuildTx(s) == Ok(s)
  }

  /** Opening leaves the store as it is exactly when it succeeds and the cache is the journal's fold
      on every selected thread. */
  lemma {:induction false} SettledExactly(s: Store)
    ensures Settled(s) <==> Openable(s) && AgreesOnSelected(s)
  {
    RebuildRestoresFold(s);
    if Openable(s) {
      var after := RebuildTx(s).value;
      if AgreesOnSelected(s) {
        forall t ensures Lookup(after.leaves, t) == Lookup(s.leaves, t) {
        }
        SameLookupSameMap(after.leaves, s.leaves);
      }
      if Settled(s) {
        forall t | t in SelectedThreads(s.events) ensures Lookup(s.leaves, t) == LeafFold(s.events, t) {
          assert Lookup(after.leaves, t) == LeafFold(s.events, t);
        }
      }
    }
  }

  // ----- What a caller can check beforehand -----

  predicate Selects(b: Body) {
    b.BranchSelected? || (b.Undecodable? && b.selection)
  }

  /** The threads a batch selects on. */
  function SelectedBy(records: seq<Record>): set<ThreadId> {
    set r | r in records && Selects(r.body) :: r.coords.thread
  }

  ghost predicate SoundRecord(entries: Entries, r: Record) {
    SoundEvent(entries, Event(r.id, ThreadStream(0), 0, r.coords, r.body))
  }

  /** A batch spares the opening: on every thread that is selected, or that it selects, its branch
      records are sound and end at the leaf the thread has; and a thread it selects for the first
      time has only sound branch rows. */
  ghost predicate BatchSpares(s: Store, records: seq<Record>) {
    var selected := SelectedThreads(s.events) + SelectedBy(records);
    && RecordsSound(s.entries, selected, records)
    && RestatesOn(s, selected, records)
    && SoundOn(s.entries, SelectedBy(records), s.events)
  }

  /** What keeps the next opening without effect. A fork or an emptying clone must not target a
      selected thread that has a leaf; a selection needs a thread whose branch rows are sound; an
      append or a copying clone needs nothing. */
  ghost predicate KeepsSettled(s: Store, op: Op) {
    match op
    case Select(coords, _, _) => SoundOn(s.entries, {coords.thread}, s.events)
    case Fork(_, target, _) => ClearsNoSelection(s, target.thread)
    case Clone(_, leaf, target, _) => leaf.None? ==> ClearsNoSelection(s, target.thread)
    case AppendEvents(_, records) => BatchSpares(s, records)
    case AppendFenced(_, _, records) => BatchSpares(s, records)
    case _ => true
  }

  predicate ClearsNoSelection(s: Store, t: ThreadId) {
    t in SelectedThreads(s.events) ==> t !in s.leaves
  }

  // ----- One call -----

  lemma {:induction false} SelectedSnoc(events: seq<Event>, e: Event)
    ensures SelectedThreads(events + [e])
         == SelectedThreads(events) + (if Selects(e.body) then {e.coords.thread} else {})
  {
    var after := events + [e];
    assert forall x :: x in after <==> x in events || x == e;
  }

  /** Soundness of rows only grows with the entries. */
  lemma {:induction false} SoundOnGrows(before: Entries, after: Entries, threads: set<ThreadId>, events: seq<Event>)
    requires SoundOn(before, threads, events) && Extends(before, after)
    ensures SoundOn(after, threads, events)
  {
    forall k | 0 <= k < |events| && events[k].coords.thread in threads ensures SoundEvent(after, events[k]) {
      assert SoundEvent(before, events[k]);
    }
  }

  /** The rows from `n` on are sound appends on thread `t`. */
  ghost predicate AppendsFrom(entries: Entries, events: seq<Event>, n: nat, t: ThreadId) {
    forall k :: n <= k < |events| ==>
      events[k].body.EntryAppended? && events[k].coords.thread == t && SoundEvent(entries, events[k])
  }

  lemma {:induction false} AppendsSelectNothing(entries: Entries, before: seq<Event>, events: seq<Event>, t: ThreadId, threads: set<ThreadId>)
    requires before <= events && AppendsFrom(entries, events, |before|, t)
    ensures SelectedThreads(events) == SelectedThreads(before)
    ensures SoundOn(entries, threads, events) <==> SoundOn(entries, threads, before)
    decreases |events|
  {
    if before == events {
      assert SelectedThreads(events) == SelectedThreads(before);
    } else {
      var init, last := events[..|events| - 1], events[|events| - 1];
      assert events == init + [last] && AppendsFrom(entries, init, |before|, t);
      AppendsSelectNothing(entries, before, init, t, threads);
      SelectedSnoc(init, last);
      SoundOnSnoc(entries, threads, init, last);
    }
  }

  /** Appending sound rows to one thread, its leaf moving along, keeps the store settled. */
  lemma {:induction false} AppendsKeepSettled(s: Store, after: Store, t: ThreadId, leaf: Option<EntryId>)
    requires Settled(s) && Extends(s.entries, after.entries) && s.events <= after.events
    requires AppendsFrom(after.entries, after.events, |s.events|, t) && MovesTogether(s, after, t, leaf)
    ensures Settled(after)
  {
    SettledExactly(s);
    SettledExactly(after);
    var selected := SelectedThreads(s.events);
    AppendsSelectNothing(after.entries, s.events, after.events, t, selected);
    SoundOnGrows(s.entries, after.entries, selected, s.events);
  }

  lemma {:induction false} EntryKeepsSettled(s: Store, epoch: nat, e: Entry, event: EventId, admissible: bool, after: Store)
    requires Settled(s) && AppendEntry(s, epoch, e, event, admissible) == Ok(after)
    ensures Settled(after)
  {
    EntryMoves(s, epoch, e, event, admissible);
    AppendsKeepSettled(s, after, e.coords.thread, Some(e.id));
  }

  lemma {:induction false} CopyAppends(s: Store, target: Coordinates, path: seq<Entry>, supply: nat -> FreshIds, after: Store)
    requires CopyPath(s, target, path, supply) == Ok(after)
    ensures s.events <= after.events && Extends(s.entries, after.entries)
    ensures AppendsFrom(after.entries, after.events, |s.events|, target.thread)
    decreases |path|
  {
    if path != [] {
      var before := CopyPath(s, target, path[..|path| - 1], supply).value;
      CopyAppends(s, target, path[..|path| - 1], supply, before);
      forall k | |s.events| <= k < |before.events| ensures SoundEvent(after.entries, before.events[k]) {
        assert SoundEvent(before.entries, before.events[k]);
      }
    }
  }

  lemma {:induction false} CloneKeepsSettled(s: Store, epoch: nat, source: Coordinates, leaf: EntryId, target: Coordinates,
                                             supply: nat -> FreshIds, after: Store, last: Option<EntryId>)
    requires Forest(s.entries) && Settled(s) && CloneTx(s, epoch, source, Some(leaf), target, supply) == Ok((after, last))
    ensures Settled(after)
  {
    CloneMoves(s, epoch, source, leaf, target, supply);
    var path := BranchPath(s.entries, source, leaf).value;
    var fenced := Detached(s, target.thread, EnforceLease(s.epochs, ThreadStream(target.thread), epoch).value);
    CopyAppends(fenced, target, path, supply, CopyPath(fenced, target, path, supply).value);
    AppendsKeepSettled(s, after, target.thread, last);
  }

  lemma {:induction false} ClearingKeepsSettled(s: Store, after: Store, t: ThreadId)
    requires Settled(s) && after.leaves == s.leaves - {t} && after.events == s.events && after.entries == s.entries
    ensures Settled(after) <==> ClearsNoSelection(s, t)
  {
    SettledExactly(s);
    SettledExactly(after);
    forall u ensures Lookup(after.leaves, u) == if u == t then None else Lookup(s.leaves, u) {
    }
    if t in SelectedThreads(s.events) {
      assert Lookup(s.leaves, t) == LeafFold(s.events, t);
    }
  }

  lemma {:induction false} SelectKeepsSettled(s: Store, epoch: nat, coords: Coordinates, leaf: Option<EntryId>, event: EventId, after: Store)
    requires Forest(s.entries) && Settled(s) && SelectTx(s, epoch, coords, leaf, event) == Ok(after)
    ensures Settled(after) <==> SoundOn(s.entries, {coords.thread}, s.events)
  {
    SettledExactly(s);
    SettledExactly(after);
    SelectOpens(s, epoch, coords, leaf, event, after);
    SelectMoves(s, epoch, coords, leaf, event);
  }

  lemma {:induction false} SelectOpens(s: Store, epoch: nat, coords: Coordinates, leaf: Option<EntryId>, event: EventId, after: Store)
    requires Forest(s.entries) && Openable(s) && SelectTx(s, epoch, coords, leaf, event) == Ok(after)
    ensures SelectedThreads(after.events) == SelectedThreads(s.events) + {coords.thread}
    ensures Openable(after) <==> SoundOn(s.entries, {coords.thread}, s.events)
  {
    var e := after.events[|s.events|];
    assert after.events == s.events + [e];
    if leaf.Some? {
      PathIsBranch(s.entries, coords, leaf.value);
    }
    SelectedSnoc(s.events, e);
    var selected := SelectedThreads(s.events);
    SoundOnSnoc(s.entries, selected + {coords.thread}, s.events, e);
    SoundOnUnion(s.entries, selected, {coords.thread}, s.events);
  }

  lemma {:induction false} SoundOnUnion(entries: Entries, a: set<ThreadId>, b: set<ThreadId>, events: seq<Event>)
    ensures SoundOn(entries, a + b, events) <==> SoundOn(entries, a, events) && SoundOn(entries, b, events)
  {
  }

  lemma {:induction false} SelectedByBatch(before: seq<Event>, added: seq<Event>, stream: StreamId, records: seq<Record>)
    requires Stamped(added, stream, records)
    ensures SelectedThreads(before + added) == SelectedThreads(before) + SelectedBy(records)
  {
    forall t ensures t in SelectedThreads(before + added) <==> t in SelectedThreads(before) || t in SelectedBy(records) {
      if t in SelectedBy(records) {
        var k :| 0 <= k < |records| && Selects(records[k].body) && records[k].coords.thread == t;
        assert added[k] in before + added;
      }
      if t in SelectedThreads(before + added) {
        var e :| e in before + added && Selects(e.body) && e.coords.thread == t;
        if e !in before {
          var k :| 0 <= k < |added| && added[k] == e;
          assert records[k] in records;
        }
      }
    }
  }

  ghost predicate RecordsSound(entries: Entries, threads: set<ThreadId>, records: seq<Record>) {
    forall k :: 0 <= k < |records| ==> records[k].coords.thread in threads ==> SoundRecord(entries, records[k])
  }

  lemma {:induction false} SoundOnBatch(entries: Entries, threads: set<ThreadId>, before: seq<Event>, added: seq<Event>,
                                        stream: StreamId, records: seq<Record>)
    requires Stamped(added, stream, records)
    ensures SoundOn(entries, threads, before + added)
        <==> SoundOn(entries, threads, before) && RecordsSound(entries, threads, records)
  {
    var after := before + added;
    if SoundOn(entries, threads, after) {
      forall k | 0 <= k < |before| && before[k].coords.thread in threads ensures SoundEvent(entries, before[k]) {
        assert after[k] == before[k];
      }
      forall k | 0 <= k < |records| && records[k].coords.thread in threads ensures SoundRecord(entries, records[k]) {
        assert after[|before| + k] == added[k];
      }
    }
    if SoundOn(entries, threads, before) && RecordsSound(entries, threads, records) {
      forall k | 0 <= k < |after| && after[k].coords.thread in threads ensures SoundEvent(entries, after[k]) {
        if k >= |before| {
          assert after[k] == added[k - |before|] && SoundRecord(entries, records[k - |before|]);
        }
      }
    }
  }

  lemma {:induction false} SelectedHasLast(records: seq<Record>, t: ThreadId)
    requires t in SelectedBy(records)
    ensures LastSelection(records, t).Some?
  {
    var k :| 0 <= k < |records| && Selects(records[k].body) && records[k].coords.thread == t;
    if k < |records| - 1 {
      assert records[..|records| - 1][k] == records[k];
      SelectedHasLast(records[..|records| - 1], t);
    }
  }

  ghost predicate RestatesOn(s: Store, threads: set<ThreadId>, records: seq<Record>) {
    forall t :: t in threads && LastSelection(records, t).Some? ==> LastSelection(records, t).value == Lookup(s.leaves, t)
  }

  lemma {:induction false} BatchAgreesOn(s: Store, after: Store, stream: StreamId, records: seq<Record>)
    requires AgreesOnSelected(s) && after.leaves == s.leaves && InsertEvents(s.events, stream, records) == Ok(after.events)
    requires SelectedThreads(after.events) == SelectedThreads(s.events) + SelectedBy(records)
    ensures AgreesOnSelected(after) <==> RestatesOn(s, SelectedThreads(after.events), records)
  {
    forall t | t in SelectedThreads(after.events)
      ensures Lookup(after.leaves, t) == LeafFold(after.events, t) <==>
                (LastSelection(records, t).Some? ==> LastSelection(records, t).value == Lookup(s.leaves, t))
    {
      FoldOfBatch(s.events, stream, records, t);
      if t in SelectedBy(records) {
        SelectedHasLast(records, t);
      }
    }
  }

  lemma {:induction false} BatchOpens(s: Store, after: Store, stream: StreamId, records: seq<Record>)
    requires Openable(s) && after.entries == s.entries
    requires InsertEvents(s.events, stream, records) == Ok(after.events)
    ensures SelectedThreads(after.events) == SelectedThreads(s.events) + SelectedBy(records)
    ensures Openable(after) <==>
              SoundOn(s.entries, SelectedBy(records), s.events)
              && RecordsSound(s.entries, SelectedThreads(after.events), records)
  {
    InsertsAppend(s.events, stream, records);
    var added := after.events[|s.events|..];
    assert after.events == s.events + added;
    SelectedByBatch(s.events, added, stream, records);
    SoundOnBatch(s.entries, SelectedThreads(after.events), s.events, added, stream, records);
    SoundOnUnion(s.entries, SelectedThreads(s.events), SelectedBy(records), s.events);
  }

  lemma {:induction false} BatchKeepsSettled(s: Store, after: Store, stream: StreamId, records: seq<Record>)
    requires Settled(s) && after.leaves == s.leaves && after.entries == s.entries
    requires InsertEvents(s.events, stream, records) == Ok(after.events)
    ensures Settled(after) <==> BatchSpares(s, records)
  {
    SettledExactly(s);
    SettledExactly(after);
    BatchOpens(s, after, stream, records);
    BatchAgreesOn(s, after, stream, records);
  }

  /** From a store that opens unchanged, a committed call gives one that opens unchanged if and only
      if it keeps to `KeepsSettled`. */
  lemma {:induction false} SettledKeptExactly(s: Store, c: Call)
    requires Forest(s.entries) && Settled(s) && Commits(s, c)
    ensures Settled(Commit(s, c)) <==> KeepsSettled(s, c.op)
  {
    var after := Commit(s, c);
    match c.op
    case Append(coords, parent, kind, ids, admissible) =>
      var r := AppendTx(s, c.epoch, coords, parent, kind, ids, admissible).value;
      EntryKeepsSettled(s, c.epoch, r.1, ids.event, admissible, after);
    case TurnInput(coords, turn, kind, ids) =>
      if !TurnRecorded(s.entries, coords.thread, turn) {
        var r := TurnTx(s, c.epoch, coords, turn, kind, ids).value;
        EntryKeepsSettled(s, c.epoch, r.1, ids.event, true, after);
      }
    case Select(coords, leaf, event) => SelectKeepsSettled(s, c.epoch, coords, leaf, event, after);
    case Clone(source, leaf, target, supply) =>
      if leaf.Some? {
        var r := CloneTx(s, c.epoch, source, leaf, target, supply).value;
        CloneKeepsSettled(s, c.epoch, source, leaf.value, target, supply, after, r.1);
      } else {
        ClearingKeepsSettled(s, after, target.thread);
      }
    case Fork(source, target, base) =>
      ForkEffect(s, source, target, base);
      ClearingKeepsSettled(s, after, target.thread);
    case AppendEvents(stream, records) => BatchKeepsSettled(s, after, stream, records);
    case AppendFenced(stream, expected, records) => BatchKeepsSettled(s, after, stream, records);
    case Reopen =>
  }

  // ----- Whole runs -----

  ghost predicate AllSteps<C(!new)>(holds: (seq<C>, C) -> bool, calls: seq<C>) {
    forall k :: 0 <= k < |calls| ==> holds(calls[..k], calls[k])
  }

  /** Every committed call of the run keeps to the condition when it is made. */
  ghost predicate KeptThroughout(s: Store, calls: seq<Call>)
    requires Forest(s.entries)
  {
    AllSteps((prefix, c) => Forest(s.entries) && KeptAt(Run(s, prefix), c), calls)
  }

  ghost predicate KeptAt(s: Store, c: Call)
    requires Forest(s.entries)
  {
    Commits(s, c) ==> KeepsSettled(s, c.op)
  }

  ghost predicate AllPrefixes<C(!new)>(holds: seq<C> -> bool, calls: seq<C>) {
    forall k {:trigger calls[..k]} :: 0 <= k <= |calls| ==> holds(calls[..k])
  }

  /** The store opens unchanged after every prefix of the run. */
  ghost predicate SettledThroughout(s: Store, calls: seq<Call>)
    requires Forest(s.entries)
  {
    AllPrefixes(prefix => Forest(s.entries) && Settled(Run(s, prefix)), calls)
  }

  lemma {:induction false} PrefixesSnoc<C(!new)>(holds: seq<C> -> bool, calls: seq<C>)
    requires calls != []
    ensures AllPrefixes(holds, calls) <==> AllPrefixes(holds, calls[..|calls| - 1]) && holds(calls)
  {
    var n := |calls| - 1;
    var init := calls[..n];
    assert calls[..n + 1] == calls;
    assert forall k :: 0 <= k <= n ==> init[..k] == calls[..k];
  }

  lemma {:induction false} StepsSnoc<C(!new)>(holds: (seq<C>, C) -> bool, calls: seq<C>)
    requires calls != []
    ensures var n := |calls| - 1;
      AllSteps(holds, calls) <==> AllSteps(holds, calls[..n]) && holds(calls[..n], calls[n])
  {
    var n := |calls| - 1;
    var init := calls[..n];
    assert forall k :: 0 <= k < n ==> init[..k] == calls[..k] && init[k] == calls[k];
    if AllSteps(holds, init) && holds(init, calls[n]) {
      forall k | 0 <= k < |calls| ensures holds(calls[..k], calls[k]) {
        if k < n {
          assert holds(init[..k], init[k]);
        }
      }
    }
  }

  /** Over whole runs: opening the store would change nothing at any point of a run if and only if
      every committed call of the run keeps to the condition. */
  lemma {:induction false} RunStaysSettledExactly(s: Store, calls: seq<Call>)
    requires Forest(s.entries) && Settled(s)
    ensures SettledThroughout(s, calls) <==> KeptThroughout(s, calls)
    decreases |calls|
  {
    if calls == [] {
      assert Run(s, calls[..0]) == s;
    } else {
      var n := |calls| - 1;
      var before := Run(s, calls[..n]);
      RunStaysSettledExactly(s, calls[..n]);
      StepsSnoc((prefix, c) => Forest(s.entries) && KeptAt(Run(s, prefix), c), calls);
      PrefixesSnoc(prefix => Forest(s.entries) && Settled(Run(s, prefix)), calls);
      if SettledThroughout(s, calls[..n]) {
        assert calls[..n][..n] == calls[..n] && Settled(before);
        if Commits(before, calls[n]) {
          SettledKeptExactly(before, calls[n]);
        }
      }
    }
  }

  // ----- A store that no longer opens -----

  const GARBLED := Record(1, HERE, Undecodable(true), true)
  const GARBLED_ROW := Event(1, ThreadStream(1), 1, HERE, Undecodable(true))
  const STUCK := EMPTY.(events := [GARBLED_ROW])

  /** A raw append of a selection that does not parse is admitted, leaves cache and journal in
      agreement, and the store cannot be opened again. */
  lemma {:induction false} GarbledSelectionLocksStore()
    ensures AppendEventsTx(EMPTY, 0, ThreadStream(1), [GARBLED]) == Ok(STUCK)
    ensures CacheAgrees(STUCK) && RebuildTx(STUCK) == Err(Codec)
  {
    var none: seq<Record> := [];
    assert [GARBLED][..0] == none;
    assert EMPTY.events + [GARBLED_ROW] == [GARBLED_ROW];
    assert InsertEvents(EMPTY.events, ThreadStream(1), none) == Ok(EMPTY.events);
    assert InsertEvents(EMPTY.events, ThreadStream(1), [GARBLED]) == Ok([GARBLED_ROW]);
    assert GARBLED_ROW in STUCK.events && 1 in SelectedThreads(STUCK.events);
    assert ReplayEvents(STUCK.entries, SelectedThreads(STUCK.events), STUCK.leaves - SelectedThreads(STUCK.events), STUCK.events[..0])
        == Ok(STUCK.leaves - SelectedThreads(STUCK.events));
  }
}
