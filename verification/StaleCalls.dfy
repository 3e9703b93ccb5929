/** What a handle below a thread's fence can still bring about: at once, and when the store is
    opened the next time. */
module StaleCalls {
  import opened Wrappers
  import opened HistoryModel
  import opened Journal
  import opened Branches
  import opened Transactions
  import opened Fencing
  import opened Replay
  import opened Reopen

  // ----- Rows of other threads -----

  /** No row from `n` on speaks of thread `t`. */
  ghost predicate Elsewhere(events: seq<Event>, n: nat, t: ThreadId) {
    forall k :: n <= k < |events| ==> events[k].coords.thread != t
  }

  lemma {:induction false} ElsewhereKeeps(before: seq<Event>, events: seq<Event>, t: ThreadId)
    requires before <= events && Elsewhere(events, |before|, t)
    ensures LeafFold(events, t) == LeafFold(before, t)
    ensures t in SelectedThreads(events) <==> t in SelectedThreads(before)
    decreases |events|
  {
    if |before| < |events| {
      var init, last := events[..|events| - 1], events[|events| - 1];
      assert events == init + [last];
      ElsewhereKeeps(before, init, t);
      SelectedSnoc(init, last);
    } else {
      assert before == events;
    }
  }

  predicate IsRaw(op: Op) {
    op.AppendEvents? || op.AppendFenced?
  }

  lemma {:induction false} EntryElsewhere(s: Store, epoch: nat, e: Entry, event: EventId, admissible: bool, after: Store, t: ThreadId)
    requires AppendEntry(s, epoch, e, event, admissible) == Ok(after) && e.coords.thread != t
    ensures s.events <= after.events && Elsewhere(after.events, |s.events|, t)
  {
  }

  lemma {:induction false} CloneElsewhere(s: Store, epoch: nat, source: Coordinates, leaf: EntryId, target: Coordinates,
                                          supply: nat -> FreshIds, t: ThreadId)
    requires Forest(s.entries) && CloneTx(s, epoch, source, Some(leaf), target, supply).Ok? && target.thread != t
    ensures var after := CloneTx(s, epoch, source, Some(leaf), target, supply).value.0;
      s.events <= after.events && Elsewhere(after.events, |s.events|, t)
  {
    var path := BranchPath(s.entries, source, leaf).value;
    var fenced := Detached(s, target.thread, EnforceLease(s.epochs, ThreadStream(target.thread), epoch).value);
    CopyAppends(fenced, target, path, supply, CopyPath(fenced, target, path, supply).value);
  }

  lemma {:induction false} SelectElsewhere(s: Store, epoch: nat, coords: Coordinates, leaf: Option<EntryId>, event: EventId, t: ThreadId)
    requires Forest(s.entries) && SelectTx(s, epoch, coords, leaf, event).Ok? && coords.thread != t
    ensures var after := SelectTx(s, epoch, coords, leaf, event).value;
      s.events <= after.events && Elsewhere(after.events, |s.events|, t)
  {
  }

  /** A call that is not a raw append, and not a fenced call on `t`, adds no row about `t`. */
  lemma {:induction false} CallElsewhere(s: Store, c: Call, t: ThreadId)
    requires Forest(s.entries) && Commits(s, c) && !IsRaw(c.op) && FencedThread(c.op) != Some(t)
    ensures s.events <= Commit(s, c).events && Elsewhere(Commit(s, c).events, |s.events|, t)
  {
    match c.op
    case Append(coords, parent, kind, ids, admissible) =>
      var r := AppendTx(s, c.epoch, coords, parent, kind, ids, admissible).value;
      EntryElsewhere(s, c.epoch, r.1, ids.event, admissible, r.0, t);
    case TurnInput(coords, turn, kind, ids) =>
      if !TurnRecorded(s.entries, coords.thread, turn) {
        var r := TurnTx(s, c.epoch, coords, turn, kind, ids).value;
        EntryElsewhere(s, c.epoch, r.1, ids.event, true, r.0, t);
      }
    case Select(coords, leaf, event) => SelectElsewhere(s, c.epoch, coords, leaf, event, t);
    case Clone(source, leaf, target, supply) =>
      if leaf.Some? {
        CloneElsewhere(s, c.epoch, source, leaf.value, target, supply, t);
      }
    case Fork(source, target, base) => ForkEffect(s, source, target, base);
    case Reopen => RebuildRestoresFold(s);
  }

  // ----- A stale call, now and at the next opening -----

  /** The records of a raw append that went through. */
  ghost function RawRecords(s: Store, c: Call): seq<Record>
    requires Forest(s.entries)
  {
    if Commits(s, c) && IsRaw(c.op) then c.op.records else []
  }

  lemma {:induction false} RawEffect(s: Store, c: Call, t: ThreadId)
    requires Forest(s.entries) && Commits(s, c) && IsRaw(c.op)
    ensures var after, records := Commit(s, c), c.op.records;
      && LeafFold(after.events, t)
           == (if LastSelection(records, t).Some? then LastSelection(records, t).value else LeafFold(s.events, t))
      && SelectedThreads(after.events) == SelectedThreads(s.events) + SelectedBy(records)
  {
    var after := Commit(s, c);
    assert InsertEvents(s.events, c.op.stream, c.op.records) == Ok(after.events);
    FoldOfBatch(s.events, c.op.stream, c.op.records, t);
    InsertsAppend(s.events, c.op.stream, c.op.records);
    assert after.events == s.events + after.events[|s.events|..];
    SelectedByBatch(s.events, after.events[|s.events|..], c.op.stream, c.op.records);
  }

  /** The fence is by stream and replay is by thread: what a stale call does to the journal's fold of
      the thread is exactly what the raw records about the thread say, on whatever stream it may
      still write. */
  lemma {:induction false} StaleFold(s: Store, c: Call, t: ThreadId)
    requires Forest(s.entries) && c.epoch < MinimumEpoch(s.epochs, ThreadStream(t))
    ensures var after, records := Commit(s, c), RawRecords(s, c);
      && LeafFold(after.events, t)
           == (if LastSelection(records, t).Some? then LastSelection(records, t).value else LeafFold(s.events, t))
      && (t in SelectedThreads(after.events) <==> t in SelectedThreads(s.events) || t in SelectedBy(records))
  {
    if Commits(s, c) {
      if IsRaw(c.op) {
        RawEffect(s, c, t);
      } else if FencedThread(c.op) == Some(t) {
        StaleCallIsRefused(s, c, t);
      } else {
        CallElsewhere(s, c, t);
        ElsewhereKeeps(s.events, Commit(s, c).events, t);
      }
    }
  }

  /** The leaf of the thread after a stale call and the next opening: on a thread that is selected by
      then, what the raw records about it say last, or else what the journal said before; on any
      other thread, nothing if the call was a fork over it or an emptying clone, or else the leaf it
      had. */
  ghost function LeafAtNextOpening(s: Store, c: Call, t: ThreadId): Option<EntryId>
    requires Forest(s.entries)
  {
    var records := RawRecords(s, c);
    if t in SelectedThreads(s.events) || t in SelectedBy(records) then
      if LastSelection(records, t).Some? then LastSelection(records, t).value else LeafFold(s.events, t)
    else if Commits(s, c) && Unfenced(c.op, t) then None
    else Lookup(s.leaves, t)
  }

  /** Exactly what a stale call has brought about once the store is opened again. */
  lemma {:induction false} StaleAtNextOpening(s: Store, c: Call, t: ThreadId)
    requires Forest(s.entries) && c.epoch < MinimumEpoch(s.epochs, ThreadStream(t))
    requires RebuildTx(Commit(s, c)).Ok?
    ensures Lookup(RebuildTx(Commit(s, c)).value.leaves, t) == LeafAtNextOpening(s, c, t)
    ensures RebuildTx(Commit(s, c)).value.bases == Commit(s, c).bases
  {
    StaleFold(s, c, t);
    StaleHandleCanOnlyClear(s, c, t);
    RebuildRestoresFold(s);
    RebuildRestoresFold(Commit(s, c));
  }

  // ----- The two ways past the fence, at an input -----

  const FENCED_PICK := AFTER_PICK.(epochs := map[ThreadStream(1) := 5])

  const UNPICK := Record(3, HERE, BranchSelected(1, None, Some(7)), true)
  const UNPICKED := Event(3, NamedStream("control"), 1, HERE, BranchSelected(1, None, Some(7)))
  const ON_CONTROL := Call(0, AppendEvents(NamedStream("control"), [UNPICK]))
  const AFTER_UNPICK := FENCED_PICK.(events := [NOTED, PICKED, UNPICKED])

  const STALE_FORK := Call(0, FORK_OVER)
  const AFTER_STALE_FORK := AFTER_FORK.(epochs := map[ThreadStream(1) := 5])

  lemma {:induction false} PickIsForest()
    ensures Forest(FENCED_PICK.entries)
  {
    assert RowOk(FENCED_PICK.entries, 7);
  }

  lemma {:induction false} FencedPickIsSettled()
    ensures Settled(FENCED_PICK)
  {
    var s := FENCED_PICK;
    assert SoundOn(s.entries, SelectedThreads(s.events), s.events);
    forall t | t in SelectedThreads(s.events) ensures Lookup(s.leaves, t) == LeafFold(s.events, t) {
      assert t == 1;
    }
    SettledExactly(s);
  }

  lemma {:induction false} UnpickCommits()
    requires Forest(FENCED_PICK.entries)
    ensures Transact(FENCED_PICK, ON_CONTROL) == Ok(AFTER_UNPICK)
  {
    var none: seq<Record> := [];
    var control := NamedStream("control");
    assert [UNPICK][..0] == none && InsertEvents(FENCED_PICK.events, control, none) == Ok(FENCED_PICK.events);
    assert [NOTED, PICKED][..1] == [NOTED] && [NOTED][..0] == [];
    assert MaxSequence([NOTED], control) == 0 && MaxSequence([NOTED, PICKED], control) == 0;
    assert [NOTED, PICKED] + [UNPICKED] == [NOTED, PICKED, UNPICKED];
    assert InsertEvent([NOTED, PICKED], control, UNPICK) == Ok([NOTED, PICKED, UNPICKED]);
  }

  /** A handle five epochs behind appends a selection about the thread to another stream: the call
      commits, the thread's own stream and leaf stay, and the next opening clears the leaf. */
  lemma {:induction false} StaleRecordMovesLeaf()
    ensures Forest(FENCED_PICK.entries) && Settled(FENCED_PICK)
    ensures ON_CONTROL.epoch < MinimumEpoch(FENCED_PICK.epochs, ThreadStream(1))
    ensures Transact(FENCED_PICK, ON_CONTROL) == Ok(AFTER_UNPICK) && Lookup(AFTER_UNPICK.leaves, 1) == Some(7)
    ensures RebuildTx(AFTER_UNPICK).Ok? && Lookup(RebuildTx(AFTER_UNPICK).value.leaves, 1) == None
  {
    PickIsForest();
    FencedPickIsSettled();
    UnpickCommits();
    assert SoundOn(AFTER_UNPICK.entries, SelectedThreads(AFTER_UNPICK.events), AFTER_UNPICK.events);
    RebuildRestoresFold(AFTER_UNPICK);
    assert UNPICKED in AFTER_UNPICK.events && 1 in SelectedThreads(AFTER_UNPICK.events);
  }

  /** A handle five epochs behind forks over the thread: the call commits, clears the leaf and sets a
      base; the next opening brings the selected leaf back, on top of the base. */
  lemma {:induction false} StaleForkClearsLeaf()
    ensures Forest(FENCED_PICK.entries) && STALE_FORK.epoch < MinimumEpoch(FENCED_PICK.epochs, ThreadStream(1))
    ensures Transact(FENCED_PICK, STALE_FORK) == Ok(AFTER_STALE_FORK)
    ensures Lookup(AFTER_STALE_FORK.leaves, 1) == None && Lookup(AFTER_STALE_FORK.bases, 1) == Some(OVER)
    ensures RebuildTx(AFTER_STALE_FORK).Ok? && Lookup(RebuildTx(AFTER_STALE_FORK).value.leaves, 1) == Some(7)
  {
    PickIsForest();
    assert CheckBaseCycle(FENCED_PICK.bases, 1, 2, {}) == Ok(());
    assert FENCED_PICK.leaves - {1} == map[];
    assert SoundOn(AFTER_STALE_FORK.entries, SelectedThreads(AFTER_STALE_FORK.events), AFTER_STALE_FORK.events);
    RebuildRestoresFold(AFTER_STALE_FORK);
    assert PICKED in AFTER_STALE_FORK.events && 1 in SelectedThreads(AFTER_STALE_FORK.events);
  }
}
