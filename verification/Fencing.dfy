/** Journal order, compare-and-append, and the lease fence, over whole runs. */
module Fencing {
  import opened Wrappers
  import opened HistoryModel
  import opened Journal
  import opened Branches
  import opened Transactions

  // ----- The lease fence -----

  lemma {:induction false} LeaseEffect(epochs: map<StreamId, nat>, stream: StreamId, epoch: nat)
    requires EnforceLease(epochs, stream, epoch).Ok?
    ensures var after := EnforceLease(epochs, stream, epoch).value;
      && MinimumEpoch(epochs, stream) <= epoch == MinimumEpoch(after, stream)
      && (forall st :: st != stream ==> MinimumEpoch(after, st) == MinimumEpoch(epochs, st))
      && (epoch == 0 ==> after == epochs)
  {
  }

  /** The events from `n` on all belong to `stream`. */
  ghost predicate AllOn(events: seq<Event>, n: nat, stream: StreamId) {
    forall k :: n <= k < |events| ==> events[k].stream == stream
  }

  lemma {:induction false} CopyStreams(s: Store, target: Coordinates, path: seq<Entry>, supply: nat -> FreshIds)
    requires CopyPath(s, target, path, supply).Ok?
    ensures s.events <= CopyPath(s, target, path, supply).value.events
    ensures AllOn(CopyPath(s, target, path, supply).value.events, |s.events|, ThreadStream(target.thread))
    ensures CopyPath(s, target, path, supply).value.epochs == s.epochs
  {
    if path != [] {
      CopyStreams(s, target, path[..|path| - 1], supply);
    }
  }

  lemma {:induction false} BatchStream(events: seq<Event>, stream: StreamId, records: seq<Record>)
    requires InsertEvents(events, stream, records).Ok?
    ensures AllOn(InsertEvents(events, stream, records).value, |events|, stream)
  {
    InsertsAppend(events, stream, records);
    var after := InsertEvents(events, stream, records).value;
    forall k | |events| <= k < |after| ensures after[k].stream == stream {
      assert after[k] == after[|events|..][k - |events|];
    }
  }

  /** Either the call wrote nothing to the journal and left the fence alone, or everything it
      wrote went to one stream whose fence admitted its epoch and now stands at it. */
  ghost predicate FencedWrite(before: Store, after: Store, epoch: nat, stream: StreamId) {
    && AllOn(after.events, |before.events|, stream)
    && MinimumEpoch(before.epochs, stream) <= epoch == MinimumEpoch(after.epochs, stream)
    && (forall st :: st != stream ==> MinimumEpoch(after.epochs, st) == MinimumEpoch(before.epochs, st))
    && (epoch == 0 ==> after.epochs == before.epochs)
  }

  ghost predicate NoWrite(before: Store, after: Store) {
    after.events == before.events && after.epochs == before.epochs
  }

  /** The one stream a call may write to. */
  function WrittenStream(op: Op): StreamId {
    match op
    case Append(coords, _, _, _, _) => ThreadStream(coords.thread)
    case TurnInput(coords, _, _, _) => ThreadStream(coords.thread)
    case Select(coords, _, _) => ThreadStream(coords.thread)
    case Clone(_, _, target, _) => ThreadStream(target.thread)
    case Fork(_, target, _) => ThreadStream(target.thread)
    case AppendEvents(stream, _) => stream
    case AppendFenced(stream, _, _) => stream
    case Reopen => NamedStream("")
  }

  lemma {:induction false} EntryFence(s: Store, epoch: nat, e: Entry, event: EventId, admissible: bool)
    requires AppendEntry(s, epoch, e, event, admissible).Ok?
    ensures FencedWrite(s, AppendEntry(s, epoch, e, event, admissible).value, epoch, ThreadStream(e.coords.thread))
  {
    LeaseEffect(s.epochs, ThreadStream(e.coords.thread), epoch);
  }

  lemma {:induction false} CloneFence(s: Store, epoch: nat, source: Coordinates, leaf: EntryId, target: Coordinates, supply: nat -> FreshIds)
    requires Forest(s.entries) && CloneTx(s, epoch, source, Some(leaf), target, supply).Ok?
    ensures FencedWrite(s, CloneTx(s, epoch, source, Some(leaf), target, supply).value.0, epoch, ThreadStream(target.thread))
  {
    var stream := ThreadStream(target.thread);
    LeaseEffect(s.epochs, stream, epoch);
    var path := BranchPath(s.entries, source, leaf).value;
    var epochs := EnforceLease(s.epochs, stream, epoch).value;
    CopyStreams(Detached(s, target.thread, epochs), target, path, supply);
  }

  lemma {:induction false} SelectFence(s: Store, epoch: nat, coords: Coordinates, leaf: Option<EntryId>, event: EventId)
    requires Forest(s.entries) && SelectTx(s, epoch, coords, leaf, event).Ok?
    ensures FencedWrite(s, SelectTx(s, epoch, coords, leaf, event).value, epoch, ThreadStream(coords.thread))
  {
    LeaseEffect(s.epochs, ThreadStream(coords.thread), epoch);
  }

  lemma {:induction false} CallFence(s: Store, c: Call)
    requires Forest(s.entries)
    ensures NoWrite(s, Commit(s, c)) || FencedWrite(s, Commit(s, c), c.epoch, WrittenStream(c.op))
  {
    if Commits(s, c) {
      match c.op
      case Append(coords, parent, kind, ids, admissible) =>
        var r := AppendTx(s, c.epoch, coords, parent, kind, ids, admissible).value;
        EntryFence(s, c.epoch, r.1, ids.event, admissible);
      case TurnInput(coords, turn, kind, ids) =>
        if !TurnRecorded(s.entries, coords.thread, turn) {
          var r := TurnTx(s, c.epoch, coords, turn, kind, ids).value;
          EntryFence(s, c.epoch, r.1, ids.event, true);
        }
      case Select(coords, leaf, event) => SelectFence(s, c.epoch, coords, leaf, event);
      case Clone(source, leaf, target, supply) =>
        if leaf.Some? {
          CloneFence(s, c.epoch, source, leaf.value, target, supply);
        }
      case AppendEvents(stream, records) =>
        LeaseEffect(s.epochs, stream, c.epoch);
        BatchStream(s.events, stream, records);
      case AppendFenced(stream, expected, records) =>
        LeaseEffect(s.epochs, stream, c.epoch);
        BatchStream(s.events, stream, records);
      case _ =>
    }
  }

  function Repeat(epoch: nat, n: nat): (r: seq<nat>)
    ensures |r| == n && forall i :: 0 <= i < n ==> r[i] == epoch
  {
    seq(n, i => epoch)
  }

  /** The epoch presented for each event a run added, in journal order. */
  ghost function EpochTrail(s: Store, calls: seq<Call>): (trail: seq<nat>)
    requires Forest(s.entries)
    ensures |s.events| + |trail| == |Run(s, calls).events|
  {
    if calls == [] then [] else
      var init := calls[..|calls| - 1];
      var last := calls[|calls| - 1];
      var before := Run(s, init);
      StepEffect(before, last);
      EpochTrail(s, init) + Repeat(last.epoch, |Commit(before, last).events| - |before.events|)
  }

  /** No event is above the fence of its stream, and on each stream epochs never go down. */
  ghost predicate Ordered(after: Store, n: nat, trail: seq<nat>)
    requires n + |trail| == |after.events|
  {
    && (forall i :: 0 <= i < |trail| ==> trail[i] <= MinimumEpoch(after.epochs, after.events[n + i].stream))
    && (forall i, j :: 0 <= i < j < |trail| && after.events[n + i].stream == after.events[n + j].stream ==>
          trail[i] <= trail[j])
  }

  /** Lease fencing over any run by any handles. */
  lemma {:induction false} EpochsNeverDecrease(s: Store, calls: seq<Call>)
    requires Forest(s.entries)
    ensures Ordered(Run(s, calls), |s.events|, EpochTrail(s, calls))
  {
    if calls != [] {
      var init, last := calls[..|calls| - 1], calls[|calls| - 1];
      EpochsNeverDecrease(s, init);
      var before := Run(s, init);
      StepEffect(before, last);
      RunGrows(s, init);
      OrderedStep(before, last, |s.events|, EpochTrail(s, init));
      assert Run(s, calls) == Commit(before, last);
      assert EpochTrail(s, calls) == EpochTrail(s, init) + Repeat(last.epoch, |Commit(before, last).events| - |before.events|);
    }
  }

  lemma {:induction false} OrderedStep(before: Store, last: Call, n: nat, trail: seq<nat>)
    requires Forest(before.entries) && n + |trail| == |before.events| && Ordered(before, n, trail)
    ensures before.events <= Commit(before, last).events
    ensures var added := |Commit(before, last).events| - |before.events|;
      Ordered(Commit(before, last), n, trail + Repeat(last.epoch, added))
  {
    StepEffect(before, last);
    var after := Commit(before, last);
    CallFence(before, last);
    var longer := trail + Repeat(last.epoch, |after.events| - |before.events|);
    forall i | 0 <= i < |longer|
      ensures longer[i] <= MinimumEpoch(after.epochs, after.events[n + i].stream)
    {
      if i < |trail| {
        assert after.events[n + i] == before.events[n + i];
      }
    }
    forall i, j | 0 <= i < j < |longer| && after.events[n + i].stream == after.events[n + j].stream
      ensures longer[i] <= longer[j]
    {
      if i < |trail| {
        assert after.events[n + i] == before.events[n + i];
        if j < |trail| {
          assert after.events[n + j] == before.events[n + j];
        }
      }
    }
  }

  /** The recorded minimum never drops, and runs that present only epoch 0 never write a fence row. */
  lemma {:induction false} FenceIsMonotone(s: Store, calls: seq<Call>)
    requires Forest(s.entries)
    ensures forall st :: MinimumEpoch(s.epochs, st) <= MinimumEpoch(Run(s, calls).epochs, st)
    ensures (forall c :: c in calls ==> c.epoch == 0) ==> Run(s, calls).epochs == s.epochs
  {
    if calls != [] {
      FenceIsMonotone(s, calls[..|calls| - 1]);
      var before := Run(s, calls[..|calls| - 1]);
      CallFence(before, calls[|calls| - 1]);
      assert calls[|calls| - 1] in calls;
    }
  }

  /** A handle below the fence of a thread can write nothing to that thread's journal. */
  lemma {:induction false} StaleHandleIsShutOut(s: Store, c: Call, stream: StreamId)
    requires Forest(s.entries) && c.epoch < MinimumEpoch(s.epochs, stream)
    ensures StreamOf(Commit(s, c).events, stream) == StreamOf(s.events, stream)
  {
    CallFence(s, c);
    StepEffect(s, c);
    if !NoWrite(s, Commit(s, c)) {
      OtherStreamUntouched(s.events, Commit(s, c).events, WrittenStream(c.op), stream);
    }
  }

  /** The calls on thread `t` that present no epoch to its fence: a fork over it and an emptying clone. */
  predicate Unfenced(op: Op, t: ThreadId) {
    (op.Fork? || (op.Clone? && op.leaf.None?)) && op.target.thread == t
  }

  /** The thread a fenced call acts on, if it acts on one. */
  function FencedThread(op: Op): Option<ThreadId> {
    match op
    case Append(coords, _, _, _, _) => Some(coords.thread)
    case TurnInput(coords, _, _, _) => Some(coords.thread)
    case Select(coords, _, _) => Some(coords.thread)
    case Clone(_, leaf, target, _) => if leaf.Some? then Some(target.thread) else None
    case _ => None
  }

  lemma {:induction false} StaleCallIsRefused(s: Store, c: Call, t: ThreadId)
    requires Forest(s.entries) && c.epoch < MinimumEpoch(s.epochs, ThreadStream(t)) && FencedThread(c.op) == Some(t)
    ensures Commit(s, c) == s
  {
    assert EnforceLease(s.epochs, ThreadStream(t), c.epoch).Err?;
    match c.op
    case Append(coords, parent, kind, ids, admissible) =>
      assert AppendTx(s, c.epoch, coords, parent, kind, ids, admissible).Err?;
    case TurnInput(coords, turn, kind, ids) =>
    case Select(coords, leaf, event) => assert SelectTx(s, c.epoch, coords, leaf, event).Err?;
    case Clone(source, leaf, target, supply) => assert CloneTx(s, c.epoch, source, leaf, target, supply).Err?;
  }

  lemma {:induction false} EntryKeepsLeaf(s: Store, epoch: nat, e: Entry, event: EventId, admissible: bool, after: Store, t: ThreadId)
    requires AppendEntry(s, epoch, e, event, admissible) == Ok(after) && e.coords.thread != t
    ensures Lookup(after.leaves, t) == Lookup(s.leaves, t)
  {
  }

  /** Calls that act on other threads, or on none, leave the leaf of `t` alone. */
  lemma {:induction false} OthersKeepLeaf(s: Store, c: Call, t: ThreadId)
    requires Forest(s.entries) && Commits(s, c) && !c.op.Reopen?
    requires FencedThread(c.op) != Some(t) && !Unfenced(c.op, t)
    ensures Lookup(Commit(s, c).leaves, t) == Lookup(s.leaves, t)
  {
    match c.op
    case Append(coords, parent, kind, ids, admissible) =>
      var r := AppendTx(s, c.epoch, coords, parent, kind, ids, admissible).value;
      EntryKeepsLeaf(s, c.epoch, r.1, ids.event, admissible, r.0, t);
    case TurnInput(coords, turn, kind, ids) =>
      if !TurnRecorded(s.entries, coords.thread, turn) {
        var r := TurnTx(s, c.epoch, coords, turn, kind, ids).value;
        EntryKeepsLeaf(s, c.epoch, r.1, ids.event, true, r.0, t);
      }
    case Select(coords, leaf, event) =>
    case Clone(source, leaf, target, supply) => CloneEffect(s, c.epoch, source, leaf, target, supply);
    case Fork(source, target, base) => ForkEffect(s, source, target, base);
    case AppendEvents(stream, records) =>
    case AppendFenced(stream, expected, records) =>
  }

  /** What a call by a handle below a thread's fence does to the thread at once: it adds no event to
      the thread's stream and no row, and moves neither leaf nor base, except that a fork over the
      thread and an emptying clone clear the leaf and replace or remove the base. */
  lemma {:induction false} StaleHandleCanOnlyClear(s: Store, c: Call, t: ThreadId)
    requires Forest(s.entries) && c.epoch < MinimumEpoch(s.epochs, ThreadStream(t))
    ensures var after := Commit(s, c);
      && StreamOf(after.events, ThreadStream(t)) == StreamOf(s.events, ThreadStream(t))
      && (forall id :: id in after.entries && id !in s.entries ==> after.entries[id].coords.thread != t)
      && (if Commits(s, c) && Unfenced(c.op, t)
          then Lookup(after.leaves, t) == None && Lookup(after.bases, t) == if c.op.Fork? then Some(c.op.base) else None
          else Lookup(after.bases, t) == Lookup(s.bases, t)
               && (!c.op.Reopen? ==> Lookup(after.leaves, t) == Lookup(s.leaves, t)))
  {
    StaleHandleIsShutOut(s, c, ThreadStream(t));
    if Commits(s, c) {
      if FencedThread(c.op) == Some(t) {
        StaleCallIsRefused(s, c, t);
      } else {
        CommitEffect(s, c);
        if Unfenced(c.op, t) {
          ClearsLeaf(s, c, t);
        } else if !c.op.Reopen? {
          OthersKeepLeaf(s, c, t);
        }
      }
    }
  }

  lemma {:induction false} ClearsLeaf(s: Store, c: Call, t: ThreadId)
    requires Forest(s.entries) && Commits(s, c) && Unfenced(c.op, t)
    ensures Lookup(Commit(s, c).leaves, t) == None
  {
    if c.op.Fork? {
      ForkEffect(s, c.op.source, c.op.target, c.op.base);
    }
  }

  lemma {:induction false} OtherStreamUntouched(before: seq<Event>, after: seq<Event>, written: StreamId, stream: StreamId)
    requires before <= after && AllOn(after, |before|, written) && stream != written
    ensures StreamOf(after, stream) == StreamOf(before, stream)
    decreases |after|
  {
    if before == after {
    } else {
      OtherStreamUntouched(before, after[..|after| - 1], written, stream);
    }
  }

  // ----- Linearity of the journal -----

  lemma {:induction false} CopyKeepsLinear(s: Store, target: Coordinates, path: seq<Entry>, supply: nat -> FreshIds)
    requires Linear(s.events) && CopyPath(s, target, path, supply).Ok?
    ensures Linear(CopyPath(s, target, path, supply).value.events)
  {
    if path != [] {
      var n := |path| - 1;
      CopyKeepsLinear(s, target, path[..n], supply);
      var before := CopyPath(s, target, path[..n], supply).value;
      InsertKeepsLinear(before.events, ThreadStream(target.thread),
        Record(supply(n).event, target, EntryAppended(Some(supply(n).entry)), true));
    }
  }

  lemma {:induction false} EntryKeepsLinear(s: Store, epoch: nat, e: Entry, event: EventId, admissible: bool, after: Store)
    requires Linear(s.events) && AppendEntry(s, epoch, e, event, admissible) == Ok(after)
    ensures Linear(after.events)
  {
    InsertKeepsLinear(s.events, ThreadStream(e.coords.thread), Record(event, e.coords, EntryAppended(Some(e.id)), admissible));
  }

  lemma {:induction false} SelectKeepsLinear(s: Store, epoch: nat, coords: Coordinates, leaf: Option<EntryId>, event: EventId, after: Store)
    requires Forest(s.entries) && Linear(s.events) && SelectTx(s, epoch, coords, leaf, event) == Ok(after)
    ensures Linear(after.events)
  {
    InsertKeepsLinear(s.events, ThreadStream(coords.thread),
      Record(event, coords, BranchSelected(coords.thread, leaf, ActiveParent(s, coords).value), true));
  }

  lemma {:induction false} CloneKeepsLinear(s: Store, epoch: nat, source: Coordinates, leaf: EntryId, target: Coordinates, supply: nat -> FreshIds)
    requires Forest(s.entries) && Linear(s.events) && CloneTx(s, epoch, source, Some(leaf), target, supply).Ok?
    ensures Linear(CloneTx(s, epoch, source, Some(leaf), target, supply).value.0.events)
  {
    var path := BranchPath(s.entries, source, leaf).value;
    var epochs := EnforceLease(s.epochs, ThreadStream(target.thread), epoch).value;
    CopyKeepsLinear(Detached(s, target.thread, epochs), target, path, supply);
  }

  lemma {:induction false} StepKeepsLinear(s: Store, c: Call)
    requires Forest(s.entries) && Linear(s.events)
    ensures Linear(Commit(s, c).events)
  {
    if Commits(s, c) {
      var after := Commit(s, c);
      match c.op
      case Append(coords, parent, kind, ids, admissible) =>
        var r := AppendTx(s, c.epoch, coords, parent, kind, ids, admissible).value;
        EntryKeepsLinear(s, c.epoch, r.1, ids.event, admissible, after);
      case TurnInput(coords, turn, kind, ids) =>
        if !TurnRecorded(s.entries, coords.thread, turn) {
          var r := TurnTx(s, c.epoch, coords, turn, kind, ids).value;
          EntryKeepsLinear(s, c.epoch, r.1, ids.event, true, after);
        }
      case Select(coords, leaf, event) => SelectKeepsLinear(s, c.epoch, coords, leaf, event, after);
      case Clone(source, leaf, target, supply) =>
        if leaf.Some? {
          CloneKeepsLinear(s, c.epoch, source, leaf.value, target, supply);
        }
      case AppendEvents(stream, records) => InsertsKeepLinear(s.events, stream, records);
      case AppendFenced(stream, expected, records) => InsertsKeepLinear(s.events, stream, records);
      case _ =>
    }
  }

  /** In every reachable state each stream counts 1, 2, 3, … and event ids are globally unique. */
  lemma {:induction false} JournalIsLinear(s: Store, calls: seq<Call>)
    requires Forest(s.entries) && Linear(s.events)
    ensures Linear(Run(s, calls).events)
  {
    if calls != [] {
      JournalIsLinear(s, calls[..|calls| - 1]);
      StepKeepsLinear(Run(s, calls[..|calls| - 1]), calls[|calls| - 1]);
    }
  }

  /** A read is a prefix of every later read, and a read from `from` drops the first `from - 1` events. */
  lemma {:induction false} ReadsAgree(s: Store, calls: seq<Call>, stream: StreamId, from: int)
    requires Forest(s.entries) && Linear(s.events)
    ensures ReadFrom(s.events, stream, from) <= ReadFrom(Run(s, calls).events, stream, from)
    ensures var whole := ReadFrom(s.events, stream, 1);
      var dropped := if from <= 1 then 0 else if from - 1 <= |whole| then from - 1 else |whole|;
      whole == StreamOf(s.events, stream) && ReadFrom(s.events, stream, from) == whole[dropped..]
  {
    RunGrows(s, calls);
    JournalIsLinear(s, calls);
    StreamOfGrows(s.events, Run(s, calls).events, stream);
    ReadIsSuffix(s.events, stream, 1);
    ReadIsSuffix(s.events, stream, from);
    ReadIsSuffix(Run(s, calls).events, stream, from);
    var early, late := StreamOf(s.events, stream), StreamOf(Run(s, calls).events, stream);
    assert early == late[..|early|];
  }

  // ----- Compare-and-append -----

  ghost predicate FencedAppendWins(s: Store, c: Call, stream: StreamId, expected: int)
    requires Forest(s.entries)
  {
    && c.op.AppendFenced? && c.op.stream == stream && c.op.expected == expected && c.op.records != []
    && Commits(s, c)
  }

  lemma {:induction false} NextSequenceGrows(before: seq<Event>, after: seq<Event>, stream: StreamId)
    requires before <= after
    ensures NextSequence(before, stream) <= NextSequence(after, stream)
    decreases |after|
  {
    if before != after {
      NextSequenceGrows(before, after[..|after| - 1], stream);
    }
  }

  lemma {:induction false} WinnerAdvancesTail(s: Store, c: Call, stream: StreamId, expected: int)
    requires Forest(s.entries) && FencedAppendWins(s, c, stream, expected)
    ensures NextSequence(s.events, stream) == expected < NextSequence(Commit(s, c).events, stream)
  {
    var records := c.op.records;
    var n := |records| - 1;
    InsertsAppend(s.events, stream, records[..n]);
    NextSequenceGrows(s.events, InsertEvents(s.events, stream, records[..n]).value, stream);
  }

  /** Later states of one run hold every row of earlier ones. */
  lemma {:induction false} LaterHoldsMore(s: Store, calls: seq<Call>, i: nat, j: nat)
    requires Forest(s.entries) && i <= j <= |calls|
    ensures Grows(Run(s, calls[..i]), Run(s, calls[..j]))
  {
    assert calls[..j] == calls[..i] + calls[i..j];
    RunConcat(s, calls[..i], calls[i..j]);
    RunGrows(Run(s, calls[..i]), calls[i..j]);
  }

  /** Of the non-empty fenced appends that expect the same sequence of one stream, at most one ever commits. */
  lemma {:induction false} AtMostOneFencedAppend(s: Store, calls: seq<Call>, i: nat, j: nat, stream: StreamId, expected: int)
    requires Forest(s.entries) && i < j < |calls|
    requires FencedAppendWins(Run(s, calls[..i]), calls[i], stream, expected)
    ensures !FencedAppendWins(Run(s, calls[..j]), calls[j], stream, expected)
  {
    var after := Run(s, calls[..i + 1]);
    var late := Run(s, calls[..j]);
    RunSnoc(s, calls, i);
    WinnerAdvancesTail(Run(s, calls[..i]), calls[i], stream, expected);
    LaterHoldsMore(s, calls, i + 1, j);
    NextSequenceGrows(after.events, late.events, stream);
    if FencedAppendWins(late, calls[j], stream, expected) {
      WinnerAdvancesTail(late, calls[j], stream, expected);
      assert false;
    }
  }
}
