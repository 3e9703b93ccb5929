/** The session store itself: tables updated in place, one rolled-back transaction per call.
    Every method is proved against the transaction it runs, and keeps the store's invariant. */
module SessionStore {
  import opened Wrappers
  import opened HistoryModel
  import opened Journal
  import opened Branches
  import opened Transactions
  import Contexts
  import Admission
  import Fencing
  import Turns

  ghost predicate Invariant(s: Store) {
    Contexts.WellFounded(s) && Turns.TurnsUnique(s.entries) && Linear(s.events)
  }

  lemma {:induction false} StepKeepsInvariant(s: Store, c: Call)
    requires Invariant(s)
    ensures Invariant(Commit(s, c))
  {
    Contexts.StepKeepsWellFounded(s, c);
    Turns.StepKeepsTurns(s, c);
    Fencing.StepKeepsLinear(s, c);
  }

  function Reverse<T>(s: seq<T>): seq<T> {
    if s == [] then [] else [s[|s| - 1]] + Reverse(s[..|s| - 1])
  }

  lemma {:induction false} ReverseSnoc<T>(s: seq<T>, x: T)
    ensures Reverse(s + [x]) == [x] + Reverse(s)
  {
    assert (s + [x])[..|s|] == s;
  }

  class SqliteSessionStore {
    var events: seq<Event>
    var entries: Entries
    var leaves: map<ThreadId, EntryId>
    var bases: Bases
    var epochs: map<StreamId, nat>

    function Snapshot(): Store
      reads this
    {
      Store(events, entries, leaves, bases, epochs)
    }

    ghost predicate Valid()
      reads this
    {
      Invariant(Snapshot())
    }

    constructor ()
      ensures Valid() && Snapshot() == EMPTY
    {
      events, entries, leaves, bases, epochs := [], map[], map[], map[], map[];
      new;
      Contexts.EmptyIsWellFounded();
    }

    method Rollback(saved: Store)
      modifies this
      ensures Snapshot() == saved
    {
      events, entries, leaves, bases, epochs := saved.events, saved.entries, saved.leaves, saved.bases, saved.epochs;
    }

    // ----- Reads -----

    method ReadEvents(stream: StreamId, from: Option<int>) returns (read: seq<Event>)
      requires Valid()
      ensures read == match from
        case None => StreamOf(events, stream)
        case Some(first) => ReadFrom(events, stream, first)
    {
      read := [];
      for k := 0 to |events|
        invariant read == if from.None? then StreamOf(events[..k], stream) else ReadFrom(events[..k], stream, from.value)
      {
        assert events[..k + 1][..k] == events[..k];
        if events[k].stream == stream && (from.None? || events[k].sequence >= from.value) {
          read := read + [events[k]];
        }
      }
      assert events[..|events|] == events;
    }

    method BranchPath(coords: Coordinates, leaf: EntryId) returns (r: Result<seq<Entry>>)
      requires Forest(entries)
      ensures r == Branches.BranchPath(entries, coords, leaf)
    {
      var path: seq<Entry> := [];
      var cursor := Some(leaf);
      ghost var whole := Branches.BranchPath(entries, coords, leaf);
      assert whole.Ok? ==> whole.value + Reverse(path) == whole.value;
      while cursor.Some?
        invariant match cursor
          case None => Branches.BranchPath(entries, coords, leaf) == Ok(Reverse(path))
          case Some(id) =>
            Branches.BranchPath(entries, coords, leaf) ==
              match Branches.BranchPath(entries, coords, id)
              case Err(e) => Err(e)
              case Ok(up) => Ok(up + Reverse(path))
        decreases if cursor.None? then 0 else if cursor.value in entries then entries[cursor.value].row + 2 else 1
      {
        var loaded := LoadEntry(entries, coords.thread, cursor.value);
        if loaded.None? {
          return Err(EntryNotFound(cursor.value));
        }
        var checked := ValidateCoordinates(coords, loaded.value);
        if checked.Err? {
          return Err(checked.error);
        }
        assert RowOk(entries, cursor.value);
        ReverseSnoc(path, loaded.value);
        ghost var above := if loaded.value.parent.Some? then Branches.BranchPath(entries, coords, loaded.value.parent.value) else Ok([]);
        assert above.Ok? ==> above.value + [loaded.value] + Reverse(path) == above.value + Reverse(path + [loaded.value]);
        path := path + [loaded.value];
        cursor := loaded.value.parent;
      }
      return Ok(Reverse(path));
    }

    method ValidateBaseCycle(child: ThreadId, parent: ThreadId) returns (r: Result<()>)
      ensures r == CheckBaseCycle(bases, child, parent, {})
    {
      var cursor := Some(parent);
      var visited: set<ThreadId> := {};
      while cursor.Some?
        invariant CheckBaseCycle(bases, child, parent, {})
               == if cursor.Some? then CheckBaseCycle(bases, child, cursor.value, visited) else Ok(())
        decreases bases.Keys - visited, cursor.Some?
      {
        var thread := cursor.value;
        if thread == child || thread in visited {
          return Err(ThreadBaseCycle(child, thread));
        }
        visited := visited + {thread};
        cursor := if thread in bases then Some(bases[thread].parent) else None;
      }
      return Ok(());
    }

    method BuildContextFrom(coords: Coordinates, pinned: Option<EntryId>, inherited: bool, visiting: set<ThreadId>)
      returns (r: Result<Context>, left: set<ThreadId>)
      requires Forest(entries)
      ensures r == Branches.BuildContext(Snapshot(), coords, pinned, inherited, visiting)
      ensures r.Ok? ==> left == visiting
      decreases bases.Keys - visiting
    {
      left := visiting;
      var t := coords.thread;
      if t in left {
        return Err(ThreadBaseCycle(t, t)), left;
      }
      left := left + {t};
      var up := Context([], []);
      if t in bases {
        var base := bases[t];
        if base.child != t {
          return Err(Storage), left;
        }
        var above;
        above, left := BuildContextFrom(ParentCoordinates(coords, base), base.leaf, true, left);
        if above.Err? {
          return Err(above.error), left;
        }
        up := above.value;
      }
      var leaf := LocalLeaf(Snapshot(), t, pinned);
      var path: seq<Entry> := [];
      if leaf.Some? {
        var walked := BranchPath(coords, leaf.value);
        if walked.Err? {
          return Err(walked.error), left;
        }
        path := walked.value;
      }
      left := left - {t};
      return Ok(Joined(up, coords, inherited, path)), left;
    }

    /** The context of a thread; in a valid store it is never a cycle or a missing entry. */
    method BuildContext(coords: Coordinates) returns (r: Result<Context>)
      requires Valid()
      ensures r == Branches.BuildContext(Snapshot(), coords, None, false, {})
      ensures Contexts.OnlyScopeErrors(r)
      ensures r.Ok? ==> Contexts.Provenance(r.value, false, coords)
      ensures r.Ok? ==> forall k :: 0 <= k < |r.value.cuts| ==>
                var cut := r.value.cuts[k];
                && (cut.inherited <==> cut.coords.thread != coords.thread) && cut.coords.scope == coords.scope
                && forall id :: id in cut.ids ==> id in entries && entries[id].coords == cut.coords
    {
      var left;
      r, left := BuildContextFrom(coords, None, false, {});
      ghost var rank :| RankOk(bases, rank);
      Contexts.Builds(Snapshot(), rank, t => coords.scope, coords, None, false, {});
      if r.Ok? {
        Contexts.ContextProvenance(Snapshot(), coords, None, false, {});
        Contexts.CutsNameTheirThread(Snapshot(), coords, None, false, {});
        assert forall k :: 0 <= k < |r.value.cuts| ==> Contexts.CutOk(entries, r.value.cuts[k], coords, false, {});
      }
    }

    // ----- Writes -----

    method InsertEvent(stream: StreamId, record: Record) returns (r: Result<()>)
      modifies this`events
      ensures r.Ok? <==> Journal.InsertEvent(old(events), stream, record).Ok?
      ensures r.Err? ==> Journal.InsertEvent(old(events), stream, record) == Err(r.error) && events == old(events)
      ensures r.Ok? ==> Journal.InsertEvent(old(events), stream, record) == Ok(events)
    {
      if !record.admissible {
        return Err(Rejected(record.id));
      }
      if HasEventId(events, record.id) {
        return Err(DuplicateEventId(record.id));
      }
      events := events + [Event(record.id, stream, NextSequence(events, stream), record.coords, record.body)];
      return Ok(());
    }

    method InsertEntry(e: Entry, event: EventId, admissible: bool) returns (r: Result<()>)
      modifies this
      ensures r.Ok? ==> Transactions.InsertEntry(old(Snapshot()), e, event, admissible) == Ok(Snapshot())
      ensures r.Err? ==> Transactions.InsertEntry(old(Snapshot()), e, event, admissible) == Err(r.error)
    {
      if e.id in entries {
        return Err(Storage);
      }
      entries := entries[e.id := e];
      r := InsertEvent(ThreadStream(e.coords.thread), Record(event, e.coords, EntryAppended(Some(e.id)), admissible));
    }

    method EnforceLease(stream: StreamId, presented: nat) returns (r: Result<()>)
      modifies this`epochs
      ensures r.Ok? ==> Journal.EnforceLease(old(epochs), stream, presented) == Ok(epochs)
      ensures r.Err? ==> Journal.EnforceLease(old(epochs), stream, presented) == Err(r.error) && epochs == old(epochs)
      ensures r.Ok? <==> Admission.FenceAdmits(old(epochs), stream, presented)
      ensures r.Ok? ==> MinimumEpoch(epochs, stream) == presented
    {
      Admission.FenceExactly(epochs, stream, presented);
      if stream in epochs {
        if presented < epochs[stream] {
          return Err(StaleLeaseEpoch(stream, presented, epochs[stream]));
        }
        if presented == epochs[stream] {
          return Ok(());
        }
      } else if presented == 0 {
        return Ok(());
      }
      if presented > I64_MAX {
        return Err(Storage);
      }
      epochs := epochs[stream := presented];
      return Ok(());
    }

    method AppendEntry(epoch: nat, e: Entry, event: EventId, admissible: bool) returns (r: Result<()>)
      modifies this
      ensures r.Ok? ==> Transactions.AppendEntry(old(Snapshot()), epoch, e, event, admissible) == Ok(Snapshot())
      ensures r.Err? ==> Transactions.AppendEntry(old(Snapshot()), epoch, e, event, admissible) == Err(r.error)
                         && Snapshot() == old(Snapshot())
    {
      var saved := Snapshot();
      r := EnforceLease(ThreadStream(e.coords.thread), epoch);
      if r.Ok? {
        r := InsertEntry(e, event, admissible);
      }
      if r.Err? {
        Rollback(saved);
        return;
      }
      leaves := leaves[e.coords.thread := e.id];
    }

    method Append(epoch: nat, coords: Coordinates, parent: Option<EntryId>, kind: EntryKind, ids: FreshIds, admissible: bool)
      returns (r: Result<Entry>)
      requires Valid()
      modifies this
      ensures Valid() && Snapshot() == Commit(old(Snapshot()), Call(epoch, Transactions.Append(coords, parent, kind, ids, admissible)))
      ensures r == match AppendTx(old(Snapshot()), epoch, coords, parent, kind, ids, admissible)
        case Ok(done) => Ok(done.1)
        case Err(e) => Err(e)
    {
      StepKeepsInvariant(Snapshot(), Call(epoch, Transactions.Append(coords, parent, kind, ids, admissible)));
      var up := ResolveParent(Snapshot(), coords, parent);
      if up.Err? {
        return Err(up.error);
      }
      var e := Entry(ids.entry, up.value, None, coords, kind, |entries|);
      var done := AppendEntry(epoch, e, ids.event, admissible);
      return if done.Ok? then Ok(e) else Err(done.error);
    }

    method AppendTurnInput(epoch: nat, coords: Coordinates, turn: string, kind: EntryKind, ids: FreshIds)
      returns (r: Result<Entry>)
      requires Valid()
      modifies this
      ensures Valid() && Snapshot() == Commit(old(Snapshot()), Call(epoch, TurnInput(coords, turn, kind, ids)))
      ensures r == match TurnTx(old(Snapshot()), epoch, coords, turn, kind, ids)
        case Ok(done) => Ok(done.1)
        case Err(e) => Err(e)
    {
      StepKeepsInvariant(Snapshot(), Call(epoch, TurnInput(coords, turn, kind, ids)));
      if exists id :: id in entries && HoldsTurn(entries, id, coords.thread, turn) {
        var id :| id in entries && HoldsTurn(entries, id, coords.thread, turn);
        Turns.LookupFindsRow(entries, id, coords.thread, turn);
        var checked := ValidateCoordinates(coords, entries[id]);
        if checked.Err? {
          return Err(checked.error);
        }
        return if TurnKindsMatch(entries[id].kind, kind) then Ok(entries[id]) else Err(Storage);
      }
      assert !TurnRecorded(entries, coords.thread, turn);
      var up := ActiveParent(Snapshot(), coords);
      if up.Err? {
        return Err(up.error);
      }
      var e := Entry(ids.entry, up.value, Some(turn), coords, kind, |entries|);
      var done := AppendEntry(epoch, e, ids.event, true);
      return if done.Ok? then Ok(e) else Err(done.error);
    }

    method SelectBranch(epoch: nat, coords: Coordinates, leaf: Option<EntryId>, event: EventId) returns (r: Result<()>)
      requires Valid()
      modifies this
      ensures Valid() && Snapshot() == Commit(old(Snapshot()), Call(epoch, Select(coords, leaf, event)))
      ensures r.Ok? <==> SelectTx(old(Snapshot()), epoch, coords, leaf, event).Ok?
      ensures r.Err? ==> SelectTx(old(Snapshot()), epoch, coords, leaf, event) == Err(r.error)
    {
      StepKeepsInvariant(Snapshot(), Call(epoch, Select(coords, leaf, event)));
      var saved := Snapshot();
      var prior := ActiveParent(saved, coords);
      if prior.Err? {
        return Err(prior.error);
      }
      if leaf.Some? {
        var path := BranchPath(coords, leaf.value);
        if path.Err? {
          return Err(path.error);
        }
      }
      var stream := ThreadStream(coords.thread);
      r := EnforceLease(stream, epoch);
      if r.Ok? {
        r := InsertEvent(stream, Record(event, coords, BranchSelected(coords.thread, leaf, prior.value), true));
      }
      if r.Err? {
        Rollback(saved);
        return;
      }
      if leaf.Some? {
        leaves := leaves[coords.thread := leaf.value];
      } else {
        leaves := leaves - {coords.thread};
      }
    }

    method CopyPath(target: Coordinates, path: seq<Entry>, supply: nat -> FreshIds) returns (r: Result<Option<EntryId>>)
      modifies this
      ensures r.Ok? ==> Transactions.CopyPath(old(Snapshot()), target, path, supply) == Ok(Snapshot())
      ensures r.Ok? ==> r.value == if path == [] then None else Some(supply(|path| - 1).entry)
      ensures r.Err? ==> Transactions.CopyPath(old(Snapshot()), target, path, supply) == Err(r.error)
    {
      var parent: Option<EntryId> := None;
      for k := 0 to |path|
        invariant Transactions.CopyPath(old(Snapshot()), target, path[..k], supply) == Ok(Snapshot())
        invariant parent == if k == 0 then None else Some(supply(k - 1).entry)
      {
        var e := Entry(supply(k).entry, parent, None, target, path[k].kind, |entries|);
        CopySnoc(old(Snapshot()), Snapshot(), target, path, supply, k);
        var done := InsertEntry(e, supply(k).event, true);
        if done.Err? {
          CopyFails(old(Snapshot()), target, path, supply, k + 1);
          return Err(done.error);
        }
        parent := Some(supply(k).entry);
      }
      assert path[..|path|] == path;
      return Ok(parent);
    }

    method CloneBranch(epoch: nat, source: Coordinates, leaf: Option<EntryId>, target: Coordinates, supply: nat -> FreshIds)
      returns (r: Result<Option<EntryId>>)
      requires Valid()
      modifies this
      ensures Valid() && Snapshot() == Commit(old(Snapshot()), Call(epoch, Clone(source, leaf, target, supply)))
      ensures r == match CloneTx(old(Snapshot()), epoch, source, leaf, target, supply)
        case Ok(done) => Ok(done.1)
        case Err(e) => Err(e)
    {
      StepKeepsInvariant(Snapshot(), Call(epoch, Clone(source, leaf, target, supply)));
      var saved := Snapshot();
      if leaf.None? {
        bases, leaves := bases - {target.thread}, leaves - {target.thread};
        return Ok(None);
      }
      r := CopyBranch(epoch, source, leaf.value, target, supply);
      if r.Err? {
        Rollback(saved);
      }
    }

    /** The work of a clone with a leaf, inside its transaction. */
    method CopyBranch(epoch: nat, source: Coordinates, leaf: EntryId, target: Coordinates, supply: nat -> FreshIds)
      returns (r: Result<Option<EntryId>>)
      requires Forest(entries)
      modifies this
      ensures r.Ok? ==> CloneTx(old(Snapshot()), epoch, source, Some(leaf), target, supply) == Ok((Snapshot(), r.value))
      ensures r.Err? ==> CloneTx(old(Snapshot()), epoch, source, Some(leaf), target, supply) == Err(r.error)
    {
      bases := bases - {target.thread};
      var path := BranchPath(source, leaf);
      if path.Err? {
        return Err(path.error);
      }
      var fence := EnforceLease(ThreadStream(target.thread), epoch);
      if fence.Err? {
        return Err(fence.error);
      }
      assert Snapshot() == Detached(old(Snapshot()), target.thread, epochs);
      r := CopyPath(target, path.value, supply);
      if r.Ok? && r.value.Some? {
        leaves := leaves[target.thread := r.value.value];
      }
    }

    method ForkByReference(source: Coordinates, target: Coordinates, base: Base) returns (r: Result<()>)
      requires Valid()
      modifies this
      ensures Valid() && forall epoch :: Snapshot() == Commit(old(Snapshot()), Call(epoch, Fork(source, target, base)))
      ensures r.Ok? <==> ForkTx(old(Snapshot()), source, target, base).Ok?
      ensures r.Err? ==> ForkTx(old(Snapshot()), source, target, base) == Err(r.error)
    {
      StepKeepsInvariant(Snapshot(), Call(0, Fork(source, target, base)));
      ForkCommits(Snapshot(), source, target, base);
      r := ValidateBase(source, target, base);
      if r.Err? {
        return;
      }
      r := ValidateBaseCycle(target.thread, source.thread);
      if r.Err? {
        return;
      }
      if base.leaf.Some? {
        var context, _ := BuildContextFrom(source, base.leaf, false, {});
        if context.Err? {
          return Err(context.error);
        }
      }
      leaves := leaves - {target.thread};
      bases := bases[base.child := base];
      return Ok(());
    }

    method InsertBatch(stream: StreamId, records: seq<Record>) returns (r: Result<()>)
      modifies this`events
      ensures r.Ok? ==> InsertEvents(old(events), stream, records) == Ok(events)
      ensures r.Err? ==> InsertEvents(old(events), stream, records) == Err(r.error)
    {
      for k := 0 to |records|
        invariant InsertEvents(old(events), stream, records[..k]) == Ok(events)
      {
        assert records[..k + 1][..k] == records[..k];
        r := InsertEvent(stream, records[k]);
        if r.Err? {
          BatchFails(old(events), stream, records, k + 1);
          return;
        }
      }
      assert records[..|records|] == records;
      return Ok(());
    }

    /** Append a batch; a failed batch leaves neither its events nor a raised fence behind. */
    method AppendEvents(epoch: nat, stream: StreamId, records: seq<Record>) returns (r: Result<seq<Event>>)
      requires Valid()
      modifies this
      ensures Valid() && Snapshot() == Commit(old(Snapshot()), Call(epoch, Transactions.AppendEvents(stream, records)))
      ensures r.Ok? ==> events == old(events) + r.value && Stamped(r.value, stream, records)
      ensures r.Err? ==> AppendEventsTx(old(Snapshot()), epoch, stream, records) == Err(r.error)
                         && Snapshot() == old(Snapshot())
    {
      StepKeepsInvariant(Snapshot(), Call(epoch, Transactions.AppendEvents(stream, records)));
      var saved := Snapshot();
      var done := EnforceLease(stream, epoch);
      if done.Ok? {
        done := InsertBatch(stream, records);
      }
      if done.Err? {
        Rollback(saved);
        return Err(done.error);
      }
      InsertsAppend(saved.events, stream, records);
      return Ok(events[|saved.events|..]);
    }

    method AppendEventsFenced(epoch: nat, stream: StreamId, expected: int, records: seq<Record>) returns (r: Result<seq<Event>>)
      requires Valid()
      modifies this
      ensures Valid() && Snapshot() == Commit(old(Snapshot()), Call(epoch, AppendFenced(stream, expected, records)))
      ensures r.Ok? ==> NextSequence(old(events), stream) == expected
                        && events == old(events) + r.value && Stamped(r.value, stream, records)
      ensures r.Err? ==> AppendFencedTx(old(Snapshot()), epoch, stream, expected, records) == Err(r.error)
                         && Snapshot() == old(Snapshot())
    {
      StepKeepsInvariant(Snapshot(), Call(epoch, AppendFenced(stream, expected, records)));
      var saved := Snapshot();
      var done := EnforceLease(stream, epoch);
      if done.Ok? {
        var actual := NextSequence(events, stream);
        if actual != expected {
          done := Err(AppendFenceConflict(stream, expected, actual));
        } else {
          done := InsertBatch(stream, records);
        }
      }
      if done.Err? {
        Rollback(saved);
        return Err(done.error);
      }
      InsertsAppend(saved.events, stream, records);
      return Ok(events[|saved.events|..]);
    }

    /** Rebuild the leaf cache from the journal; the other tables may be in any state. */
    method RebuildActiveLeaves() returns (r: Result<()>)
      modifies this
      ensures r.Ok? ==> RebuildTx(old(Snapshot())) == Ok(Snapshot())
      ensures r.Err? ==> RebuildTx(old(Snapshot())) == Err(r.error) && Snapshot() == old(Snapshot())
    {
      var saved := Snapshot();
      var selected := SelectedThreads(events);
      if selected == {} {
        return Ok(());
      }
      leaves := leaves - selected;
      for k := 0 to |events|
        invariant events == saved.events && entries == saved.entries && bases == saved.bases && epochs == saved.epochs
        invariant ReplayEvents(entries, selected, saved.leaves - selected, events[..k]) == Ok(leaves)
      {
        assert events[..k + 1][..k] == events[..k];
        var replayed := ReplayEvent(entries, selected, leaves, events[k]);
        if replayed.Err? {
          ReplayFails(entries, selected, saved.leaves - selected, events, k + 1);
          Rollback(saved);
          return Err(replayed.error);
        }
        leaves := replayed.value;
      }
      assert events[..|events|] == events;
      return Ok(());
    }
  }

  // A failing prefix makes the whole loop fail with the same error.

  /** A fork commits alike for every epoch. */
  lemma {:induction false} ForkCommits(s: Store, source: Coordinates, target: Coordinates, base: Base)
    requires Forest(s.entries)
    ensures forall epoch ::
              Commit(s, Call(epoch, Fork(source, target, base)))
              == (var r := ForkTx(s, source, target, base); if r.Ok? then r.value else s)
  {
  }

  lemma {:induction false} BatchFails(events: seq<Event>, stream: StreamId, records: seq<Record>, k: nat)
    requires k <= |records| && InsertEvents(events, stream, records[..k]).Err?
    ensures InsertEvents(events, stream, records) == InsertEvents(events, stream, records[..k])
    decreases |records| - k
  {
    if k == |records| {
      assert records[..k] == records;
    } else {
      assert records[..k + 1][..k] == records[..k];
      BatchFails(events, stream, records, k + 1);
    }
  }

  lemma {:induction false} CopySnoc(s: Store, before: Store, target: Coordinates, path: seq<Entry>, supply: nat -> FreshIds, k: nat)
    requires k < |path| && Transactions.CopyPath(s, target, path[..k], supply) == Ok(before)
    ensures var parent := if k == 0 then None else Some(supply(k - 1).entry);
      var e := Entry(supply(k).entry, parent, None, target, path[k].kind, |before.entries|);
      Transactions.CopyPath(s, target, path[..k + 1], supply) == Transactions.InsertEntry(before, e, supply(k).event, true)
  {
    var longer := path[..k + 1];
    assert |longer| - 1 == k && longer[..k] == path[..k] && longer[k] == path[k];
    assert Transactions.CopyPath(s, target, longer[..k], supply) == Ok(before);
  }

  lemma {:induction false} CopyFails(s: Store, target: Coordinates, path: seq<Entry>, supply: nat -> FreshIds, k: nat)
    requires k <= |path| && Transactions.CopyPath(s, target, path[..k], supply).Err?
    ensures Transactions.CopyPath(s, target, path, supply) == Transactions.CopyPath(s, target, path[..k], supply)
    decreases |path| - k
  {
    if k == |path| {
      assert path[..k] == path;
    } else {
      assert path[..k + 1][..k] == path[..k];
      CopyFailsOnce(s, target, path[..k + 1], supply);
      CopyFails(s, target, path, supply, k + 1);
    }
  }

  lemma {:induction false} CopyFailsOnce(s: Store, target: Coordinates, path: seq<Entry>, supply: nat -> FreshIds)
    requires path != [] && Transactions.CopyPath(s, target, path[..|path| - 1], supply).Err?
    ensures Transactions.CopyPath(s, target, path, supply) == Transactions.CopyPath(s, target, path[..|path| - 1], supply)
  {
  }

  lemma {:induction false} ReplayFails(entries: Entries, selected: set<ThreadId>, leaves: map<ThreadId, EntryId>, events: seq<Event>, k: nat)
    requires k <= |events| && ReplayEvents(entries, selected, leaves, events[..k]).Err?
    ensures ReplayEvents(entries, selected, leaves, events) == ReplayEvents(entries, selected, leaves, events[..k])
    decreases |events| - k
  {
    if k == |events| {
      assert events[..k] == events;
    } else {
      assert events[..k + 1][..k] == events[..k];
      ReplayFails(entries, selected, leaves, events, k + 1);
    }
  }
}
