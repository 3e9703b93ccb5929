/** A turn's input is recorded once, and retries return the recorded entry. */
module Turns {
  import opened Wrappers
  import opened HistoryModel
  import opened Branches
  import opened Transactions

  predicate SameTurn(a: Entry, b: Entry) {
    a.turn.Some? && a.turn == b.turn && a.coords.thread == b.coords.thread
  }

  ghost predicate TurnsUnique(entries: Entries) {
    forall i, j :: i in entries && j in entries && SameTurn(entries[i], entries[j]) ==> i == j
  }

  /** A committed turn input either finds its turn recorded and changes nothing, or adds one row. */
  lemma {:induction false} TurnInputEffect(s: Store, epoch: nat, coords: Coordinates, turn: string, kind: EntryKind, ids: FreshIds)
    requires TurnTx(s, epoch, coords, turn, kind, ids).Ok?
    ensures var (after, e) := TurnTx(s, epoch, coords, turn, kind, ids).value;
      && (TurnRecorded(s.entries, coords.thread, turn) ==> after == s)
      && (!TurnRecorded(s.entries, coords.thread, turn) ==> after.entries == s.entries[e.id := e] && e.id !in s.entries)
      && e.coords == coords && e.turn == Some(turn)
  {
  }

  lemma {:induction false} StepKeepsTurns(s: Store, c: Call)
    requires Forest(s.entries) && TurnsUnique(s.entries)
    ensures TurnsUnique(Commit(s, c).entries)
  {
    if Commits(s, c) {
      if c.op.TurnInput? {
        var op := c.op;
        TurnInputEffect(s, c.epoch, op.coords, op.turn, op.kind, op.ids);
        var (after, e) := TurnTx(s, c.epoch, op.coords, op.turn, op.kind, op.ids).value;
        assert Commit(s, c) == after;
        if !TurnRecorded(s.entries, op.coords.thread, op.turn) {
          forall id | id in s.entries ensures !HoldsTurn(s.entries, id, op.coords.thread, op.turn) {
          }
        }
      } else {
        CommitEffect(s, c);
        TurnlessRowsKeepTurns(s.entries, Commit(s, c).entries, c.op);
      }
    }
  }

  lemma {:induction false} TurnlessRowsKeepTurns(before: Entries, after: Entries, op: Op)
    requires TurnsUnique(before) && Extends(before, after) && NewRows(before, after, op) && !op.TurnInput?
    ensures TurnsUnique(after)
  {
    forall i, j | i in after && j in after && SameTurn(after[i], after[j]) ensures i == j
    {
      assert i in before && j in before;
    }
  }

  /** In every reachable state there is at most one entry per thread and turn id. */
  lemma {:induction false} TurnRecordedOnce(s: Store, calls: seq<Call>)
    requires Forest(s.entries) && TurnsUnique(s.entries)
    ensures TurnsUnique(Run(s, calls).entries)
  {
    if calls != [] {
      TurnRecordedOnce(s, calls[..|calls| - 1]);
      StepKeepsTurns(Run(s, calls[..|calls| - 1]), calls[|calls| - 1]);
    }
  }

  lemma {:induction false} LookupFindsRow(entries: Entries, id: EntryId, thread: ThreadId, turn: string)
    requires TurnsUnique(entries) && HoldsTurn(entries, id, thread, turn)
    ensures TurnRecorded(entries, thread, turn) && RecordedTurn(entries, thread, turn) == entries[id]
  {
  }

  /** Retrying a recorded turn with a matching kind, through any handle and after any other calls,
      returns the same entry and leaves every table as it is; a different kind is refused. User messages
      match by their content, whenever they were sent; any other input must be the very same. */
  lemma {:induction false} RetryReturnsRecordedEntry(s: Store, epoch: nat, coords: Coordinates, turn: string, kind: EntryKind, ids: FreshIds,
                                  calls: seq<Call>, epoch': nat, kind': EntryKind, ids': FreshIds)
    requires Forest(s.entries) && TurnsUnique(s.entries)
    requires TurnTx(s, epoch, coords, turn, kind, ids).Ok?
    ensures var e := TurnTx(s, epoch, coords, turn, kind, ids).value.1;
      var later := Run(s, [Call(epoch, TurnInput(coords, turn, kind, ids))] + calls);
      TurnTx(later, epoch', coords, turn, kind', ids')
        == if (if e.kind.UserMessage? && kind'.UserMessage? then e.kind.content == kind'.content else e.kind == kind')
           then Ok((later, e)) else Err(Storage)
  {
    var first := Call(epoch, TurnInput(coords, turn, kind, ids));
    var (after, e) := TurnTx(s, epoch, coords, turn, kind, ids).value;
    assert after == Commit(s, first) == Run(s, [first]);
    RunConcat(s, [first], calls);
    TurnInputEffect(s, epoch, coords, turn, kind, ids);
    assert IsRow(after.entries, e) by {
      if TurnRecorded(s.entries, coords.thread, turn) {
        RecordedIsRow(s, coords.thread, turn);
      }
    }
    StepKeepsTurns(s, first);
    TurnRecordedOnce(after, calls);
    RunGrows(after, calls);
    LookupFindsRow(Run(after, calls).entries, e.id, coords.thread, turn);
  }

  lemma {:induction false} RecordedIsRow(s: Store, thread: ThreadId, turn: string)
    requires Forest(s.entries) && TurnRecorded(s.entries, thread, turn)
    ensures IsRow(s.entries, RecordedTurn(s.entries, thread, turn))
  {
    var id :| id in s.entries && HoldsTurn(s.entries, id, thread, turn) && s.entries[id] == RecordedTurn(s.entries, thread, turn);
    assert RowOk(s.entries, id);
  }
}
