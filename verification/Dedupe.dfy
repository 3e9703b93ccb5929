/** The ingress submit protocol: claim the dedupe key, enqueue, then commit or release, with
    failures and cancellation at every point and any number of submitters interleaved. */
module Dedupe {

  type Submitter = nat
  type Key = string

  /** Where a submit stands. From `Claimed` to `Dropping` its guard is armed. */
  datatype Phase =
    | Idle
    | Claimed
    | Enqueued
    | Releasing
    | Dropping
    | Accepted
    | Rejected
    | Failed(leaked: bool)

  datatype Message = Message(key: Key, from: Submitter)

  /** `keys` gives each witnessed submit its effective dedupe key; `table` maps a claimed key to the
      submit that inserted the row; `queue` is everything ever enqueued. */
  datatype State = State(keys: map<Submitter, Key>, table: map<Key, Submitter>, queue: seq<Message>, phases: map<Submitter, Phase>)

  datatype Action =
    | Claim(i: Submitter)
    | ClaimError(i: Submitter)
    | EncodeError(i: Submitter)
    | EnqueueOk(i: Submitter)
    | EnqueueError(i: Submitter)
    | Cancel(i: Submitter)
    | CancelAfterEnqueue(i: Submitter)
    | Commit(i: Submitter)
    | Release(i: Submitter, ok: bool)
    | Drop(i: Submitter, ok: bool)

  function PhaseOf(s: State, i: Submitter): Phase {
    if i in s.phases then s.phases[i] else Idle
  }

  function Move(s: State, i: Submitter, p: Phase): State {
    s.(phases := s.phases[i := p])
  }

  /** `INSERT OR IGNORE`: the row is inserted unless the key already has one. */
  function ClaimRow(table: map<Key, Submitter>, key: Key, i: Submitter): map<Key, Submitter> {
    if key in table then table else table[key := i]
  }

  /** `DELETE` by key, whoever inserted the row. */
  function ReleaseRow(table: map<Key, Submitter>, key: Key): map<Key, Submitter> {
    table - {key}
  }

  /** One atomic step; an action that is not enabled does nothing. */
  function Step(s: State, a: Action): State {
    var p := PhaseOf(s, a.i);
    if a.i !in s.keys then (if a.Claim? && p.Idle? then Move(s, a.i, Failed(false)) else s) else
    var key := s.keys[a.i];
    match a
    case Claim(i) =>
      if !p.Idle? then s
      else if key in s.table then Move(s, i, Rejected)
      else Move(s.(table := ClaimRow(s.table, key, i)), i, Claimed)
    case ClaimError(i) => if p.Idle? then Move(s, i, Failed(false)) else s
    case EncodeError(i) => if p.Claimed? then Move(s, i, Dropping) else s
    case EnqueueOk(i) => if p.Claimed? then Move(s.(queue := s.queue + [Message(key, i)]), i, Enqueued) else s
    case EnqueueError(i) => if p.Claimed? then Move(s, i, Releasing) else s
    case Cancel(i) => if p.Claimed? then Move(s, i, Dropping) else s
    case CancelAfterEnqueue(i) => if p.Claimed? then Move(s.(queue := s.queue + [Message(key, i)]), i, Dropping) else s
    case Commit(i) => if p.Enqueued? then Move(s, i, Accepted) else s
    case Release(i, ok) =>
      if !p.Releasing? then s
      else if ok then Move(s.(table := ReleaseRow(s.table, key)), i, Failed(false)) else Move(s, i, Dropping)
    case Drop(i, ok) =>
      if !p.Dropping? then s
      else if ok then Move(s.(table := ReleaseRow(s.table, key)), i, Failed(false)) else Move(s, i, Failed(true))
  }

  function Run(s: State, actions: seq<Action>): State {
    if actions == [] then s else Step(Run(s, actions[..|actions| - 1]), actions[|actions| - 1])
  }

  function Start(keys: map<Submitter, Key>): State {
    State(keys, map[], [], map[])
  }

  // ----- What every schedule keeps -----

  /** The submit keeps its key claimed. */
  predicate Holds(p: Phase) {
    p.Claimed? || p.Enqueued? || p.Releasing? || p.Dropping? || p.Accepted? || p == Failed(true)
  }

  predicate HasMessage(p: Phase) {
    p.Enqueued? || p.Accepted?
  }

  ghost predicate RowsAreHeld(s: State) {
    forall k :: k in s.table ==> s.table[k] in s.keys && s.keys[s.table[k]] == k && Holds(PhaseOf(s, s.table[k]))
  }

  ghost predicate HoldersHaveRows(s: State) {
    forall i :: i in s.phases && Holds(s.phases[i]) ==>
      i in s.keys && s.keys[i] in s.table && s.table[s.keys[i]] == i
  }

  /** A submit whose message went out is past its claim. */
  ghost predicate SendersArePast(s: State) {
    forall n :: 0 <= n < |s.queue| ==>
      && s.queue[n].from in s.keys && s.keys[s.queue[n].from] == s.queue[n].key
      && !PhaseOf(s, s.queue[n].from).Idle? && !PhaseOf(s, s.queue[n].from).Claimed?
  }

  ghost predicate OneMessageEach(s: State) {
    forall m, n :: 0 <= m < n < |s.queue| ==> s.queue[m].from != s.queue[n].from
  }

  /** Claims and holders match one to one, and no submit sends twice. */
  ghost predicate Invariant(s: State) {
    RowsAreHeld(s) && HoldersHaveRows(s) && SendersArePast(s) && OneMessageEach(s)
  }

  lemma {:induction false} StepKeepsRows(s: State, a: Action)
    requires RowsAreHeld(s) && HoldersHaveRows(s)
    ensures RowsAreHeld(Step(s, a))
  {
  }

  lemma {:induction false} StepKeepsHolders(s: State, a: Action)
    requires RowsAreHeld(s) && HoldersHaveRows(s)
    ensures HoldersHaveRows(Step(s, a))
  {
  }

  lemma {:induction false} StepSendsOnce(s: State, a: Action)
    requires SendersArePast(s) && OneMessageEach(s)
    ensures SendersArePast(Step(s, a)) && OneMessageEach(Step(s, a)) && Step(s, a).keys == s.keys
  {
    var after := Step(s, a);
    PhasesMoveOn(s, a);
    assert forall n :: 0 <= n < |s.queue| ==> after.queue[n] == s.queue[n];
  }

  /** Only the acting submit moves, never back to `Idle`, and to `Claimed` only from `Idle`; a
      message is added only by a submit that leaves `Claimed`. */
  lemma {:induction false} PhasesMoveOn(s: State, a: Action)
    ensures var after := Step(s, a);
      && after.keys == s.keys
      && (forall i :: i != a.i ==> PhaseOf(after, i) == PhaseOf(s, i))
      && (PhaseOf(after, a.i).Idle? || PhaseOf(after, a.i).Claimed? ==> PhaseOf(s, a.i).Idle? || PhaseOf(s, a.i).Claimed?)
      && (after.queue == s.queue
          || (a.i in s.keys && after.queue == s.queue + [Message(s.keys[a.i], a.i)] && PhaseOf(s, a.i).Claimed?
              && !PhaseOf(after, a.i).Idle? && !PhaseOf(after, a.i).Claimed?))
  {
  }

  /** Under every schedule, late cancellations included. */
  lemma {:induction false} RunKeepsInvariant(keys: map<Submitter, Key>, actions: seq<Action>)
    ensures Invariant(Run(Start(keys), actions)) && Run(Start(keys), actions).keys == keys
  {
    if actions != [] {
      var init, last := actions[..|actions| - 1], actions[|actions| - 1];
      RunKeepsInvariant(keys, init);
      var s := Run(Start(keys), init);
      StepKeepsRows(s, last);
      StepKeepsHolders(s, last);
      StepSendsOnce(s, last);
    }
  }

  ghost predicate SameOutside(before: map<Key, Submitter>, after: map<Key, Submitter>, k: Key) {
    forall j :: j != k ==> (j in before <==> j in after) && (j in before ==> before[j] == after[j])
  }

  /** A release deletes the releaser's own claim and no other. */
  lemma {:induction false} ReleaseIsOwn(keys: map<Submitter, Key>, actions: seq<Action>, a: Action)
    requires a.Release? || a.Drop?
    ensures var s := Run(Start(keys), actions);
      var after := Step(s, a);
      after.table != s.table ==>
        && a.i in s.keys && s.keys[a.i] in s.table && s.table[s.keys[a.i]] == a.i
        && s.keys[a.i] !in after.table && SameOutside(s.table, after.table, s.keys[a.i])
  {
    RunKeepsInvariant(keys, actions);
  }

  /** A key is claimed exactly while some submit of it is in flight, accepted, or failed to release:
      so once a failed submit has released and no rival holds the key, the key is free. */
  lemma {:induction false} ClaimedExactlyWhileHeld(keys: map<Submitter, Key>, actions: seq<Action>, key: Key)
    ensures var s := Run(Start(keys), actions);
      key in s.table <==> exists i :: i in s.keys && s.keys[i] == key && Holds(PhaseOf(s, i))
  {
    RunKeepsInvariant(keys, actions);
    var s := Run(Start(keys), actions);
    if key in s.table {
      assert s.keys[s.table[key]] == key;
    }
  }

  // ----- Which messages are out -----

  ghost predicate Sent(s: State, i: Submitter) {
    exists n :: 0 <= n < |s.queue| && s.queue[n].from == i
  }

  /** Step `k` of the schedule cancels the submit just after its message went out. */
  ghost predicate LateAt(keys: map<Submitter, Key>, actions: seq<Action>, k: nat, i: Submitter)
    requires k < |actions|
  {
    actions[k] == CancelAfterEnqueue(i) && PhaseOf(Run(Start(keys), actions[..k]), i).Claimed?
  }

  ghost predicate CancelledLate(keys: map<Submitter, Key>, actions: seq<Action>, i: Submitter) {
    exists k :: 0 <= k < |actions| && LateAt(keys, actions, k, i)
  }

  lemma {:induction false} LateSnoc(keys: map<Submitter, Key>, init: seq<Action>, last: Action, i: Submitter)
    ensures CancelledLate(keys, init + [last], i) <==>
              CancelledLate(keys, init, i) || (last == CancelAfterEnqueue(i) && PhaseOf(Run(Start(keys), init), i).Claimed?)
  {
    var actions := init + [last];
    assert actions[..|init|] == init && actions[|init|] == last;
    assert forall k :: 0 <= k < |init| ==> actions[..k] == init[..k] && actions[k] == init[k];
    if CancelledLate(keys, init, i) {
      var k :| 0 <= k < |init| && LateAt(keys, init, k, i);
      assert LateAt(keys, actions, k, i);
    }
    if last == CancelAfterEnqueue(i) && PhaseOf(Run(Start(keys), init), i).Claimed? {
      assert LateAt(keys, actions, |init|, i);
    }
    if CancelledLate(keys, actions, i) {
      var k :| 0 <= k < |actions| && LateAt(keys, actions, k, i);
      assert k < |init| ==> LateAt(keys, init, k, i);
    }
  }

  lemma {:induction false} SentStep(s: State, a: Action, i: Submitter)
    requires Invariant(s)
    ensures Sent(Step(s, a), i) <==>
              Sent(s, i) || ((a == EnqueueOk(i) || a == CancelAfterEnqueue(i)) && PhaseOf(s, i).Claimed?)
  {
    var after := Step(s, a);
    PhasesMoveOn(s, a);
    if Sent(s, i) {
      var n :| 0 <= n < |s.queue| && s.queue[n].from == i;
      assert after.queue[n].from == i;
    }
    if (a == EnqueueOk(i) || a == CancelAfterEnqueue(i)) && PhaseOf(s, i).Claimed? {
      assert after.queue[|s.queue|].from == i;
    }
    if Sent(after, i) {
      var n :| 0 <= n < |after.queue| && after.queue[n].from == i;
      assert n < |s.queue| ==> s.queue[n].from == i;
    }
  }

  /** A submit's message is out exactly when it stands enqueued or accepted, or was cancelled late;
      and a submit cancelled late is being dropped or has failed. */
  lemma {:induction false} SentExactly(keys: map<Submitter, Key>, actions: seq<Action>, i: Submitter)
    ensures var s := Run(Start(keys), actions);
      && (Sent(s, i) <==> HasMessage(PhaseOf(s, i)) || CancelledLate(keys, actions, i))
      && (CancelledLate(keys, actions, i) ==> PhaseOf(s, i).Dropping? || PhaseOf(s, i).Failed?)
  {
    if actions != [] {
      var init, last := actions[..|actions| - 1], actions[|actions| - 1];
      var s := Run(Start(keys), init);
      assert actions == init + [last];
      SentExactly(keys, init, i);
      RunKeepsInvariant(keys, init);
      LateSnoc(keys, init, last, i);
      SentStep(s, last, i);
      PhaseStep(s, last, i);
    }
  }

  /** How the phases that count a message, or follow a late cancellation, move on. */
  lemma {:induction false} PhaseStep(s: State, a: Action, i: Submitter)
    requires HoldersHaveRows(s)
    ensures var p, q := PhaseOf(s, i), PhaseOf(Step(s, a), i);
      && (HasMessage(q) <==> HasMessage(p) || (a == EnqueueOk(i) && p.Claimed?))
      && (p.Dropping? || p.Failed? ==> q.Dropping? || q.Failed?)
      && (a == CancelAfterEnqueue(i) && p.Claimed? ==> q.Dropping?)
  {
  }

  /** Verdicts are honest under every schedule: an accepted submit has its message in the queue, a
      rejected one has none, and a failed one has one exactly when it was cancelled late. */
  lemma {:induction false} VerdictsAreHonest(keys: map<Submitter, Key>, actions: seq<Action>, i: Submitter)
    ensures var s := Run(Start(keys), actions);
      && (PhaseOf(s, i).Accepted? ==> Sent(s, i))
      && (PhaseOf(s, i).Rejected? ==> !Sent(s, i))
      && (PhaseOf(s, i).Failed? ==> (Sent(s, i) <==> CancelledLate(keys, actions, i)))
  {
    SentExactly(keys, actions, i);
  }

  // ----- At most one message per key -----

  ghost predicate AtMostOnce(s: State, key: Key) {
    forall m, n :: 0 <= m < n < |s.queue| ==> s.queue[m].key != key || s.queue[n].key != key
  }

  /** For a key of which no submit is cancelled late, every schedule enqueues at most one message,
      whatever happens to submits of other keys. */
  lemma {:induction false} EnqueuedAtMostOnce(keys: map<Submitter, Key>, actions: seq<Action>, key: Key)
    requires forall i :: i in keys && keys[i] == key ==> !CancelledLate(keys, actions, i)
    ensures AtMostOnce(Run(Start(keys), actions), key)
  {
    RunKeepsInvariant(keys, actions);
    var s := Run(Start(keys), actions);
    forall n | 0 <= n < |s.queue| && s.queue[n].key == key ensures key in s.table && s.table[key] == s.queue[n].from {
      var i := s.queue[n].from;
      SentExactly(keys, actions, i);
      assert i in s.phases && Holds(s.phases[i]);
    }
  }

  // ----- Late cancellations -----

  /** Two submits of one key where the first is cancelled after its message went out. */
  function LateCancel(i: Submitter, j: Submitter): seq<Action> {
    [Claim(i), CancelAfterEnqueue(i), Drop(i, true), Claim(j), EnqueueOk(j), Commit(j)]
  }

  /** A cancellation that lands after the enqueue took effect releases the key, and any second submit
      of it enqueues a second message. */
  lemma {:induction false} LateCancelDuplicates(keys: map<Submitter, Key>, i: Submitter, j: Submitter)
    requires i in keys && j in keys && i != j && keys[i] == keys[j]
    ensures !AtMostOnce(Run(Start(keys), LateCancel(i, j)), keys[i])
  {
    var key := keys[i];
    var s0 := Start(keys);
    var s1 := Step(s0, Claim(i));
    var s2 := Step(s1, CancelAfterEnqueue(i));
    var s3 := Step(s2, Drop(i, true));
    var s4 := Step(s3, Claim(j));
    var s5 := Step(s4, EnqueueOk(j));
    var s6 := Step(s5, Commit(j));
    assert PhaseOf(s1, i).Claimed? && PhaseOf(s2, i).Dropping? && s2.queue == [Message(key, i)];
    assert key !in s3.table && PhaseOf(s4, j).Claimed? && s4.queue == s2.queue;
    RunPrefixes(s0, LateCancel(i, j));
    assert s6.queue == [Message(key, i), Message(key, j)];
    assert s6.queue[0].key == s6.queue[1].key;
  }

  /** No two submits have this key. */
  predicate Alone(keys: map<Submitter, Key>, key: Key) {
    forall i, j :: i in keys && j in keys && keys[i] == key && keys[j] == key ==> i == j
  }

  /** When a cancellation may land anywhere, every schedule keeps the promise for a key if and only if
      no two submits have it: deduplication is then exactly what the protocol cannot do. */
  lemma {:induction false} PromiseWithoutAtomicity(keys: map<Submitter, Key>, key: Key)
    ensures (forall actions :: AtMostOnce(Run(Start(keys), actions), key)) <==> Alone(keys, key)
  {
    if Alone(keys, key) {
      forall actions ensures AtMostOnce(Run(Start(keys), actions), key) {
        RunKeepsInvariant(keys, actions);
      }
    } else {
      var i, j :| i in keys && j in keys && keys[i] == key && keys[j] == key && i != j;
      LateCancelDuplicates(keys, i, j);
    }
  }

  lemma {:induction false} RunPrefixes(s: State, actions: seq<Action>)
    requires |actions| == 6
    ensures Run(s, actions)
         == Step(Step(Step(Step(Step(Step(s, actions[0]), actions[1]), actions[2]), actions[3]), actions[4]), actions[5])
  {
    forall k | 0 <= k < 6 ensures Run(s, actions[..k + 1]) == Step(Run(s, actions[..k]), actions[k]) {
      assert actions[..k + 1][..k] == actions[..k];
    }
    assert actions[..0] == [] && actions[..6] == actions;
    assert Run(s, actions[..1]) == Step(s, actions[0]);
    assert Run(s, actions[..2]) == Step(Run(s, actions[..1]), actions[1]);
    assert Run(s, actions[..3]) == Step(Run(s, actions[..2]), actions[2]);
    assert Run(s, actions[..4]) == Step(Run(s, actions[..3]), actions[3]);
    assert Run(s, actions[..5]) == Step(Run(s, actions[..4]), actions[4]);
  }

  // ----- One submit as the sink runs it -----

  datatype EnqueueFate = Done | Refused | Cancelled

  /** How the outside world treats one submit: whether the claim store opens, the envelope encodes,
      what the enqueue does, and whether each of the two possible deletes goes through. */
  datatype Fate = Fate(opens: bool, encodes: bool, enqueue: EnqueueFate, releases: bool, drops: bool)

  datatype Ack = AckAccepted | AckRejected | AckError

  /** The steps one submit takes under a fate; steps behind a rejected claim are not enabled. */
  function Script(i: Submitter, fate: Fate): seq<Action> {
    if !fate.opens then [ClaimError(i)]
    else if !fate.encodes then [Claim(i), EncodeError(i), Drop(i, fate.drops)]
    else match fate.enqueue
      case Done => [Claim(i), EnqueueOk(i), Commit(i)]
      case Refused => [Claim(i), EnqueueError(i), Release(i, fate.releases), Drop(i, fate.drops)]
      case Cancelled => [Claim(i), Cancel(i), Drop(i, fate.drops)]
  }

  class IngressQueue {
    var table: map<Key, Submitter>
    var queue: seq<Message>

    constructor ()
      ensures table == map[] && queue == []
    {
      table, queue := map[], [];
    }

    method TryClaim(key: Key, i: Submitter) returns (claimed: bool)
      modifies this`table
      ensures table == ClaimRow(old(table), key, i) && claimed == (key !in old(table))
    {
      claimed := key !in table;
      if claimed {
        table := table[key := i];
      }
    }

    method ReleaseKey(key: Key, ok: bool)
      modifies this`table
      ensures table == if ok then ReleaseRow(old(table), key) else old(table)
    {
      if ok {
        table := table - {key};
      }
    }
  }

  /** The guard of a claim: armed from the claim until it is committed or released. */
  class PendingDedupeClaim {
    const sink: IngressQueue
    const key: Key
    var armed: bool

    constructor (sink: IngressQueue, key: Key)
      ensures this.sink == sink && this.key == key && armed
    {
      this.sink, this.key, armed := sink, key, true;
    }

    method Commit()
      modifies this
      ensures !armed
    {
      armed := false;
    }

    /** An explicit release; when the delete fails the guard stays armed for its drop. */
    method Release(ok: bool)
      modifies this, sink`table
      ensures armed == (old(armed) && !ok)
      ensures sink.table == if ok then ReleaseRow(old(sink.table), key) else old(sink.table)
    {
      sink.ReleaseKey(key, ok);
      if ok {
        armed := false;
      }
    }

    method Drop(ok: bool)
      modifies sink`table
      ensures sink.table == if armed && ok then ReleaseRow(old(sink.table), key) else old(sink.table)
    {
      if armed {
        sink.ReleaseKey(key, ok);
      }
    }
  }

  lemma {:induction false} RunOfFew(s: State, actions: seq<Action>)
    requires 1 <= |actions| <= 4
    ensures |actions| == 1 ==> Run(s, actions) == Step(s, actions[0])
    ensures |actions| == 3 ==> Run(s, actions) == Step(Step(Step(s, actions[0]), actions[1]), actions[2])
    ensures |actions| == 4 ==> Run(s, actions) == Step(Step(Step(Step(s, actions[0]), actions[1]), actions[2]), actions[3])
  {
    assert actions[..0] == [];
    assert Run(s, actions[..1]) == Step(s, actions[0]) by { assert actions[..1][..0] == []; }
    if |actions| >= 2 {
      assert Run(s, actions[..2]) == Step(Run(s, actions[..1]), actions[1]) by { assert actions[..2][..1] == actions[..1]; }
    }
    if |actions| >= 3 {
      assert Run(s, actions[..3]) == Step(Run(s, actions[..2]), actions[2]) by { assert actions[..3][..2] == actions[..2]; }
    }
    if |actions| == 4 {
      assert Run(s, actions[..4]) == Step(Run(s, actions[..3]), actions[3]) by { assert actions[..4][..3] == actions[..3]; }
    }
    assert actions[..|actions|] == actions;
  }

  ghost predicate Matches(s: State, i: Submitter, ack: Ack) {
    match ack
    case AckAccepted => PhaseOf(s, i).Accepted?
    case AckRejected => PhaseOf(s, i).Rejected?
    case AckError => PhaseOf(s, i).Failed?
  }

  /** What the script of one submit adds up to. */
  lemma {:induction false} ScriptEffect(s: State, i: Submitter, key: Key, fate: Fate)
    requires PhaseOf(s, i).Idle? && i in s.keys && s.keys[i] == key
    ensures var after := Run(s, Script(i, fate));
      var claimed := ClaimRow(s.table, key, i);
      if !fate.opens then after.table == s.table && after.queue == s.queue && PhaseOf(after, i).Failed?
      else if key in s.table then after.table == s.table && after.queue == s.queue && PhaseOf(after, i).Rejected?
      else if fate.encodes && fate.enqueue.Done? then
        after.table == claimed && after.queue == s.queue + [Message(key, i)] && PhaseOf(after, i).Accepted?
      else
        && after.queue == s.queue && PhaseOf(after, i).Failed?
        && after.table == if fate.drops || (fate.encodes && fate.enqueue.Refused? && fate.releases)
                          then ReleaseRow(claimed, key) else claimed
  {
    RunOfFew(s, Script(i, fate));
    var s1 := Step(s, Claim(i));
    if fate.opens && key in s.table {
      RejectedStays(s1, i);
    } else if fate.opens {
      assert s1.table == ClaimRow(s.table, key, i) && s1.queue == s.queue && PhaseOf(s1, i).Claimed?;
      if !fate.encodes {
        GivesUp(s1, EncodeError(i), fate.drops);
      } else {
        match fate.enqueue
        case Done => Sends(s1, i);
        case Refused => Releases(s1, i, fate.releases, fate.drops);
        case Cancelled => GivesUp(s1, Cancel(i), fate.drops);
      }
    }
  }

  lemma {:induction false} RejectedStays(s: State, i: Submitter)
    requires PhaseOf(s, i).Rejected?
    ensures forall a: Action :: a.i == i ==> Step(s, a) == s
  {
  }

  lemma {:induction false} Sends(s: State, i: Submitter)
    requires PhaseOf(s, i).Claimed? && i in s.keys
    ensures var after := Step(Step(s, EnqueueOk(i)), Commit(i));
      after.table == s.table && after.queue == s.queue + [Message(s.keys[i], i)] && PhaseOf(after, i).Accepted?
  {
    assert PhaseOf(Step(s, EnqueueOk(i)), i).Enqueued?;
  }

  lemma {:induction false} GivesUp(s: State, a: Action, ok: bool)
    requires PhaseOf(s, a.i).Claimed? && a.i in s.keys && (a.EncodeError? || a.Cancel?)
    ensures var after := Step(Step(s, a), Drop(a.i, ok));
      && after.queue == s.queue && PhaseOf(after, a.i).Failed?
      && after.table == if ok then ReleaseRow(s.table, s.keys[a.i]) else s.table
  {
    assert PhaseOf(Step(s, a), a.i).Dropping?;
  }

  lemma {:induction false} Releases(s: State, i: Submitter, released: bool, dropped: bool)
    requires PhaseOf(s, i).Claimed? && i in s.keys
    ensures var after := Step(Step(Step(s, EnqueueError(i)), Release(i, released)), Drop(i, dropped));
      && after.queue == s.queue && PhaseOf(after, i).Failed?
      && after.table == if released || dropped then ReleaseRow(s.table, s.keys[i]) else s.table
  {
    var s2 := Step(s, EnqueueError(i));
    assert PhaseOf(s2, i).Releasing? && s2.table == s.table && s2.queue == s.queue && s2.keys == s.keys;
    var s3 := Step(s2, Release(i, released));
    assert PhaseOf(s3, i) == if released then Failed(false) else Dropping;
  }

  /** A whole submit, run without interruption, does exactly the steps of its script. A cancelled
      submit answers nobody; its guard is dropped all the same. */
  method Submit(sink: IngressQueue, i: Submitter, key: Key, fate: Fate, ghost s: State) returns (ack: Ack)
    requires s.table == sink.table && s.queue == sink.queue && PhaseOf(s, i).Idle? && i in s.keys && s.keys[i] == key
    modifies sink
    ensures var after := Run(s, Script(i, fate));
      sink.table == after.table && sink.queue == after.queue && Matches(after, i, ack)
  {
    ScriptEffect(s, i, key, fate);
    if !fate.opens {
      return AckError;
    }
    var claimed := sink.TryClaim(key, i);
    if !claimed {
      return AckRejected;
    }
    var claim := new PendingDedupeClaim(sink, key);
    if !fate.encodes {
      claim.Drop(fate.drops);
      return AckError;
    }
    match fate.enqueue {
      case Cancelled =>
        claim.Drop(fate.drops);
        return AckError;
      case Refused =>
        claim.Release(fate.releases);
        claim.Drop(fate.drops);
        return AckError;
      case Done =>
        sink.queue := sink.queue + [Message(key, i)];
        claim.Commit();
        claim.Drop(fate.drops);
        return AckAccepted;
    }
  }
}
