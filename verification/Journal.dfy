/** The append-only journal: sequence allocation, reads, and the lease-epoch write fence. */
module Journal {
  import opened HistoryModel

  const I64_MAX := 0x7FFF_FFFF_FFFF_FFFF

  /** COALESCE(MAX(sequence), 0) over one stream. */
  function MaxSequence(events: seq<Event>, stream: StreamId): nat {
    if events == [] then 0 else
      var m := MaxSequence(events[..|events| - 1], stream);
      var e := events[|events| - 1];
      if e.stream == stream && e.sequence > m then e.sequence else m
  }

  function NextSequence(events: seq<Event>, stream: StreamId): nat {
    MaxSequence(events, stream) + 1
  }

  predicate HasEventId(events: seq<Event>, id: EventId) {
    exists e :: e in events && e.id == id
  }

  function InsertEvent(events: seq<Event>, stream: StreamId, r: Record): Result<seq<Event>> {
    if !r.admissible then Err(Rejected(r.id))
    else if HasEventId(events, r.id) then Err(DuplicateEventId(r.id))
    else Ok(events + [Event(r.id, stream, NextSequence(events, stream), r.coords, r.body)])
  }

  function InsertEvents(events: seq<Event>, stream: StreamId, records: seq<Record>): Result<seq<Event>> {
    if records == [] then Ok(events) else
      var before :- InsertEvents(events, stream, records[..|records| - 1]);
      InsertEvent(before, stream, records[|records| - 1])
  }

  function EnforceLease(epochs: map<StreamId, nat>, stream: StreamId, presented: nat): Result<map<StreamId, nat>> {
    if stream in epochs && presented < epochs[stream] then
      Err(StaleLeaseEpoch(stream, presented, epochs[stream]))
    else if stream in epochs && presented == epochs[stream] then Ok(epochs)
    else if stream !in epochs && presented == 0 then Ok(epochs)
    else if presented > I64_MAX then Err(Storage)
    else Ok(epochs[stream := presented])
  }

  function MinimumEpoch(epochs: map<StreamId, nat>, stream: StreamId): nat {
    if stream in epochs then epochs[stream] else 0
  }

  /** The rows of one stream, in commit order. */
  function StreamOf(events: seq<Event>, stream: StreamId): seq<Event> {
    if events == [] then [] else
      var rest := StreamOf(events[..|events| - 1], stream);
      if events[|events| - 1].stream == stream then rest + [events[|events| - 1]] else rest
  }

  /** The rows a read returns: those of the stream at or after `from`, ordered by sequence. */
  function ReadFrom(events: seq<Event>, stream: StreamId, from: int): seq<Event> {
    if events == [] then [] else
      var rest := ReadFrom(events[..|events| - 1], stream, from);
      var e := events[|events| - 1];
      if e.stream == stream && e.sequence >= from then rest + [e] else rest
  }

  /** Every stream counts 1, 2, 3, … and no event id occurs twice. */
  ghost predicate Linear(events: seq<Event>) {
    && (forall stream, k :: 0 <= k < |StreamOf(events, stream)| ==>
          StreamOf(events, stream)[k].sequence == k + 1)
    && (forall i, j :: 0 <= i < j < |events| ==> events[i].id != events[j].id)
  }

  lemma {:induction false} MaxIsLength(events: seq<Event>, stream: StreamId)
    requires forall k :: 0 <= k < |StreamOf(events, stream)| ==> StreamOf(events, stream)[k].sequence == k + 1
    ensures MaxSequence(events, stream) == |StreamOf(events, stream)|
  {
    if events != [] {
      var init := events[..|events| - 1];
      var last := events[|events| - 1];
      forall k | 0 <= k < |StreamOf(init, stream)|
        ensures StreamOf(init, stream)[k].sequence == k + 1
      {
        assert StreamOf(events, stream)[k] == StreamOf(init, stream)[k];
      }
      MaxIsLength(init, stream);
      if last.stream == stream {
        assert StreamOf(events, stream)[|StreamOf(init, stream)|] == last;
      }
    }
  }

  lemma {:induction false} StreamOfSnoc(events: seq<Event>, e: Event, stream: StreamId)
    ensures StreamOf(events + [e], stream)
         == if e.stream == stream then StreamOf(events, stream) + [e] else StreamOf(events, stream)
  {
    assert (events + [e])[..|events|] == events;
  }

  lemma {:induction false} InsertKeepsLinear(events: seq<Event>, stream: StreamId, r: Record)
    requires Linear(events) && InsertEvent(events, stream, r).Ok?
    ensures Linear(InsertEvent(events, stream, r).value)
  {
    var e := Event(r.id, stream, NextSequence(events, stream), r.coords, r.body);
    var after := events + [e];
    forall st, k | 0 <= k < |StreamOf(after, st)|
      ensures StreamOf(after, st)[k].sequence == k + 1
    {
      StreamOfSnoc(events, e, st);
      MaxIsLength(events, st);
    }
    forall i, j | 0 <= i < j < |after| ensures after[i].id != after[j].id {
      assert events[i] in events;
    }
  }

  lemma {:induction false} InsertsKeepLinear(events: seq<Event>, stream: StreamId, records: seq<Record>)
    requires Linear(events) && InsertEvents(events, stream, records).Ok?
    ensures Linear(InsertEvents(events, stream, records).value)
  {
    if records != [] {
      InsertsKeepLinear(events, stream, records[..|records| - 1]);
      InsertKeepsLinear(InsertEvents(events, stream, records[..|records| - 1]).value, stream, records[|records| - 1]);
    }
  }

  /** `added` are the records of a batch, in order, stamped with one stream. */
  ghost predicate Stamped(added: seq<Event>, stream: StreamId, records: seq<Record>) {
    && |added| == |records|
    && forall k :: 0 <= k < |added| ==>
         && added[k].stream == stream && added[k].id == records[k].id
         && added[k].coords == records[k].coords && added[k].body == records[k].body
  }

  lemma {:induction false} InsertsAppend(events: seq<Event>, stream: StreamId, records: seq<Record>)
    requires InsertEvents(events, stream, records).Ok?
    ensures events <= InsertEvents(events, stream, records).value
    ensures Stamped(InsertEvents(events, stream, records).value[|events|..], stream, records)
  {
    if records != [] {
      var init := records[..|records| - 1];
      InsertsAppend(events, stream, init);
      var before := InsertEvents(events, stream, init).value;
      var after := InsertEvents(events, stream, records).value;
      assert after[|events|..] == before[|events|..] + [after[|before|]];
    }
  }

  lemma {:induction false} StreamOfGrows(before: seq<Event>, after: seq<Event>, stream: StreamId)
    requires before <= after
    ensures StreamOf(before, stream) <= StreamOf(after, stream)
    decreases |after|
  {
    if before == after {
      assert StreamOf(after, stream) == StreamOf(before, stream);
    } else {
      StreamOfGrows(before, after[..|after| - 1], stream);
    }
  }

  /** A read from `from` is the suffix of the stream that drops the first `from - 1` events. */
  lemma {:induction false} ReadIsSuffix(events: seq<Event>, stream: StreamId, from: int)
    requires Linear(events)
    ensures var whole := StreamOf(events, stream);
      var dropped := if from <= 1 then 0 else if from - 1 <= |whole| then from - 1 else |whole|;
      ReadFrom(events, stream, from) == whole[dropped..]
  {
    if events != [] {
      var init := events[..|events| - 1];
      var last := events[|events| - 1];
      assert init + [last] == events;
      forall st, k | 0 <= k < |StreamOf(init, st)| ensures StreamOf(init, st)[k].sequence == k + 1 {
        StreamOfSnoc(init, last, st);
        assert StreamOf(events, st)[k] == StreamOf(init, st)[k];
      }
      ReadIsSuffix(init, stream, from);
      StreamOfSnoc(init, last, stream);
      if last.stream == stream {
        assert StreamOf(events, stream)[|StreamOf(init, stream)|] == last;
      }
    }
  }
}
