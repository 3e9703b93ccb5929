/** The five tables of the session store, their rows, and the row-level operations
    every transaction is built from. */
module HistoryModel {
  import opened Wrappers

  datatype HistoryError =
    | EntryNotFound(entry: EntryId)
    | EntryThreadMismatch(entry: EntryId, requested: ThreadId, actual: ThreadId)
    | ThreadScopeMismatch(wanted: Coordinates, found: Coordinates)
    | StaleLeaseEpoch(stream: StreamId, presented: nat, minimum: nat)
    | AppendFenceConflict(fenced: StreamId, expectedNext: int, actualNext: int)
    | DuplicateEventId(event: EventId)
    | ThreadBaseCycle(child: ThreadId, ancestor: ThreadId)
    | Rejected(record: EventId)
    | Codec
    | Storage

  datatype Result<+T> = Ok(value: T) | Err(error: HistoryError) {
    predicate IsFailure() { Err? }
    function PropagateFailure<U>(): Result<U> requires Err? { Err(error) }
    function Extract(): T requires Ok? { value }
  }

  type ThreadId = nat
  type EntryId = nat
  type EventId = nat

  datatype Scope = Scope(tenant: string, user: string, session: string)
  datatype Coordinates = Coordinates(scope: Scope, thread: ThreadId)

  /** `ThreadStream(t)` is the stream id formatted from a thread id; any other id is a name. */
  datatype StreamId = ThreadStream(thread: ThreadId) | NamedStream(name: string)

  datatype EntryKind =
    | UserMessage(content: string, sentAt: int)
    | ThreadStarted(identity: string)
    | OtherKind(payload: string)

  /** A row of `session_entries`; `row` is SQLite's implicit rowid, so it is the insertion order. */
  datatype Entry = Entry(
    id: EntryId, parent: Option<EntryId>, turn: Option<string>,
    coords: Coordinates, kind: EntryKind, row: nat)

  /** What an event says. The first two forms are the branch kinds that replay reads;
      `Undecodable` is a branch kind whose payload does not parse. */
  datatype Body =
    | EntryAppended(entry: Option<EntryId>)
    | BranchSelected(thread: ThreadId, selected: Option<EntryId>, prior: Option<EntryId>)
    | Undecodable(selection: bool)
    | OtherBody(kind: string)

  /** A record handed to the store; `admissible` says that it passes record and schema validation. */
  datatype Record = Record(id: EventId, coords: Coordinates, body: Body, admissible: bool)

  datatype Event = Event(id: EventId, stream: StreamId, sequence: nat, coords: Coordinates, body: Body)

  datatype Base = Base(child: ThreadId, parent: ThreadId, leaf: Option<EntryId>, stream: StreamId)

  type Entries = map<EntryId, Entry>
  type Bases = map<ThreadId, Base>

  /** The tables. `events` is in rowid order, which is commit order: rows are never deleted. */
  datatype Store = Store(
    events: seq<Event>,
    entries: Entries,
    leaves: map<ThreadId, EntryId>,
    bases: Bases,
    epochs: map<StreamId, nat>)

  const EMPTY := Store([], map[], map[], map[], map[])

  function Lookup<K, V>(m: map<K, V>, k: K): Option<V> {
    if k in m then Some(m[k]) else None
  }

  function LoadEntry(entries: Entries, thread: ThreadId, id: EntryId): Option<Entry> {
    if id in entries && entries[id].coords.thread == thread then Some(entries[id]) else None
  }

  function ActiveLeaf(s: Store, thread: ThreadId): Option<Entry> {
    if thread in s.leaves then LoadEntry(s.entries, thread, s.leaves[thread]) else None
  }

  function ValidateCoordinates(requested: Coordinates, e: Entry): Result<()> {
    if e.coords == requested then Ok(())
    else if e.coords.thread != requested.thread then
      Err(EntryThreadMismatch(e.id, requested.thread, e.coords.thread))
    else Err(ThreadScopeMismatch(requested, e.coords))
  }

  /** User messages match on their content alone; every other kind matches on equality. */
  predicate TurnKindsMatch(left: EntryKind, right: EntryKind) {
    if left.UserMessage? && right.UserMessage? then left.content == right.content else left == right
  }

  predicate HoldsTurn(entries: Entries, id: EntryId, thread: ThreadId, turn: string) {
    id in entries && entries[id].coords.thread == thread && entries[id].turn == Some(turn)
  }

  /** Parents were inserted earlier, under the same coordinates. */
  ghost predicate Forest(entries: Entries) {
    forall id {:trigger RowOk(entries, id)} :: id in entries ==> RowOk(entries, id)
  }

  ghost predicate RowOk(entries: Entries, id: EntryId)
    requires id in entries
  {
    var e := entries[id];
    && e.id == id
    && e.row < |entries|
    && (e.parent.Some? ==>
          && e.parent.value in entries
          && entries[e.parent.value].coords == e.coords
          && entries[e.parent.value].row < e.row)
  }
}
