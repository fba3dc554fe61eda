/**
 * RowStreamImpl as a state machine: the stream's fields, what each public
 * operation does to them, and the emission loop of `checkPending`.
 *
 * Handlers are modelled by whether they are set; what they receive is
 * appended to `events`. The cursor's asynchronous `read` and `close` calls
 * are appended to `commands`; a read's completion comes back as a
 * `ReadResult` passed to `Handle`.
 */
module RowStreamSpec {
  import opened JavaLang

  /** The stream's view of an open cursor: its identity and whether its last page was suspended. */
  datatype Cursor = Cursor(id: nat, hasMore: bool)

  /** A request the stream sends to its cursor. */
  datatype Command = Read(cursorId: nat, fetch: Int) | ClosePortal(cursorId: nat)

  /** What the row, end and exception handlers receive. */
  datatype Event<X> = Item(row: X) | End | Error(cause: string)

  /** The completion of a cursor read: a failure, or a page of rows and whether the portal is suspended. */
  datatype ReadResult<X> = Failed(cause: string) | Succeeded(cursorId: nat, rows: seq<X>, suspended: bool)

  /** How a call returns to its caller. */
  datatype Outcome = Normal | IllegalArgument | UnsupportedOperation | NullPointer

  datatype StreamState<X> = StreamState(
    fetch: Int,
    demand: Long,
    emitting: bool,
    cursor: Option<Cursor>,
    /** The rows of the current page not yet emitted (Java's iterator `result`). */
    result: Option<seq<X>>,
    rowHandler: bool,
    endHandler: bool,
    exceptionHandler: bool,
    /** The identity the next cursor that `ps.cursor(params)` opens will carry. */
    nextCursorId: nat,
    events: seq<Event<X>>,
    commands: seq<Command>)

  /** The stream as constructed: unbounded demand, no cursor, no handlers. */
  function Init<X>(fetch: Int): (s: StreamState<X>)
    ensures Valid(s) && s.demand == LONG_MAX && s.cursor.None? && s.events == [] && s.commands == []
  {
    StreamState(fetch, LONG_MAX, false, None, None, false, false, false, 0, [], [])
  }

  /** What holds of a stream between two calls on it, except that an emission pass may be running. */
  ghost predicate Consistent<X>(s: StreamState<X>) {
    && 0 <= s.demand
    && (s.cursor.Some? ==> s.cursor.value.id < s.nextCursorId)
    && (forall i :: 0 <= i < |s.commands| ==> s.commands[i].cursorId < s.nextCursorId)
  }

  /** What holds of a stream between two calls on it. */
  ghost predicate Valid<X>(s: StreamState<X>) {
    Consistent(s) && !s.emitting
  }

  /** The number of rows the row handler has received. */
  function ItemCount<X>(events: seq<Event<X>>): nat {
    if |events| == 0 then 0
    else ItemCount(events[..|events| - 1]) + (if events[|events| - 1].Item? then 1 else 0)
  }

  function PendingMeasure<X>(s: StreamState<X>): nat {
    if s.result.None? then 0 else |s.result.value| + 1
  }

  /** One turn of the emission loop that hands the next row of the page to the row handler. */
  function EmitRow<X>(s: StreamState<X>): (r: StreamState<X>)
    requires s.result.Some? && |s.result.value| > 0
    ensures r.result == Some(s.result.value[1..])
    ensures r.events == s.events + (if s.rowHandler then [Item(s.result.value[0])] else [])
    ensures 0 < s.demand < LONG_MAX ==> r.demand == s.demand - 1
    ensures s.demand == LONG_MAX ==> r.demand == LONG_MAX
  {
    s.(result := Some(s.result.value[1..]),
       demand := if s.demand != LONG_MAX then WrapLong(s.demand - 1) else s.demand,
       events := s.events + (if s.rowHandler then [Item(s.result.value[0])] else []))
  }

  /** The end handler's share of the event log when the last page is exhausted. */
  function EndEvents<X>(s: StreamState<X>): seq<Event<X>> {
    if s.endHandler then [End] else []
  }

  /**
   * The `while (true)` loop of `checkPending`, as corrected: rows are emitted
   * while there is demand; an exhausted page asks the cursor for the next one
   * if it has more, signals the end otherwise, and stops without touching
   * the cursor if the stream was closed while the page was in flight.
   */
  function Emit<X>(s: StreamState<X>): (r: StreamState<X>)
    ensures !r.emitting
    ensures s.events <= r.events
    ensures s.commands <= r.commands && |r.commands| <= |s.commands| + 1
    ensures r.fetch == s.fetch && r.nextCursorId == s.nextCursorId
    ensures r.rowHandler == s.rowHandler && r.endHandler == s.endHandler && r.exceptionHandler == s.exceptionHandler
    decreases PendingMeasure(s)
  {
    if s.demand == 0 || s.result.None? then s.(emitting := false)
    else if |s.result.value| > 0 then Emit(EmitRow(s))
    else
      var s1 := s.(result := None, emitting := false);
      match s.cursor
      case None => s1
      case Some(c) =>
        if c.hasMore then s1.(commands := s.commands + [Read(c.id, s.fetch)])
        else Emit(s1.(cursor := None, events := s.events + EndEvents(s)))
  }

  /**
   * The same loop as the code has it: an exhausted page calls `cursor.hasMore()`
   * whether or not the cursor is still there.
   */
  function EmitAsWritten<X>(s: StreamState<X>): (StreamState<X>, Outcome)
    decreases PendingMeasure(s)
  {
    if s.demand == 0 || s.result.None? then (s.(emitting := false), Normal)
    else if |s.result.value| > 0 then EmitAsWritten(EmitRow(s))
    else
      var s1 := s.(result := None, emitting := false);
      match s.cursor
      case None => (s1, NullPointer)
      case Some(c) =>
        if c.hasMore then (s1.(commands := s.commands + [Read(c.id, s.fetch)]), Normal)
        else EmitAsWritten(s1.(cursor := None, events := s.events + EndEvents(s)))
  }

  /** `checkPending`: a pass that finds another pass running leaves everything to it. */
  function CheckPending<X>(s: StreamState<X>): StreamState<X> {
    if s.emitting then s else Emit(s.(emitting := true))
  }

  function CheckPendingAsWritten<X>(s: StreamState<X>): (StreamState<X>, Outcome) {
    if s.emitting then (s, Normal) else EmitAsWritten(s.(emitting := true))
  }

  function SetExceptionHandler<X>(s: StreamState<X>, present: bool): StreamState<X> {
    s.(exceptionHandler := present)
  }

  function SetEndHandler<X>(s: StreamState<X>, present: bool): StreamState<X> {
    s.(endHandler := present)
  }

  /**
   * `handler(h)`: a handler opens a cursor and asks it for the first page,
   * unless one is already open; removing the handler closes the stream's
   * view of the cursor if there is one and clears the row handler otherwise.
   */
  function SetRowHandler<X>(s: StreamState<X>, present: bool): (StreamState<X>, Outcome) {
    if present then
      if s.cursor.None? then
        var c := Cursor(s.nextCursorId, false);
        (s.(rowHandler := true, cursor := Some(c), nextCursorId := s.nextCursorId + 1,
            commands := s.commands + [Read(c.id, s.fetch)]), Normal)
      else (s, UnsupportedOperation)
    else if s.cursor.Some? then (s.(cursor := None), Normal)
    else (s.(rowHandler := false), Normal)
  }

  function Pause<X>(s: StreamState<X>): (r: StreamState<X>)
    ensures r.demand == 0 && r.events == s.events && r.commands == s.commands
  {
    s.(demand := 0)
  }

  /** `demand += amount`, with a wrapped-around (negative) sum replaced by `Long.MAX_VALUE`. */
  function AddDemand(demand: Long, amount: Long): (r: Long)
    ensures 0 <= demand && 0 <= amount ==>
              r == if demand + amount <= LONG_MAX then demand + amount else LONG_MAX
  {
    var d := WrapLong(demand + amount);
    if d < 0 then LONG_MAX else d
  }

  function Fetch<X>(s: StreamState<X>, amount: Long): (StreamState<X>, Outcome) {
    if amount < 0 then (s, IllegalArgument)
    else
      var s1 := s.(demand := AddDemand(s.demand, amount));
      if s1.cursor.None? then (s1, Normal) else (CheckPending(s1), Normal)
  }

  function Resume<X>(s: StreamState<X>): (StreamState<X>, Outcome) {
    Fetch(s, LONG_MAX)
  }

  /** The cursor's own record of whether the portal is suspended follows each page it reads. */
  function UpdateCursor(cursor: Option<Cursor>, id: nat, suspended: bool): Option<Cursor> {
    if cursor.Some? && cursor.value.id == id then Some(Cursor(id, suspended)) else cursor
  }

  /** `handle(ar)`, the completion of a cursor read. */
  function Handle<X>(s: StreamState<X>, ar: ReadResult<X>): StreamState<X> {
    match ar
    case Failed(cause) =>
      s.(cursor := None, events := s.events + (if s.exceptionHandler then [Error(cause)] else []))
    case Succeeded(id, rows, suspended) =>
      CheckPending(s.(cursor := UpdateCursor(s.cursor, id, suspended), result := Some(rows)))
  }

  function HandleAsWritten<X>(s: StreamState<X>, ar: ReadResult<X>): (StreamState<X>, Outcome) {
    match ar
    case Failed(_) => (Handle(s, ar), Normal)
    case Succeeded(id, rows, suspended) =>
      CheckPendingAsWritten(s.(cursor := UpdateCursor(s.cursor, id, suspended), result := Some(rows)))
  }

  function Close<X>(s: StreamState<X>): (r: StreamState<X>)
    ensures r.cursor.None? && r.events == s.events
    ensures s.cursor.None? ==> r == s
    ensures s.cursor.Some? ==> r == s.(cursor := None, commands := s.commands + [ClosePortal(s.cursor.value.id)])
  {
    match s.cursor
    case None => s
    case Some(c) => s.(cursor := None, commands := s.commands + [ClosePortal(c.id)])
  }
}
