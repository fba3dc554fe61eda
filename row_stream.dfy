/**
 * RowStreamImpl: the stream object whose fields the public calls and the
 * read completions update in place. Each method is proved to leave the
 * fields as the function of the same name in module RowStreamSpec says.
 */
module RowStream {
  import opened JavaLang
  import opened RowStreamSpec

  class RowStreamImpl<X> {
    const fetch: Int
    var endHandler: bool
    var rowHandler: bool
    var exceptionHandler: bool
    var demand: Long
    var emitting: bool
    var cursor: Option<Cursor>
    var result: Option<seq<X>>
    var nextCursorId: nat
    /** What the handlers have received, in order. */
    var events: seq<Event<X>>
    /** The reads and closes sent to cursors, in order. */
    var commands: seq<Command>

    ghost function State(): StreamState<X>
      reads this
    {
      StreamState(fetch, demand, emitting, cursor, result, rowHandler, endHandler, exceptionHandler,
                  nextCursorId, events, commands)
    }

    constructor (fetch: Int)
      ensures State() == Init(fetch)
    {
      this.fetch := fetch;
      demand := LONG_MAX;
      emitting := false;
      cursor := None;
      result := None;
      rowHandler := false;
      endHandler := false;
      exceptionHandler := false;
      nextCursorId := 0;
      events := [];
      commands := [];
    }

    method SetExceptionHandler(present: bool)
      modifies this
      ensures State() == RowStreamSpec.SetExceptionHandler(old(State()), present)
    {
      exceptionHandler := present;
    }

    method SetEndHandler(present: bool)
      modifies this
      ensures State() == RowStreamSpec.SetEndHandler(old(State()), present)
    {
      endHandler := present;
    }

    /** `handler(h)`; `present` is whether `h` is non-null. */
    method SetRowHandler(present: bool) returns (outcome: Outcome)
      modifies this
      ensures (State(), outcome) == RowStreamSpec.SetRowHandler(old(State()), present)
    {
      if present {
        if cursor.None? {
          rowHandler := true;
          var c := Cursor(nextCursorId, false);
          nextCursorId := nextCursorId + 1;
          cursor := Some(c);
          commands := commands + [Read(c.id, fetch)];
          outcome := Normal;
        } else {
          outcome := UnsupportedOperation;
        }
      } else {
        if cursor.Some? {
          cursor := None;
        } else {
          rowHandler := false;
        }
        outcome := Normal;
      }
    }

    method Pause()
      modifies this
      ensures State() == RowStreamSpec.Pause(old(State()))
    {
      demand := 0;
    }

    method Fetch(amount: Long) returns (outcome: Outcome)
      modifies this
      ensures (State(), outcome) == RowStreamSpec.Fetch(old(State()), amount)
    {
      if amount < 0 {
        return IllegalArgument;
      }
      var d := WrapLong(demand + amount);
      demand := if d < 0 then LONG_MAX else d;
      outcome := Normal;
      if cursor.None? {
        return;
      }
      CheckPending();
    }

    method Resume() returns (outcome: Outcome)
      modifies this
      ensures (State(), outcome) == RowStreamSpec.Resume(old(State()))
    {
      outcome := Fetch(LONG_MAX);
    }

    /** `handle(ar)`: the completion of the read last sent to a cursor. */
    method Handle(ar: ReadResult<X>)
      modifies this
      ensures State() == RowStreamSpec.Handle(old(State()), ar)
    {
      match ar
      case Failed(cause) =>
        cursor := None;
        if exceptionHandler {
          events := events + [Error(cause)];
        }
      case Succeeded(id, rows, suspended) =>
        cursor := UpdateCursor(cursor, id, suspended);
        result := Some(rows);
        CheckPending();
    }

    method Close()
      modifies this
      ensures State() == RowStreamSpec.Close(old(State()))
    {
      if cursor.None? {
        return;
      }
      var c := cursor.value;
      cursor := None;
      commands := commands + [ClosePortal(c.id)];
    }

    /** `checkPending`, with the loop stopping quietly when the cursor was closed under it. */
    method CheckPending()
      modifies this
      ensures State() == RowStreamSpec.CheckPending(old(State()))
    {
      if emitting {
        return;
      }
      emitting := true;
      ghost var target := Emit(State());
      while true
        invariant Emit(State()) == target
        decreases PendingMeasure(State())
      {
        var stop := EmitTurn();
        if stop {
          break;
        }
      }
    }

    /** One turn of the `while (true)` loop of `checkPending`; `stop` when the loop breaks out. */
    method EmitTurn() returns (stop: bool)
      modifies this
      ensures stop ==> State() == Emit(old(State()))
      ensures !stop ==> Emit(State()) == Emit(old(State())) && PendingMeasure(State()) < PendingMeasure(old(State()))
    {
      ghost var pre := State();
      if demand == 0 || result.None? {
        emitting := false;
        return true;
      }
      if |result.value| > 0 {
        EmitNextRow();
        return false;
      }
      result := None;
      emitting := false;
      if cursor.None? {
        return true;
      }
      var c := cursor.value;
      if c.hasMore {
        commands := commands + [Read(c.id, fetch)];
        return true;
      }
      cursor := None;
      if endHandler {
        events := events + [End];
      }
      assert State() == pre.(result := None, emitting := false, cursor := None, events := pre.events + EndEvents(pre));
      return false;
    }

    /** The turn of the loop that takes the next row of the page, spends one unit of demand and hands the row over. */
    method EmitNextRow()
      requires result.Some? && |result.value| > 0
      modifies this
      ensures State() == EmitRow(old(State()))
    {
      var rows := result.value;
      var row := rows[0];
      result := Some(rows[1..]);
      if demand != LONG_MAX {
        demand := WrapLong(demand - 1);
      }
      if rowHandler {
        events := events + [Item(row)];
      }
    }
  }
}
