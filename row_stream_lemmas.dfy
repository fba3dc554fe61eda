/**
 * What RowStreamImpl promises its consumer: rows never outrun demand, a page
 * is delivered in order before the next one is requested, the end is
 * signalled only once the cursor has nothing more, closing twice is closing
 * once; and the one place where the code as written throws.
 */
module RowStreamLemmas {
  import opened JavaLang
  import opened RowStreamSpec

  /** The events the row handler receives for a page of rows. */
  function Items<X>(rows: seq<X>): (r: seq<Event<X>>)
    ensures |r| == |rows| && forall i :: 0 <= i < |rows| ==> r[i] == Item(rows[i])
  {
    if |rows| == 0 then [] else [Item(rows[0])] + Items(rows[1..])
  }

  lemma {:induction false} ItemCountAppend<X>(a: seq<Event<X>>, b: seq<Event<X>>)
    ensures ItemCount(a + b) == ItemCount(a) + ItemCount(b)
    decreases |b|
  {
    if |b| > 0 {
      var b' := b[..|b| - 1];
      assert (a + b)[..|a + b| - 1] == a + b';
      ItemCountAppend(a, b');
    } else {
      assert a + b == a;
    }
  }

  /** The corrected loop and the loop as written leave the stream alike; only the latter can throw, and only once the cursor is gone. */
  lemma {:induction false} EmitAsWrittenAgrees<X>(s: StreamState<X>)
    ensures EmitAsWritten(s).0 == Emit(s)
    ensures s.cursor.Some? ==> EmitAsWritten(s).1 == Normal
    ensures EmitAsWritten(s).1 == Normal || (EmitAsWritten(s).1 == NullPointer && s.cursor.None?)
    decreases PendingMeasure(s)
  {
    if s.demand == 0 || s.result.None? {
    } else if |s.result.value| > 0 {
      EmitAsWrittenAgrees(EmitRow(s));
    } else if s.cursor.Some? && !s.cursor.value.hasMore {
      var s1 := s.(result := None, emitting := false);
      EmitAsWrittenAgrees(s1.(cursor := None, events := s.events + EndEvents(s)));
    }
  }

  /**
   * The discrepancy: a row handler opens a cursor, the stream is closed while
   * the first read is in flight, and the read then completes with one row.
   * The row is delivered, and the exhausted page makes the loop call
   * `hasMore()` on the null cursor.
   */
  lemma PageAfterCloseThrowsAsWritten()
    ensures var s := Close(SetRowHandler(Init<int>(10), true).0);
            var (r, outcome) := HandleAsWritten(s, Succeeded(0, [7], true));
            outcome == NullPointer && r.events == [Item(7)]
  {
    var s := Close(SetRowHandler(Init<int>(10), true).0);
    var s1 := s.(cursor := UpdateCursor(s.cursor, 0, true), result := Some([7]), emitting := true);
    assert [7][1..] == [];
  }

  /** The same sequence of calls under the corrected loop: the row arrives and nothing is thrown or requested. */
  lemma PageAfterCloseIsQuiet()
    ensures var s := Close(SetRowHandler(Init<int>(10), true).0);
            var r := Handle(s, Succeeded(0, [7], true));
            r.events == [Item(7)] && r.commands == [Read(0, 10), ClosePortal(0)] && Valid(r)
  {
    var s := Close(SetRowHandler(Init<int>(10), true).0);
    var s1 := s.(cursor := UpdateCursor(s.cursor, 0, true), result := Some([7]), emitting := true);
    assert [7][1..] == [];
  }

  lemma EmitRowItemCount<X>(s: StreamState<X>)
    requires s.result.Some? && |s.result.value| > 0
    ensures ItemCount(EmitRow(s).events) == ItemCount(s.events) + (if s.rowHandler then 1 else 0)
  {
    var e: seq<Event<X>> := if s.rowHandler then [Item(s.result.value[0])] else [];
    ItemCountAppend(s.events, e);
    if s.rowHandler {
      assert e[..0] == [];
    }
  }

  lemma EndEventsItemCount<X>(s: StreamState<X>)
    ensures ItemCount(s.events + EndEvents(s)) == ItemCount(s.events)
  {
    ItemCountAppend(s.events, EndEvents(s));
    if s.endHandler {
      assert EndEvents(s)[..0] == [];
    }
  }

  /**
   * Bounded demand is spent one row at a time: the rows consumed from the page
   * plus the demand left equal the demand at the start, so the row handler
   * never receives more rows than were asked for.
   */
  lemma {:induction false} EmitRespectsDemand<X>(s: StreamState<X>)
    requires 0 <= s.demand < LONG_MAX
    ensures 0 <= Emit(s).demand <= s.demand
    ensures ItemCount(Emit(s).events) - ItemCount(s.events) + Emit(s).demand <= s.demand
    ensures s.rowHandler ==> ItemCount(Emit(s).events) - ItemCount(s.events) + Emit(s).demand == s.demand
    decreases PendingMeasure(s)
  {
    if s.demand == 0 || s.result.None? {
    } else if |s.result.value| > 0 {
      EmitRowItemCount(s);
      EmitRespectsDemand(EmitRow(s));
    } else if s.cursor.Some? && !s.cursor.value.hasMore {
      var s1 := s.(result := None, emitting := false);
      EndEventsItemCount(s);
      EmitRespectsDemand(s1.(cursor := None, events := s.events + EndEvents(s)));
    }
  }

  /** Without demand nothing is emitted and nothing is requested. */
  lemma NoDemandNoEmission<X>(s: StreamState<X>)
    requires s.demand == 0
    ensures Emit(s) == s.(emitting := false)
  {
  }

  /** An emission pass keeps the stream consistent and ends with the pass finished. */
  lemma {:induction false} EmitPreservesValid<X>(s: StreamState<X>)
    requires Consistent(s)
    ensures Valid(Emit(s))
    ensures Emit(s).cursor.Some? ==> Emit(s).cursor == s.cursor
    decreases PendingMeasure(s)
  {
    if s.demand == 0 || s.result.None? {
    } else if |s.result.value| > 0 {
      EmitPreservesValid(EmitRow(s));
    } else {
      var s1 := s.(result := None, emitting := false);
      match s.cursor
      case None =>
      case Some(c) =>
        if c.hasMore {
          var r := s1.(commands := s.commands + [Read(c.id, s.fetch)]);
          assert forall i :: 0 <= i < |r.commands| ==> r.commands[i].cursorId < r.nextCursorId by {
            forall i | 0 <= i < |r.commands|
              ensures r.commands[i].cursorId < r.nextCursorId
            {
              if i < |s.commands| {
                assert r.commands[i] == s.commands[i];
              }
            }
          }
        } else {
          EmitPreservesValid(s1.(cursor := None, events := s.events + EndEvents(s)));
        }
    }
  }

  /**
   * The next page is requested only once the current one is used up, only
   * from the open cursor, only when that cursor has more rows, and at most once.
   */
  lemma {:induction false} EmitReadsOnlyWhenPageExhausted<X>(s: StreamState<X>)
    ensures |Emit(s).commands| > |s.commands| ==>
              && s.cursor.Some? && s.cursor.value.hasMore
              && Emit(s).commands == s.commands + [Read(s.cursor.value.id, s.fetch)]
              && Emit(s).result.None?
              && Emit(s).cursor == s.cursor
    decreases PendingMeasure(s)
  {
    if s.demand == 0 || s.result.None? {
    } else if |s.result.value| > 0 {
      EmitReadsOnlyWhenPageExhausted(EmitRow(s));
    } else if s.cursor.Some? && !s.cursor.value.hasMore {
      var s1 := s.(result := None, emitting := false);
      EmitReadsOnlyWhenPageExhausted(s1.(cursor := None, events := s.events + EndEvents(s)));
    }
  }

  /** The end handler is called only when the cursor reports no more rows, and the cursor is then released. */
  lemma {:induction false} EmitEndsOnlyAfterLastPage<X>(s: StreamState<X>)
    requires End !in s.events
    ensures End in Emit(s).events ==>
              s.cursor.Some? && !s.cursor.value.hasMore && Emit(s).cursor.None? && s.endHandler
    decreases PendingMeasure(s)
  {
    if s.demand == 0 || s.result.None? {
    } else if |s.result.value| > 0 {
      var s1 := EmitRow(s);
      assert End !in s1.events;
      EmitEndsOnlyAfterLastPage(s1);
    } else if s.cursor.Some? && !s.cursor.value.hasMore {
      var s1 := s.(result := None, emitting := false);
      var s2 := s1.(cursor := None, events := s.events + EndEvents(s));
      assert Emit(s2) == s2.(emitting := false);
    }
  }

  /**
   * With unbounded demand a page is delivered whole and in order; then the
   * next page is requested if the cursor has more, and the end is signalled
   * if it has not.
   */
  lemma {:induction false} EmitUnboundedDemand<X>(s: StreamState<X>, rows: seq<X>)
    requires s.demand == LONG_MAX && s.result == Some(rows)
    ensures var more := s.cursor.Some? && s.cursor.value.hasMore;
            var done := s.cursor.Some? && !s.cursor.value.hasMore;
            && Emit(s).events == s.events + (if s.rowHandler then Items(rows) else []) + (if done then EndEvents(s) else [])
            && Emit(s).commands == s.commands + (if more then [Read(s.cursor.value.id, s.fetch)] else [])
            && Emit(s).cursor == (if more then s.cursor else None)
            && Emit(s).result.None?
            && Emit(s).demand == LONG_MAX
    decreases |rows|
  {
    if |rows| > 0 {
      var s1 := EmitRow(s);
      EmitRowUnbounded(s);
      EmitUnboundedDemand(s1, rows[1..]);
      var done := s.cursor.Some? && !s.cursor.value.hasMore;
      var end: seq<Event<X>> := if done then EndEvents(s) else [];
      var first: seq<Event<X>> := if s.rowHandler then [Item(rows[0])] else [];
      var rest: seq<Event<X>> := if s.rowHandler then Items(rows[1..]) else [];
      assert Emit(s1).events == s1.events + rest + end;
      assert (if s.rowHandler then Items(rows) else []) == first + rest;
      AppendAssoc3(s.events, first, rest, end);
    } else {
      EmitExhaustedPage(s);
      assert Items(rows) == [];
    }
  }

  lemma AppendAssoc3<E>(a: seq<E>, b: seq<E>, c: seq<E>, d: seq<E>)
    ensures (a + b) + c + d == a + (b + c) + d
  {
  }

  /** Under unbounded demand a row leaves the demand, the cursor and the commands as they were. */
  lemma EmitRowUnbounded<X>(s: StreamState<X>)
    requires s.demand == LONG_MAX && s.result.Some? && |s.result.value| > 0
    ensures var s1 := EmitRow(s);
            && Emit(s) == Emit(s1)
            && s1.demand == LONG_MAX && s1.cursor == s.cursor && s1.commands == s.commands
            && s1.fetch == s.fetch && s1.rowHandler == s.rowHandler && EndEvents(s1) == EndEvents(s)
  {
  }

  /** An exhausted page under demand: the next page is requested, or the end is signalled, or (closed) nothing. */
  lemma EmitExhaustedPage<X>(s: StreamState<X>)
    requires s.demand != 0 && s.result == Some([])
    ensures var more := s.cursor.Some? && s.cursor.value.hasMore;
            var done := s.cursor.Some? && !s.cursor.value.hasMore;
            && Emit(s).events == s.events + (if done then EndEvents(s) else [])
            && Emit(s).commands == s.commands + (if more then [Read(s.cursor.value.id, s.fetch)] else [])
            && Emit(s).cursor == (if more then s.cursor else None)
            && Emit(s).result.None?
            && Emit(s).demand == s.demand
  {
    if s.cursor.Some? && !s.cursor.value.hasMore {
      var s1 := s.(result := None, emitting := false);
      var s2 := s1.(cursor := None, events := s.events + EndEvents(s));
      assert Emit(s2) == s2.(emitting := false);
    }
  }

  /**
   * A stream with an end handler and a row handler over a cursor with a fetch
   * size of 2 whose reads return pages [1, 2], [3, 4] and [5], the last one not
   * suspended: five rows in order, the end, and three reads.
   */
  lemma ThreePageStream()
    ensures var s0 := SetRowHandler(SetEndHandler(Init<int>(2), true), true).0;
            var s1 := Handle(s0, Succeeded(0, [1, 2], true));
            var s2 := Handle(s1, Succeeded(0, [3, 4], true));
            var s3 := Handle(s2, Succeeded(0, [5], false));
            && s3.events == [Item(1), Item(2), Item(3), Item(4), Item(5), End]
            && s3.commands == [Read(0, 2), Read(0, 2), Read(0, 2)]
            && s3.cursor.None?
  {
    var s0 := SetRowHandler(SetEndHandler(Init<int>(2), true), true).0;
    assert s0.cursor == Some(Cursor(0, false)) && s0.commands == [Read(0, 2)] && s0.events == [];
    HandleUnboundedPage(s0, 0, [1, 2], true);
    var s1 := Handle(s0, Succeeded(0, [1, 2], true));
    assert Items([1, 2]) == [Item(1), Item(2)];
    HandleUnboundedPage(s1, 0, [3, 4], true);
    var s2 := Handle(s1, Succeeded(0, [3, 4], true));
    assert Items([3, 4]) == [Item(3), Item(4)];
    HandleUnboundedPage(s2, 0, [5], false);
    assert Items([5]) == [Item(5)];
  }

  /**
   * The completion of a read on the open cursor under unbounded demand: the
   * page is delivered whole and in order, then the next page is requested if
   * the portal is suspended, and the end is signalled and the cursor dropped
   * if it is not.
   */
  lemma HandleUnboundedPage<X>(s: StreamState<X>, id: nat, rows: seq<X>, suspended: bool)
    requires s.demand == LONG_MAX && !s.emitting && s.cursor.Some? && s.cursor.value.id == id
    ensures var r := Handle(s, Succeeded(id, rows, suspended));
            && r.events == s.events + (if s.rowHandler then Items(rows) else []) + (if suspended then [] else EndEvents(s))
            && r.commands == s.commands + (if suspended then [Read(id, s.fetch)] else [])
            && r.cursor == (if suspended then Some(Cursor(id, true)) else None)
            && r.demand == LONG_MAX && !r.emitting
            && r.rowHandler == s.rowHandler && r.endHandler == s.endHandler && r.fetch == s.fetch
  {
    var p := s.(cursor := Some(Cursor(id, suspended)), result := Some(rows), emitting := true);
    EmitUnboundedDemand(p, rows);
  }

  /** Closing twice is closing once: no second close request is sent and no event is produced. */
  lemma CloseIdempotent<X>(s: StreamState<X>)
    ensures Close(Close(s)) == Close(s)
    ensures |Close(s).commands| <= |s.commands| + 1
  {
  }

  /**
   * `fetch(n)`: a negative amount throws and changes nothing; otherwise the
   * demand grows by n, saturating at `Long.MAX_VALUE`, and with no open
   * cursor nothing else changes and no emission runs.
   */
  lemma FetchRules<X>(s: StreamState<X>, n: Long)
    requires 0 <= s.demand
    ensures Fetch(s, n).1 == IllegalArgument <==> n < 0
    ensures n < 0 ==> Fetch(s, n).0 == s
    ensures n >= 0 ==> Fetch(s, n).1 == Normal
    ensures n >= 0 && s.cursor.None? ==>
              Fetch(s, n).0 == s.(demand := if s.demand + n <= LONG_MAX then s.demand + n else LONG_MAX)
  {
  }

  /** `resume()` on a stream without an open cursor makes the demand unbounded and changes nothing else. */
  lemma ResumeUnbounds<X>(s: StreamState<X>)
    requires 0 <= s.demand && s.cursor.None?
    ensures Resume(s) == (s.(demand := LONG_MAX), Normal)
  {
    FetchRules(s, LONG_MAX);
  }

  /**
   * `handler(h)`: with no open cursor a handler opens a new cursor and sends
   * it exactly one read of `fetch` rows; with a cursor open it throws and
   * changes nothing; removing the handler never sends anything.
   */
  lemma SetRowHandlerRules<X>(s: StreamState<X>, present: bool)
    requires Valid(s)
    ensures present && s.cursor.None? ==>
              var (r, outcome) := SetRowHandler(s, true);
              && outcome == Normal && r.rowHandler && r.events == s.events
              && r.cursor.Some? && !r.cursor.value.hasMore
              && (forall i :: 0 <= i < |s.commands| ==> s.commands[i].cursorId != r.cursor.value.id)
              && r.commands == s.commands + [Read(r.cursor.value.id, s.fetch)]
    ensures present && s.cursor.Some? ==> SetRowHandler(s, true) == (s, UnsupportedOperation)
    ensures !present ==>
              var (r, outcome) := SetRowHandler(s, false);
              outcome == Normal && r.cursor.None? && r.commands == s.commands && r.events == s.events
  {
  }

  /** A read failure drops the cursor, hands the cause to the exception handler if one is set, and sends nothing. */
  lemma FailedPageRules<X>(s: StreamState<X>, cause: string)
    ensures var r := Handle(s, Failed(cause));
            && r.cursor.None? && r.commands == s.commands && r.demand == s.demand
            && r.events == s.events + (if s.exceptionHandler then [Error(cause)] else [])
  {
  }

  /** A `checkPending` that finds an emission pass running returns at once, changing nothing. */
  lemma CheckPendingSingleFlight<X>(s: StreamState<X>)
    requires s.emitting
    ensures CheckPending(s) == s
  {
  }

  /** The calls a consumer makes on a stream, and the read completions it receives, except `pause()`. */
  datatype Op<X> =
    | SetExceptionHandlerOp(present: bool)
    | SetEndHandlerOp(present: bool)
    | SetRowHandlerOp(present: bool)
    | FetchOp(amount: Long)
    | CompleteOp(ar: ReadResult<X>)
    | CloseOp

  /** The stream after one call; a call that throws leaves the stream as it left it. */
  function Step<X>(s: StreamState<X>, op: Op<X>): StreamState<X> {
    match op
    case SetExceptionHandlerOp(p) => SetExceptionHandler(s, p)
    case SetEndHandlerOp(p) => SetEndHandler(s, p)
    case SetRowHandlerOp(p) => SetRowHandler(s, p).0
    case FetchOp(n) => Fetch(s, n).0
    case CompleteOp(ar) => Handle(s, ar)
    case CloseOp => Close(s)
  }

  function Run<X>(s: StreamState<X>, ops: seq<Op<X>>): StreamState<X>
    decreases |ops|
  {
    if |ops| == 0 then s else Run(Step(s, ops[0]), ops[1..])
  }

  /** The demand granted by a call: the amount of a successful `fetch`. */
  function GrantedBy<X>(op: Op<X>): nat {
    if op.FetchOp? && op.amount >= 0 then op.amount else 0
  }

  function Granted<X>(ops: seq<Op<X>>): nat
    decreases |ops|
  {
    if |ops| == 0 then 0 else GrantedBy(ops[0]) + Granted(ops[1..])
  }

  lemma CheckPendingRespectsDemand<X>(s: StreamState<X>)
    requires Consistent(s) && !s.emitting && s.demand < LONG_MAX
    ensures Valid(CheckPending(s)) && s.events <= CheckPending(s).events
    ensures ItemCount(CheckPending(s).events) - ItemCount(s.events) + CheckPending(s).demand <= s.demand
    ensures CheckPending(s).demand <= s.demand
  {
    EmitPreservesValid(s.(emitting := true));
    EmitRespectsDemand(s.(emitting := true));
  }

  /** One call keeps the stream valid and delivers no more rows than the demand it had plus the demand the call grants. */
  lemma StepRespectsDemand<X>(s: StreamState<X>, op: Op<X>)
    requires Valid(s) && s.demand + GrantedBy(op) < LONG_MAX
    ensures var r := Step(s, op);
            && Valid(r) && s.events <= r.events
            && ItemCount(r.events) - ItemCount(s.events) + r.demand <= s.demand + GrantedBy(op)
            && r.demand <= s.demand + GrantedBy(op)
  {
    match op
    case SetExceptionHandlerOp(_) =>
    case SetEndHandlerOp(_) =>
    case SetRowHandlerOp(p) =>
      SetRowHandlerPreservesValid(s, p);
    case FetchOp(n) =>
      if n >= 0 {
        var s1 := s.(demand := AddDemand(s.demand, n));
        if s1.cursor.Some? {
          CheckPendingRespectsDemand(s1);
        }
      }
    case CompleteOp(ar) =>
      HandleRespectsDemand(s, ar);
    case CloseOp =>
      ClosePreservesValid(s);
  }

  /** `handler(h)` keeps the stream valid and delivers nothing. */
  lemma SetRowHandlerPreservesValid<X>(s: StreamState<X>, present: bool)
    requires Valid(s)
    ensures var r := SetRowHandler(s, present).0;
            Valid(r) && r.events == s.events && r.demand == s.demand
  {
    var r := SetRowHandler(s, present).0;
    forall i | 0 <= i < |r.commands|
      ensures r.commands[i].cursorId < r.nextCursorId
    {
      if i < |s.commands| {
        assert r.commands[i] == s.commands[i];
      }
    }
  }

  /** `close()` keeps the stream valid and delivers nothing. */
  lemma ClosePreservesValid<X>(s: StreamState<X>)
    requires Valid(s)
    ensures var r := Close(s);
            Valid(r) && r.events == s.events && r.demand == s.demand
  {
    var r := Close(s);
    forall i | 0 <= i < |r.commands|
      ensures r.commands[i].cursorId < r.nextCursorId
    {
      if i < |s.commands| {
        assert r.commands[i] == s.commands[i];
      }
    }
  }

  /** A read completion keeps the stream valid and delivers no more rows than the demand the stream had. */
  lemma HandleRespectsDemand<X>(s: StreamState<X>, ar: ReadResult<X>)
    requires Valid(s) && s.demand < LONG_MAX
    ensures var r := Handle(s, ar);
            && Valid(r) && s.events <= r.events
            && ItemCount(r.events) - ItemCount(s.events) + r.demand <= s.demand
            && r.demand <= s.demand
  {
    match ar {
    case Failed(cause) =>
      var e: seq<Event<X>> := if s.exceptionHandler then [Error(cause)] else [];
      ItemCountAppend(s.events, e);
      assert ItemCount(e) == 0 by {
        if s.exceptionHandler {
          assert e[..0] == [];
        }
      }
    case Succeeded(id, rows, suspended) =>
      CheckPendingRespectsDemand(s.(cursor := UpdateCursor(s.cursor, id, suspended), result := Some(rows)));
    }
  }

  /** Over any sequence of calls without `pause()`, rows delivered never exceed the demand held plus the demand granted. */
  lemma {:induction false} DeliveredWithinGranted<X>(s: StreamState<X>, ops: seq<Op<X>>)
    requires Valid(s) && s.demand + Granted(ops) < LONG_MAX
    ensures Valid(Run(s, ops)) && s.events <= Run(s, ops).events
    ensures ItemCount(Run(s, ops).events) - ItemCount(s.events) + Run(s, ops).demand <= s.demand + Granted(ops)
    decreases |ops|
  {
    if |ops| > 0 {
      StepRespectsDemand(s, ops[0]);
      DeliveredWithinGranted(Step(s, ops[0]), ops[1..]);
    }
  }

  /** Rows delivered since the last `pause()` never exceed the demand granted since that pause. */
  lemma DeliveredSincePauseWithinGranted<X>(s: StreamState<X>, ops: seq<Op<X>>)
    requires Valid(s) && Granted(ops) < LONG_MAX
    ensures ItemCount(Run(Pause(s), ops).events) - ItemCount(s.events) <= Granted(ops)
  {
    DeliveredWithinGranted(Pause(s), ops);
  }
}
