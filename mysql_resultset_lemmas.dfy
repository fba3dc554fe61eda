/**
 * What the MySQL decode state machine promises over whole packet sequences:
 * a well-formed result set is decoded into exactly one result report whose
 * row count is the number of row packets, and the command completes exactly
 * when the terminal packet's status flags say no result set follows.
 */
module MySqlResultsetLemmas {
  import opened JavaLang
  import opened MySqlDecodeSpec

  /** A payload together with the length declared in its packet header. */
  datatype Packet = Packet(payload: Payload, length: int)

  /** Feeds the packets to the codec one by one, stopping at the first exception. */
  function Run<A, T>(c: Codec<A, T>, s: CodecState<A, T>, packets: seq<Packet>): (r: (CodecState<A, T>, Outcome))
    requires Valid(c, s)
    ensures r.1.Normal? ==> Valid(c, r.0)
    decreases |packets|
  {
    if packets == [] then (s, Normal)
    else
      DecodePayloadPreservesValid(c, s, packets[0].payload, packets[0].length);
      var (s1, o) := DecodePayload(c, s, packets[0].payload, packets[0].length);
      if o.Thrown? then (s1, o) else Run(c, s1, packets[1..])
  }

  /** Feeding `a + b` is feeding `a`, then `b` unless `a` threw. */
  lemma {:induction false} RunAppend<A, T>(c: Codec<A, T>, s: CodecState<A, T>, a: seq<Packet>, b: seq<Packet>)
    requires Valid(c, s)
    ensures var (s1, o) := Run(c, s, a);
            Run(c, s, a + b) == if o.Thrown? then (s1, o) else Run(c, s1, b)
    decreases |a|
  {
    if a == [] {
      assert a + b == b;
    } else {
      DecodePayloadPreservesValid(c, s, a[0].payload, a[0].length);
      var (s1, o) := DecodePayload(c, s, a[0].payload, a[0].length);
      assert (a + b)[0] == a[0];
      assert (a + b)[1..] == a[1..] + b;
      if o.Normal? {
        RunAppend(c, s1, a[1..], b);
      }
    }
  }

  /** The column definitions that the packets decode to, in order. */
  function DecodedColumns<A, T>(c: Codec<A, T>, defs: seq<Packet>): (r: seq<ColumnDefinition>)
    ensures |r| == |defs|
  {
    seq(|defs|, i requires 0 <= i < |defs| => c.decoders.columnDefinition(defs[i].payload))
  }

  /**
   * The column-definition phase: the remaining definitions fill the array
   * slot by slot; after the last one the codec either starts reading rows
   * (CLIENT_DEPRECATE_EOF) or waits for the one EOF_Packet.
   */
  lemma {:induction false} ColumnDefinitionPhase<A, T>(c: Codec<A, T>, s: CodecState<A, T>, defs: seq<Packet>)
    requires Valid(c, s) && s.handlerState == HandlingColumnDefinition
    requires 0 < |defs| && s.currentColumn + |defs| == |s.columns.value|
    ensures var (s', o) := Run(c, s, defs);
            && o.Normal?
            && s'.columns == Some(s.columns.value[..s.currentColumn] + DecodedColumns(c, defs))
            && s'.currentColumn == |s.columns.value|
            && s'.events == s.events && s'.result == s.result && s'.failure == s.failure
            && (c.deprecateEof ==>
                  s'.handlerState == HandlingRowDataOrEndPacket
                  && s'.decoder == Some(RowDecoder(s'.columns.value, c.collector.supplier, 0)))
            && (!c.deprecateEof ==>
                  s'.handlerState == ColumnDefinitionsDecodingCompleted && s'.decoder == s.decoder)
    decreases |defs|
  {
    var cols := s.columns.value;
    var k := s.currentColumn;
    var d0 := c.decoders.columnDefinition(defs[0].payload);
    DecodePayloadPreservesValid(c, s, defs[0].payload, defs[0].length);
    var (s1, o1) := DecodePayload(c, s, defs[0].payload, defs[0].length);
    assert o1.Normal? && s1.columns == Some(cols[k := d0]) && s1.currentColumn == k + 1;
    if |defs| == 1 {
      assert defs[1..] == [];
      assert cols[k := d0] == cols[..k] + DecodedColumns(c, defs);
    } else {
      assert s1.handlerState == HandlingColumnDefinition;
      ColumnDefinitionPhase(c, s1, defs[1..]);
      var filled := cols[k := d0];
      assert filled[..k + 1] == cols[..k] + [d0];
      assert DecodedColumns(c, defs) == [d0] + DecodedColumns(c, defs[1..]);
      assert filled[..k + 1] + DecodedColumns(c, defs[1..]) == cols[..k] + DecodedColumns(c, defs);
    }
  }

  /** A packet of the row phase that is decoded as a row. */
  predicate IsRowPacket(p: Packet) {
    |p.payload| > 0 && ClassifyRowPhasePacket(p.payload[0], p.length) == RowPacket
  }

  /** A packet of the row phase that ends the result set. */
  predicate IsTerminalPacket(p: Packet) {
    |p.payload| > 0 && ClassifyRowPhasePacket(p.payload[0], p.length) == TerminalPacket
  }

  /** The collector's fold over the rows of a result set, in arrival order. */
  function FoldRows<A>(accumulator: (A, Row) -> A, container: A, columnCount: nat, rows: seq<Packet>): A
    decreases |rows|
  {
    if rows == [] then container
    else FoldRows(accumulator, accumulator(container, Row(columnCount, rows[0].payload)), columnCount, rows[1..])
  }

  /** Row packets only feed the row decoder: one fold step and one more counted row each. */
  lemma {:induction false} RowPhase<A, T>(c: Codec<A, T>, s: CodecState<A, T>, rows: seq<Packet>)
    requires Valid(c, s) && s.handlerState == HandlingRowDataOrEndPacket
    requires forall i :: 0 <= i < |rows| ==> IsRowPacket(rows[i])
    ensures var d := s.decoder.value;
            Run(c, s, rows)
            == (s.(decoder := Some(d.(container := FoldRows(c.collector.accumulator, d.container, |s.columns.value|, rows),
                                      size := d.size + |rows|))),
                Normal)
    decreases |rows|
  {
    if rows != [] {
      assert IsRowPacket(rows[0]);
      DecodePayloadPreservesValid(c, s, rows[0].payload, rows[0].length);
      var (s1, o1) := DecodePayload(c, s, rows[0].payload, rows[0].length);
      assert o1.Normal? && s1 == HandleSingleRow(c, s, rows[0].payload);
      RowPhase(c, s1, rows[1..]);
    }
  }

  /** Status flags, affected rows and last insert id that a terminal packet reports. */
  function TerminalStatus<A, T>(c: Codec<A, T>, p: Packet): (bv16, int, int) {
    if c.deprecateEof then
      var ok := c.decoders.okPacket(p.payload);
      (ok.serverStatusFlags, ToInt(ok.affectedRows), ToInt(ok.lastInsertId))
    else
      (c.decoders.eofPacket(p.payload).serverStatusFlags, -1, -1)
  }

  /**
   * A terminal packet reports the result set (rows counted by the decoder,
   * affected rows and last insert id), resets the per-result-set state, and
   * completes the command exactly when SERVER_MORE_RESULTS_EXISTS is clear.
   * Without CLIENT_DEPRECATE_EOF both counters are reported as -1.
   */
  lemma TerminalPacketEndsResultset<A, T>(c: Codec<A, T>, s: CodecState<A, T>, p: Packet)
    requires Valid(c, s) && s.handlerState == HandlingRowDataOrEndPacket
    requires IsTerminalPacket(p)
    ensures var (s', o) := DecodePayload(c, s, p.payload, p.length);
            var (flags, affected, lastId) := TerminalStatus(c, p);
            var d := s.decoder.value;
            && o.Normal?
            && s'.handlerState == Init && s'.columns.None? && s'.currentColumn == 0
            && s'.decoder == Some(d.(container := c.collector.supplier, size := 0))
            && s'.result == (flags & SERVER_STATUS_LAST_ROW_SENT == 0)
            && s'.events == s.events
                            + [ResultSet(affected, d.size, Some(d.rowDesc), c.collector.finisher(d.container), lastId)]
                            + (if flags & SERVER_MORE_RESULTS_EXISTS == 0
                               then [Completed(FinalResponse(s.failure, s'.result))] else [])
            && (!c.deprecateEof ==> affected == -1 && lastId == -1)
  {
  }

  /** The state in which the rows of a result set with columns `cols` start. */
  function RowPhaseStart<A, T>(c: Codec<A, T>, s: CodecState<A, T>, cols: seq<ColumnDefinition>): CodecState<A, T> {
    s.(handlerState := HandlingRowDataOrEndPacket, columns := Some(cols), currentColumn := |cols|,
       decoder := Some(RowDecoder(cols, c.collector.supplier, 0)))
  }

  /**
   * The head of a result set: the column count, its column definitions and,
   * unless CLIENT_DEPRECATE_EOF is on, exactly one EOF_Packet bring the codec
   * to the row phase with a fresh row decoder over the decoded columns.
   */
  lemma ResultsetHead<A, T>(c: Codec<A, T>, s: CodecState<A, T>, init: Packet, defs: seq<Packet>, eof: seq<Packet>)
    requires Valid(c, s) && s.handlerState == Init
    requires 0 < |defs| <= INT_MAX
    requires c.decoders.initPacket(init.payload) == ColumnCountPacket(|defs|)
    requires |eof| == if c.deprecateEof then 0 else 1
    ensures Run(c, s, [init] + defs + eof) == (RowPhaseStart(c, s, DecodedColumns(c, defs)), Normal)
  {
    var cols := DecodedColumns(c, defs);
    DecodePayloadPreservesValid(c, s, init.payload, init.length);
    var (s1, o1) := DecodePayload(c, s, init.payload, init.length);
    assert s1 == s.(handlerState := HandlingColumnDefinition, columns := Some(seq(|defs|, _ => UnsetColumn)));
    assert Run(c, s, [init]) == (s1, o1) by {
      assert [init][1..] == [];
    }
    ColumnDefinitionPhase(c, s1, defs);
    assert s1.columns.value[..0] + cols == cols;
    RunAppend(c, s, [init], defs);
    var s2 := Run(c, s1, defs).0;
    if c.deprecateEof {
      assert s2 == RowPhaseStart(c, s, cols);
      assert [init] + defs + eof == [init] + defs;
    } else {
      assert s2 == s.(handlerState := ColumnDefinitionsDecodingCompleted, columns := Some(cols), currentColumn := |cols|);
      assert Run(c, s2, eof) == DecodePayload(c, s2, eof[0].payload, eof[0].length) by {
        assert eof[1..] == [];
      }
      RunAppend(c, s, [init] + defs, eof);
    }
  }

  /**
   * One whole result set: column count, its column definitions, the EOF_Packet
   * unless CLIENT_DEPRECATE_EOF is on, the rows and the terminal packet yield
   * exactly one result report with row count = number of rows and the
   * collector's fold over them in order, and leave the codec ready for the
   * next chained result set.
   */
  lemma ResultsetDecoding<A, T>(c: Codec<A, T>, s: CodecState<A, T>, init: Packet, defs: seq<Packet>,
                                eof: seq<Packet>, rows: seq<Packet>, end: Packet)
    requires Valid(c, s) && s.handlerState == Init
    requires 0 < |defs| <= INT_MAX
    requires c.decoders.initPacket(init.payload) == ColumnCountPacket(|defs|)
    requires |eof| == if c.deprecateEof then 0 else 1
    requires forall i :: 0 <= i < |rows| ==> IsRowPacket(rows[i])
    requires IsTerminalPacket(end)
    ensures var (s', o) := Run(c, s, [init] + defs + eof + rows + [end]);
            var (flags, affected, lastId) := TerminalStatus(c, end);
            var cols := DecodedColumns(c, defs);
            && o.Normal?
            && s'.handlerState == Init && s'.columns.None? && s'.currentColumn == 0
            && s'.decoder == Some(RowDecoder(cols, c.collector.supplier, 0))
            && s'.result == (flags & SERVER_STATUS_LAST_ROW_SENT == 0)
            && s'.events == s.events
                            + [ResultSet(affected, |rows|, Some(cols),
                                         c.collector.finisher(FoldRows(c.collector.accumulator, c.collector.supplier, |defs|, rows)),
                                         lastId)]
                            + (if IsDecodingCompleted(flags) then [Completed(FinalResponse(s.failure, s'.result))] else [])
  {
    var cols := DecodedColumns(c, defs);
    var head := [init] + defs + eof;
    ResultsetHead(c, s, init, defs, eof);
    var s3 := RowPhaseStart(c, s, cols);
    ResultsetTail(c, s3, rows, end);
    RunAppend(c, s, head, rows + [end]);
    AppendAssoc(head, rows, [end]);
    assert Run(c, s, [init] + defs + eof + rows + [end]) == Run(c, s3, rows + [end]);
    assert s3.columns.value == cols && |cols| == |defs| && s3.events == s.events && s3.failure == s.failure;
  }

  lemma AppendAssoc<X>(a: seq<X>, b: seq<X>, c: seq<X>)
    ensures a + (b + c) == a + b + c
  {
  }

  /** The rows and the terminal packet of a result set, from the start of its row phase. */
  lemma ResultsetTail<A, T>(c: Codec<A, T>, s: CodecState<A, T>, rows: seq<Packet>, end: Packet)
    requires Valid(c, s) && s.handlerState == HandlingRowDataOrEndPacket
    requires s.decoder == Some(RowDecoder(s.columns.value, c.collector.supplier, 0))
    requires forall i :: 0 <= i < |rows| ==> IsRowPacket(rows[i])
    requires IsTerminalPacket(end)
    ensures var (s', o) := Run(c, s, rows + [end]);
            var (flags, affected, lastId) := TerminalStatus(c, end);
            var cols := s.columns.value;
            && o.Normal?
            && s'.handlerState == Init && s'.columns.None? && s'.currentColumn == 0
            && s'.decoder == Some(RowDecoder(cols, c.collector.supplier, 0))
            && s'.result == (flags & SERVER_STATUS_LAST_ROW_SENT == 0)
            && s'.events == s.events
                            + [ResultSet(affected, |rows|, Some(cols),
                                         c.collector.finisher(FoldRows(c.collector.accumulator, c.collector.supplier, |cols|, rows)),
                                         lastId)]
                            + (if IsDecodingCompleted(flags) then [Completed(FinalResponse(s.failure, s'.result))] else [])
  {
    RowPhase(c, s, rows);
    RunAppend(c, s, rows, [end]);
    var s4 := Run(c, s, rows).0;
    TerminalPacketEndsResultset(c, s4, end);
    assert Run(c, s4, [end]) == DecodePayload(c, s4, end.payload, end.length) by {
      assert [end][1..] == [];
    }
  }

  /**
   * A status packet with no result set reports an empty result: the
   * collector's finisher on a fresh container, size 0 and no row description
   * when no row decoder was ever created.
   */
  lemma StatusWithoutResultset<A, T>(c: Codec<A, T>, s: CodecState<A, T>, p: Packet, ok: OkPacket)
    requires Valid(c, s) && s.handlerState == Init && s.decoder.None?
    requires c.decoders.initPacket(p.payload) == StatusPacket(ok)
    ensures var (s', o) := DecodePayload(c, s, p.payload, p.length);
            && o.Normal?
            && s'.handlerState == Init
            && s'.events[..|s.events|] == s.events
            && s'.events[|s.events|] == ResultSet(ToInt(ok.affectedRows), 0, None, EmptyResult(c.collector), ToInt(ok.lastInsertId))
            && (|s'.events| == |s.events| + 2 <==> IsDecodingCompleted(ok.serverStatusFlags))
  {
  }

  /** A column-count packet allocates exactly `columnCount` slots and starts the column phase at slot 0. */
  lemma ColumnCountAllocates<A, T>(c: Codec<A, T>, s: CodecState<A, T>, p: Packet, n: Long)
    requires Valid(c, s) && s.handlerState == Init
    requires c.decoders.initPacket(p.payload) == ColumnCountPacket(n)
    ensures var (s', o) := DecodePayload(c, s, p.payload, p.length);
            && s'.handlerState == HandlingColumnDefinition
            && (0 <= n <= INT_MAX ==> o.Normal? && s'.columns.Some? && |s'.columns.value| == n && s'.currentColumn == 0)
            && (INT_MIN <= n < 0 ==> o == Thrown(NegativeArraySize))
  {
  }

  /** Without CLIENT_DEPRECATE_EOF, exactly one payload (the EOF_Packet) is consumed between columns and rows. */
  lemma EofPacketConsumedOnce<A, T>(c: Codec<A, T>, s: CodecState<A, T>, p: Packet)
    requires Valid(c, s) && s.handlerState == ColumnDefinitionsDecodingCompleted
    ensures var (s', o) := DecodePayload(c, s, p.payload, p.length);
            && o.Normal?
            && s'.handlerState == HandlingRowDataOrEndPacket
            && s'.decoder == Some(RowDecoder(s.columns.value, c.collector.supplier, 0))
            && s'.events == s.events
  {
  }

  /**
   * A payload led by the EOF header whose declared length reaches 0xFFFFFF is
   * a row, never the end of the result set.
   */
  lemma LongEofLedPayloadIsRow<A, T>(c: Codec<A, T>, s: CodecState<A, T>, p: Packet)
    requires Valid(c, s) && s.handlerState == HandlingRowDataOrEndPacket
    requires |p.payload| > 0 && p.payload[0] == EOF_PACKET_HEADER && p.length >= TERMINAL_PACKET_LENGTH_BOUND
    ensures var (s', o) := DecodePayload(c, s, p.payload, p.length);
            && o.Normal?
            && s'.handlerState == HandlingRowDataOrEndPacket
            && s'.events == s.events
            && s'.decoder.value.size == s.decoder.value.size + 1
  {
  }
}
