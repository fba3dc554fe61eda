/**
 * The decode state machine of a MySQL text-protocol query command
 * (QueryCommandBaseCodec), as pure functions from the codec's state before a
 * payload to its state after it.  The class in module MySqlQueryCodec is
 * proved to follow these functions; the lemmas here and in module
 * MySqlResultsetLemmas state what the state machine promises.
 *
 * Byte-level decoders are not modelled: a codec is given functions that turn a
 * payload into the record its decoder would produce (init packet, column
 * definition, OK_Packet, EOF_Packet), and a Collector whose fold stands for the
 * row decoder.
 */
module MySqlDecodeSpec {
  import opened JavaLang

  type Byte = x: int | 0 <= x < 0x100
  type Payload = seq<Byte>

  /** First byte of an ERR_Packet. */
  const ERROR_PACKET_HEADER: Byte := 0xFF
  /** First byte of an EOF_Packet (and of the OK_Packet that replaces it under CLIENT_DEPRECATE_EOF). */
  const EOF_PACKET_HEADER: Byte := 0xFE
  /** A payload whose declared length reaches this bound is a row, whatever its first byte. */
  const TERMINAL_PACKET_LENGTH_BOUND: int := 0xFF_FFFF

  const SERVER_MORE_RESULTS_EXISTS: bv16 := 0x0008
  const SERVER_STATUS_LAST_ROW_SENT: bv16 := 0x0080

  datatype ColumnDefinition = ColumnDefinition(name: string, typeCode: int, flags: int)

  /** What a freshly allocated `ColumnDefinition[]` slot holds before it is filled (Java's null). */
  const UnsetColumn := ColumnDefinition("", 0, 0)

  datatype OkPacket = OkPacket(affectedRows: Long, lastInsertId: Long, serverStatusFlags: bv16)
  datatype EofPacket = EofPacket(serverStatusFlags: bv16)

  /**
   * How the protocol-specific first packet of a response reads: a column
   * count that opens a result set, an OK_Packet for a statement without a
   * result set, or an ERR_Packet.
   */
  datatype InitPacket = ColumnCountPacket(columnCount: Long) | StatusPacket(ok: OkPacket) | ErrorPacket

  datatype PacketDecoders = PacketDecoders(
    initPacket: Payload -> InitPacket,
    columnDefinition: Payload -> ColumnDefinition,
    okPacket: Payload -> OkPacket,
    eofPacket: Payload -> EofPacket)

  /** One row as handed to the row decoder: the column count and the row payload. */
  datatype Row = Row(columnCount: nat, payload: Payload)

  /** The caller's reduction strategy: seed, per-row accumulation, final transform. */
  datatype Collector<!A, T> = Collector(supplier: A, accumulator: (A, Row) -> A, finisher: A -> T)

  /** The row decoder of one result set: its columns, the container so far and the row count. */
  datatype RowDecoder<A> = RowDecoder(rowDesc: seq<ColumnDefinition>, container: A, size: nat)

  datatype HandlerState =
    | Init
    | HandlingColumnDefinition
    | ColumnDefinitionsDecodingCompleted
    | HandlingRowDataOrEndPacket

  datatype Response = Success(result: bool) | Failure(cause: string)

  /** What the codec reports to its command's handlers. */
  datatype CodecEvent<T> =
      /** `handleResult(affectedRows, size, rowDesc, result)` followed by `addProperty(LAST_INSERTED_ID, lastInsertId)` */
    | ResultSet(affectedRows: int, size: nat, rowDesc: Option<seq<ColumnDefinition>>, result: T, lastInsertId: int)
      /** `handleErrorPacketPayload(payload)` was called */
    | ErrorPacketHandled(payload: Payload)
      /** the completion handler received the command's response */
    | Completed(response: Response)

  datatype JavaException = IndexOutOfBounds | NegativeArraySize | ArrayIndexOutOfBounds | NullPointer

  datatype Outcome = Normal | Thrown(exception: JavaException)

  /** What a codec is built with. */
  datatype Codec<!A, T> = Codec(decoders: PacketDecoders, collector: Collector<A, T>, deprecateEof: bool)

  /** The codec's mutable fields. */
  datatype CodecState<A, T> = CodecState(
    handlerState: HandlerState,
    columns: Option<seq<ColumnDefinition>>,
    currentColumn: int,
    decoder: Option<RowDecoder<A>>,
    result: bool,
    failure: Option<string>,
    events: seq<CodecEvent<T>>)

  function InitialState<A, T>(): CodecState<A, T> {
    CodecState(Init, None, 0, None, false, None, [])
  }

  /** The invariant the codec keeps between payloads that did not throw. */
  ghost predicate Valid<A, T>(c: Codec<A, T>, s: CodecState<A, T>) {
    && 0 <= s.currentColumn
    && (s.handlerState == Init ==> s.columns.None? && s.currentColumn == 0)
    && (s.handlerState != Init ==> s.columns.Some? && s.currentColumn <= |s.columns.value|)
    && (s.handlerState == ColumnDefinitionsDecodingCompleted ==> s.currentColumn == |s.columns.value|)
    && (s.handlerState == HandlingRowDataOrEndPacket ==>
          && s.currentColumn == |s.columns.value|
          && s.decoder.Some?
          && s.decoder.value.rowDesc == s.columns.value)
  }

  /** `emptyResult(collector)`: the finisher applied to a fresh container. */
  function EmptyResult<A, T>(collector: Collector<A, T>): T {
    collector.finisher(collector.supplier)
  }

  /** `isDecodingCompleted`: no further result set follows. */
  predicate IsDecodingCompleted(serverStatusFlags: bv16) {
    serverStatusFlags & SERVER_MORE_RESULTS_EXISTS == 0
  }

  /** The response the completion handler receives. */
  function FinalResponse(failure: Option<string>, result: bool): (r: Response)
    ensures r.Failure? <==> failure.Some?
    ensures r.Failure? ==> r.cause == failure.value
    ensures r.Success? ==> r.result == result
  {
    if failure.Some? then Failure(failure.value) else Success(result)
  }

  function ResetIntermediaryResult<A, T>(s: CodecState<A, T>): CodecState<A, T> {
    s.(handlerState := Init, columns := None, currentColumn := 0)
  }

  function HandleAllResultsetDecodingCompleted<A, T>(s: CodecState<A, T>): CodecState<A, T> {
    s.(events := s.events + [Completed(FinalResponse(s.failure, s.result))])
  }

  /** Reports the result set that just ended and empties the row decoder. */
  function HandleSingleResultsetEndPacket<A, T>(c: Codec<A, T>, s: CodecState<A, T>, serverStatusFlags: bv16,
                                                affectedRows: int, lastInsertId: int): CodecState<A, T>
  {
    var s1 := s.(result := serverStatusFlags & SERVER_STATUS_LAST_ROW_SENT == 0);
    match s.decoder
    case Some(d) =>
      s1.(decoder := Some(d.(container := c.collector.supplier, size := 0)),
          events := s.events + [ResultSet(affectedRows, d.size, Some(d.rowDesc), c.collector.finisher(d.container), lastInsertId)])
    case None =>
      s1.(events := s.events + [ResultSet(affectedRows, 0, None, EmptyResult(c.collector), lastInsertId)])
  }

  function HandleSingleResultsetDecodingCompleted<A, T>(c: Codec<A, T>, s: CodecState<A, T>, serverStatusFlags: bv16,
                                                        affectedRows: int, lastInsertId: int): CodecState<A, T>
  {
    var s1 := ResetIntermediaryResult(HandleSingleResultsetEndPacket(c, s, serverStatusFlags, affectedRows, lastInsertId));
    if IsDecodingCompleted(serverStatusFlags) then HandleAllResultsetDecodingCompleted(s1) else s1
  }

  /** The column-count packet: the state moves on before the array is allocated. */
  function HandleResultsetColumnCountPacketBody<A, T>(s: CodecState<A, T>, columnCount: Long): (CodecState<A, T>, Outcome) {
    var count := ToInt(columnCount);
    var s1 := s.(handlerState := HandlingColumnDefinition);
    if count < 0 then (s1, Thrown(NegativeArraySize))
    else (s1.(columns := Some(seq(count, _ => UnsetColumn))), Normal)
  }

  function HandleResultsetColumnDefinitionsDecodingCompleted<A, T>(c: Codec<A, T>, s: CodecState<A, T>): CodecState<A, T>
    requires s.columns.Some?
  {
    s.(handlerState := HandlingRowDataOrEndPacket,
       decoder := Some(RowDecoder(s.columns.value, c.collector.supplier, 0)))
  }

  /**
   * One column-definition payload.  As in Java's `a[i++] = v`, the index is
   * incremented before the store is checked.
   */
  function HandleResultsetColumnDefinitions<A, T>(c: Codec<A, T>, s: CodecState<A, T>, payload: Payload): (CodecState<A, T>, Outcome) {
    var def := c.decoders.columnDefinition(payload);
    var i := s.currentColumn;
    var s1 := s.(currentColumn := i + 1);
    match s.columns
    case None => (s1, Thrown(NullPointer))
    case Some(cols) =>
      if !(0 <= i < |cols|) then (s1, Thrown(ArrayIndexOutOfBounds))
      else
        var s2 := s1.(columns := Some(cols[i := def]));
        if i + 1 != |cols| then (s2, Normal)
        else if c.deprecateEof then (HandleResultsetColumnDefinitionsDecodingCompleted(c, s2), Normal)
        else (s2.(handlerState := ColumnDefinitionsDecodingCompleted), Normal)
  }

  /** `handleSingleRow`: the row decoder folds one more row. */
  function HandleSingleRow<A, T>(c: Codec<A, T>, s: CodecState<A, T>, payload: Payload): CodecState<A, T>
    requires s.decoder.Some? && s.columns.Some?
  {
    var d := s.decoder.value;
    s.(decoder := Some(d.(container := c.collector.accumulator(d.container, Row(|s.columns.value|, payload)),
                          size := d.size + 1)))
  }

  /** How a payload of the row phase is read. */
  datatype RowPhasePacket = ErrPacket | TerminalPacket | RowPacket

  function ClassifyRowPhasePacket(first: Byte, payloadLength: int): RowPhasePacket {
    if first == ERROR_PACKET_HEADER then ErrPacket
    else if first == EOF_PACKET_HEADER && payloadLength < TERMINAL_PACKET_LENGTH_BOUND then TerminalPacket
    else RowPacket
  }

  /** The terminal packet of a result set: OK_Packet under CLIENT_DEPRECATE_EOF, else EOF_Packet. */
  function HandleTerminalPacket<A, T>(c: Codec<A, T>, s: CodecState<A, T>, payload: Payload): CodecState<A, T> {
    if c.deprecateEof then
      var ok := c.decoders.okPacket(payload);
      HandleSingleResultsetDecodingCompleted(c, s, ok.serverStatusFlags, ToInt(ok.affectedRows), ToInt(ok.lastInsertId))
    else
      HandleSingleResultsetDecodingCompleted(c, s, c.decoders.eofPacket(payload).serverStatusFlags, -1, -1)
  }

  function HandleRows<A, T>(c: Codec<A, T>, s: CodecState<A, T>, payload: Payload, payloadLength: int): (CodecState<A, T>, Outcome)
    requires s.decoder.Some? && s.columns.Some?
  {
    if |payload| == 0 then (s, Thrown(IndexOutOfBounds))
    else match ClassifyRowPhasePacket(payload[0], payloadLength)
      case ErrPacket => (s.(events := s.events + [ErrorPacketHandled(payload)]), Normal)
      case TerminalPacket => (HandleTerminalPacket(c, s, payload), Normal)
      case RowPacket => (HandleSingleRow(c, s, payload), Normal)
  }

  /** The protocol-specific first packet, dispatched by how it reads. */
  function HandleInitPacket<A, T>(c: Codec<A, T>, s: CodecState<A, T>, payload: Payload): (CodecState<A, T>, Outcome) {
    match c.decoders.initPacket(payload)
    case ColumnCountPacket(n) => HandleResultsetColumnCountPacketBody(s, n)
    case StatusPacket(ok) =>
      (HandleSingleResultsetDecodingCompleted(c, s, ok.serverStatusFlags, ToInt(ok.affectedRows), ToInt(ok.lastInsertId)), Normal)
    case ErrorPacket => (s.(events := s.events + [ErrorPacketHandled(payload)]), Normal)
  }

  /** `decodePayload`: exactly one handler runs, chosen by the handler state. */
  function DecodePayload<A, T>(c: Codec<A, T>, s: CodecState<A, T>, payload: Payload, payloadLength: int): (CodecState<A, T>, Outcome)
    requires Valid(c, s)
  {
    match s.handlerState
    case Init => HandleInitPacket(c, s, payload)
    case HandlingColumnDefinition => HandleResultsetColumnDefinitions(c, s, payload)
    case ColumnDefinitionsDecodingCompleted => (HandleResultsetColumnDefinitionsDecodingCompleted(c, s), Normal)
    case HandlingRowDataOrEndPacket => HandleRows(c, s, payload, payloadLength)
  }

  /** A payload that did not throw leaves the codec valid. */
  lemma DecodePayloadPreservesValid<A, T>(c: Codec<A, T>, s: CodecState<A, T>, payload: Payload, payloadLength: int)
    requires Valid(c, s)
    ensures var (s', o) := DecodePayload(c, s, payload, payloadLength); o.Normal? ==> Valid(c, s')
  {
  }
}
