/**
 * QueryCommandBaseCodec: the mutable codec object of one MySQL query command.
 * Each method updates the fields in place as the Java code does and is proved
 * to leave the fields as the function of the same name in module
 * MySqlDecodeSpec says.
 */
module MySqlQueryCodec {
  import opened JavaLang
  import opened MySqlDecodeSpec

  class QueryCommandCodec<A, T> {
    /** The packet decoders, the command's collector and whether CLIENT_DEPRECATE_EOF is on. */
    const codec: Codec<A, T>

    var commandHandlerState: HandlerState
    var columnDefinitions: array?<ColumnDefinition>
    var currentColumn: int
    var decoder: Option<RowDecoder<A>>
    /** The response value of a successful command (CommandCodec's `result`). */
    var result: bool
    /** The failure recorded for the command (CommandCodec's `failure`). */
    var failure: Option<string>
    /** Everything reported to the command's result and completion handlers so far. */
    var events: seq<CodecEvent<T>>

    ghost function State(): CodecState<A, T>
      reads this, columnDefinitions
    {
      CodecState(commandHandlerState,
                 if columnDefinitions == null then None else Some(columnDefinitions[..]),
                 currentColumn, decoder, result, failure, events)
    }

    constructor (decoders: PacketDecoders, collector: Collector<A, T>, deprecateEof: bool)
      ensures codec == Codec(decoders, collector, deprecateEof)
      ensures State() == InitialState()
      ensures Valid(codec, State())
    {
      codec := Codec(decoders, collector, deprecateEof);
      commandHandlerState := Init;
      columnDefinitions := null;
      currentColumn := 0;
      decoder := None;
      result := false;
      failure := None;
      events := [];
    }

    /** `decodePayload`: runs the one handler that the current handler state selects. */
    method DecodePayload(payload: Payload, payloadLength: int) returns (outcome: Outcome)
      requires Valid(codec, State())
      modifies this, columnDefinitions
      ensures (State(), outcome) == MySqlDecodeSpec.DecodePayload(codec, old(State()), payload, payloadLength)
      ensures outcome.Normal? ==> Valid(codec, State())
    {
      DecodePayloadPreservesValid(codec, State(), payload, payloadLength);
      match commandHandlerState
      case Init =>
        outcome := HandleInitPacket(payload);
      case HandlingColumnDefinition =>
        outcome := HandleResultsetColumnDefinitions(payload);
      case ColumnDefinitionsDecodingCompleted =>
        HandleResultsetColumnDefinitionsDecodingCompleted();
        outcome := Normal;
      case HandlingRowDataOrEndPacket =>
        outcome := HandleRows(payload, payloadLength);
    }

    method HandleInitPacket(payload: Payload) returns (outcome: Outcome)
      modifies this
      ensures (State(), outcome) == MySqlDecodeSpec.HandleInitPacket(codec, old(State()), payload)
    {
      match codec.decoders.initPacket(payload)
      case ColumnCountPacket(n) =>
        outcome := HandleResultsetColumnCountPacketBody(n);
      case StatusPacket(ok) =>
        HandleSingleResultsetDecodingCompleted(ok.serverStatusFlags, ToInt(ok.affectedRows), ToInt(ok.lastInsertId));
        outcome := Normal;
      case ErrorPacket =>
        events := events + [ErrorPacketHandled(payload)];
        outcome := Normal;
    }

    /** The column count read from the packet, narrowed to `int`, sizes a new column array. */
    method HandleResultsetColumnCountPacketBody(columnCount: Long) returns (outcome: Outcome)
      modifies this
      ensures (State(), outcome) == MySqlDecodeSpec.HandleResultsetColumnCountPacketBody(old(State()), columnCount)
    {
      var count := ToInt(columnCount);
      commandHandlerState := HandlingColumnDefinition;
      if count < 0 {
        return Thrown(NegativeArraySize);
      }
      columnDefinitions := new ColumnDefinition[count](_ => UnsetColumn);
      assert columnDefinitions[..] == seq(count, _ => UnsetColumn);
      outcome := Normal;
    }

    method HandleResultsetColumnDefinitions(payload: Payload) returns (outcome: Outcome)
      modifies this, columnDefinitions
      ensures (State(), outcome) == MySqlDecodeSpec.HandleResultsetColumnDefinitions(codec, old(State()), payload)
    {
      var def := codec.decoders.columnDefinition(payload);
      var i := currentColumn;
      currentColumn := i + 1;
      if columnDefinitions == null {
        return Thrown(NullPointer);
      }
      if !(0 <= i < columnDefinitions.Length) {
        return Thrown(ArrayIndexOutOfBounds);
      }
      columnDefinitions[i] := def;
      if currentColumn == columnDefinitions.Length {
        if codec.deprecateEof {
          HandleResultsetColumnDefinitionsDecodingCompleted();
        } else {
          commandHandlerState := ColumnDefinitionsDecodingCompleted;
        }
      }
      outcome := Normal;
    }

    method HandleResultsetColumnDefinitionsDecodingCompleted()
      requires columnDefinitions != null
      modifies this
      ensures State() == MySqlDecodeSpec.HandleResultsetColumnDefinitionsDecodingCompleted(codec, old(State()))
    {
      commandHandlerState := HandlingRowDataOrEndPacket;
      decoder := Some(RowDecoder(columnDefinitions[..], codec.collector.supplier, 0));
    }

    method HandleRows(payload: Payload, payloadLength: int) returns (outcome: Outcome)
      requires decoder.Some? && columnDefinitions != null
      modifies this
      ensures (State(), outcome) == MySqlDecodeSpec.HandleRows(codec, old(State()), payload, payloadLength)
    {
      if |payload| == 0 {
        return Thrown(IndexOutOfBounds);
      }
      var first := payload[0];
      if first == ERROR_PACKET_HEADER {
        events := events + [ErrorPacketHandled(payload)];
      } else if first == EOF_PACKET_HEADER && payloadLength < TERMINAL_PACKET_LENGTH_BOUND {
        if codec.deprecateEof {
          var ok := codec.decoders.okPacket(payload);
          HandleSingleResultsetDecodingCompleted(ok.serverStatusFlags, ToInt(ok.affectedRows), ToInt(ok.lastInsertId));
        } else {
          var eof := codec.decoders.eofPacket(payload);
          HandleSingleResultsetDecodingCompleted(eof.serverStatusFlags, -1, -1);
        }
      } else {
        HandleSingleRow(payload);
      }
      outcome := Normal;
    }

    method HandleSingleRow(payload: Payload)
      requires decoder.Some? && columnDefinitions != null
      modifies this
      ensures State() == MySqlDecodeSpec.HandleSingleRow(codec, old(State()), payload)
    {
      var d := decoder.value;
      var row := Row(columnDefinitions.Length, payload);
      decoder := Some(d.(container := codec.collector.accumulator(d.container, row), size := d.size + 1));
    }

    method HandleSingleResultsetDecodingCompleted(serverStatusFlags: bv16, affectedRows: int, lastInsertId: int)
      modifies this
      ensures State() == MySqlDecodeSpec.HandleSingleResultsetDecodingCompleted(codec, old(State()), serverStatusFlags,
                                                                              affectedRows, lastInsertId)
    {
      HandleSingleResultsetEndPacket(serverStatusFlags, affectedRows, lastInsertId);
      ResetIntermediaryResult();
      if IsDecodingCompleted(serverStatusFlags) {
        HandleAllResultsetDecodingCompleted();
      }
    }

    method HandleSingleResultsetEndPacket(serverStatusFlags: bv16, affectedRows: int, lastInsertId: int)
      modifies this
      ensures State() == MySqlDecodeSpec.HandleSingleResultsetEndPacket(codec, old(State()), serverStatusFlags,
                                                                      affectedRows, lastInsertId)
    {
      result := serverStatusFlags & SERVER_STATUS_LAST_ROW_SENT == 0;
      var reported: T;
      var size: nat;
      var rowDesc: Option<seq<ColumnDefinition>>;
      if decoder.Some? {
        var d := decoder.value;
        reported := codec.collector.finisher(d.container);
        rowDesc := Some(d.rowDesc);
        size := d.size;
        decoder := Some(d.(container := codec.collector.supplier, size := 0));
      } else {
        reported := EmptyResult(codec.collector);
        size := 0;
        rowDesc := None;
      }
      events := events + [ResultSet(affectedRows, size, rowDesc, reported, lastInsertId)];
    }

    method HandleAllResultsetDecodingCompleted()
      modifies this
      ensures State() == MySqlDecodeSpec.HandleAllResultsetDecodingCompleted(old(State()))
    {
      var response: Response;
      if failure.Some? {
        response := Failure(failure.value);
      } else {
        response := Success(result);
      }
      events := events + [Completed(response)];
    }

    method ResetIntermediaryResult()
      modifies this
      ensures State() == MySqlDecodeSpec.ResetIntermediaryResult(old(State()))
    {
      commandHandlerState := Init;
      columnDefinitions := null;
      currentColumn := 0;
    }
  }
}
