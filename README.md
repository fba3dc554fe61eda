# vertx-sql-client core, modelled in Dafny

This project models the stateful core of vertx-sql-client, a reactive SQL client for the JVM, and proves what that core promises. It covers seven components:

- **MySQL result-set decoding** (`QueryCommandBaseCodec`). A four-state machine consumes one payload per call: the column count, the column definitions, an optional EOF_Packet, then rows and a terminal packet. Result sets are chained while the server sets `SERVER_MORE_RESULTS_EXISTS`. This follows the text resultset flow of the MySQL client/server protocol, including the `CLIENT_DEPRECATE_EOF` capability.
- **The back-pressured row stream** (`RowStreamImpl`). A demand counter saturates at `Long.MAX_VALUE`. A single-flight emission loop drains the current page, then asks the cursor for the next one or signals the end.
- **The PostgreSQL extended-query encoder** (`ExtendedQueryCommandCodec.encode`). It writes Parse?, Bind, Execute and Sync, or Execute and Sync to continue a suspended portal. These are the Extended Query messages of the PostgreSQL frontend/backend protocol.
- **The prepared-statement cache** of `PgConnectionImpl`. It computes a statement if absent, keyed by SQL text. With caching off, every call returns a fresh uncached statement. The connection also schedules query and update commands.
- **`ObjectResultSet`**, an append-only singly-linked chain with head and tail pointers, and its iterator.
- **`ClassDissector`**, which finds property getters and setters by method-name rules and links each setter's parameter type to a Row getter through `ROW_TYPEMAP`.
- **`ObjectMapper`**, which maps result columns to properties, memoises each class's dissection, and hands out one shared instance.

Every source class that updates its fields in place is a Dafny `class` with the same fields. Its methods are proved to leave those fields as a pure function of the old state says:
- MySQL codec: `MySqlDecodeSpec`.
- Row stream: `RowStreamSpec`.
- Connection: `PgConnectionSpec`.

The properties are proved as lemmas about those functions:
- `MySqlResultsetLemmas` covers whole result sets and the payload classification.
- `RowStreamLemmas` covers demand, pagination, the end event and close.
- `PgConnectionSpec` covers the cache.

Code without loops that only computes is modelled by functions:
- the encoder's packet sequence (`PgExtendedQuery.Encoding`);
- the dissection rules (`ClassDissection.Classify`, `DissectAll`).

The loops themselves are methods with loop invariants, each proved against a function or an explicit characterisation:
- `GetPublicMethods` and `Dissect`, over the method array;
- the column loop of `prepareMapping` (`ObjectMapping.MapColumns`);
- iteration of the chain (`ObjectResultSets.Collect`);
- the emission loop (`RowStreamImpl.CheckPending`).

Java semantics the core depends on are made explicit in `JavaLang`:
- `long` wrap-around, used for `demand += amount` and its saturation;
- the narrowing cast `(int)`;
- `startsWith`;
- `toLowerCase`, on ASCII letters only.

Java exceptions are results:
- The MySQL codec returns an `Outcome` that carries the exception thrown.
- The row stream returns `IllegalArgument`, `UnsupportedOperation` or `NullPointer`.
- The iterator's `next()` returns `None` where Java throws `NoSuchElementException`.

Where the code and its documentation differ, the model follows the code:
- `encode` does not mark a statement as parsed after writing Parse. Only the server's reply does, and that is outside this component. So `Encode` is proved to leave `ps.bind.statement` unchanged.

Two places in the code are modelled in corrected form. Each is listed under "## Findings" with a member that models the code as written:
- When the stream is closed while a page is being read, the page is still delivered to the row handler; the code then throws NullPointerException when the page runs out. `RowStreamSpec.Emit` stops quietly instead. Apart from that exception it leaves the same state as the code (`RowStreamLemmas.EmitAsWrittenAgrees`).
- `ClassDissector` and `ObjectMapper` read a primitive `boolean` property with `getBoolean`. The code uses `getLong` (`ROW_TYPEMAP_AS_WRITTEN`).

## Model

| member | source | states |
|---|---|---|
| JavaLang.WrapLong | vertx-sql-client/src/main/java/io/vertx/sqlclient/impl/RowStreamImpl.java:98-101 | the result is the unique `long` congruent to the mathematical value modulo 2^64, and equals it when it is in range (Java's `long` overflow) |
| JavaLang.ToInt | vertx-mysql-client/src/main/java/io/vertx/mysqlclient/impl/codec/QueryCommandBaseCodec.java:175-178 | `(int)` of a `long` is congruent to it modulo 2^32 and is the value itself when it fits in an `int` |
| JavaLang.LowerCase | vertx-sql-client/src/main/java/io/vertx/sqlclient/mapper/ClassDissector.java:137 | lower-casing keeps the length and maps every character through the ASCII case mapping |
| JavaLang.LowerCaseIdempotent | vertx-sql-client/src/main/java/io/vertx/sqlclient/mapper/ObjectMapper.java:61 | lower-casing a lower-cased name changes nothing; `ObjectMapping.ColumnNamedAsKeyIsMapped` uses this to show that a property key, used as a column name, finds its own property |
| MySqlDecodeSpec.FinalResponse | vertx-mysql-client/src/main/java/io/vertx/mysqlclient/impl/codec/QueryCommandBaseCodec.java:165-173 | the response is a failure iff a failure was recorded, carrying that failure; otherwise it is success with the recorded result |
| MySqlDecodeSpec.DecodePayloadPreservesValid | vertx-mysql-client/src/main/java/io/vertx/mysqlclient/impl/codec/QueryCommandBaseCodec.java:52-96 | every payload that does not throw keeps the codec invariant: `0 <= currentColumn <= columnDefinitions.length`, no array in INIT, all columns filled before rows, and a row decoder over exactly those columns in the row phase |
| MySqlQueryCodec.QueryCommandCodec.constructor | vertx-mysql-client/src/main/java/io/vertx/mysqlclient/impl/codec/QueryCommandBaseCodec.java:37-45 | a new codec is in INIT with no columns, column 0, no decoder and no events, and satisfies the invariant |
| MySqlQueryCodec.QueryCommandCodec.DecodePayload | vertx-mysql-client/src/main/java/io/vertx/mysqlclient/impl/codec/QueryCommandBaseCodec.java:52-68 | runs exactly the one handler the handler state selects; the fields end as `MySqlDecodeSpec.DecodePayload` says and the invariant holds afterwards unless an exception was thrown |
| MySqlQueryCodec.QueryCommandCodec.HandleInitPacket | vertx-mysql-client/src/main/java/io/vertx/mysqlclient/impl/codec/QueryCommandBaseCodec.java:70 | the first packet of a response is dispatched by how it reads (column count, OK status, error), and the fields end as the spec function says |
| MySqlQueryCodec.QueryCommandCodec.HandleResultsetColumnCountPacketBody | vertx-mysql-client/src/main/java/io/vertx/mysqlclient/impl/codec/QueryCommandBaseCodec.java:72-76 | moves to HANDLING_COLUMN_DEFINITION, then allocates a fresh array of `(int) columnCount` unset slots; a negative count throws NegativeArraySizeException after the state change |
| MySqlQueryCodec.QueryCommandCodec.HandleResultsetColumnDefinitions | vertx-mysql-client/src/main/java/io/vertx/mysqlclient/impl/codec/QueryCommandBaseCodec.java:78-91 | stores the decoded definition in slot `currentColumn` and increments it; after the last slot either starts the row phase (deprecate-EOF) or waits for the EOF_Packet; a full or missing array throws |
| MySqlQueryCodec.QueryCommandCodec.HandleResultsetColumnDefinitionsDecodingCompleted | vertx-mysql-client/src/main/java/io/vertx/mysqlclient/impl/codec/QueryCommandBaseCodec.java:93-96 | enters the row phase with a fresh row decoder over the column definitions |
| MySqlQueryCodec.QueryCommandCodec.HandleRows | vertx-mysql-client/src/main/java/io/vertx/mysqlclient/impl/codec/QueryCommandBaseCodec.java:98-126 | classifies the payload by its first byte and declared length as error, terminal packet or row, and updates the fields as the spec function says |
| MySqlQueryCodec.QueryCommandCodec.HandleSingleRow | vertx-mysql-client/src/main/java/io/vertx/mysqlclient/impl/codec/QueryCommandBaseCodec.java:128-131 | the row decoder folds the row with the column count and counts one more row |
| MySqlQueryCodec.QueryCommandCodec.HandleSingleResultsetDecodingCompleted | vertx-mysql-client/src/main/java/io/vertx/mysqlclient/impl/codec/QueryCommandBaseCodec.java:133-144 | reports the result set, resets the per-result-set fields, and completes the command only when SERVER_MORE_RESULTS_EXISTS is clear |
| MySqlQueryCodec.QueryCommandCodec.HandleSingleResultsetEndPacket | vertx-mysql-client/src/main/java/io/vertx/mysqlclient/impl/codec/QueryCommandBaseCodec.java:146-163 | records whether SERVER_STATUS_LAST_ROW_SENT is clear, reports the decoder's result, size and columns (or the empty result, size 0, no columns without a decoder) with the affected rows and last insert id, and resets the decoder |
| MySqlQueryCodec.QueryCommandCodec.HandleAllResultsetDecodingCompleted | vertx-mysql-client/src/main/java/io/vertx/mysqlclient/impl/codec/QueryCommandBaseCodec.java:165-173 | appends one completion carrying the final response |
| MySqlQueryCodec.QueryCommandCodec.ResetIntermediaryResult | vertx-mysql-client/src/main/java/io/vertx/mysqlclient/impl/codec/QueryCommandBaseCodec.java:180-184 | back to INIT with no column array and column 0 |
| MySqlResultsetLemmas.Run | vertx-mysql-client/src/main/java/io/vertx/mysqlclient/impl/codec/QueryCommandBaseCodec.java:52-68 | feeding payloads one by one, stopping at the first exception, keeps the codec invariant whenever nothing threw |
| MySqlResultsetLemmas.RunAppend | vertx-mysql-client/src/main/java/io/vertx/mysqlclient/impl/codec/QueryCommandBaseCodec.java:52-68 | feeding `a + b` is feeding `a` and then, unless it threw, `b` |
| MySqlResultsetLemmas.ColumnDefinitionPhase | vertx-mysql-client/src/main/java/io/vertx/mysqlclient/impl/codec/QueryCommandBaseCodec.java:78-91 | the remaining column-definition payloads fill the remaining slots in order, leaving earlier slots alone; after the last one the codec is in the row phase (deprecate-EOF) or waiting for one EOF_Packet |
| MySqlResultsetLemmas.RowPhase | vertx-mysql-client/src/main/java/io/vertx/mysqlclient/impl/codec/QueryCommandBaseCodec.java:123-131 | row payloads only feed the row decoder: the container becomes the collector's fold over the rows in order, the size grows by their number, nothing is reported |
| MySqlResultsetLemmas.TerminalPacketEndsResultset | vertx-mysql-client/src/main/java/io/vertx/mysqlclient/impl/codec/QueryCommandBaseCodec.java:110-122 | a terminal packet reports one result set with the decoder's size and fold, reports affected rows and last insert id as -1 without deprecate-EOF, resets to INIT, and completes the command iff SERVER_MORE_RESULTS_EXISTS is clear |
| MySqlResultsetLemmas.ResultsetHead | vertx-mysql-client/src/main/java/io/vertx/mysqlclient/impl/codec/QueryCommandBaseCodec.java:72-96 | a column count n, n column definitions and, without deprecate-EOF, exactly one EOF payload bring the codec to the row phase with a fresh decoder over the decoded columns |
| MySqlResultsetLemmas.ResultsetDecoding | vertx-mysql-client/src/main/java/io/vertx/mysqlclient/impl/codec/QueryCommandBaseCodec.java:52-144 | a whole result set yields exactly one report whose size is the number of rows and whose result is the collector's fold over them, and leaves the codec in INIT ready for a chained result set |
| MySqlResultsetLemmas.ResultsetTail | vertx-mysql-client/src/main/java/io/vertx/mysqlclient/impl/codec/QueryCommandBaseCodec.java:98-144 | from a fresh row phase, rows then a terminal packet report the fold and count of exactly those rows |
| MySqlResultsetLemmas.StatusWithoutResultset | vertx-mysql-client/src/main/java/io/vertx/mysqlclient/impl/codec/QueryCommandBaseCodec.java:47-49 | a status packet with no decoder reports the finisher applied to a fresh container, size 0 and no row description |
| MySqlResultsetLemmas.ColumnCountAllocates | vertx-mysql-client/src/main/java/io/vertx/mysqlclient/impl/codec/QueryCommandBaseCodec.java:72-76 | a column count allocates exactly that many slots and starts at slot 0 in HANDLING_COLUMN_DEFINITION, or throws for a negative count |
| MySqlResultsetLemmas.EofPacketConsumedOnce | vertx-mysql-client/src/main/java/io/vertx/mysqlclient/impl/codec/QueryCommandBaseCodec.java:60-62 | in COLUMN_DEFINITIONS_DECODING_COMPLETED any one payload is consumed and the next payload is already in the row phase |
| MySqlResultsetLemmas.LongEofLedPayloadIsRow | vertx-mysql-client/src/main/java/io/vertx/mysqlclient/impl/codec/QueryCommandBaseCodec.java:104-125 | a 0xFE-led payload whose declared length reaches 0xFFFFFF is decoded as a row, never as the end of the result set |
| RowStreamSpec.Init | vertx-sql-client/src/main/java/io/vertx/sqlclient/impl/RowStreamImpl.java:48-55 | a new stream has demand `Long.MAX_VALUE`, no cursor, no events and no commands, and is valid |
| RowStreamSpec.EmitRow | vertx-sql-client/src/main/java/io/vertx/sqlclient/impl/RowStreamImpl.java:171-176 | one loop turn takes the next row off the page, hands it to the row handler if set, and spends one unit of demand unless demand is `Long.MAX_VALUE` |
| RowStreamSpec.Emit | vertx-sql-client/src/main/java/io/vertx/sqlclient/impl/RowStreamImpl.java:163-193 | the emission loop ends with no pass running, only appends events, sends at most one command, and leaves the fetch size and handlers alone |
| RowStreamSpec.Pause | vertx-sql-client/src/main/java/io/vertx/sqlclient/impl/RowStreamImpl.java:87-91 | pausing sets demand to 0 and sends or delivers nothing |
| RowStreamSpec.AddDemand | vertx-sql-client/src/main/java/io/vertx/sqlclient/impl/RowStreamImpl.java:98-101 | adding a non-negative amount to a non-negative demand gives their sum, saturated at `Long.MAX_VALUE` |
| RowStreamSpec.Close | vertx-sql-client/src/main/java/io/vertx/sqlclient/impl/RowStreamImpl.java:145-154 | after close there is no cursor and no event was produced; without a cursor nothing changes; with an open cursor the only other change is exactly one close request for that cursor |
| RowStream.RowStreamImpl.constructor | vertx-sql-client/src/main/java/io/vertx/sqlclient/impl/RowStreamImpl.java:48-55 | the fields start as `RowStreamSpec.Init` |
| RowStream.RowStreamImpl.SetExceptionHandler | vertx-sql-client/src/main/java/io/vertx/sqlclient/impl/RowStreamImpl.java:57-61 | only the exception handler changes |
| RowStream.RowStreamImpl.SetEndHandler | vertx-sql-client/src/main/java/io/vertx/sqlclient/impl/RowStreamImpl.java:115-119 | only the end handler changes |
| RowStream.RowStreamImpl.SetRowHandler | vertx-sql-client/src/main/java/io/vertx/sqlclient/impl/RowStreamImpl.java:63-85 | the fields and the outcome are those of `RowStreamSpec.SetRowHandler`: open a cursor and read, or throw when one is open, or drop the cursor or the handler |
| RowStream.RowStreamImpl.Pause | vertx-sql-client/src/main/java/io/vertx/sqlclient/impl/RowStreamImpl.java:87-91 | the fields end as `RowStreamSpec.Pause` |
| RowStream.RowStreamImpl.Fetch | vertx-sql-client/src/main/java/io/vertx/sqlclient/impl/RowStreamImpl.java:93-108 | the fields and the outcome are those of `RowStreamSpec.Fetch` |
| RowStream.RowStreamImpl.Resume | vertx-sql-client/src/main/java/io/vertx/sqlclient/impl/RowStreamImpl.java:110-113 | the fields and the outcome are those of `fetch(Long.MAX_VALUE)` |
| RowStream.RowStreamImpl.Handle | vertx-sql-client/src/main/java/io/vertx/sqlclient/impl/RowStreamImpl.java:121-136 | the fields end as `RowStreamSpec.Handle` says for a failed or a successful read |
| RowStream.RowStreamImpl.Close | vertx-sql-client/src/main/java/io/vertx/sqlclient/impl/RowStreamImpl.java:138-154 | the fields end as `RowStreamSpec.Close` |
| RowStream.RowStreamImpl.CheckPending | vertx-sql-client/src/main/java/io/vertx/sqlclient/impl/RowStreamImpl.java:156-194 | the `while (true)` loop leaves the fields as `RowStreamSpec.CheckPending`, proved by the invariant that the loop's remaining effect is always the same emission |
| RowStream.RowStreamImpl.EmitTurn | vertx-sql-client/src/main/java/io/vertx/sqlclient/impl/RowStreamImpl.java:164-192 | one turn of the loop either breaks with the emission complete, or continues with the same remaining emission and strictly fewer pending rows |
| RowStream.RowStreamImpl.EmitNextRow | vertx-sql-client/src/main/java/io/vertx/sqlclient/impl/RowStreamImpl.java:171-176 | the fields end as `RowStreamSpec.EmitRow` |
| RowStreamLemmas.EmitAsWrittenAgrees | vertx-sql-client/src/main/java/io/vertx/sqlclient/impl/RowStreamImpl.java:177-187 | the loop as written and the corrected loop leave the same state; the written one throws only when the cursor is gone, and never while it is open |
| RowStreamLemmas.PageAfterCloseThrowsAsWritten | vertx-sql-client/src/main/java/io/vertx/sqlclient/impl/RowStreamImpl.java:180 | handler set, close, then the first page arrives with one row: the row is delivered and `cursor.hasMore()` throws NullPointerException |
| RowStreamLemmas.PageAfterCloseIsQuiet | vertx-sql-client/src/main/java/io/vertx/sqlclient/impl/RowStreamImpl.java:177-187 | the same calls under the corrected loop deliver the row, send no further read, and leave the stream valid |
| RowStreamLemmas.EmitRespectsDemand | vertx-sql-client/src/main/java/io/vertx/sqlclient/impl/RowStreamImpl.java:164-176 | with bounded demand, rows delivered plus demand left never exceed the demand at the start, with equality when a row handler is set |
| RowStreamLemmas.NoDemandNoEmission | vertx-sql-client/src/main/java/io/vertx/sqlclient/impl/RowStreamImpl.java:165-168 | with demand 0 the loop stops at once without delivering or requesting anything |
| RowStreamLemmas.EmitPreservesValid | vertx-sql-client/src/main/java/io/vertx/sqlclient/impl/RowStreamImpl.java:163-193 | an emission pass keeps demand non-negative and every cursor id issued, ends with no pass running, and never replaces the open cursor |
| RowStreamLemmas.EmitReadsOnlyWhenPageExhausted | vertx-sql-client/src/main/java/io/vertx/sqlclient/impl/RowStreamImpl.java:177-182 | a read is sent only after the page is used up, only to the open cursor, only when it has more rows, and only once |
| RowStreamLemmas.EmitEndsOnlyAfterLastPage | vertx-sql-client/src/main/java/io/vertx/sqlclient/impl/RowStreamImpl.java:183-187 | the end event is produced only when the cursor reports no more rows, only with an end handler, and the cursor is then dropped |
| RowStreamLemmas.EmitUnboundedDemand | vertx-sql-client/src/main/java/io/vertx/sqlclient/impl/RowStreamImpl.java:163-193 | with unbounded demand a page is delivered whole and in order, followed by a read of the next page if the cursor has more, or by the end event if not |
| RowStreamLemmas.HandleUnboundedPage | vertx-sql-client/src/main/java/io/vertx/sqlclient/impl/RowStreamImpl.java:132-135 | a page arriving on the open cursor with unbounded demand is delivered whole; a suspended portal is read again, a finished one ends the stream and drops the cursor |
| RowStreamLemmas.ThreePageStream | vertx-sql-client/src/main/java/io/vertx/sqlclient/impl/RowStreamImpl.java:63-194 | pages [1, 2], [3, 4], [5] with fetch size 2 give exactly five rows in order, one end event and three reads |
| RowStreamLemmas.CloseIdempotent | vertx-sql-client/src/main/java/io/vertx/sqlclient/impl/RowStreamImpl.java:145-154 | closing twice is closing once, and at most one close request is ever sent |
| RowStreamLemmas.FetchRules | vertx-sql-client/src/main/java/io/vertx/sqlclient/impl/RowStreamImpl.java:93-108 | `fetch(n)` throws IllegalArgumentException iff n < 0, changing nothing; otherwise it returns normally, and without a cursor only the demand changes, to the saturated sum |
| RowStreamLemmas.ResumeUnbounds | vertx-sql-client/src/main/java/io/vertx/sqlclient/impl/RowStreamImpl.java:110-113 | `resume()` without a cursor makes the demand `Long.MAX_VALUE` and changes nothing else |
| RowStreamLemmas.SetRowHandlerRules | vertx-sql-client/src/main/java/io/vertx/sqlclient/impl/RowStreamImpl.java:63-85 | a handler with no cursor opens a cursor with a new id and sends it exactly one read of `fetch` rows; with a cursor open it throws UnsupportedOperationException and changes nothing; removing the handler sends nothing |
| RowStreamLemmas.FailedPageRules | vertx-sql-client/src/main/java/io/vertx/sqlclient/impl/RowStreamImpl.java:123-131 | a failed read drops the cursor, passes the cause to the exception handler if set, and sends nothing |
| RowStreamLemmas.CheckPendingSingleFlight | vertx-sql-client/src/main/java/io/vertx/sqlclient/impl/RowStreamImpl.java:157-162 | entering `checkPending` while a pass is running returns at once, changing nothing |
| RowStreamLemmas.CheckPendingRespectsDemand | vertx-sql-client/src/main/java/io/vertx/sqlclient/impl/RowStreamImpl.java:156-194 | a pass keeps the stream valid, only appends events, and delivers no more rows than the demand it started with |
| RowStreamLemmas.StepRespectsDemand | vertx-sql-client/src/main/java/io/vertx/sqlclient/impl/RowStreamImpl.java:57-154 | any one public call or read completion keeps the stream valid and delivers no more rows than the demand held plus the demand the call grants |
| RowStreamLemmas.SetRowHandlerPreservesValid | vertx-sql-client/src/main/java/io/vertx/sqlclient/impl/RowStreamImpl.java:63-85 | `handler(h)` keeps the stream valid and neither delivers nor spends demand |
| RowStreamLemmas.ClosePreservesValid | vertx-sql-client/src/main/java/io/vertx/sqlclient/impl/RowStreamImpl.java:145-154 | `close()` keeps the stream valid and neither delivers nor spends demand |
| RowStreamLemmas.HandleRespectsDemand | vertx-sql-client/src/main/java/io/vertx/sqlclient/impl/RowStreamImpl.java:121-136 | a read completion keeps the stream valid and delivers no more rows than the demand held |
| RowStreamLemmas.DeliveredWithinGranted | vertx-sql-client/src/main/java/io/vertx/sqlclient/impl/RowStreamImpl.java:93-194 | over any sequence of calls and completions, rows delivered never exceed the demand held plus all demand granted by `fetch` |
| RowStreamLemmas.DeliveredSincePauseWithinGranted | vertx-sql-client/src/main/java/io/vertx/sqlclient/impl/RowStreamImpl.java:87-108 | after `pause()`, rows delivered never exceed the demand granted since |
| PgExtendedQuery.PgEncoder.WriteParse | vertx-pg-client/src/main/java/io/vertx/pgclient/impl/codec/ExtendedQueryCommandCodec.java:37 | appends one Parse message with the statement's SQL |
| PgExtendedQuery.PgEncoder.WriteBind | vertx-pg-client/src/main/java/io/vertx/pgclient/impl/codec/ExtendedQueryCommandCodec.java:39 | appends one Bind message carrying the statement id read from `ps.bind`, the portal and the parameters |
| PgExtendedQuery.PgEncoder.WriteExecute | vertx-pg-client/src/main/java/io/vertx/pgclient/impl/codec/ExtendedQueryCommandCodec.java:32 | appends one Execute message for the portal with the fetch size |
| PgExtendedQuery.PgEncoder.WriteSync | vertx-pg-client/src/main/java/io/vertx/pgclient/impl/codec/ExtendedQueryCommandCodec.java:33 | appends one Sync message |
| PgExtendedQuery.ExtendedQueryCommandCodec.Encode | vertx-pg-client/src/main/java/io/vertx/pgclient/impl/codec/ExtendedQueryCommandCodec.java:30-43 | appends exactly the messages of `Encoding(cmd, ps.bind.statement)` and leaves `ps.bind.statement` unchanged |
| PgExtendedQuery.ExecuteCountAppend | vertx-pg-client/src/main/java/io/vertx/pgclient/impl/codec/ExtendedQueryCommandCodec.java:30-43 | Execute messages of a concatenation add up |
| PgExtendedQuery.EncodingIsWellFormed | vertx-pg-client/src/main/java/io/vertx/pgclient/impl/codec/ExtendedQueryCommandCodec.java:31-42 | every encoding is [Execute, Sync] or Parse? Bind Execute Sync with Bind and Execute on the same portal, and executes the command's portal with its fetch size |
| PgExtendedQuery.EncodingEndsWithSyncAndExecutesOnce | vertx-pg-client/src/main/java/io/vertx/pgclient/impl/codec/ExtendedQueryCommandCodec.java:31-42 | Sync is the last message and appears nowhere else, and there is exactly one Execute |
| PgExtendedQuery.ParseIffUnparsed | vertx-pg-client/src/main/java/io/vertx/pgclient/impl/codec/ExtendedQueryCommandCodec.java:35-38 | a Parse is written iff the command is not a continuation and the statement id is 0, and it is then the first message |
| PgExtendedQuery.BindOnlyWhenNotSuspended | vertx-pg-client/src/main/java/io/vertx/pgclient/impl/codec/ExtendedQueryCommandCodec.java:31-41 | a suspended command sends neither Parse nor Bind; otherwise the statement is bound with the command's portal and parameters |
| PgConnectionSpec.NewConnection | src/main/java/com/julienviet/pgclient/impl/PgConnectionImpl.java:39-42 | a new connection has an empty cache iff caching is on, no cache otherwise, and nothing scheduled |
| PgConnectionSpec.Schedule | src/main/java/com/julienviet/pgclient/impl/PgConnectionImpl.java:45-60 | scheduling appends exactly the one command and leaves the cache and identifiers alone |
| PgConnectionSpec.PreparePreservesValid | src/main/java/com/julienviet/pgclient/impl/PgConnectionImpl.java:80-90 | `prepare` keeps every cached statement under its own SQL text with a distinct issued id, returns a statement for the requested text, cached iff caching is on, schedules nothing, and never turns caching on or off |
| PgConnectionSpec.PrepareTwiceSameHandle | src/main/java/com/julienviet/pgclient/impl/PgConnectionImpl.java:81-82 | with caching on, preparing the same text again returns the same statement and changes nothing |
| PgConnectionSpec.PrepareCreatesOnlyOnMiss | src/main/java/com/julienviet/pgclient/impl/PgConnectionImpl.java:80-90 | a new identifier is drawn iff the text is not cached, and the new statement's id differs from every cached one |
| PgConnectionSpec.PrepareLeavesOtherEntries | src/main/java/com/julienviet/pgclient/impl/PgConnectionImpl.java:82 | preparing one text leaves the presence and the entry of every other text unchanged |
| PgConnectionSpec.UncachedPrepareIsFresh | src/main/java/com/julienviet/pgclient/impl/PgConnectionImpl.java:83-85 | with caching off, two calls for the same text return two different uncached statements and no cache appears |
| PgConnection.PgConnectionImpl.constructor | src/main/java/com/julienviet/pgclient/impl/PgConnectionImpl.java:39-42 | the connection starts as `NewConnection(cachePreparedStatements)`, apart from whatever was already scheduled on the connection it wraps |
| PgConnection.PgConnectionImpl.Execute | src/main/java/com/julienviet/pgclient/impl/PgConnectionImpl.java:45-48 | schedules exactly one query command for the text |
| PgConnection.PgConnectionImpl.Update | src/main/java/com/julienviet/pgclient/impl/PgConnectionImpl.java:51-54 | schedules exactly one update command for the text |
| PgConnection.PgConnectionImpl.Query | src/main/java/com/julienviet/pgclient/impl/PgConnectionImpl.java:57-60 | schedules exactly one query command for the text |
| PgConnection.PgConnectionImpl.Prepare | src/main/java/com/julienviet/pgclient/impl/PgConnectionImpl.java:80-86 | follows `PgConnectionSpec.Prepare`; a hit returns the very object cached under the text, a miss caches and returns a fresh object, and without a cache every call returns a fresh object |
| PgConnection.PgConnectionImpl.CreateCachedPreparedStatement | src/main/java/com/julienviet/pgclient/impl/PgConnectionImpl.java:88-90 | a fresh statement with the requested text, a new id and `cached` set |
| ObjectResultSets.ObjectResultSet.constructor | vertx-sql-client/src/main/java/io/vertx/sqlclient/mapper/ObjectResultSet.java:26-29 | a new result set is empty with a null head |
| ObjectResultSets.ObjectResultSet.Chain | vertx-sql-client/src/main/java/io/vertx/sqlclient/mapper/ObjectResultSet.java:57-65 | the value is appended to the contents, the head stays once set, and the tail is the new node holding the value |
| ObjectResultSets.ObjectResultSet.Iterator | vertx-sql-client/src/main/java/io/vertx/sqlclient/mapper/ObjectResultSet.java:32-36 | each call returns a new iterator at the head and changes nothing in the chain |
| ObjectResultSets.ResultIterator.HasNext | vertx-sql-client/src/main/java/io/vertx/sqlclient/mapper/ObjectResultSet.java:39-41 | true iff values remain to be returned |
| ObjectResultSets.ResultIterator.Next | vertx-sql-client/src/main/java/io/vertx/sqlclient/mapper/ObjectResultSet.java:44-51 | returns the next value in chain order and advances; on an exhausted iterator returns nothing and stays put (NoSuchElementException) |
| ObjectResultSets.Collect | vertx-sql-client/src/main/java/io/vertx/sqlclient/mapper/ObjectResultSet.java:32-55 | iterating to the end yields exactly the chained values in order |
| ObjectResultSets.Build | vertx-sql-client/src/main/java/io/vertx/sqlclient/mapper/ObjectResultSet.java:57-65 | chaining values one by one gives a chain holding exactly those values |
| ObjectResultSets.ChainThenIterate | vertx-sql-client/src/main/java/io/vertx/sqlclient/mapper/ObjectResultSet.java:32-65 | after `chain(v1) … chain(vn)` iteration yields exactly v1 … vn, and nothing for a fresh result set |
| ClassDissection.BooleanPrimitiveReadAsLongAsWritten | vertx-sql-client/src/main/java/io/vertx/sqlclient/mapper/ClassDissector.java:54-57 | in the map as written, `boolean` has the getter of `Long`, not that of its wrapper `Boolean` |
| ClassDissection.BooleanSetterFedByGetLongAsWritten | vertx-sql-client/src/main/java/io/vertx/sqlclient/mapper/ClassDissector.java:57 | a public class whose only accessor is `setActive(boolean)` gets property "active" read with `getLong` as written and `getBoolean` once corrected |
| ClassDissection.PrimitivesShareBoxedGetter | vertx-sql-client/src/main/java/io/vertx/sqlclient/mapper/ClassDissector.java:49-71 | in the corrected map, every primitive listed is read by the same Row getter as its wrapper class |
| ClassDissection.RowGetterFor | vertx-sql-client/src/main/java/io/vertx/sqlclient/mapper/ClassDissector.java:127 | `ROW_TYPEMAP.get(t)` is present iff t is a key, and is then the mapped getter |
| ClassDissection.Classify | vertx-sql-client/src/main/java/io/vertx/sqlclient/mapper/ClassDissector.java:98-129 | both directions of the naming rules. A no-argument `get…` method with a name longer than 3 characters is a getter of the rest of its name. A no-argument `is…` method (not `get…`) returning boolean is a getter of the name after 2 characters. A one-argument void `set…` method with a name longer than 3 characters is a setter of the rest of its name. Every getter or setter found is of one of these forms, and names of 3 characters or fewer not starting with "is" are never accessors |
| ClassDissection.GetOrCreate | vertx-sql-client/src/main/java/io/vertx/sqlclient/mapper/ClassDissector.java:136-144 | the key is the lower-cased name; the entry is the existing one if present, a new empty one otherwise |
| ClassDissection.VisibleMethods | vertx-sql-client/src/main/java/io/vertx/sqlclient/mapper/ClassDissector.java:146-164 | no methods for a non-public class; otherwise one entry per method, kept iff it is public and not declared by `Object` |
| ClassDissection.NonPublicClassIsEmpty | vertx-sql-client/src/main/java/io/vertx/sqlclient/mapper/ClassDissector.java:148-150 | a non-public class has an empty dissection |
| ClassDissection.LastAccessorExists | vertx-sql-client/src/main/java/io/vertx/sqlclient/mapper/ClassDissector.java:91-130 | a property has a last getter (setter) iff some listed method is one, and that last one is an accessor of the property from the list |
| ClassDissection.DissectAllCharacterised | vertx-sql-client/src/main/java/io/vertx/sqlclient/mapper/ClassDissector.java:86-144 | a key is in the result iff some method is a getter or setter of that lower-cased property, and its entry holds the last getter and setter with their types and the Row getter of the setter's type, so getter and setter merge whatever the case of their names |
| ClassDissection.DissectionEntriesWellFormed | vertx-sql-client/src/main/java/io/vertx/sqlclient/mapper/ClassDissector.java:108-128 | every entry has a getter or a setter, both visible accessors of its key; getterType is the getter's return type, setterType the setter's parameter type, rowGetter the type map's entry for it, and absent without a setter |
| ClassDissection.ClassDissector.constructor | vertx-sql-client/src/main/java/io/vertx/sqlclient/mapper/ClassDissector.java:47-76 | the dissector holds the type map with `boolean` corrected to `getBoolean` (see "## Left out" and "## Findings") |
| ClassDissection.ClassDissector.GetPublicMethods | vertx-sql-client/src/main/java/io/vertx/sqlclient/mapper/ClassDissector.java:146-164 | returns a new array equal to `VisibleMethods(c)`, nulling hidden entries in place |
| ClassDissection.ClassDissector.Dissect | vertx-sql-client/src/main/java/io/vertx/sqlclient/mapper/ClassDissector.java:86-134 | the loop's map equals the fold of the dissection rules over the public methods, characterised by `DissectAllCharacterised` |
| ObjectMapping.MapColumns | vertx-sql-client/src/main/java/io/vertx/sqlclient/mapper/ObjectMapper.java:57-71 | emits `MappedColumn(i, d)` iff the lower-cased i-th name has a dissection d with a Row getter; indices are the names' positions, strictly increasing and below the column count; at most one entry per name |
| ObjectMapping.ColumnNamedAsKeyIsMapped | vertx-sql-client/src/main/java/io/vertx/sqlclient/mapper/ObjectMapper.java:59-66 | a column whose name is exactly a property key with a Row getter is mapped, at its own position, to that property's dissection |
| ObjectMapping.MappingIsUnique | vertx-sql-client/src/main/java/io/vertx/sqlclient/mapper/ObjectMapper.java:57-71 | two results satisfying the mapping contract are equal, so that contract fixes the result completely |
| ObjectMapping.ObjectMapper.constructor | vertx-sql-client/src/main/java/io/vertx/sqlclient/mapper/ObjectMapper.java:48-50 | a new mapper has an empty memo and a dissector holding the type map with `boolean` corrected (see "## Left out") |
| ObjectMapping.ObjectMapper.GetDissection | vertx-sql-client/src/main/java/io/vertx/sqlclient/mapper/ObjectMapper.java:75-83 | returns the class's dissection; `dissect` runs only for a class not yet in the memo, so at most once per class, and the memo gains exactly that class |
| ObjectMapping.ObjectMapper.PrepareMapping | vertx-sql-client/src/main/java/io/vertx/sqlclient/mapper/ObjectMapper.java:52-73 | the result is the mapping of the columns onto the class's dissection, with `dissect` run at most once per class |
| ObjectMapping.MapperHolder.GetInstance | vertx-sql-client/src/main/java/io/vertx/sqlclient/mapper/ObjectMapper.java:41-46 | the first call creates a fresh mapper with an empty memo; every later call returns that same mapper |

## Left out

- Byte-level decoding is not modelled: `decodeColumnCountPacketPayload`'s length-encoded integer, `decodeColumnDefinitionPacketPayload`, `decodeOkPacketPayload`, `decodeEofPacketPayload` and Netty buffers. The codec receives these as functions from payload to record.
- `handleErrorPacketPayload` and the abstract, protocol-specific `handleInitPacket` are defined outside this component. An error payload is recorded as an event, and the first packet is read by a given function as a column count, an OK status or an error.
- `skipEofPacketIfNeeded` is defined outside this component. In COLUMN_DEFINITIONS_DECODING_COMPLETED the model consumes the payload without inspecting it.
- `RowResultDecoder` and `MySQLRowDesc` are a fold over rows (the command's Collector) together with the column definitions. The row payload is not decoded into values.
- The slots of a fresh `ColumnDefinition[]` hold a fixed placeholder value instead of null. No model path reads an unfilled slot.
- `synchronized` blocks and `ConcurrentHashMap`: the model is sequential. Reentrant calls from inside a handler during `checkPending` are not modelled; handlers only record events.
- Handlers are modelled by whether they are set, and what they receive is recorded as events. The cursor's `read` and `close` are recorded as commands, and a read's completion is a call to `Handle`.
- The cursor's own `hasMore` is taken from each completed read (whether its portal is suspended). The cursor implementation is not part of this model.
- "At most one read in flight" is not stated as an invariant of the row stream. Only its consequences for demand and end events are proved.
- `UUID.randomUUID()` is a counter that never repeats. `DbConnection` is a log of scheduled commands.
- `closeHandler`, `exceptionHandler` and `close` of `PgConnectionImpl` only forward to the `DbConnection`; they are not modelled.
- Java reflection is modelled by values: a class is its modifiers and its `getMethods()` array, a method is its name, parameter types, return type, modifiers and declaring class, and a Row getter is its name. The order of `getMethods()` is unspecified in Java; the model takes it as given.
- `ObjectMapper.map` is not modelled: it only invokes setters reflectively and prints or forwards exceptions.
- `SqlCollectors` and `SqlResultBase` are glue over the Collector API and plain getters, and are not modelled.
- `Dissection` objects are shared and mutated in place by `dissect`. The model uses values: a map entry is replaced by its updated copy, which gives the same final map.
- ClassDissection.ClassDissector.constructor: holds `ROW_TYPEMAP`, where primitive `boolean` is read with `getBoolean`. The code fills it with `getLong` (`ROW_TYPEMAP_AS_WRITTEN`; see "## Findings"). So for a `boolean` setter, `Dissect` gives the Row getter the code evidently intended, not the one it uses.
- ObjectMapping.ObjectMapper.constructor: its dissector holds the corrected map for the same reason, so `GetDissection` and `PrepareMapping` carry `getBoolean` for a `boolean` setter where the code carries `getLong`. Every dissection lemma is stated for any type map, so it also holds for `ROW_TYPEMAP_AS_WRITTEN`.
- The `ClassDissector` constructor silences `NoSuchMethodException`. Every getter it looks up exists on `Row`, so the model fills the map unconditionally.
- JavaLang.LowerCase: only ASCII letters are lower-cased; Java's locale-sensitive, full-Unicode `toLowerCase` is not modelled.
- The behaviour of an iterator while values are chained during iteration is not stated. Only iteration of a chain that is not being extended is proved.

## Findings

| source | as written | input that shows it | evidently intended | confidence | as-written member | corrected member |
|---|---|---|---|---|---|---|
| vertx-sql-client/src/main/java/io/vertx/sqlclient/impl/RowStreamImpl.java:177-182 | after a page is used up the loop calls `cursor.hasMore()` without checking `cursor`, which `close()` or `handler(null)` may have set to null while the read was in flight | `handler(h)`, then `close()`, then the first read completes with one row: the row is delivered, then NullPointerException | the loop stops quietly when the stream has no cursor any more | medium, not executed | RowStreamLemmas.PageAfterCloseThrowsAsWritten | RowStreamLemmas.PageAfterCloseIsQuiet |
| vertx-sql-client/src/main/java/io/vertx/sqlclient/mapper/ClassDissector.java:57 | `boolean.class` is mapped to the getter of `Long.class` | a public bean whose only accessor is `setActive(boolean)`: property "active" is read with `Row.getLong`, whose `Long` value the setter cannot accept | `boolean` is read with `getBoolean`, like every other primitive that is read with its wrapper's getter | high, not executed | ClassDissection.BooleanSetterFedByGetLongAsWritten | ClassDissection.PrimitivesShareBoxedGetter |
