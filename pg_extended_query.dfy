/**
 * ExtendedQueryCommandCodec.encode: the messages of the Extended Query
 * sub-protocol of the PostgreSQL frontend/backend protocol (Parse, Bind,
 * Execute, Sync) that one parameterised execution writes to the encoder.
 */
module PgExtendedQuery {
  import opened JavaLang

  /** The Bind metadata of a prepared statement; `statement` is 0 until the statement is parsed on the server. */
  class Bind {
    var statement: int

    constructor (statement: int)
      ensures this.statement == statement
    {
      this.statement := statement;
    }
  }

  class PgPreparedStatement {
    const sql: string
    const bind: Bind

    constructor (sql: string, bind: Bind)
      ensures this.sql == sql && this.bind == bind
    {
      this.sql := sql;
      this.bind := bind;
    }
  }

  /** An extended query command: a suspended portal to continue, or a prepared statement to bind and run. */
  datatype ExtendedQueryCommand<P> = ExtendedQueryCommand(
    suspended: bool,
    ps: PgPreparedStatement,
    cursorId: Option<string>,
    fetch: Int,
    params: seq<P>)

  /** The frontend messages, as written; a Bind carries the statement id the encoder read from `ps.bind`. */
  datatype Packet<P> =
    | Parse(sql: string)
    | BindMessage(statement: int, portal: Option<string>, params: seq<P>)
    | Execute(portal: Option<string>, fetch: Int)
    | Sync

  /** The encoder the codec writes to: the messages it has been asked to write, in order. */
  class PgEncoder<P> {
    var packets: seq<Packet<P>>

    constructor ()
      ensures packets == []
    {
      packets := [];
    }

    method WriteParse(sql: string)
      modifies this
      ensures packets == old(packets) + [Parse(sql)]
    {
      packets := packets + [Parse(sql)];
    }

    method WriteBind(bind: Bind, portal: Option<string>, params: seq<P>)
      modifies this
      ensures packets == old(packets) + [BindMessage(bind.statement, portal, params)]
    {
      packets := packets + [BindMessage(bind.statement, portal, params)];
    }

    method WriteExecute(portal: Option<string>, fetch: Int)
      modifies this
      ensures packets == old(packets) + [Execute(portal, fetch)]
    {
      packets := packets + [Execute(portal, fetch)];
    }

    method WriteSync()
      modifies this
      ensures packets == old(packets) + [Sync]
    {
      packets := packets + [Sync];
    }
  }

  /** The messages `encode` writes for `cmd` when its statement's Bind carries `statement`. */
  function Encoding<P>(cmd: ExtendedQueryCommand<P>, statement: int): seq<Packet<P>> {
    if cmd.suspended then [Execute(cmd.cursorId, cmd.fetch), Sync]
    else
      (if statement == 0 then [Parse(cmd.ps.sql)] else [])
      + [BindMessage(statement, cmd.cursorId, cmd.params), Execute(cmd.cursorId, cmd.fetch), Sync]
  }

  class ExtendedQueryCommandCodec<P> {
    const cmd: ExtendedQueryCommand<P>

    constructor (cmd: ExtendedQueryCommand<P>)
      ensures this.cmd == cmd
    {
      this.cmd := cmd;
    }

    /** `encode(encoder)`: appends this command's messages; the statement's Bind is read, never updated. */
    method Encode(encoder: PgEncoder<P>)
      modifies encoder
      ensures encoder.packets == old(encoder.packets) + Encoding(cmd, cmd.ps.bind.statement)
      ensures cmd.ps.bind.statement == old(cmd.ps.bind.statement)
    {
      if cmd.suspended {
        encoder.WriteExecute(cmd.cursorId, cmd.fetch);
        encoder.WriteSync();
      } else {
        var ps := cmd.ps;
        if ps.bind.statement == 0 {
          encoder.WriteParse(ps.sql);
        }
        encoder.WriteBind(ps.bind, cmd.cursorId, cmd.params);
        encoder.WriteExecute(cmd.cursorId, cmd.fetch);
        encoder.WriteSync();
      }
    }
  }

  /** The number of Execute messages in a batch. */
  function ExecuteCount<P>(packets: seq<Packet<P>>): nat {
    if |packets| == 0 then 0
    else (if packets[0].Execute? then 1 else 0) + ExecuteCount(packets[1..])
  }

  lemma {:induction false} ExecuteCountAppend<P>(a: seq<Packet<P>>, b: seq<Packet<P>>)
    ensures ExecuteCount(a + b) == ExecuteCount(a) + ExecuteCount(b)
    decreases |a|
  {
    if |a| == 0 {
      assert a + b == b;
    } else {
      assert (a + b)[1..] == a[1..] + b;
      ExecuteCountAppend(a[1..], b);
    }
  }

  /**
   * A batch the extended-query flow accepts: either the continuation of a
   * suspended portal (Execute, Sync), or an optional Parse of the statement
   * followed by Bind, Execute and Sync on one and the same portal.
   */
  ghost predicate WellFormedBatch<P>(packets: seq<Packet<P>>) {
    || (|packets| == 2 && packets[0].Execute? && packets[1] == Sync)
    || (&& 3 <= |packets| <= 4
        && (|packets| == 4 ==> packets[0].Parse?)
        && var k := |packets| - 3;
           && packets[k].BindMessage? && packets[k + 1].Execute? && packets[k + 2] == Sync
           && packets[k].portal == packets[k + 1].portal)
  }

  /** Every encoding is a well-formed batch that executes the command's portal with its fetch size. */
  lemma EncodingIsWellFormed<P>(cmd: ExtendedQueryCommand<P>, statement: int)
    ensures WellFormedBatch(Encoding(cmd, statement))
    ensures Execute(cmd.cursorId, cmd.fetch) in Encoding(cmd, statement)
  {
  }

  /** Sync is written last and nowhere else, and there is exactly one Execute in every branch. */
  lemma EncodingEndsWithSyncAndExecutesOnce<P>(cmd: ExtendedQueryCommand<P>, statement: int)
    ensures var r := Encoding(cmd, statement);
            && |r| >= 2 && r[|r| - 1] == Sync
            && (forall i :: 0 <= i < |r| - 1 ==> r[i] != Sync)
            && ExecuteCount(r) == 1
  {
    var tail: seq<Packet<P>> := [BindMessage(statement, cmd.cursorId, cmd.params), Execute(cmd.cursorId, cmd.fetch), Sync];
    var parse: seq<Packet<P>> := if statement == 0 then [Parse(cmd.ps.sql)] else [];
    if !cmd.suspended {
      ExecuteCountAppend(parse, tail);
      assert ExecuteCount(tail) == 1 by {
        assert tail[1..][1..][1..] == [];
        assert ExecuteCount(tail[1..][1..]) == 0;
        assert ExecuteCount(tail[1..]) == 1;
      }
      assert ExecuteCount(parse) == 0 by {
        if statement == 0 {
          assert parse[1..] == [];
        }
      }
    } else {
      var r := Encoding(cmd, statement);
      assert r[1..][1..] == [];
    }
  }

  /** A Parse is written iff the command is not a continuation and the statement has not been parsed yet. */
  lemma ParseIffUnparsed<P>(cmd: ExtendedQueryCommand<P>, statement: int)
    ensures (exists q :: Parse(q) in Encoding(cmd, statement)) <==> !cmd.suspended && statement == 0
    ensures !cmd.suspended && statement == 0 ==> Encoding(cmd, statement)[0] == Parse(cmd.ps.sql)
  {
    if !cmd.suspended && statement == 0 {
      assert Parse(cmd.ps.sql) in Encoding(cmd, statement);
    }
  }

  /** A continuation re-sends neither Parse nor Bind; otherwise the statement is bound with the command's portal and values. */
  lemma BindOnlyWhenNotSuspended<P>(cmd: ExtendedQueryCommand<P>, statement: int)
    ensures cmd.suspended ==> forall p :: p in Encoding(cmd, statement) ==> !p.Parse? && !p.BindMessage?
    ensures !cmd.suspended ==> BindMessage(statement, cmd.cursorId, cmd.params) in Encoding(cmd, statement)
  {
  }
}
