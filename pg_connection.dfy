/**
 * PgConnectionImpl: the prepared-statement cache, keyed by SQL text, with
 * compute-if-absent semantics when caching is on and a fresh uncached
 * statement per call when it is off; and the query and update calls, each of
 * which schedules one command on the underlying connection.
 *
 * `UUID.randomUUID()` is modelled by a counter that never hands out the
 * same identifier twice.
 */
module PgConnectionSpec {
  import opened JavaLang

  /** The value of a prepared statement: its SQL text, its identifier and whether the cache owns it. */
  datatype Handle = Handle(sql: string, id: nat, cached: bool)

  datatype Command = QueryCommand(sql: string) | UpdateCommand(sql: string)

  /** The connection as its callers can observe it. */
  datatype ConnState = ConnState(cache: Option<map<string, Handle>>, nextId: nat, scheduled: seq<Command>)

  function NewConnection(cachePreparedStatements: bool): (s: ConnState)
    ensures Valid(s) && s.scheduled == []
    ensures s.cache.Some? <==> cachePreparedStatements
    ensures s.cache.Some? ==> s.cache.value == map[]
  {
    ConnState(if cachePreparedStatements then Some(map[]) else None, 0, [])
  }

  /**
   * Every cached statement sits under its own SQL text, is marked cached,
   * carries an identifier already handed out, and no two carry the same one.
   */
  ghost predicate Valid(s: ConnState) {
    s.cache.Some? ==>
      && (forall k :: k in s.cache.value ==>
            s.cache.value[k].sql == k && s.cache.value[k].cached && s.cache.value[k].id < s.nextId)
      && (forall k1, k2 :: k1 in s.cache.value && k2 in s.cache.value && k1 != k2 ==>
            s.cache.value[k1].id != s.cache.value[k2].id)
  }

  /** `createCachedPreparedStatement(sql)`. */
  function CreateCached(s: ConnState, sql: string): (ConnState, Handle) {
    (s.(nextId := s.nextId + 1), Handle(sql, s.nextId, true))
  }

  /** `prepare(sql)`: the state afterwards and the statement returned. */
  function Prepare(s: ConnState, sql: string): (ConnState, Handle) {
    match s.cache
    case Some(m) =>
      if sql in m then (s, m[sql])
      else
        var (s1, h) := CreateCached(s, sql);
        (s1.(cache := Some(m[sql := h])), h)
    case None => (s.(nextId := s.nextId + 1), Handle(sql, s.nextId, false))
  }

  /** `dbConnection.schedule(cmd)`. */
  function Schedule(s: ConnState, cmd: Command): (r: ConnState)
    ensures r.cache == s.cache && r.nextId == s.nextId
    ensures r.scheduled == s.scheduled + [cmd]
  {
    s.(scheduled := s.scheduled + [cmd])
  }

  /**
   * `prepare` keeps the cache well-formed, returns a statement for the text
   * asked for, schedules nothing, and never turns caching on or off.
   */
  lemma PreparePreservesValid(s: ConnState, sql: string)
    requires Valid(s)
    ensures var (r, h) := Prepare(s, sql);
            && Valid(r) && h.sql == sql
            && r.scheduled == s.scheduled
            && r.cache.Some? == s.cache.Some?
            && h.cached == s.cache.Some?
  {
  }

  /** With caching on, a second `prepare` of the same text returns the same statement and changes nothing. */
  lemma PrepareTwiceSameHandle(s: ConnState, sql: string)
    requires s.cache.Some?
    ensures var (s1, h1) := Prepare(s, sql);
            Prepare(s1, sql) == (s1, h1)
  {
  }

  /** A statement is created only on a miss, and then with an identifier no statement in the cache carries. */
  lemma PrepareCreatesOnlyOnMiss(s: ConnState, sql: string)
    requires Valid(s)
    ensures var (r, h) := Prepare(s, sql);
            && (s.cache.Some? && sql in s.cache.value <==> r.nextId == s.nextId)
            && (r.nextId != s.nextId ==>
                  && r.nextId == s.nextId + 1 && h.id == s.nextId
                  && (s.cache.Some? ==> forall k :: k in s.cache.value ==> s.cache.value[k].id != h.id))
  {
  }

  /** Preparing one text leaves the entry of every other text as it was. */
  lemma PrepareLeavesOtherEntries(s: ConnState, sql: string, other: string)
    requires s.cache.Some? && other != sql
    ensures var r := Prepare(s, sql).0;
            && (other in r.cache.value <==> other in s.cache.value)
            && (other in s.cache.value ==> r.cache.value[other] == s.cache.value[other])
  {
  }

  /** With caching off, two calls for the same text return two different uncached statements and no cache appears. */
  lemma UncachedPrepareIsFresh(s: ConnState, sql: string)
    requires s.cache.None?
    ensures var (s1, h1) := Prepare(s, sql);
            var (s2, h2) := Prepare(s1, sql);
            && h1 != h2 && !h1.cached && !h2.cached && s2.cache.None?
  {
  }

}

/** The connection and statement objects, proved against module PgConnectionSpec. */
module PgConnection {
  import opened JavaLang
  import opened PgConnectionSpec

  /** A prepared statement object: its fields never change after construction. */
  class PreparedStatementImpl {
    const sql: string
    const id: nat
    const cached: bool

    constructor (sql: string, id: nat, cached: bool)
      ensures this.sql == sql && this.id == id && this.cached == cached
    {
      this.sql := sql;
      this.id := id;
      this.cached := cached;
    }

    function Value(): Handle {
      Handle(sql, id, cached)
    }
  }

  /** The commands scheduled on the underlying connection. */
  class DbConnection {
    var scheduled: seq<Command>

    constructor ()
      ensures scheduled == []
    {
      scheduled := [];
    }

    method Schedule(cmd: Command)
      modifies this
      ensures scheduled == old(scheduled) + [cmd]
    {
      scheduled := scheduled + [cmd];
    }
  }

  function Values(cache: Option<map<string, PreparedStatementImpl>>): Option<map<string, Handle>> {
    match cache
    case None => None
    case Some(m) => Some(map k | k in m :: m[k].Value())
  }

  class PgConnectionImpl {
    const dbConnection: DbConnection
    var psCache: Option<map<string, PreparedStatementImpl>>
    /** The source of fresh statement identifiers. */
    var nextId: nat

    ghost function State(): ConnState
      reads this, dbConnection
    {
      ConnState(Values(psCache), nextId, dbConnection.scheduled)
    }

    constructor (dbConnection: DbConnection, cachePreparedStatements: bool)
      ensures this.dbConnection == dbConnection
      ensures State() == NewConnection(cachePreparedStatements).(scheduled := dbConnection.scheduled)
    {
      this.dbConnection := dbConnection;
      psCache := if cachePreparedStatements then Some(map[]) else None;
      nextId := 0;
    }

    method Execute(sql: string)
      modifies dbConnection
      ensures State() == Schedule(old(State()), QueryCommand(sql))
    {
      dbConnection.Schedule(QueryCommand(sql));
    }

    method Update(sql: string)
      modifies dbConnection
      ensures State() == Schedule(old(State()), UpdateCommand(sql))
    {
      dbConnection.Schedule(UpdateCommand(sql));
    }

    method Query(sql: string)
      modifies dbConnection
      ensures State() == Schedule(old(State()), QueryCommand(sql))
    {
      dbConnection.Schedule(QueryCommand(sql));
    }

    /**
     * `prepare(sql)`: a cache hit returns the very object cached under the
     * text; a miss caches and returns a new one; without a cache every call
     * returns a new one.
     */
    method Prepare(sql: string) returns (ps: PreparedStatementImpl)
      modifies this
      ensures (State(), ps.Value()) == PgConnectionSpec.Prepare(old(State()), sql)
      ensures old(psCache).Some? && sql in old(psCache).value ==> ps == old(psCache).value[sql]
      ensures !(old(psCache).Some? && sql in old(psCache).value) ==> fresh(ps)
      ensures old(psCache).Some? ==> psCache == Some(old(psCache).value[sql := ps])
    {
      match psCache
      case Some(m) =>
        if sql in m {
          ps := m[sql];
          assert m[sql := ps] == m;
        } else {
          ps := CreateCachedPreparedStatement(sql);
          psCache := Some(m[sql := ps]);
          assert Values(psCache).value == Values(old(psCache)).value[sql := ps.Value()];
        }
      case None =>
        ps := new PreparedStatementImpl(sql, nextId, false);
        nextId := nextId + 1;
    }

    method CreateCachedPreparedStatement(sql: string) returns (ps: PreparedStatementImpl)
      modifies this
      ensures fresh(ps) && psCache == old(psCache)
      ensures (State(), ps.Value()) == CreateCached(old(State()), sql)
    {
      ps := new PreparedStatementImpl(sql, nextId, true);
      nextId := nextId + 1;
    }
  }
}
