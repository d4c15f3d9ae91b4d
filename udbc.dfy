/**
 * The connection and driver interfaces (`src/udbc/connection.rs`, `src/udbc/driver.rs`) made
 * concrete enough to reason about: a connection has an identity and a history of the calls made
 * on it, and every answer comes from the database, given as a function of the connection's
 * identity, its history and the call. A driver hands out fresh connections; whether the n-th
 * acquire fails is likewise given.
 */
module Udbc {
  import opened Wrappers
  import opened Ints
  import opened Values
  import opened Errors
  import opened Render

  /** One result row: column name to value. */
  type Row = map<string, Value>

  /** The bound parameters of a rendered statement, in placeholder order. */
  type Params = seq<(string, Value)>

  /** A call made on a connection. */
  datatype Call =
    | QueryCall(sql: string, params: Params)
    | ExecuteCall(sql: string, params: Params)
    | LastInsertIdCall
    | BeginCall
    | CommitCall
    | RollbackCall

  /**
   * What the database answers. Each function receives the connection's identity and the calls made
   * on it before this one, so an answer may depend on what happened earlier on the same connection
   * (the id `last_insert_id` reports, the effect of `begin`) and on nothing else.
   */
  datatype Database = Database(
    rows: (nat, seq<Call>, string, Params) -> Result<seq<Row>, DbError>,
    affected: (nat, seq<Call>, string, Params) -> Result<u64, DbError>,
    insertId: (nat, seq<Call>) -> Result<u64, DbError>,
    control: (nat, seq<Call>, Call) -> Result<(), DbError>)

  /** A `Box<dyn Connection>`. */
  class Connection {
    const id: nat
    const db: Database
    var log: seq<Call>

    constructor (id: nat, db: Database)
      ensures this.id == id && this.db == db && log == []
    {
      this.id := id;
      this.db := db;
      log := [];
    }

    /** `query`: the rows the database returns for this statement on this connection. */
    method Query(sql: string, params: Params) returns (r: Result<seq<Row>, DbError>)
      modifies this
      ensures log == old(log) + [QueryCall(sql, params)]
      ensures r == db.rows(id, old(log), sql, params)
    {
      r := db.rows(id, log, sql, params);
      log := log + [QueryCall(sql, params)];
    }

    /** `execute`: the affected-row count. */
    method Execute(sql: string, params: Params) returns (r: Result<u64, DbError>)
      modifies this
      ensures log == old(log) + [ExecuteCall(sql, params)]
      ensures r == db.affected(id, old(log), sql, params)
    {
      r := db.affected(id, log, sql, params);
      log := log + [ExecuteCall(sql, params)];
    }

    /** `last_insert_id`. */
    method LastInsertId() returns (r: Result<u64, DbError>)
      modifies this
      ensures log == old(log) + [LastInsertIdCall]
      ensures r == db.insertId(id, old(log))
    {
      r := db.insertId(id, log);
      log := log + [LastInsertIdCall];
    }

    /** `begin`, `commit` and `rollback`: one control call each. */
    method Control(c: Call) returns (r: Result<(), DbError>)
      requires c.BeginCall? || c.CommitCall? || c.RollbackCall?
      modifies this
      ensures log == old(log) + [c]
      ensures r == db.control(id, old(log), c)
    {
      r := db.control(id, log, c);
      log := log + [c];
    }
  }

  /** An `Arc<dyn Driver>`: a name, a type, a placeholder style and a source of connections. */
  class Driver {
    const name: string
    const dbType: string
    const placeholder: Placeholder
    const db: Database
    /** The error with which the n-th call of `acquire` fails, if it does. */
    const refuse: nat -> Option<DbError>
    /** How many times `acquire` has been called. */
    var attempts: nat

    constructor (name: string, dbType: string, placeholder: Placeholder, db: Database, refuse: nat -> Option<DbError>)
      ensures this.name == name && this.dbType == dbType && this.placeholder == placeholder
      ensures this.db == db && this.refuse == refuse && attempts == 0
    {
      this.name := name;
      this.dbType := dbType;
      this.placeholder := placeholder;
      this.db := db;
      this.refuse := refuse;
      attempts := 0;
    }

    /** `acquire`: a new connection with an empty history, or the error of this attempt. */
    method Acquire() returns (r: Result<Connection, DbError>)
      modifies this
      ensures attempts == old(attempts) + 1
      ensures refuse(old(attempts)).Some? ==> r == Err(refuse(old(attempts)).value)
      ensures refuse(old(attempts)).None? ==>
        r.Ok? && fresh(r.value) && r.value.id == old(attempts) && r.value.db == db && r.value.log == []
    {
      var n := attempts;
      attempts := attempts + 1;
      if refuse(n).Some? {
        r := Err(refuse(n).value);
      } else {
        var c := new Connection(n, db);
        r := Ok(c);
      }
    }
  }
}
