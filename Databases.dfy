/**
 * The database a tap talks to, reduced to what the sink lifecycle observes: the set of
 * existing tables, the statements that reached the server, how many connections were
 * opened and closed, and a script of environment faults that decides, one connection
 * attempt at a time, whether the driver loads, the connection opens, the statement is
 * refused and the close fails.
 */
module Databases {

  /** What the environment does to one connection attempt; an empty script means no fault. */
  datatype Fault =
    | NoFault
    | DriverMissing      // `Class.forName` fails
    | ConnectionRefused  // `DriverManager.getConnection` fails
    | StatementError     // the statement or its commit raises an SQLException
    | CloseError         // `connection.close()` raises an SQLException

  /** The statements a tap issues, each for one table. */
  datatype SqlKind = Probe | Create | Drop

  /** A statement: what it does, to which table, and its SQL text. */
  datatype Sql = Sql(kind: SqlKind, table: string, text: string)

  /** The whole observable state of the database and its environment. */
  datatype DbState = DbState(
    tables: set<string>,
    faults: seq<Fault>,
    received: seq<Sql>,
    opens: nat,     // connections opened so far
    closes: nat)    // connections closed so far

  /** The fault of the next connection attempt. */
  function NextFault(faults: seq<Fault>): Fault
  {
    if faults == [] then NoFault else faults[0]
  }

  /** The script after one connection attempt. */
  function RestFaults(faults: seq<Fault>): seq<Fault>
  {
    if faults == [] then [] else faults[1..]
  }

  /** Whether a connection is obtained under fault `f`. */
  predicate Connects(f: Fault)
  {
    f != DriverMissing && f != ConnectionRefused
  }

  /** Whether the server accepts the statement: the probe and DROP need the table, CREATE needs it absent. */
  predicate Accepts(tables: set<string>, sql: Sql)
  {
    match sql.kind
    case Probe => sql.table in tables
    case Drop => sql.table in tables
    case Create => sql.table !in tables
  }

  /** The tables after an accepted statement. */
  function Effect(tables: set<string>, sql: Sql): set<string>
  {
    match sql.kind
    case Probe => tables
    case Drop => tables - {sql.table}
    case Create => tables + {sql.table}
  }

  /** Whether some received statement is of kind `k`. */
  predicate Issued(received: seq<Sql>, k: SqlKind)
  {
    exists i :: 0 <= i < |received| && received[i].kind == k
  }

  /** The live database. */
  class Database {
    var tables: set<string>
    var faults: seq<Fault>
    var received: seq<Sql>
    var opens: nat
    var closes: nat

    function State(): DbState
      reads this
    {
      DbState(tables, faults, received, opens, closes)
    }

    constructor (tables: set<string>, faults: seq<Fault>)
      ensures State() == DbState(tables, faults, [], 0, 0)
    {
      this.tables := tables;
      this.faults := faults;
      received := [];
      opens := 0;
      closes := 0;
    }

    /** The environment decides the fate of one connection attempt. */
    method TakeFault() returns (f: Fault)
      modifies this
      ensures f == NextFault(old(faults))
      ensures State() == old(State()).(faults := RestFaults(old(faults)))
    {
      f := NextFault(faults);
      faults := RestFaults(faults);
    }

    /** A connection is opened. */
    method Open()
      modifies this
      ensures State() == old(State()).(opens := old(opens) + 1)
    {
      opens := opens + 1;
    }

    /** The server receives a statement and runs it, unless the environment makes it fail. */
    method Run(sql: Sql, injected: bool) returns (ok: bool)
      modifies this
      ensures ok == (!injected && Accepts(old(tables), sql))
      ensures State() == old(State()).(
        tables := if ok then Effect(old(tables), sql) else old(tables),
        received := old(received) + [sql])
    {
      received := received + [sql];
      ok := !injected && Accepts(tables, sql);
      if ok {
        tables := Effect(tables, sql);
      }
    }

    /** A connection is closed; `threw` tells whether the close raised. */
    method Close(fails: bool) returns (threw: bool)
      modifies this
      ensures threw == fails
      ensures State() == old(State()).(closes := old(closes) + 1)
    {
      closes := closes + 1;
      threw := fails;
    }
  }
}
