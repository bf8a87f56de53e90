/**
 * `JDBCTap`: binds a table description and a scheme to a database, and runs the sink
 * lifecycle (exists probe, create-if-absent, drop-if-present) before a write pass. Each
 * statement gets its own connection, which is closed on every path once opened.
 */
module Taps {
  import opened Base
  import opened Text
  import opened Hadoop
  import opened TableDescs
  import opened Schemes
  import opened Databases

  /** What to do with an existing table before writing. */
  datatype SinkMode = Keep | Replace | Append

  /** A value returned (or thrown) by a lifecycle step, with the database state after it. */
  datatype Answer<T> = Answer(value: T, after: DbState)

  /** No statement of kind `k` in `q`. */
  predicate NoneOfKind(q: seq<Sql>, k: SqlKind)
  {
    forall i :: 0 <= i < |q| ==> q[i].kind != k
  }

  /** A log without statements of kind `k` has issued none. */
  lemma NoneOfKindNotIssued(q: seq<Sql>, k: SqlKind)
    requires NoneOfKind(q, k)
    ensures !Issued(q, k)
  {
  }

  /** Every DROP in `q` comes before every CREATE in `q`. */
  predicate DropsPrecedeCreates(q: seq<Sql>)
  {
    forall i, j :: 0 <= i < |q| && 0 <= j < |q| && q[i].kind == Drop && q[j].kind == Create ==> i < j
  }

  /** A log with no CREATE followed by a log with no DROP puts all drops first. */
  lemma DropsThenCreates(a: seq<Sql>, b: seq<Sql>)
    requires NoneOfKind(a, Create) && NoneOfKind(b, Drop)
    ensures DropsPrecedeCreates(a + b)
  {
    var q := a + b;
    forall i, j | 0 <= i < |q| && 0 <= j < |q| && q[i].kind == Drop && q[j].kind == Create
      ensures i < j
    {
    }
  }

  /** Only statements from `extra`, which has no statement of kind `k`, were received in between. */
  lemma SentNoneOf(before: DbState, after: DbState, extra: seq<Sql>, k: SqlKind)
    requires after.received == before.received || after.received == before.received + extra
    requires NoneOfKind(extra, k)
    ensures before.received <= after.received && NoneOfKind(Sent(before, after), k)
  {
    if after.received == before.received + extra {
      assert Sent(before, after) == extra;
    } else {
      assert Sent(before, after) == [];
    }
  }

  /** What was received over two consecutive stretches. */
  lemma SentSplit(x: DbState, y: DbState, z: DbState)
    requires x.received <= y.received <= z.received
    ensures x.received <= z.received
    ensures Sent(x, z) == Sent(x, y) + Sent(y, z)
  {
  }

  /** Two stretches without statements of kind `k` make one. */
  lemma SentChain(x: DbState, y: DbState, z: DbState, k: SqlKind)
    requires x.received <= y.received && NoneOfKind(Sent(x, y), k)
    requires y.received <= z.received && NoneOfKind(Sent(y, z), k)
    ensures x.received <= z.received && NoneOfKind(Sent(x, z), k)
  {
    SentSplit(x, y, z);
  }

  /** The statements received between two states of the same database. */
  function Sent(before: DbState, after: DbState): seq<Sql>
    requires before.received <= after.received
  {
    after.received[|before.received|..]
  }

  /** No connection is left open: as many closes as opens happened in between. */
  predicate Released(before: DbState, after: DbState)
  {
    after.opens - after.closes == before.opens - before.closes
  }

  /** The message of a TapException for a statement the server did not run. */
  function StatementFailure(verb: string, text: string): string
  {
    "unable to execute " + verb + " statement: " + text
  }

  const SinkModeMessage: string :=
    "cannot have sink mode REPLACE or KEEP without TableDesc column defs, use APPEND mode"

  /** The main constructor's check: REPLACE and KEEP need column definitions. */
  function CheckSinkMode(d: TableDesc, mode: SinkMode): (o: Outcome)
    ensures o.Fail? <==> d.columnDefs.None? && mode != Append
    ensures o.Fail? ==> o.error == IllegalArgumentException(SinkModeMessage)
  {
    if d.columnDefs.None? && mode != Append then Fail(IllegalArgumentException(SinkModeMessage)) else Pass
  }

  class JDBCTap {
    const connectionUrl: string
    const username: Option<string>
    const password: Option<string>
    const driverClassName: string
    const tableDesc: TableDesc
    const scheme: JDBCScheme
    const sinkMode: SinkMode

    /** Field assignment; the check is made by `New`. */
    constructor (connectionUrl: string, username: Option<string>, password: Option<string>,
                 driverClassName: string, tableDesc: TableDesc, scheme: JDBCScheme, sinkMode: SinkMode)
      ensures this.connectionUrl == connectionUrl && this.username == username
      ensures this.password == password && this.driverClassName == driverClassName
      ensures this.tableDesc == tableDesc && this.scheme == scheme && this.sinkMode == sinkMode
    {
      this.connectionUrl := connectionUrl;
      this.username := username;
      this.password := password;
      this.driverClassName := driverClassName;
      this.tableDesc := tableDesc;
      this.scheme := scheme;
      this.sinkMode := sinkMode;
    }

    /** The seven-argument constructor, which throws when the sink mode needs missing column definitions. */
    static method New(connectionUrl: string, username: Option<string>, password: Option<string>,
                      driverClassName: string, tableDesc: TableDesc, scheme: JDBCScheme, sinkMode: SinkMode)
      returns (r: Result<JDBCTap>)
      ensures r.Failure? <==> CheckSinkMode(tableDesc, sinkMode).Fail?
      ensures r.Failure? ==> r.error == IllegalArgumentException(SinkModeMessage)
      ensures r.Success? ==> fresh(r.value)
      ensures r.Success? ==>
        && r.value.connectionUrl == connectionUrl && r.value.username == username
        && r.value.password == password && r.value.driverClassName == driverClassName
        && r.value.tableDesc == tableDesc && r.value.scheme == scheme && r.value.sinkMode == sinkMode
    {
      var check := CheckSinkMode(tableDesc, sinkMode);
      if check.Fail? {
        return Failure(check.error);
      }
      var tap := new JDBCTap(connectionUrl, username, password, driverClassName, tableDesc, scheme, sinkMode);
      return Success(tap);
    }

    /** The constructors without a sink mode: APPEND, which every description accepts. */
    static method NewAppend(connectionUrl: string, username: Option<string>, password: Option<string>,
                            driverClassName: string, tableDesc: TableDesc, scheme: JDBCScheme)
      returns (t: JDBCTap)
      ensures fresh(t)
      ensures t.connectionUrl == connectionUrl && t.username == username && t.password == password
      ensures t.driverClassName == driverClassName && t.tableDesc == tableDesc && t.scheme == scheme
      ensures t.sinkMode == Append
    {
      var r := New(connectionUrl, username, password, driverClassName, tableDesc, scheme, Append);
      t := r.value;
    }

    /** The constructor without credentials: no username and no password, same check. */
    static method NewWithoutCredentials(connectionUrl: string, driverClassName: string, tableDesc: TableDesc,
                                        scheme: JDBCScheme, sinkMode: SinkMode)
      returns (r: Result<JDBCTap>)
      ensures r.Failure? <==> tableDesc.columnDefs.None? && sinkMode != Append
      ensures r.Failure? ==> r.error == IllegalArgumentException(SinkModeMessage)
      ensures r.Success? ==> fresh(r.value)
      ensures r.Success? ==>
        && r.value.connectionUrl == connectionUrl && r.value.username.None? && r.value.password.None?
        && r.value.driverClassName == driverClassName && r.value.tableDesc == tableDesc
        && r.value.scheme == scheme && r.value.sinkMode == sinkMode
    {
      r := New(connectionUrl, None, None, driverClassName, tableDesc, scheme, sinkMode);
    }

    /** `getTableName()`. */
    function TableName(): string
    {
      tableDesc.tableName
    }

    /** `getPath()`: "jdbc:/" and the connection URL with every ':' turned into '_'. */
    function GetPath(): (p: string)
      ensures |p| == 6 + |connectionUrl| && p[..6] == "jdbc:/"
      ensures forall i :: 0 <= i < |connectionUrl| ==>
        p[6 + i] == if connectionUrl[i] == ':' then '_' else connectionUrl[i]
      ensures ':' !in p[6..]
    {
      ReplaceAllOneChar(connectionUrl, ':', "_");
      "jdbc:/" + ReplaceAll(connectionUrl, ':', "_")
    }

    /** The arguments of `DBConfiguration.configureDB`: credentials exactly when a username is set. */
    function DbConfiguration(): (c: DbConfig)
      ensures c.driverClassName == driverClassName && c.url == connectionUrl
      ensures c.credentials.Some? <==> username.Some?
      ensures username.Some? ==> c.credentials == Some(Credentials(username.value, password))
    {
      if username.None? then DbConfig(driverClassName, connectionUrl, None)
      else DbConfig(driverClassName, connectionUrl, Some(Credentials(username.value, password)))
    }

    /** The exists probe for this tap's table. */
    function ProbeSql(): Sql
    {
      Sql(Probe, TableName(), TableExistsQuery(tableDesc))
    }

    /** The drop statement for this tap's table. */
    function DropSql(): Sql
    {
      Sql(Drop, TableName(), TableDropStatement(tableDesc))
    }

    /** A create statement for this tap's table. */
    function CreateSql(text: string): Sql
    {
      Sql(Create, TableName(), text)
    }

    /** What `createConnection` throws under fault `f`, if anything. */
    function ConnectionFailure(f: Fault): (o: Outcome)
      ensures o.Pass? <==> Connects(f)
    {
      if f == DriverMissing then Fail(TapException("unable to load driver class: " + driverClassName))
      else if f == ConnectionRefused then Fail(TapException("unable to open connection: " + connectionUrl))
      else Pass
    }

    /**
     * `executeUpdate` (verb "update") and `executeQuery` (verb "query"): one connection
     * attempt, the statement if connected, and a close that cannot change the outcome.
     */
    function Execute(s: DbState, sql: Sql, verb: string): (r: Answer<Outcome>)
      ensures Released(s, r.after)
      ensures r.after.faults == RestFaults(s.faults)
      ensures r.value.Pass? <==>
        Connects(NextFault(s.faults)) && NextFault(s.faults) != StatementError && Accepts(s.tables, sql)
      ensures r.after.tables == if r.value.Pass? then Effect(s.tables, sql) else s.tables
      ensures r.after.received == s.received + (if Connects(NextFault(s.faults)) then [sql] else [])
    {
      var f := NextFault(s.faults);
      var s1 := s.(faults := RestFaults(s.faults));
      if !Connects(f) then Answer(ConnectionFailure(f), s1)
      else
        var ok := f != StatementError && Accepts(s.tables, sql);
        var o := if ok then Pass else Fail(TapException(StatementFailure(verb, sql.text)));
        Answer(o, s1.(tables := if ok then Effect(s.tables, sql) else s.tables,
                      received := s.received + [sql],
                      opens := s.opens + 1,
                      closes := s.closes + 1))
    }

    /** `pathExists`: true exactly when the probe ran without an exception. */
    function PathExistsSpec(s: DbState): (r: Answer<bool>)
      ensures r.value <==>
        Connects(NextFault(s.faults)) && NextFault(s.faults) != StatementError && TableName() in s.tables
      ensures r.after.tables == s.tables && r.after.faults == RestFaults(s.faults) && Released(s, r.after)
      ensures r.after.received == s.received + (if Connects(NextFault(s.faults)) then [ProbeSql()] else [])
    {
      var e := Execute(s, ProbeSql(), "query");
      Answer(e.value.Pass?, e.after)
    }

    /**
     * `makeDirs`: an existing table is reported without a CREATE; otherwise the create
     * statement is built (which throws for missing column definitions), run, and the
     * table probed again. A failed CREATE answers false.
     */
    function MakeDirsSpec(s: DbState): (r: Answer<Result<bool>>)
      ensures PathExistsSpec(s).value ==> r == Answer(Success(true), PathExistsSpec(s).after)
      ensures r.value == Success(true) ==> TableName() in r.after.tables
      ensures r.value.Failure? ==> !CanCreate(tableDesc) && r.value.error == TableCreateStatement(tableDesc).error
      ensures Released(s, r.after)
    {
      var probe := PathExistsSpec(s);
      if probe.value then Answer(Success(true), probe.after)
      else
        var statement := TableCreateStatement(tableDesc);
        if statement.Failure? then Answer(Failure(statement.error), probe.after)
        else
          var created := Execute(probe.after, CreateSql(statement.value), "update");
          if created.value.Fail? then Answer(Success(false), created.after)
          else
            var again := PathExistsSpec(created.after);
            Answer(Success(again.value), again.after)
    }

    /** `makeDirs` only ever adds this tap's table. */
    lemma MakeDirsOnlyAdds(s: DbState)
      ensures s.tables <= MakeDirsSpec(s).after.tables <= s.tables + {TableName()}
    {
    }

    /** `makeDirs` never sends a DROP. */
    lemma {:induction false} MakeDirsSendsNoDrop(s: DbState)
      ensures s.received <= MakeDirsSpec(s).after.received
      ensures NoneOfKind(Sent(s, MakeDirsSpec(s).after), Drop)
    {
      var probe := PathExistsSpec(s);
      SentNoneOf(s, probe.after, [ProbeSql()], Drop);
      if !probe.value && TableCreateStatement(tableDesc).Success? {
        var created := Execute(probe.after, CreateSql(TableCreateStatement(tableDesc).value), "update");
        SentNoneOf(probe.after, created.after, [CreateSql(TableCreateStatement(tableDesc).value)], Drop);
        SentChain(s, probe.after, created.after, Drop);
        if created.value.Pass? {
          var again := PathExistsSpec(created.after);
          SentNoneOf(created.after, again.after, [ProbeSql()], Drop);
          SentChain(s, created.after, again.after, Drop);
        }
      }
    }

    /**
     * `deletePath`: a table the probe does not see is reported deleted without a DROP,
     * even when the probe failed to connect; otherwise the DROP runs and the answer is that
     * the table is no longer seen. A failed DROP answers false.
     */
    function DeletePathSpec(s: DbState): (r: Answer<bool>)
      ensures !PathExistsSpec(s).value ==> r == Answer(true, PathExistsSpec(s).after)
      ensures !Connects(NextFault(s.faults)) ==> r.value && r.after.tables == s.tables
      ensures Released(s, r.after)
    {
      var probe := PathExistsSpec(s);
      if !probe.value then Answer(true, probe.after)
      else
        var dropped := Execute(probe.after, DropSql(), "update");
        if dropped.value.Fail? then Answer(false, dropped.after)
        else
          var again := PathExistsSpec(dropped.after);
          Answer(!again.value, again.after)
    }

    /** `deletePath` only ever removes this tap's table. */
    lemma DeletePathOnlyRemoves(s: DbState)
      ensures s.tables - {TableName()} <= DeletePathSpec(s).after.tables <= s.tables
    {
    }

    /** `deletePath` never sends a CREATE. */
    lemma {:induction false} DeletePathSendsNoCreate(s: DbState)
      ensures s.received <= DeletePathSpec(s).after.received
      ensures NoneOfKind(Sent(s, DeletePathSpec(s).after), Create)
    {
      var probe := PathExistsSpec(s);
      SentNoneOf(s, probe.after, [ProbeSql()], Create);
      if probe.value {
        var dropped := Execute(probe.after, DropSql(), "update");
        SentNoneOf(probe.after, dropped.after, [DropSql()], Create);
        SentChain(s, probe.after, dropped.after, Create);
        if dropped.value.Pass? {
          var again := PathExistsSpec(dropped.after);
          SentNoneOf(dropped.after, again.after, [ProbeSql()], Create);
          SentChain(s, dropped.after, again.after, Create);
        }
      }
    }

    /** Without faults, an existing table is probed, dropped and probed again, and is gone. */
    lemma DeleteExistingWithoutFaults(s: DbState)
      requires s.faults == [] && TableName() in s.tables
      ensures DeletePathSpec(s).value
      ensures DeletePathSpec(s).after.tables == s.tables - {TableName()}
      ensures DeletePathSpec(s).after.received == s.received + [ProbeSql(), DropSql(), ProbeSql()]
      ensures DeletePathSpec(s).after.faults == []
    {
      var probe := PathExistsSpec(s);
      var dropped := Execute(probe.after, DropSql(), "update");
      assert dropped.value.Pass? && dropped.after.tables == s.tables - {TableName()};
      var again := PathExistsSpec(dropped.after);
      assert !again.value;
      assert again.after.received == s.received + [ProbeSql()] + [DropSql()] + [ProbeSql()];
    }

    /** Without faults, `deletePath` answers true and the table is gone. */
    lemma DeleteWithoutFaults(s: DbState)
      requires s.faults == []
      ensures DeletePathSpec(s).value && TableName() !in DeletePathSpec(s).after.tables
    {
      if TableName() in s.tables {
        DeleteExistingWithoutFaults(s);
      }
    }

    /**
     * The table work of `sinkInit`: drop first, in REPLACE mode outside a task only, then
     * create if absent; either failing aborts with a TapException.
     */
    function SinkInitSpec(s: DbState, inTask: bool): (r: Answer<Outcome>)
      ensures r.value.Pass? ==> TableName() in r.after.tables
      ensures Released(s, r.after)
      ensures r.value.Fail? ==>
        || r.value.error == TapException("unable to drop table: " + TableName())
        || r.value.error == TapException("unable to create table: " + TableName())
        || (TableCreateStatement(tableDesc).Failure? && r.value.error == TableCreateStatement(tableDesc).error)
    {
      var dropped := DropStep(s, inTask);
      if !dropped.value then
        Answer(Fail(TapException("unable to drop table: " + TableName())), dropped.after)
      else
        var made := MakeDirsSpec(dropped.after);
        if made.value.Failure? then Answer(Fail(made.value.error), made.after)
        else if !made.value.value then Answer(Fail(TapException("unable to create table: " + TableName())), made.after)
        else Answer(Pass, made.after)
    }

    /** The first half of `sinkInit`: `deletePath` in REPLACE mode outside a task, else nothing. */
    function DropStep(s: DbState, inTask: bool): Answer<bool>
    {
      if sinkMode == Replace && !inTask then DeletePathSpec(s) else Answer(true, s)
    }

    /** The first half of `sinkInit` sends no CREATE, and nothing at all unless replacing. */
    lemma DropStepSendsNoCreate(s: DbState, inTask: bool)
      ensures s.received <= DropStep(s, inTask).after.received
      ensures NoneOfKind(Sent(s, DropStep(s, inTask).after), Create)
      ensures !(sinkMode == Replace && !inTask) ==> DropStep(s, inTask) == Answer(true, s)
    {
      if sinkMode == Replace && !inTask {
        DeletePathSendsNoCreate(s);
      } else {
        assert Sent(s, s) == [];
      }
    }

    /** `sinkInit` sends a DROP only in REPLACE mode outside a task. */
    lemma {:induction false} SinkInitDropsOnlyWhenReplacing(s: DbState, inTask: bool)
      ensures s.received <= SinkInitSpec(s, inTask).after.received
      ensures Issued(Sent(s, SinkInitSpec(s, inTask).after), Drop) ==> sinkMode == Replace && !inTask
    {
      SinkInitDropsFirst(s, inTask);
      if !(sinkMode == Replace && !inTask) {
        DropStepSendsNoCreate(s, inTask);
        assert SinkInitSpec(s, inTask).after == MakeDirsSpec(s).after;
        MakeDirsSendsNoDrop(s);
        NoneOfKindNotIssued(Sent(s, MakeDirsSpec(s).after), Drop);
      }
    }

    /** Every DROP that `sinkInit` sends comes before every CREATE it sends. */
    lemma {:induction false} SinkInitDropsFirst(s: DbState, inTask: bool)
      ensures s.received <= SinkInitSpec(s, inTask).after.received
      ensures DropsPrecedeCreates(Sent(s, SinkInitSpec(s, inTask).after))
    {
      var dropped := DropStep(s, inTask);
      DropStepSendsNoCreate(s, inTask);
      if dropped.value {
        var after := MakeDirsSpec(dropped.after).after;
        MakeDirsSendsNoDrop(dropped.after);
        SentSplit(s, dropped.after, after);
        DropsThenCreates(Sent(s, dropped.after), Sent(dropped.after, after));
      } else {
        assert Sent(s, dropped.after) + [] == Sent(s, dropped.after);
        DropsThenCreates(Sent(s, dropped.after), []);
      }
    }

    /** `createConnection`: loads the driver and opens a connection, or throws. */
    method CreateConnection(db: Database, fault: Fault) returns (o: Outcome)
      modifies db
      ensures o == ConnectionFailure(fault)
      ensures db.State() == if o.Pass? then old(db.State()).(opens := old(db.opens) + 1) else old(db.State())
    {
      if fault == DriverMissing {
        return Fail(TapException("unable to load driver class: " + driverClassName));
      }
      if fault == ConnectionRefused {
        return Fail(TapException("unable to open connection: " + connectionUrl));
      }
      db.Open();
      return Pass;
    }

    /** `executeUpdate(updateString)`. */
    method ExecuteUpdate(db: Database, sql: Sql) returns (o: Outcome)
      modifies db
      ensures Answer(o, db.State()) == Execute(old(db.State()), sql, "update")
    {
      var fault := db.TakeFault();
      o := CreateConnection(db, fault);
      if o.Fail? {
        return;  // the connection was never assigned, so there is nothing to close
      }
      var ok := db.Run(sql, fault == StatementError);
      o := if ok then Pass else Fail(TapException(StatementFailure("update", sql.text)));
      var closeFailed := db.Close(fault == CloseError);  // finally: a failing close is only logged
    }

    /** `executeQuery(queryString)`: as `executeUpdate`, the result rows are ignored. */
    method ExecuteQuery(db: Database, sql: Sql) returns (o: Outcome)
      modifies db
      ensures Answer(o, db.State()) == Execute(old(db.State()), sql, "query")
    {
      var fault := db.TakeFault();
      o := CreateConnection(db, fault);
      if o.Fail? {
        return;  // the connection was never assigned, so there is nothing to close
      }
      var ok := db.Run(sql, fault == StatementError);
      o := if ok then Pass else Fail(TapException(StatementFailure("query", sql.text)));
      var closeFailed := db.Close(fault == CloseError);  // finally: a failing close is only logged
    }

    /** `pathExists(conf)`: any TapException from the probe means false. */
    method PathExists(db: Database) returns (b: bool)
      modifies db
      ensures Answer(b, db.State()) == PathExistsSpec(old(db.State()))
    {
      var o := ExecuteQuery(db, ProbeSql());
      b := o.Pass?;
    }

    /** `makeDirs(conf)`. */
    method MakeDirs(db: Database) returns (r: Result<bool>)
      modifies db
      ensures Answer(r, db.State()) == MakeDirsSpec(old(db.State()))
    {
      var present := PathExists(db);
      if present {
        return Success(true);
      }
      var statement := GetTableCreateStatement(tableDesc);
      if statement.Failure? {
        return Failure(statement.error);  // not a TapException: it leaves makeDirs
      }
      var o := ExecuteUpdate(db, CreateSql(statement.value));
      if o.Fail? {
        return Success(false);
      }
      present := PathExists(db);
      return Success(present);
    }

    /** `deletePath(conf)`. */
    method DeletePath(db: Database) returns (b: bool)
      modifies db
      ensures Answer(b, db.State()) == DeletePathSpec(old(db.State()))
    {
      var present := PathExists(db);
      if !present {
        return true;
      }
      var o := ExecuteUpdate(db, DropSql());
      if o.Fail? {
        return false;
      }
      present := PathExists(db);
      return !present;
    }

    /**
     * `sinkInit(conf)`: the table work of `SinkInitSpec`, then, on success only, the
     * connection settings and the scheme's output settings go into the configuration.
     */
    method SinkInit(conf: JobConf, db: Database) returns (o: Outcome)
      modifies conf`db, conf`output, conf`outputFormat, db
      ensures Answer(o, db.State()) == SinkInitSpec(old(db.State()), old(conf.taskPartition).Some?)
      ensures o.Pass? ==>
        && conf.db == Some(DbConfiguration())
        && conf.output == Some(OutputSetup(DBOutputFormat, TableName(), scheme.columns, scheme.UpdateBy()))
        && conf.outputFormat == if scheme.outputFormatClass.Some? then scheme.outputFormatClass else old(conf.outputFormat)
      ensures o.Fail? ==>
        conf.db == old(conf.db) && conf.output == old(conf.output) && conf.outputFormat == old(conf.outputFormat)
    {
      if sinkMode == Replace && conf.taskPartition.None? {
        var deleted := DeletePath(db);
        if !deleted {
          return Fail(TapException("unable to drop table: " + TableName()));
        }
      }
      var made := MakeDirs(db);
      if made.Failure? {
        return Fail(made.error);
      }
      if !made.value {
        return Fail(TapException("unable to create table: " + TableName()));
      }
      conf.db := Some(DbConfiguration());
      Schemes.SinkInit(scheme, TableName(), conf);
      return Pass;
    }

    /**
     * `sourceInit(conf)`: the tap's path as the input path, the connection settings, then
     * the scheme's input settings.
     */
    method SourceInit(conf: JobConf)
      modifies conf`inputPaths, conf`db, conf`input, conf`inputFormat
      ensures conf.inputPaths == [GetPath()]
      ensures conf.db == Some(DbConfiguration())
      ensures conf.input == Some(InputSetup(TableName(), None, JoinedOrderBy(scheme), scheme.columns))
      ensures conf.inputFormat == if scheme.inputFormatClass.Some? then scheme.inputFormatClass else old(conf.inputFormat)
    {
      conf.inputPaths := [GetPath()];
      conf.db := Some(DbConfiguration());
      Schemes.SourceInit(scheme, TableName(), conf);
    }

    /**
     * After `makeDirs` answered true, a second call whose probe is not disturbed answers
     * true again and sends nothing but the probe.
     */
    lemma MakeDirsIdempotent(s: DbState)
      requires MakeDirsSpec(s).value == Success(true)
      requires Connects(NextFault(MakeDirsSpec(s).after.faults))
      requires NextFault(MakeDirsSpec(s).after.faults) != StatementError
      ensures var first := MakeDirsSpec(s).after;
        && MakeDirsSpec(first).value == Success(true)
        && MakeDirsSpec(first).after.tables == first.tables
        && MakeDirsSpec(first).after.received == first.received + [ProbeSql()]
    {
      var first := MakeDirsSpec(s).after;
      assert TableName() in first.tables;
      assert PathExistsSpec(first).value;
    }

    /** Without faults, a missing table is probed, created and probed again, and is then present. */
    lemma MakeMissingWithoutFaults(s: DbState)
      requires s.faults == [] && TableName() !in s.tables && CanCreate(tableDesc)
      ensures MakeDirsSpec(s).value == Success(true)
      ensures MakeDirsSpec(s).after.tables == s.tables + {TableName()}
      ensures MakeDirsSpec(s).after.received ==
        s.received + [ProbeSql(), CreateSql(TableCreateStatement(tableDesc).value), ProbeSql()]
    {
      var probe := PathExistsSpec(s);
      var create := CreateSql(TableCreateStatement(tableDesc).value);
      var created := Execute(probe.after, create, "update");
      assert created.value.Pass? && created.after.tables == s.tables + {TableName()};
      var again := PathExistsSpec(created.after);
      assert again.value;
      assert again.after.received == s.received + [ProbeSql()] + [create] + [ProbeSql()];
    }

    /**
     * With no faults, REPLACE outside a task on an existing table sends probe, DROP,
     * probe (absent now), probe, CREATE, probe, and ends with the table present.
     */
    lemma ReplaceExistingTable(s: DbState)
      requires s.faults == [] && sinkMode == Replace && TableName() in s.tables && CanCreate(tableDesc)
      ensures SinkInitSpec(s, false).value == Pass
      ensures SinkInitSpec(s, false).after.tables == s.tables
      ensures SinkInitSpec(s, false).after.received ==
        s.received + [ProbeSql(), DropSql(), ProbeSql(), ProbeSql(),
                      CreateSql(TableCreateStatement(tableDesc).value), ProbeSql()]
    {
      var d := DeletePathSpec(s);
      DeleteExistingWithoutFaults(s);
      MakeMissingWithoutFaults(d.after);
      assert d.after.tables + {TableName()} == s.tables;
    }
  }
}
