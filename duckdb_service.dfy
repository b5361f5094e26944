/** The `DuckDBService` singleton of electron/duckdb-service.ts: an in-memory DuckDB
    that attaches the tracker's SQLite file as `sqlite_db` and answers the two queries
    of `DuckDBQuery`. */
module DuckDB {
  import opened Wrappers
  import opened Strings
  import opened DuckDBQuery

  /** An open in-memory database and, once attached, the tables of `sqlite_db`. */
  datatype Engine = Engine(sqliteDb: Option<seq<Table>>)

  /** What the outside world answers: the failures of `Database.create(':memory:')` and
      of `INSTALL sqlite; LOAD sqlite;`, the tracker database's path and whether it
      exists, and the outcome of an `ATTACH` statement. */
  datatype Environment = Environment(
    createError: Option<string>,
    loadError: Option<string>,
    dbPath: string,
    dbFileExists: bool,
    attach: string -> Result<seq<Table>>)

  /** Whatever file gets attached, its catalog is one SQLite could hold. */
  ghost predicate EnvironmentOk(env: Environment) {
    forall stmt :: env.attach(stmt).Ok? ==> WellFormedCatalog(env.attach(stmt).value)
  }

  /** The service's fields. */
  datatype State = State(db: Option<Engine>, isInitialized: bool)

  ghost predicate ValidState(st: State) {
    && (st.isInitialized ==> st.db.Some?)
    && (st.db.Some? && st.db.value.sqliteDb.Some? ==> WellFormedCatalog(st.db.value.sqliteDb.value))
  }

  /** `initialize`: nothing once initialized; otherwise a fresh in-memory database
      replaces the field, and the extension load decides the flag. */
  function InitializeStep(st: State, env: Environment): (r: (State, Outcome))
    ensures st.isInitialized ==> r == (st, Pass)
    ensures r.1 == Pass <==> st.isInitialized || (env.createError.None? && env.loadError.None?)
    ensures r.1 == Pass ==> r.0.isInitialized
    ensures !st.isInitialized && env.createError.None? ==> r.0.db == Some(Engine(None))
  {
    if st.isInitialized then (st, Pass)
    else match env.createError
      case Some(e) => (st, Fail(e))
      case None =>
        var st' := st.(db := Some(Engine(None)));
        match env.loadError
        case Some(e) => (st', Fail(e))
        case None => (st'.(isInitialized := true), Pass)
  }

  /** `path.replace(/\\/g, '/')`. */
  function ForwardSlashes(path: string): (r: string)
    ensures |r| == |path|
    ensures forall i :: 0 <= i < |r| ==> r[i] == (if path[i] == '\\' then '/' else path[i])
  {
    if path == [] then []
    else [if path[0] == '\\' then '/' else path[0]] + ForwardSlashes(path[1..])
  }

  function AttachStatement(dbPath: string): string {
    "ATTACH '" + ForwardSlashes(dbPath) + "' AS sqlite_db (TYPE SQLITE);"
  }

  function NotFoundMessage(dbPath: string): string {
    "ActivityTracker database not found at: " + dbPath + "\n\n"
      + "Please ensure ActivityTracker is installed and has generated data."
  }

  /** `discoverDatabase`: the path when the file is there. */
  function DiscoverDatabase(env: Environment): Result<string> {
    if env.dbFileExists then Ok(env.dbPath) else Err(NotFoundMessage(env.dbPath))
  }

  /** The `catch` of `attachDatabase`: a message mentioning "already exists" is
      swallowed, any other is rethrown. */
  function AttachFailure(e: string): Outcome {
    if Contains(e, "already exists") then Pass else Fail(e)
  }

  /** `attachDatabase` once there is a database. */
  function AttachTo(st: State, env: Environment): (r: (State, Outcome))
    requires st.db.Some?
    ensures r.0.db.Some? && r.0.isInitialized == st.isInitialized
    ensures r.0 != st ==>
      && r.1 == Pass && env.dbFileExists && env.attach(AttachStatement(env.dbPath)).Ok?
      && r.0.db == Some(Engine(Some(env.attach(AttachStatement(env.dbPath)).value)))
  {
    if st.db.value.sqliteDb.Some? then (st, Pass)
    else match DiscoverDatabase(env)
      case Err(e) => (st, AttachFailure(e))
      case Ok(path) =>
        match env.attach(AttachStatement(path))
        case Err(e) => (st, AttachFailure(e))
        case Ok(tables) => (st.(db := Some(Engine(Some(tables)))), Pass)
  }

  /** `attachDatabase`: initialize first when there is no database at all. */
  function AttachStep(st: State, env: Environment): (State, Outcome)
    requires st.isInitialized ==> st.db.Some?
  {
    if st.db.Some? then AttachTo(st, env)
    else
      var (st', r) := InitializeStep(st, env);
      if r.Fail? then (st', r) else AttachTo(st', env)
  }

  /** `initialize` keeps the fields consistent: it sets the flag only with a database. */
  lemma InitializeKeepsValid(st: State, env: Environment)
    requires ValidState(st)
    ensures ValidState(InitializeStep(st, env).0)
  {
  }

  /** Attaching to an existing database keeps the fields consistent: the catalog it
      stores is the attached file's. */
  lemma AttachToKeepsValid(st: State, env: Environment)
    requires ValidState(st) && st.db.Some? && EnvironmentOk(env)
    ensures ValidState(AttachTo(st, env).0)
  {
    if st.db.value.sqliteDb.None? && DiscoverDatabase(env).Ok? {
      var stmt := AttachStatement(DiscoverDatabase(env).value);
      if env.attach(stmt).Ok? {
        assert WellFormedCatalog(env.attach(stmt).value);
      }
    }
  }

  /** Both steps keep the fields consistent. */
  lemma StepsKeepValid(st: State, env: Environment)
    requires ValidState(st) && EnvironmentOk(env)
    ensures ValidState(InitializeStep(st, env).0)
    ensures ValidState(AttachStep(st, env).0)
  {
    InitializeKeepsValid(st, env);
    if st.db.Some? {
      AttachToKeepsValid(st, env);
    } else if InitializeStep(st, env).1.Pass? {
      AttachToKeepsValid(InitializeStep(st, env).0, env);
    }
  }

  /** A passing `initialize` leaves the service initialized, and a second one changes
      nothing. */
  lemma InitializeIdempotent(st: State, env: Environment, env2: Environment)
    requires InitializeStep(st, env).1 == Pass
    ensures InitializeStep(st, env).0.isInitialized
    ensures InitializeStep(InitializeStep(st, env).0, env2) == (InitializeStep(st, env).0, Pass)
  {
  }

  /** A passing `attachDatabase` leaves a database in place; when the `ATTACH` itself
      ran and succeeded, `sqlite_db` holds exactly the file's tables; once attached, a
      second call changes nothing. */
  lemma AttachOutcome(st: State, env: Environment, env2: Environment)
    requires st.isInitialized ==> st.db.Some?
    ensures AttachStep(st, env).1 == Pass ==> AttachStep(st, env).0.db.Some?
    ensures var (st', r) := AttachStep(st, env);
      r.Pass? && st'.db.value.sqliteDb.Some? ==> AttachStep(st', env2) == (st', Pass)
    ensures ((st.db.None? || st.db.value.sqliteDb.None?) && env.dbFileExists
      && env.attach(AttachStatement(env.dbPath)).Ok?
      && (st.db.None? ==> env.createError.None? && (st.isInitialized || env.loadError.None?))) ==>
      AttachStep(st, env) == (State(Some(Engine(Some(env.attach(AttachStatement(env.dbPath)).value))),
        if st.db.None? then true else st.isInitialized), Pass)
  {
  }

  /** Failures of discovery are never swallowed unless their text says "already
      exists"; the message names the expected path. */
  lemma MissingFileReported(st: State, env: Environment)
    requires st.db.Some? && st.db.value.sqliteDb.None? && !env.dbFileExists
    requires !Contains(NotFoundMessage(env.dbPath), "already exists")
    ensures AttachStep(st, env) == (st, Fail(NotFoundMessage(env.dbPath)))
  {
  }

  const NotInitialized := "DuckDB not initialized"

  function CatalogOf(e: Engine): seq<Table> {
    e.sqliteDb.GetOr([])
  }

  /** `getRawActivities`. */
  function RawActivities(db: Option<Engine>, employeeId: string, date: Option<string>): Result<seq<ActivityRecord>>
    requires db.Some? ==> WellFormedCatalog(CatalogOf(db.value))
  {
    match db
    case None => Err(NotInitialized)
    case Some(e) => RawActivitiesFrom(CatalogOf(e), employeeId, date)
  }

  /** `getAvailableDates`: the missing database is the one error that escapes. */
  function AvailableDates(db: Option<Engine>, employeeId: string, castDate: string -> Option<string>): (r: Result<seq<string>>)
    requires db.Some? ==> WellFormedCatalog(CatalogOf(db.value))
    ensures r.Err? <==> db.None?
    ensures r.Ok? ==> StrictlyDescending(r.value)
  {
    match db
    case None => Err(NotInitialized)
    case Some(e) => Ok(AvailableDatesFrom(CatalogOf(e), employeeId, castDate))
  }

  /** Before `ATTACH`, `information_schema` lists no table of `sqlite_db`, so both
      queries find nothing. */
  lemma UnattachedIsEmpty(employeeId: string, date: Option<string>, castDate: string -> Option<string>)
    ensures RawActivities(Some(Engine(None)), employeeId, date) == Ok([])
    ensures AvailableDates(Some(Engine(None)), employeeId, castDate) == Ok([])
  {
  }

  /** The discovery loop of both queries: the first table with `employee_id` and
      `start_time`, or the empty string. */
  method FindActivityTable(tables: seq<Table>) returns (activityTable: string)
    ensures activityTable == ActivityTableName(tables)
  {
    activityTable := "";
    var i := 0;
    while i < |tables|
      invariant 0 <= i <= |tables|
      invariant forall j :: 0 <= j < i ==> !IsActivityTable(tables[j])
    {
      var hasEmployeeId := EmployeeIdColumn in tables[i].columns;
      var hasStartTime := StartTimeColumn in tables[i].columns;
      if hasEmployeeId && hasStartTime {
        activityTable := tables[i].name;
        return;
      }
      i := i + 1;
    }
  }

  class DuckDBService {
    var db: Option<Engine>
    var isInitialized: bool

    ghost predicate Valid()
      reads this
    {
      ValidState(State(db, isInitialized))
    }

    constructor()
      ensures Valid() && db.None? && !isInitialized
    {
      db := None;
      isInitialized := false;
    }

    method Initialize(env: Environment) returns (r: Outcome)
      requires Valid()
      modifies this
      ensures Valid()
      ensures (State(db, isInitialized), r) == InitializeStep(State(old(db), old(isInitialized)), env)
    {
      if isInitialized {
        return Pass;
      }
      match env.createError {
        case Some(e) => return Fail(e);
        case None =>
      }
      db := Some(Engine(None));
      match env.loadError {
        case Some(e) => return Fail(e);
        case None =>
      }
      isInitialized := true;
      r := Pass;
    }

    method AttachDatabase(env: Environment) returns (r: Outcome)
      requires Valid() && EnvironmentOk(env)
      modifies this
      ensures Valid()
      ensures (State(db, isInitialized), r) == AttachStep(State(old(db), old(isInitialized)), env)
    {
      StepsKeepValid(State(db, isInitialized), env);
      if db.None? {
        r := Initialize(env);
        if r.Fail? {
          return;
        }
      }
      if db.value.sqliteDb.Some? {
        return Pass;
      }
      var found := DiscoverDatabase(env);
      if found.Err? {
        return AttachFailure(found.error);
      }
      var attached := env.attach(AttachStatement(found.value));
      if attached.Err? {
        return AttachFailure(attached.error);
      }
      db := Some(Engine(Some(attached.value)));
      r := Pass;
    }

    method GetRawActivities(employeeId: string, date: Option<string>) returns (r: Result<seq<ActivityRecord>>)
      requires Valid()
      ensures r == RawActivities(db, employeeId, date)
    {
      if db.None? {
        return Err(NotInitialized);
      }
      var tables := CatalogOf(db.value);
      var activityTable := FindActivityTable(tables);
      if activityTable == "" {
        return Ok([]);
      }
      match TableNamed(tables, activityTable) {
        case None => r := Err(MissingTable(activityTable));
        case Some(t) => r := QueryActivities(t, employeeId, date);
      }
    }

    method GetAvailableDates(employeeId: string, castDate: string -> Option<string>) returns (r: Result<seq<string>>)
      requires Valid()
      ensures r == AvailableDates(db, employeeId, castDate)
    {
      if db.None? {
        return Err(NotInitialized);
      }
      var tables := CatalogOf(db.value);
      var activityTable := FindActivityTable(tables);
      if activityTable == "" {
        return Ok([]);
      }
      r := Ok(AvailableDatesFrom(tables, employeeId, castDate));
    }
  }

  /** The static `instance` slot behind `getInstance`. */
  class ServiceRegistry {
    var instance: DuckDBService?

    constructor()
      ensures instance == null
    {
      instance := null;
    }

    method GetInstance() returns (s: DuckDBService)
      modifies this
      ensures instance == s
      ensures old(instance) != null ==> s == old(instance)
      ensures old(instance) == null ==> fresh(s) && s.Valid() && s.db.None? && !s.isInitialized
    {
      if instance == null {
        instance := new DuckDBService();
      }
      s := instance;
    }
  }
}
