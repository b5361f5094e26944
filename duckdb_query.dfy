/** The selections `DuckDBService` in electron/duckdb-service.ts runs against the SQLite
    file attached as `sqlite_db`: table discovery, the activity query of
    `getRawActivities` and the date query of `getAvailableDates`. The SQL text becomes
    functions over in-memory tables. */
module DuckDBQuery {
  import opened Wrappers
  import opened Strings
  import opened Collation
  import opened SqlLike

  /** One row of an attached table: column name to text. */
  type Row = map<string, string>

  /** A table of the attached file, as `information_schema` lists it: its name, its
      columns in order, its rows in scan order. */
  datatype Table = Table(name: string, columns: seq<string>, rows: seq<Row>)

  /** Every row has a value in every column. */
  predicate WellFormed(t: Table) {
    forall i, c :: 0 <= i < |t.rows| && c in t.columns ==> c in t.rows[i]
  }

  /** SQLite keeps table names distinct within a file. */
  predicate UniqueNames(tables: seq<Table>) {
    forall i, j :: 0 <= i < j < |tables| ==> tables[i].name != tables[j].name
  }

  predicate WellFormedCatalog(tables: seq<Table>) {
    UniqueNames(tables) && forall i :: 0 <= i < |tables| ==> WellFormed(tables[i])
  }

  /** The columns of one row of the activity query's result. */
  datatype ActivityRecord = ActivityRecord(startTime: string, durationSeconds: string, isAfk: string)

  const EmployeeIdColumn := "employee_id"
  const StartTimeColumn := "start_time"
  const DurationColumn := "duration_seconds"
  const AfkColumn := "is_afk"

  /** The structural signature of the activity table: `employee_id` and `start_time`. */
  predicate IsActivityTable(t: Table) {
    EmployeeIdColumn in t.columns && StartTimeColumn in t.columns
  }

  /** The position of the first table, in enumeration order, with the signature. */
  function FirstActivityTable(tables: seq<Table>): (r: Option<nat>)
    ensures r.Some? ==> r.value < |tables| && IsActivityTable(tables[r.value])
    ensures r.Some? ==> forall j :: 0 <= j < r.value ==> !IsActivityTable(tables[j])
    ensures r.None? <==> forall j :: 0 <= j < |tables| ==> !IsActivityTable(tables[j])
  {
    if tables == [] then None
    else if IsActivityTable(tables[0]) then Some(0)
    else match FirstActivityTable(tables[1..])
      case None => None
      case Some(k) => Some(k + 1)
  }

  /** The name discovery settles on; the empty string when no table qualifies. */
  function ActivityTableName(tables: seq<Table>): string {
    match FirstActivityTable(tables)
    case None => ""
    case Some(i) => tables[i].name
  }

  /** `FROM sqlite_db.<name>`: the table of that name. */
  function TableNamed(tables: seq<Table>, name: string): (r: Option<Table>)
    ensures r.Some? ==> r.value in tables && r.value.name == name
    ensures r.None? ==> forall j :: 0 <= j < |tables| ==> tables[j].name != name
  {
    if tables == [] then None
    else if tables[0].name == name then Some(tables[0])
    else TableNamed(tables[1..], name)
  }

  /** With distinct names, a table's name leads back to that table. */
  lemma {:induction false} TableNamedFinds(tables: seq<Table>, i: nat)
    requires UniqueNames(tables) && i < |tables|
    ensures TableNamed(tables, tables[i].name) == Some(tables[i])
  {
    if i > 0 {
      assert UniqueNames(tables[1..]) by {
        forall a, b | 0 <= a < b < |tables[1..]|
          ensures tables[1..][a].name != tables[1..][b].name
        {
          assert tables[1..][a] == tables[a + 1] && tables[1..][b] == tables[b + 1];
        }
      }
      assert tables[0].name != tables[i].name;
      TableNamedFinds(tables[1..], i - 1);
    }
  }

  /** `employee_id = ? OR employee_id LIKE '%' || ? || '%'`. */
  predicate MatchesEmployee(employeeId: string, value: string) {
    value == employeeId || Like(value, "%" + employeeId + "%")
  }

  /** `start_time LIKE ? || '%'`, applied only when a non-empty date is given. */
  predicate MatchesDate(date: Option<string>, startTime: string) {
    date.None? || date.value == "" || Like(startTime, date.value + "%")
  }

  /** The row has the four columns the activity query reads. */
  predicate HasQueryColumns(r: Row) {
    EmployeeIdColumn in r && StartTimeColumn in r && DurationColumn in r && AfkColumn in r
  }

  predicate Selected(r: Row, employeeId: string, date: Option<string>)
    requires HasQueryColumns(r)
  {
    MatchesEmployee(employeeId, r[EmployeeIdColumn]) && MatchesDate(date, r[StartTimeColumn])
  }

  function Project(r: Row): ActivityRecord
    requires HasQueryColumns(r)
  {
    ActivityRecord(r[StartTimeColumn], r[DurationColumn], r[AfkColumn])
  }

  /** The `WHERE` clause and the select list, in scan order. */
  function SelectRows(rows: seq<Row>, employeeId: string, date: Option<string>): (r: seq<ActivityRecord>)
    requires forall i :: 0 <= i < |rows| ==> HasQueryColumns(rows[i])
    ensures |r| <= |rows|
    ensures forall i :: 0 <= i < |rows| && Selected(rows[i], employeeId, date) ==> Project(rows[i]) in r
    ensures forall x :: x in r ==> exists i :: 0 <= i < |rows| && Selected(rows[i], employeeId, date) && Project(rows[i]) == x
  {
    if rows == [] then []
    else
      var rest := SelectRows(rows[1..], employeeId, date);
      assert forall i :: 1 <= i < |rows| ==> rows[i] == rows[1..][i - 1];
      if Selected(rows[0], employeeId, date) then [Project(rows[0])] + rest else rest
  }

  /** Selection distributes over concatenation: together with `SelectRowsSingle` this fixes
      the order and the copies, so a row stored twice is returned twice. */
  lemma {:induction false} SelectRowsConcat(a: seq<Row>, b: seq<Row>, employeeId: string, date: Option<string>)
    requires forall i :: 0 <= i < |a| ==> HasQueryColumns(a[i])
    requires forall i :: 0 <= i < |b| ==> HasQueryColumns(b[i])
    ensures forall i :: 0 <= i < |a + b| ==> HasQueryColumns((a + b)[i])
    ensures SelectRows(a + b, employeeId, date) == SelectRows(a, employeeId, date) + SelectRows(b, employeeId, date)
  {
    if a == [] {
      assert a + b == b;
    } else {
      var ab := a + b;
      assert ab[1..] == a[1..] + b;
      SelectRowsConcat(a[1..], b, employeeId, date);
      SelectRowsFirst(ab, employeeId, date);
      SelectRowsFirst(a, employeeId, date);
      var head := if Selected(a[0], employeeId, date) then [Project(a[0])] else [];
      var rest := SelectRows(a[1..], employeeId, date);
      var tail := SelectRows(b, employeeId, date);
      assert head + (rest + tail) == (head + rest) + tail;
    }
  }

  lemma SelectRowsFirst(s: seq<Row>, employeeId: string, date: Option<string>)
    requires s != [] && forall i :: 0 <= i < |s| ==> HasQueryColumns(s[i])
    ensures forall i :: 0 <= i < |s[1..]| ==> HasQueryColumns(s[1..][i])
    ensures SelectRows(s, employeeId, date)
      == (if Selected(s[0], employeeId, date) then [Project(s[0])] else []) + SelectRows(s[1..], employeeId, date)
  {
    assert forall i :: 0 <= i < |s[1..]| ==> s[1..][i] == s[i + 1];
  }

  /** A single row gives its projection exactly when it is selected. */
  lemma SelectRowsSingle(x: Row, employeeId: string, date: Option<string>)
    requires HasQueryColumns(x)
    ensures SelectRows([x], employeeId, date) == if Selected(x, employeeId, date) then [Project(x)] else []
  {
    assert [x][1..] == [];
  }

  /** `ORDER BY start_time ASC`. */
  predicate SortedByStart(s: seq<ActivityRecord>) {
    forall i, j :: 0 <= i < j < |s| ==> AtMost(s[i].startTime, s[j].startTime)
  }

  function InsertByStart(x: ActivityRecord, s: seq<ActivityRecord>): (r: seq<ActivityRecord>)
    requires SortedByStart(s)
    ensures SortedByStart(r)
    ensures multiset(r) == multiset(s) + multiset{x}
  {
    if s == [] then [x]
    else if AtMost(x.startTime, s[0].startTime) then
      forall j | 0 < j < |s| ensures AtMost(x.startTime, s[j].startTime) {
        AtMostTransitive(x.startTime, s[0].startTime, s[j].startTime);
      }
      ConsSorted(x, s);
      [x] + s
    else
      var rest := InsertByStart(x, s[1..]);
      AtMostTotal(x.startTime, s[0].startTime);
      assert s == [s[0]] + s[1..];
      LowerBoundKept(s[0], x, s[1..], rest);
      ConsSorted(s[0], rest);
      [s[0]] + rest
  }

  /** A record no later than every record of a sorted list can go in front of it. */
  lemma ConsSorted(y: ActivityRecord, s: seq<ActivityRecord>)
    requires SortedByStart(s)
    requires forall k :: 0 <= k < |s| ==> AtMost(y.startTime, s[k].startTime)
    ensures SortedByStart([y] + s)
  {
    forall i, j | 0 <= i < j < |[y] + s| ensures AtMost(([y] + s)[i].startTime, ([y] + s)[j].startTime) {
      assert ([y] + s)[j] == s[j - 1];
      if i > 0 {
        assert ([y] + s)[i] == s[i - 1];
      }
    }
  }

  /** A lower bound of a list and of `x` bounds every record of a list holding exactly
      their records. */
  lemma LowerBoundKept(y: ActivityRecord, x: ActivityRecord, t: seq<ActivityRecord>, r: seq<ActivityRecord>)
    requires AtMost(y.startTime, x.startTime)
    requires forall j :: 0 <= j < |t| ==> AtMost(y.startTime, t[j].startTime)
    requires multiset(r) == multiset(t) + multiset{x}
    ensures forall k :: 0 <= k < |r| ==> AtMost(y.startTime, r[k].startTime)
  {
    forall k | 0 <= k < |r| ensures AtMost(y.startTime, r[k].startTime) {
      assert r[k] in multiset(r);
      if r[k] != x {
        assert r[k] in multiset(t);
        var j :| 0 <= j < |t| && t[j] == r[k];
      }
    }
  }

  /** A stable insertion sort on `start_time`. SQL leaves the order of equal keys open;
      this model settles it as scan order. */
  function SortByStart(s: seq<ActivityRecord>): (r: seq<ActivityRecord>)
    ensures SortedByStart(r)
    ensures multiset(r) == multiset(s)
  {
    if s == [] then []
    else
      assert s == [s[0]] + s[1..];
      InsertByStart(s[0], SortByStart(s[1..]))
  }

  function MissingColumn(c: string): string {
    "Binder Error: Referenced column \"" + c + "\" not found in FROM clause!"
  }

  /** The activity query on one table: a missing column fails to bind; otherwise the
      selected rows, sorted. */
  function QueryActivities(t: Table, employeeId: string, date: Option<string>): (r: Result<seq<ActivityRecord>>)
    requires WellFormed(t)
    ensures r.Err? <==>
      !(StartTimeColumn in t.columns && DurationColumn in t.columns && AfkColumn in t.columns && EmployeeIdColumn in t.columns)
    ensures r.Ok? ==> SortedByStart(r.value) && multiset(r.value) == multiset(SelectRows(t.rows, employeeId, date))
  {
    if StartTimeColumn !in t.columns then Err(MissingColumn(StartTimeColumn))
    else if DurationColumn !in t.columns then Err(MissingColumn(DurationColumn))
    else if AfkColumn !in t.columns then Err(MissingColumn(AfkColumn))
    else if EmployeeIdColumn !in t.columns then Err(MissingColumn(EmployeeIdColumn))
    else Ok(SortByStart(SelectRows(t.rows, employeeId, date)))
  }

  function MissingTable(name: string): string {
    "Catalog Error: Table with name " + name + " does not exist!"
  }

  /** `getRawActivities` from discovery on, over the tables of the attached file. */
  function RawActivitiesFrom(tables: seq<Table>, employeeId: string, date: Option<string>): Result<seq<ActivityRecord>>
    requires WellFormedCatalog(tables)
  {
    var name := ActivityTableName(tables);
    if name == "" then Ok([])
    else match TableNamed(tables, name)
      case None => Err(MissingTable(name))
      case Some(t) => QueryActivities(t, employeeId, date)
  }

  /** What `getRawActivities` returns: rows of the first activity table whose identifier
      matches, restricted to the date when one is given, in `start_time` order; nothing
      when no table qualifies. */
  lemma {:induction false} RawActivitiesSelection(tables: seq<Table>, employeeId: string, date: Option<string>)
    requires WellFormedCatalog(tables)
    ensures FirstActivityTable(tables).None? ==> RawActivitiesFrom(tables, employeeId, date) == Ok([])
    ensures match FirstActivityTable(tables)
      case None => true
      case Some(i) =>
        var t := tables[i];
        var r := RawActivitiesFrom(tables, employeeId, date);
        && (t.name != "" && DurationColumn in t.columns && AfkColumn in t.columns ==>
              && r.Ok? && SortedByStart(r.value)
              && multiset(r.value) == multiset(SelectRows(t.rows, employeeId, date)))
        && (t.name != "" && (DurationColumn !in t.columns || AfkColumn !in t.columns) ==>
              r.Err? && (r.error == MissingColumn(DurationColumn) || r.error == MissingColumn(AfkColumn)))
  {
    match FirstActivityTable(tables)
    case None =>
    case Some(i) =>
      TableNamedFinds(tables, i);
  }

  /** When the identifier holds no wildcard, a row matches exactly when its identifier
      equals it or contains it; a given date holding no wildcard selects by prefix. */
  lemma MatchIsSubstringAndPrefix(employeeId: string, value: string, date: string, startTime: string)
    requires NoWildcards(employeeId) && NoWildcards(date)
    ensures MatchesEmployee(employeeId, value) <==> value == employeeId || Contains(value, employeeId)
    ensures MatchesDate(Some(date), startTime) <==> IsPrefix(date, startTime)
  {
    LikeContains(value, employeeId);
    LikePrefix(startTime, date);
  }

  /** `ORDER BY date DESC` over `SELECT DISTINCT`: strictly decreasing. */
  predicate StrictlyDescending(s: seq<string>) {
    forall i, j :: 0 <= i < j < |s| ==> AtMost(s[j], s[i]) && s[i] != s[j]
  }

  function InsertDescending(x: string, s: seq<string>): (r: seq<string>)
    requires StrictlyDescending(s)
    ensures StrictlyDescending(r)
    ensures forall y :: y in r <==> y == x || y in s
  {
    if s == [] then [x]
    else if x == s[0] then s
    else if AtMost(s[0], x) then
      assert forall j :: 0 <= j < |s| ==> AtMost(s[j], x) && s[j] != x by {
        forall j | 0 <= j < |s| ensures AtMost(s[j], x) && s[j] != x {
          if j > 0 {
            AtMostTransitive(s[j], s[0], x);
            if s[j] == x { AtMostAntisymmetric(s[0], x); }
          }
        }
      }
      [x] + s
    else
      var rest := InsertDescending(x, s[1..]);
      AtMostTotal(x, s[0]);
      assert forall y :: y in s <==> y == s[0] || y in s[1..];
      forall k | 0 <= k < |rest| ensures AtMost(rest[k], s[0]) && rest[k] != s[0] {
        assert rest[k] in rest;
        if rest[k] != x {
          assert rest[k] in s[1..];
          var j :| 0 <= j < |s[1..]| && s[1..][j] == rest[k];
          assert s[j + 1] == rest[k];
        }
      }
      [s[0]] + rest
  }

  /** The distinct values of `s`, largest first. */
  function DistinctDescending(s: seq<string>): (r: seq<string>)
    ensures StrictlyDescending(r)
    ensures forall y :: y in r <==> y in s
  {
    if s == [] then []
    else
      assert forall y :: y in s <==> y == s[0] || y in s[1..];
      InsertDescending(s[0], DistinctDescending(s[1..]))
  }

  /** `strftime(CAST(start_time AS TIMESTAMP), '%Y-%m-%d')` over the start times of the
      matching rows, in scan order; `None` when a cast fails, which fails the query. */
  function CastDates(rows: seq<Row>, employeeId: string, castDate: string -> Option<string>): Option<seq<string>>
    requires forall i :: 0 <= i < |rows| ==> EmployeeIdColumn in rows[i] && StartTimeColumn in rows[i]
  {
    if rows == [] then Some([])
    else
      var rest := CastDates(rows[1..], employeeId, castDate);
      if !MatchesEmployee(employeeId, rows[0][EmployeeIdColumn]) then rest
      else match castDate(rows[0][StartTimeColumn])
        case None => None
        case Some(d) => if rest.None? then None else Some([d] + rest.value)
  }

  /** The `try` block of `getAvailableDates`; a failure inside it yields no dates. */
  function AvailableDatesFrom(tables: seq<Table>, employeeId: string, castDate: string -> Option<string>): (r: seq<string>)
    requires WellFormedCatalog(tables)
    ensures StrictlyDescending(r)
  {
    var name := ActivityTableName(tables);
    if name == "" then []
    else match TableNamed(tables, name)
      case None => []
      case Some(t) =>
        if EmployeeIdColumn !in t.columns || StartTimeColumn !in t.columns then []
        else match CastDates(t.rows, employeeId, castDate)
          case None => []
          case Some(ds) => DistinctDescending(ds)
  }

  /** The dates offered are exactly the distinct dates of the matching rows of the
      first activity table, when every cast succeeds; none when no table qualifies. */
  lemma AvailableDatesAreDistinctDates(tables: seq<Table>, employeeId: string, castDate: string -> Option<string>)
    requires WellFormedCatalog(tables)
    ensures FirstActivityTable(tables).None? ==> AvailableDatesFrom(tables, employeeId, castDate) == []
    ensures match FirstActivityTable(tables)
      case None => true
      case Some(i) =>
        var t := tables[i];
        var ds := CastDates(t.rows, employeeId, castDate);
        t.name != "" && ds.Some? ==>
          forall d :: d in AvailableDatesFrom(tables, employeeId, castDate) <==> d in ds.value
  {
    match FirstActivityTable(tables)
    case None =>
    case Some(i) =>
      TableNamedFinds(tables, i);
  }
}
