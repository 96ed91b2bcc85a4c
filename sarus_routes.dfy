/**
 * The three Sarus handlers, `/districts`, `/report` and `/export`, as the
 * decisions they take. The database is an oracle `db` from a query to its
 * result; each handler returns its reply together with the queries it issued,
 * in the order it awaited them. Each handler is a method written the way the
 * handler runs (early returns, conditional `let`s, a `forEach` per output row),
 * proved equal to a declarative run of the same decisions, and the properties
 * are lemmas about that run.
 */
module SarusRoutes {
  import opened Wrappers
  import opened JsObject
  import opened Schema
  import opened Sql
  import opened QueryBuilder

  /** The query-string fields the handlers read; `None` is an absent field. */
  datatype Request = Request(
    table: Option<string>,
    district: Option<string>,
    page: Option<int>,
    perPage: Option<int>,
    format: Option<string>)

  /** The property name the handlers look the table up by: the `table` field, or "undefined"
      when it is absent, a name that is neither a dataset nor an inherited member. */
  function TableKey(req: Request): (key: string)
    ensures req.table.Some? ==> key == req.table.value
    ensures req.table.None? ==> key == "undefined" && key !in SCHEMA && key !in ObjectPrototypeMembers
  {
    req.table.GetOr("undefined")
  }

  /** What `pool.query` resolves to, or the message of the error it rejects with. */
  datatype DbResult = Rows(rows: seq<Record>) | DbError(message: string)

  /** A reply and the queries issued to produce it, in issue order. */
  datatype Outcome<R> = Outcome(reply: R, issued: seq<Query>)

  /* ================= /districts ================= */

  datatype DistrictsReply =
    | DistrictNames(names: seq<Value>)   // 200, a JSON array
    | DistrictsFailed(error: string)     // 500, { error }

  /** The district of each returned row, in order. */
  function DistrictColumnOf(rows: seq<Record>): seq<Value> {
    seq(|rows|, i requires 0 <= i < |rows| => Get(rows[i], "district"))
  }

  function DistrictsRun(tableMap: map<string, string>, req: Request, db: Query -> DbResult): Outcome<DistrictsReply> {
    match ResolveAsWritten(tableMap, TableKey(req))
    case None => Outcome(DistrictNames([]), [])
    case Some(t) =>
      if !t.caps.hasDistrict then Outcome(DistrictNames([]), [])
      else
        var q := DistrictListQuery(t.table);
        match db(q)
        case DbError(m) => Outcome(DistrictsFailed(m), [q])
        case Rows(rows) => Outcome(DistrictNames(DistrictColumnOf(rows)), [q])
  }

  method Districts(tableMap: map<string, string>, req: Request, db: Query -> DbResult)
    returns (reply: DistrictsReply, issued: seq<Query>)
    ensures Outcome(reply, issued) == DistrictsRun(tableMap, req, db)
  {
    var target := ResolveAsWritten(tableMap, TableKey(req));
    if target.None? || !target.value.caps.hasDistrict {
      return DistrictNames([]), [];
    }
    var q := DistrictListQuery(target.value.table);
    issued := [q];
    var r := db(q);
    if r.DbError? {
      return DistrictsFailed(r.message), issued;
    }
    reply := DistrictNames(DistrictColumnOf(r.rows));
  }

  /** An unknown table, or one without districts, gets an empty list and no query at all;
      any other table gets exactly the one DISTINCT query, and the district of each row it returns. */
  lemma DistrictsEmptyWithoutQuery(tableMap: map<string, string>, req: Request, db: Query -> DbResult)
    ensures var o := DistrictsRun(tableMap, req, db);
      o.issued == [] <==> Resolve(tableMap, TableKey(req)).None? || !Resolve(tableMap, TableKey(req)).value.caps.hasDistrict
    ensures var o := DistrictsRun(tableMap, req, db);
      o.issued == [] ==> o.reply == DistrictNames([])
    ensures var o := DistrictsRun(tableMap, req, db);
      o.issued != [] ==>
        var q := DistrictListQuery(Resolve(tableMap, TableKey(req)).value.table);
        o.issued == [q]
        && (db(q).Rows? ==> o.reply.DistrictNames? && |o.reply.names| == |db(q).rows|
                            && forall i :: 0 <= i < |db(q).rows| ==> o.reply.names[i] == Get(db(q).rows[i], "district"))
        && (db(q).DbError? ==> o.reply == DistrictsFailed(db(q).message))
  {
  }

  /** The Lucknow table has no districts: its dropdown is always empty and costs no query. */
  lemma LucknowDistrictsEmpty(tableMap: map<string, string>, req: Request, db: Query -> DbResult)
    requires TableKey(req) == Lucknow
    ensures DistrictsRun(tableMap, req, db) == Outcome(DistrictNames([]), [])
  {
    assert !Config(Lucknow).value.hasDistrict;
  }

  /* ================= /report ================= */

  /** `page = 1, per_page = 25`: destructuring defaults, used only when the field is absent. */
  function PageOf(req: Request): int {
    req.page.GetOr(1)
  }

  function PerPageOf(req: Request): int {
    req.perPage.GetOr(25)
  }

  /** The queries /report can issue; an absent chart or population query is not issued. */
  datatype ReportPlan = ReportPlan(
    data: Query,
    count: Query,
    total: Query,
    districtChart: Option<Query>,
    siteChart: Option<Query>,
    habitat: Query,
    population: Option<Query>)

  /** The row count: one row, with the `total_rows` the handler reads, over exactly the rows
      the filter keeps. */
  function CountQuery(table: string, f: Filter): (q: Query)
    ensures q.from == table && q.page == Unpaged && q.groupBy == None
    ensures q.where == f.where && q.params == f.params
    ensures OutputKeys(q.select) == ["total_rows"]
  {
    Query(false, [CountAll("total_rows")], table, f.where, None, None, Unpaged, f.params)
  }

  /** The Sarus total, 0 when no row is kept: one row, with the `sarus_count` the handler
      reads, over exactly the rows the filter keeps. */
  function TotalQuery(table: string, f: Filter): (q: Query)
    ensures q.from == table && q.page == Unpaged && q.groupBy == None
    ensures q.where == f.where && q.params == f.params
    ensures OutputKeys(q.select) == ["sarus_count"]
  {
    Query(false, [CoalescedSum("sarus_coun", "sarus_count")], table, f.where, None, None, Unpaged, f.params)
  }

  /** The population sums over the whole table, whatever the filter. */
  function PopulationQuery(table: string, parts: seq<Column>): (q: Query)
    ensures WellBound(q) && q.from == table && q.page == Unpaged && q.groupBy == None
    ensures forall r :: Selects(q.where, q.params, r)
    ensures q.select == parts
  {
    Query(false, parts, table, NoWhere, None, None, Unpaged, [])
  }

  function PlanReport(t: Target, req: Request): ReportPlan {
    var f := FilterFor(req.district, t.caps);
    var parts := PopulationParts(t.caps);
    ReportPlan(
      PagedQuery(t.table, ColumnList(ReportBase, t.caps), f, PageOf(req), PerPageOf(req)),
      CountQuery(t.table, f),
      TotalQuery(t.table, f),
      if !Present(req.district) && t.caps.hasDistrict then Some(DistrictChartQuery(t.table)) else None,
      if Present(req.district) && t.caps.hasSite then Some(SiteChartQuery(t.table, req.district.value)) else None,
      HabitatChartQuery(t.table),
      if |parts| > 0 then Some(PopulationQuery(t.table, parts)) else None)
  }

  /** Builds the plan as the handler does: filter, column list, page clause, then each query. */
  method BuildReportPlan(t: Target, req: Request) returns (plan: ReportPlan)
    ensures plan == PlanReport(t, req)
  {
    var where, params := BuildFilter(req.district, t.caps);
    var columns := BuildColumns(ReportBase, t.caps);
    var page := PageOf(req);
    var perPage := PerPageOf(req);
    var dataQuery := Query(false, columns, t.table, where, None, Some("gid"),
                           LimitOffset(|params| + 1, |params| + 2),
                           params + [Number(perPage as real), Number(((page - 1) * perPage) as real)]);
    var districtChart: Option<Query> := None;
    var siteChart: Option<Query> := None;
    if !Present(req.district) && t.caps.hasDistrict {
      districtChart := Some(DistrictChartQuery(t.table));
    }
    if Present(req.district) && t.caps.hasSite {
      siteChart := Some(SiteChartQuery(t.table, req.district.value));
    }
    var parts := BuildPopulationParts(t.caps);
    var population: Option<Query> := None;
    if |parts| > 0 {
      population := Some(PopulationQuery(t.table, parts));
    }
    plan := ReportPlan(dataQuery, CountQuery(t.table, Filter(where, params)), TotalQuery(t.table, Filter(where, params)),
                       districtChart, siteChart, HabitatChartQuery(t.table), population);
  }

  datatype Charts = Charts(
    district: seq<Record>,
    site: seq<Record>,
    habitat: seq<Record>,
    population: Option<Record>)   // None: `rows[0]` of an empty result, i.e. undefined

  datatype ReportBody = ReportBody(
    rows: seq<Record>,
    totalRows: Value,
    total: Value,
    charts: Charts)

  datatype ReportReply =
    | ReportJson(body: ReportBody)    // 200
    | ReportRejected(error: string)   // 400, { error }
    | ReportFailed(error: string)     // 500, { error }

  function ReportStatus(r: ReportReply): nat {
    match r
    case ReportJson(_) => 200
    case ReportRejected(_) => 400
    case ReportFailed(_) => 500
  }

  const InvalidSarusTable: string := "Invalid Sarus table"

  /** The messages of the TypeError thrown by `rows[0].total_rows` and `rows[0].sarus_count`
      on an empty result. */
  const CountRowMissing: string := "Cannot read properties of undefined (reading 'total_rows')"
  const TotalRowMissing: string := "Cannot read properties of undefined (reading 'sarus_count')"

  /** A conditional chart: the `let` keeps its initial `[]` when the query is not issued. */
  function ChartRows(q: Option<Query>, db: Query -> DbResult): DbResult {
    match q
    case None => Rows([])
    case Some(q) => db(q)
  }

  function Issue(issued: seq<Query>, q: Option<Query>): seq<Query> {
    match q
    case None => issued
    case Some(q) => issued + [q]
  }

  /** The awaits of /report in order; the first rejected query ends the handler with a 500. */
  function ReportRun(plan: ReportPlan, db: Query -> DbResult): Outcome<ReportReply> {
    var i1 := [plan.data];
    match db(plan.data)
    case DbError(m) => Outcome(ReportFailed(m), i1)
    case Rows(rows) =>
      var i2 := i1 + [plan.count];
      match db(plan.count)
      case DbError(m) => Outcome(ReportFailed(m), i2)
      case Rows(countRows) =>
        var i3 := i2 + [plan.total];
        match db(plan.total)
        case DbError(m) => Outcome(ReportFailed(m), i3)
        case Rows(totalRows) =>
          var i4 := Issue(i3, plan.districtChart);
          match ChartRows(plan.districtChart, db)
          case DbError(m) => Outcome(ReportFailed(m), i4)
          case Rows(districtChart) =>
            var i5 := Issue(i4, plan.siteChart);
            match ChartRows(plan.siteChart, db)
            case DbError(m) => Outcome(ReportFailed(m), i5)
            case Rows(siteChart) =>
              var i6 := i5 + [plan.habitat];
              match db(plan.habitat)
              case DbError(m) => Outcome(ReportFailed(m), i6)
              case Rows(habitatChart) =>
                var i7 := Issue(i6, plan.population);
                match ChartRows(plan.population, db)
                case DbError(m) => Outcome(ReportFailed(m), i7)
                case Rows(popRows) =>
                  var population :=
                    if plan.population.None? then Some([])
                    else if popRows == [] then None
                    else Some(popRows[0]);
                  if countRows == [] then Outcome(ReportFailed(CountRowMissing), i7)
                  else if totalRows == [] then Outcome(ReportFailed(TotalRowMissing), i7)
                  else Outcome(ReportJson(ReportBody(rows, Get(countRows[0], "total_rows"),
                                                     Get(totalRows[0], "sarus_count"),
                                                     Charts(districtChart, siteChart, habitatChart, population))), i7)
  }

  function ReportOutcome(tableMap: map<string, string>, req: Request, db: Query -> DbResult): Outcome<ReportReply> {
    match ResolveAsWritten(tableMap, TableKey(req))
    case None => Outcome(ReportRejected(InvalidSarusTable), [])
    case Some(t) => ReportRun(PlanReport(t, req), db)
  }

  /** The /report handler. */
  method Report(tableMap: map<string, string>, req: Request, db: Query -> DbResult)
    returns (reply: ReportReply, issued: seq<Query>)
    ensures Outcome(reply, issued) == ReportOutcome(tableMap, req, db)
  {
    var target := ResolveAsWritten(tableMap, TableKey(req));
    if target.None? {
      return ReportRejected(InvalidSarusTable), [];
    }
    var plan := BuildReportPlan(target.value, req);

    issued := [plan.data];
    var rows := db(plan.data);
    if rows.DbError? { return ReportFailed(rows.message), issued; }

    issued := issued + [plan.count];
    var countResult := db(plan.count);
    if countResult.DbError? { return ReportFailed(countResult.message), issued; }

    issued := issued + [plan.total];
    var total := db(plan.total);
    if total.DbError? { return ReportFailed(total.message), issued; }

    var districtChart: seq<Record> := [];
    var siteChart: seq<Record> := [];
    if plan.districtChart.Some? {
      issued := issued + [plan.districtChart.value];
      var r := db(plan.districtChart.value);
      if r.DbError? { return ReportFailed(r.message), issued; }
      districtChart := r.rows;
    }
    if plan.siteChart.Some? {
      issued := issued + [plan.siteChart.value];
      var r := db(plan.siteChart.value);
      if r.DbError? { return ReportFailed(r.message), issued; }
      siteChart := r.rows;
    }

    issued := issued + [plan.habitat];
    var habitat := db(plan.habitat);
    if habitat.DbError? { return ReportFailed(habitat.message), issued; }

    var population: Option<Record> := Some([]);
    if plan.population.Some? {
      issued := issued + [plan.population.value];
      var r := db(plan.population.value);
      if r.DbError? { return ReportFailed(r.message), issued; }
      population := if r.rows == [] then None else Some(r.rows[0]);
    }

    if countResult.rows == [] { return ReportFailed(CountRowMissing), issued; }
    if total.rows == [] { return ReportFailed(TotalRowMissing), issued; }
    reply := ReportJson(ReportBody(rows.rows, Get(countResult.rows[0], "total_rows"),
                                   Get(total.rows[0], "sarus_count"),
                                   Charts(districtChart, siteChart, habitat.rows, population)));
  }

  /** A run always starts by issuing the data query, and never answers 400. */
  lemma ReportRunIssuesDataFirst(plan: ReportPlan, db: Query -> DbResult)
    ensures var o := ReportRun(plan, db);
      |o.issued| >= 1 && o.issued[0] == plan.data && !o.reply.ReportRejected?
  {
    var o := ReportRun(plan, db);
    if db(plan.data).Rows? && db(plan.count).Rows? && db(plan.total).Rows? {
      var i3 := [plan.data] + [plan.count] + [plan.total];
      assert o.issued[..3] == i3 by {
        if ChartRows(plan.districtChart, db).Rows? && ChartRows(plan.siteChart, db).Rows? && db(plan.habitat).Rows? {
          var i6 := Issue(Issue(i3, plan.districtChart), plan.siteChart) + [plan.habitat];
          assert i6[..3] == i3;
          assert o.issued == Issue(i6, plan.population);
        }
      }
      assert o.issued[0] == o.issued[..3][0];
    }
  }

  /** An unknown table is answered with 400 before any query is issued; a known one always
      issues its data query first. */
  lemma ReportRejectsBeforeAnyQuery(tableMap: map<string, string>, req: Request, db: Query -> DbResult)
    ensures var o := ReportOutcome(tableMap, req, db);
      (ReportStatus(o.reply) == 400 <==> !GuardPassesAsWritten(tableMap, TableKey(req)))
      && (ReportStatus(o.reply) == 400 ==> o.reply == ReportRejected(InvalidSarusTable) && o.issued == [])
      && (ReportStatus(o.reply) != 400 ==> o.issued != [] && o.issued[0] == PlanReport(ResolveAsWritten(tableMap, TableKey(req)).value, req).data)
  {
    if ResolveAsWritten(tableMap, TableKey(req)).Some? {
      ReportRunIssuesDataFirst(PlanReport(ResolveAsWritten(tableMap, TableKey(req)).value, req), db);
    }
  }

  /** The data, count and total queries carry one and the same filter: the same WHERE form and
      the same district binding, which the data query extends only with its page values. */
  lemma ReportFilterShared(t: Target, req: Request)
    ensures var plan := PlanReport(t, req); var f := FilterFor(req.district, t.caps);
      plan.data.where == f.where && plan.count.where == f.where && plan.total.where == f.where
      && plan.count.params == f.params && plan.total.params == f.params
      && plan.data.params[..|f.params|] == f.params
  {
    var plan := PlanReport(t, req);
    var f := FilterFor(req.district, t.caps);
    assert plan.data.params[..|f.params|] == f.params;
  }

  /** Every query of the plan binds exactly the placeholders its text uses. */
  lemma ReportQueriesWellBound(t: Target, req: Request)
    ensures var plan := PlanReport(t, req);
      WellBound(plan.data) && WellBound(plan.count) && WellBound(plan.total) && WellBound(plan.habitat)
      && (plan.districtChart.Some? ==> WellBound(plan.districtChart.value))
      && (plan.siteChart.Some? ==> WellBound(plan.siteChart.value))
      && (plan.population.Some? ==> WellBound(plan.population.value))
  {
    var plan := PlanReport(t, req);
    var f := FilterFor(req.district, t.caps);
    PagedQueryBinding(t.table, ColumnList(ReportBase, t.caps), req.district, t.caps, PageOf(req), PerPageOf(req));
    FilteredQueriesWellBound(t.table, f);
    assert plan.count == CountQuery(t.table, f) && plan.total == TotalQuery(t.table, f);
    assert WellBound(plan.habitat);
    assert plan.districtChart.Some? ==> WellBound(plan.districtChart.value);
    assert plan.siteChart.Some? ==> WellBound(plan.siteChart.value);
  }

  lemma FilteredQueriesWellBound(table: string, f: Filter)
    requires f == Filter(NoWhere, []) || exists d :: f == Filter(DistrictEquals(1), [Text(d)])
    ensures WellBound(CountQuery(table, f)) && WellBound(TotalQuery(table, f))
  {
  }

  /** Without `page` and `per_page` the first 25 rows are asked for: LIMIT 25 OFFSET 0. */
  lemma ReportDefaultPage(t: Target, req: Request)
    requires req.page.None? && req.perPage.None?
    ensures var q := PlanReport(t, req).data;
      q.page.LimitOffset? && Bound(q, q.page.limitSlot) == Number(25 as real) && Bound(q, q.page.offsetSlot) == Number(0 as real)
  {
    var q := PlanReport(t, req).data;
    PagedQueryBinding(t.table, ColumnList(ReportBase, t.caps), req.district, t.caps, 1, 25);
    assert Offset(1, 25) == 0;
  }

  /** The SQL text of every query depends only on whether a district is given, never on its
      value: the value reaches the database only as a bound parameter. */
  lemma ReportTextIgnoresDistrictValue(t: Target, r1: Request, r2: Request)
    requires Present(r1.district) == Present(r2.district)
    requires r1.page == r2.page && r1.perPage == r2.perPage
    ensures var p1 := PlanReport(t, r1); var p2 := PlanReport(t, r2);
      Statement(p1.data) == Statement(p2.data) && Statement(p1.count) == Statement(p2.count)
      && Statement(p1.total) == Statement(p2.total)
      && p1.districtChart == p2.districtChart
      && p1.siteChart.Some? == p2.siteChart.Some?
      && (p1.siteChart.Some? ==> Statement(p1.siteChart.value) == Statement(p2.siteChart.value))
      && p1.habitat == p2.habitat && p1.population == p2.population
  {
    FilterTextIgnoresValue(r1.district, r2.district, t.caps);
  }

  /** The two chart queries are chosen by opposite conditions on the district: at most one is
      issued, the district chart exactly when no district is given to a table with districts,
      the site chart exactly when one is given to a table with sites. */
  lemma ChartsExclusive(t: Target, req: Request)
    ensures var plan := PlanReport(t, req);
      !(plan.districtChart.Some? && plan.siteChart.Some?)
      && (plan.districtChart.Some? <==> !Present(req.district) && t.caps.hasDistrict)
      && (plan.siteChart.Some? <==> Present(req.district) && t.caps.hasSite)
  {
  }

  /** In a successful reply at least one of the district and site charts is empty. */
  lemma ReplyChartsExclusive(t: Target, req: Request, db: Query -> DbResult)
    ensures var o := ReportRun(PlanReport(t, req), db);
      o.reply.ReportJson? ==> o.reply.body.charts.district == [] || o.reply.body.charts.site == []
  {
    ChartsExclusive(t, req);
    ReportRunCharts(PlanReport(t, req), db);
  }

  /** A chart that is not planned is answered as its initial `[]`. */
  lemma ReportRunCharts(plan: ReportPlan, db: Query -> DbResult)
    ensures var o := ReportRun(plan, db);
      o.reply.ReportJson? ==>
        (plan.districtChart.None? ==> o.reply.body.charts.district == [])
        && (plan.siteChart.None? ==> o.reply.body.charts.site == [])
  {
  }

  /** The population query is issued exactly when the table has one of the three flags; without
      any the reply carries `{}`. */
  lemma PopulationOnlyWithParts(t: Target, req: Request, db: Query -> DbResult)
    ensures var plan := PlanReport(t, req);
      (plan.population.Some? <==> t.caps.hasAdults || t.caps.hasJuvenile || t.caps.hasNests)
      && (plan.population.Some? ==> plan.population.value.select == PopulationParts(t.caps))
    ensures var o := ReportRun(PlanReport(t, req), db);
      o.reply.ReportJson? && PlanReport(t, req).population.None? ==> o.reply.body.charts.population == Some([])
  {
    PopulationInOrder(t.caps);
    assert |PopulationParts(t.caps)| > 0 <==> t.caps.hasAdults || t.caps.hasJuvenile || t.caps.hasNests;
  }

  /** The count and the total do not depend on the page asked for. */
  lemma TotalsIgnorePage(t: Target, r1: Request, r2: Request)
    requires r1.district == r2.district
    ensures PlanReport(t, r1).count == PlanReport(t, r2).count
    ensures PlanReport(t, r1).total == PlanReport(t, r2).total
  {
  }

  /** The request for page `page` at `perPage` rows a page, everything else as in `req`. */
  function AtPage(req: Request, page: int, perPage: nat): Request {
    req.(page := Some(page), perPage := Some(perPage))
  }

  /** Page `page` >= 1 of the data query returns the window of the counted rows that its bound
      LIMIT and OFFSET select: `perPage` rows from offset (page - 1) * perPage. */
  lemma DataPageIsWindow(t: Target, req: Request, tableRows: seq<Record>, page: int, perPage: nat)
    requires page >= 1
    ensures WellBound(PlanReport(t, AtPage(req, page, perPage)).data)
    ensures Returned(PlanReport(t, AtPage(req, page, perPage)).data, tableRows)
         == Window(CountedRows(t, AtPage(req, page, perPage), tableRows), perPage, (page - 1) * perPage)
  {
    var f := FilterFor(req.district, t.caps);
    var plan := PlanReport(t, AtPage(req, page, perPage));
    assert plan.data == PagedQuery(t.table, ColumnList(ReportBase, t.caps), f, page, perPage);
    assert plan.count.where == f.where && plan.count.params == f.params;
    PagedQueryReturns(t.table, ColumnList(ReportBase, t.caps), req.district, t.caps, tableRows, page, perPage);
  }

  /** Each page of the data query holds at most `per_page` rows. */
  lemma PageHoldsAtMostPerPage(t: Target, req: Request, tableRows: seq<Record>, page: int, perPage: nat)
    ensures WellBound(PlanReport(t, AtPage(req, page, perPage)).data)
    ensures |Returned(PlanReport(t, AtPage(req, page, perPage)).data, tableRows)| <= perPage
  {
    var f := FilterFor(req.district, t.caps);
    assert PlanReport(t, AtPage(req, page, perPage)).data == PagedQuery(t.table, ColumnList(ReportBase, t.caps), f, page, perPage);
    PagedQuerySize(t.table, ColumnList(ReportBase, t.caps), req.district, t.caps, tableRows, page, perPage);
  }

  /** What pages 1 .. count of the data query return, concatenated in page order. */
  function PagedRows(t: Target, req: Request, tableRows: seq<Record>, perPage: nat, count: nat): seq<Record> {
    if count == 0 then []
    else
      PageHoldsAtMostPerPage(t, req, tableRows, count, perPage);
      PagedRows(t, req, tableRows, perPage, count - 1) + Returned(PlanReport(t, AtPage(req, count, perPage)).data, tableRows)
  }

  /** The rows the count query of the plan counts, in gid order. */
  function CountedRows(t: Target, req: Request, tableRows: seq<Record>): seq<Record> {
    var plan := PlanReport(t, req);
    Matching(plan.count.where, plan.count.params, tableRows)
  }

  lemma {:induction false} PagedRowsArePages(t: Target, req: Request, tableRows: seq<Record>, perPage: nat, count: nat)
    ensures PagedRows(t, req, tableRows, perPage, count) == Pages(CountedRows(t, req, tableRows), perPage, count)
  {
    if count > 0 {
      var counted := CountedRows(t, req, tableRows);
      PagedRowsArePages(t, req, tableRows, perPage, count - 1);
      DataPageIsWindow(t, req, tableRows, count, perPage);
      CountedRowsIgnorePage(t, req, tableRows, count, perPage);
    }
  }

  lemma CountedRowsIgnorePage(t: Target, req: Request, tableRows: seq<Record>, page: int, perPage: nat)
    ensures CountedRows(t, AtPage(req, page, perPage), tableRows) == CountedRows(t, req, tableRows)
  {
    TotalsIgnorePage(t, AtPage(req, page, perPage), req);
  }

  /** The data query pages through exactly the rows the count query counts: for a table whose
      rows are in gid order, asking for pages 1 .. ceil(n / per_page), n the number of counted
      rows, with the LIMIT and OFFSET the handler binds, gives back every counted row once, in
      order. */
  lemma PagesCoverCountedRows(t: Target, req: Request, tableRows: seq<Record>, perPage: nat)
    requires perPage > 0
    ensures PagedRows(t, req, tableRows, perPage, PageCount(|CountedRows(t, req, tableRows)|, perPage))
         == CountedRows(t, req, tableRows)
  {
    var counted := CountedRows(t, req, tableRows);
    PagedRowsArePages(t, req, tableRows, perPage, PageCount(|counted|, perPage));
    PaginationLaw(counted, perPage);
  }

  /** The site chart's own `WHERE district = $1` is the report filter itself: for every schema
      table with sites, the rows it groups are the rows the report counts. */
  lemma SiteChartUsesReportFilter(t: Target, req: Request, tableRows: seq<Record>)
    requires exists k :: k in SCHEMA && t.caps == CapabilitiesOf(SCHEMA[k])
    requires PlanReport(t, req).siteChart.Some?
    ensures var plan := PlanReport(t, req);
      Matching(plan.siteChart.value.where, plan.siteChart.value.params, tableRows)
        == Matching(plan.count.where, plan.count.params, tableRows)
  {
    var k :| k in SCHEMA && t.caps == CapabilitiesOf(SCHEMA[k]);
    SiteImpliesDistrict(k);
    assert Config(k) == Some(t.caps);
  }

  /* ================= /export ================= */

  /** `{ header, key, width }` of one spreadsheet column. */
  datatype SheetColumn = SheetColumn(header: string, key: string, width: nat)

  /** One text line of the PDF: the serial, counted from 1, and the row it prints as JSON. */
  datatype PdfLine = PdfLine(serial: nat, row: Record)

  datatype Document =
    | Csv(rows: seq<Record>)
    | Workbook(sheet: string, columns: seq<SheetColumn>, cells: seq<seq<Value>>)
    | Pdf(title: string, lines: seq<PdfLine>)

  datatype ExportReply =
    | ExportRejected(text: string)   // 400
    | ExportNotFound(text: string)   // 404
    | ExportFailed(text: string)     // 500, the error's message as text
    | Attachment(contentType: string, filename: string, document: Document)   // 200
    | NoReply                        // an unknown format: nothing is sent

  const InvalidTable: string := "Invalid table"
  const NoDataFound: string := "No data found"
  const SheetName: string := "Sarus Report"
  const PdfTitle: string := "RSAC Sarus Crane Report"
  const ColumnWidth: nat := 22
  const CsvType: string := "text/csv"
  const XlsxType: string := "application/vnd.openxmlformats-officedocument.spreadsheetml.sheet"
  const PdfType: string := "application/pdf"

  /** The export format: csv when the field is absent, otherwise the field as given (an empty
      one included, since the default applies only to an absent field). */
  function FormatOf(req: Request): (format: string)
    ensures req.format.None? ==> format == "csv"
    ensures req.format.Some? ==> format == req.format.value
  {
    req.format.GetOr("csv")
  }

  /** The export query: the export columns under the report's filter, in gid order, unpaged. */
  function ExportQuery(t: Target, district: Option<string>): Query {
    var f := FilterFor(district, t.caps);
    Query(false, ColumnList(ExportBase, t.caps), t.table, f.where, None, Some("gid"), Unpaged, f.params)
  }

  method BuildExportQuery(t: Target, district: Option<string>) returns (q: Query)
    ensures q == ExportQuery(t, district)
  {
    var where, params := BuildFilter(district, t.caps);
    var cols := BuildColumns(ExportBase, t.caps);
    q := Query(false, cols, t.table, where, None, Some("gid"), Unpaged, params);
  }

  /** The sheet columns, taken from the keys of the first row: one column per key, in key order,
      22 wide, headed by the key as written (upper-cased, its first underscore a space). */
  function SheetColumns(keys: seq<string>): (cols: seq<SheetColumn>)
    ensures |cols| == |keys|
    ensures forall i :: 0 <= i < |keys| ==> cols[i].key == keys[i] && cols[i].width == ColumnWidth
    ensures forall i :: 0 <= i < |keys| ==>
              |cols[i].header| == |keys[i]|
              && (IndexOf(keys[i], '_') < |keys[i]| ==> cols[i].header[IndexOf(keys[i], '_')] == ' ')
    ensures forall i :: 0 <= i < |keys| ==> cols[i].header == HeaderAsWritten(keys[i])
  {
    seq(|keys|, i requires 0 <= i < |keys| => SheetColumn(HeaderAsWritten(keys[i]), keys[i], ColumnWidth))
  }

  /** `sheet.addRow(r)`: the row's values under the sheet's column keys, in column order;
      a key the row lacks gives an empty cell. */
  function Cells(r: Record, keys: seq<string>): seq<Value> {
    seq(|keys|, j requires 0 <= j < |keys| => Get(r, keys[j]))
  }

  /** A row whose keys are the sheet's keys keeps all its values, in its own order. */
  lemma CellsOfShapedRow(r: Record, keys: seq<string>)
    requires Keys(r) == keys && Distinct(keys)
    ensures Cells(r, keys) == seq(|r|, i requires 0 <= i < |r| => r[i].1)
  {
    forall i | 0 <= i < |r| ensures Cells(r, keys)[i] == r[i].1 {
      GetAt(r, i);
    }
  }

  /** Adds one sheet row per data row, in order. */
  method AddRows(data: seq<Record>, keys: seq<string>) returns (cells: seq<seq<Value>>)
    ensures |cells| == |data|
    ensures forall i :: 0 <= i < |data| ==> cells[i] == Cells(data[i], keys)
  {
    cells := [];
    var i := 0;
    while i < |data|
      invariant 0 <= i <= |data|
      invariant |cells| == i
      invariant forall j :: 0 <= j < i ==> cells[j] == Cells(data[j], keys)
    {
      cells := cells + [Cells(data[i], keys)];
      i := i + 1;
    }
  }

  /** Writes one PDF line per data row, in order, numbered from 1. */
  method WritePdfLines(data: seq<Record>) returns (lines: seq<PdfLine>)
    ensures |lines| == |data|
    ensures forall i :: 0 <= i < |data| ==> lines[i] == PdfLine(i + 1, data[i])
  {
    lines := [];
    var i := 0;
    while i < |data|
      invariant 0 <= i <= |data|
      invariant |lines| == i
      invariant forall j :: 0 <= j < i ==> lines[j] == PdfLine(j + 1, data[j])
    {
      lines := lines + [PdfLine(i + 1, data[i])];
      i := i + 1;
    }
  }

  function SheetCells(data: seq<Record>, keys: seq<string>): seq<seq<Value>> {
    seq(|data|, i requires 0 <= i < |data| => Cells(data[i], keys))
  }

  function PdfLines(data: seq<Record>): seq<PdfLine> {
    seq(|data|, i requires 0 <= i < |data| => PdfLine(i + 1, data[i]))
  }

  /** The PDF numbers its lines from 1 up to the number of rows, with no gap and no number
      twice: each serial is one more than the one before, and the last is the row count. */
  lemma PdfSerialsCount(data: seq<Record>)
    ensures data != [] ==> PdfLines(data)[0].serial == 1 && PdfLines(data)[|data| - 1].serial == |data|
    ensures forall i :: 0 < i < |data| ==> PdfLines(data)[i].serial == PdfLines(data)[i - 1].serial + 1
    ensures forall i, j :: 0 <= i < j < |data| ==> PdfLines(data)[i].serial < PdfLines(data)[j].serial
  {
  }

  /** The document for a non-empty result in a known format. */
  function ExportDocument(format: string, data: seq<Record>): ExportReply
    requires data != []
  {
    if format == "csv" then Attachment(CsvType, "sarus_report.csv", Csv(data))
    else if format == "excel" then
      Attachment(XlsxType, "sarus_report.xlsx",
                 Workbook(SheetName, SheetColumns(Keys(data[0])), SheetCells(data, Keys(data[0]))))
    else if format == "pdf" then Attachment(PdfType, "sarus_report.pdf", Pdf(PdfTitle, PdfLines(data)))
    else NoReply
  }

  function ExportOutcome(tableMap: map<string, string>, req: Request, db: Query -> DbResult): Outcome<ExportReply> {
    match ResolveAsWritten(tableMap, TableKey(req))
    case None => Outcome(ExportRejected(InvalidTable), [])
    case Some(t) =>
      var q := ExportQuery(t, req.district);
      match db(q)
      case DbError(m) => Outcome(ExportFailed(m), [q])
      case Rows(data) =>
        if data == [] then Outcome(ExportNotFound(NoDataFound), [q])
        else Outcome(ExportDocument(FormatOf(req), data), [q])
  }

  /** Renders a non-empty result in the requested format. */
  method RenderDocument(format: string, data: seq<Record>) returns (reply: ExportReply)
    requires data != []
    ensures reply == ExportDocument(format, data)
  {
    if format == "csv" {
      return Attachment(CsvType, "sarus_report.csv", Csv(data));
    }
    if format == "excel" {
      var keys := Keys(data[0]);
      var cells := AddRows(data, keys);
      assert cells == SheetCells(data, keys);
      return Attachment(XlsxType, "sarus_report.xlsx", Workbook(SheetName, SheetColumns(keys), cells));
    }
    if format == "pdf" {
      var lines := WritePdfLines(data);
      assert lines == PdfLines(data);
      return Attachment(PdfType, "sarus_report.pdf", Pdf(PdfTitle, lines));
    }
    reply := NoReply;
  }

  /** The /export handler. */
  method Export(tableMap: map<string, string>, req: Request, db: Query -> DbResult)
    returns (reply: ExportReply, issued: seq<Query>)
    ensures Outcome(reply, issued) == ExportOutcome(tableMap, req, db)
  {
    var target := ResolveAsWritten(tableMap, TableKey(req));
    if target.None? {
      return ExportRejected(InvalidTable), [];
    }
    var q := BuildExportQuery(target.value, req.district);
    issued := [q];
    var result := db(q);
    if result.DbError? {
      return ExportFailed(result.message), issued;
    }
    var data := result.rows;
    if |data| == 0 {
      return ExportNotFound(NoDataFound), issued;
    }
    reply := RenderDocument(FormatOf(req), data);
  }

  /** An unknown table is answered with 400 before any query; otherwise exactly one unpaged query,
      in gid order, with the same filter as the report. */
  lemma ExportSingleQuery(tableMap: map<string, string>, req: Request, db: Query -> DbResult)
    ensures var o := ExportOutcome(tableMap, req, db);
      (o.issued == [] <==> !GuardPassesAsWritten(tableMap, TableKey(req)))
      && (o.issued == [] ==> o.reply == ExportRejected(InvalidTable))
    ensures var o := ExportOutcome(tableMap, req, db);
      o.issued != [] ==>
        var t := ResolveAsWritten(tableMap, TableKey(req)).value; var q := o.issued[0];
        |o.issued| == 1 && q.page == Unpaged && q.orderBy == Some("gid") && WellBound(q)
        && q.where == PlanReport(t, req).count.where && q.params == PlanReport(t, req).count.params
        && q.select == ColumnList(ExportBase, t.caps)
  {
    var r := ResolveAsWritten(tableMap, TableKey(req));
    if r.Some? {
      ExportQueryShape(r.value, req);
      assert ExportOutcome(tableMap, req, db).issued == [ExportQuery(r.value, req.district)];
    }
  }

  lemma ExportQueryShape(t: Target, req: Request)
    ensures var q := ExportQuery(t, req.district);
      q.page == Unpaged && q.orderBy == Some("gid") && WellBound(q)
      && q.where == PlanReport(t, req).count.where && q.params == PlanReport(t, req).count.params
      && q.select == ColumnList(ExportBase, t.caps)
  {
  }

  /** As written, a name every object inherits passes the guard of /report and /export although
      own-key resolution rejects it: /report issues its data query and /export its one query,
      over the table map's own entry or else the inherited member's text, with no flag set. */
  lemma InheritedKeyReachesDatabase(tableMap: map<string, string>, req: Request, db: Query -> DbResult)
    requires TableKey(req) in ObjectPrototypeMembers
    requires TableKey(req) in tableMap ==> tableMap[TableKey(req)] != ""
    ensures Resolve(tableMap, TableKey(req)).None?
    ensures var key := TableKey(req);
      var t := Target(if key in tableMap then tableMap[key] else InheritedText(key), CapabilitiesOf(map[]));
      var o := ReportOutcome(tableMap, req, db);
      o.issued != [] && o.issued[0] == PlanReport(t, req).data && ReportStatus(o.reply) != 400
    ensures var key := TableKey(req);
      var t := Target(if key in tableMap then tableMap[key] else InheritedText(key), CapabilitiesOf(map[]));
      ExportOutcome(tableMap, req, db).issued == [ExportQuery(t, req.district)]
  {
    var key := TableKey(req);
    assert key !in SCHEMA;
    var t := Target(if key in tableMap then tableMap[key] else InheritedText(key), CapabilitiesOf(map[]));
    assert ResolveAsWritten(tableMap, key) == Some(t);
    assert ReportOutcome(tableMap, req, db) == ReportRun(PlanReport(t, req), db);
    ReportRunIssuesDataFirst(PlanReport(t, req), db);
    assert ExportOutcome(tableMap, req, db).issued == [ExportQuery(t, req.district)];
  }

  /** A request without `table` gets an empty district list, a 400 from /report and a 400 from
      /export, with no query issued, whatever the table map holds. */
  lemma AbsentTableRejected(tableMap: map<string, string>, req: Request, db: Query -> DbResult)
    requires req.table.None?
    ensures DistrictsRun(tableMap, req, db) == Outcome(DistrictNames([]), [])
    ensures ReportOutcome(tableMap, req, db) == Outcome(ReportRejected(InvalidSarusTable), [])
    ensures ExportOutcome(tableMap, req, db) == Outcome(ExportRejected(InvalidTable), [])
  {
    assert !GuardPassesAsWritten(tableMap, TableKey(req));
  }

  /** An empty result is a 404 with no document; a non-empty one never is. */
  lemma ExportEmptyIsNotFound(tableMap: map<string, string>, req: Request, db: Query -> DbResult)
    requires ResolveAsWritten(tableMap, TableKey(req)).Some?
    requires db(ExportQuery(ResolveAsWritten(tableMap, TableKey(req)).value, req.district)).Rows?
    ensures var data := db(ExportQuery(ResolveAsWritten(tableMap, TableKey(req)).value, req.district)).rows;
      ExportOutcome(tableMap, req, db).reply.ExportNotFound? <==> data == []
    ensures ExportOutcome(tableMap, req, db).reply.ExportNotFound? ==>
              ExportOutcome(tableMap, req, db).reply == ExportNotFound(NoDataFound)
  {
  }

  /** The format picks the document: csv (also when absent), excel or pdf; anything else sends
      nothing. */
  lemma ExportFormats(format: string, data: seq<Record>)
    requires data != []
    ensures ExportDocument(format, data).Attachment? <==> format in {"csv", "excel", "pdf"}
    ensures format == "csv" ==> ExportDocument(format, data).document == Csv(data)
    ensures format == "excel" ==> ExportDocument(format, data).document.Workbook?
                                  && ExportDocument(format, data).filename == "sarus_report.xlsx"
    ensures format == "pdf" ==> ExportDocument(format, data).document == Pdf(PdfTitle, PdfLines(data))
  {
  }

  /** When the rows carry the output names of the export columns, the spreadsheet has one column
      per selected column, in select order, keyed by its output name and headed by it upper-cased
      with its first underscore a space, and every cell of a row under the right key; every
      header but that of `name_of_co` already has all its underscores turned into spaces. */
  lemma WorkbookFollowsColumns(t: Target, data: seq<Record>)
    requires data != []
    requires forall r :: r in data ==> Keys(r) == OutputKeys(ColumnList(ExportBase, t.caps))
    ensures var keys := OutputKeys(ColumnList(ExportBase, t.caps));
      var doc := ExportDocument("excel", data).document;
      |doc.columns| == |ColumnList(ExportBase, t.caps)|
      && (forall i :: 0 <= i < |keys| ==> doc.columns[i].key == keys[i] && doc.columns[i].header == HeaderAsWritten(keys[i]))
      && |doc.cells| == |data|
      && (forall i :: 0 <= i < |data| ==> doc.cells[i] == Cells(data[i], keys))
    ensures var keys := OutputKeys(ColumnList(ExportBase, t.caps));
      forall i :: 0 <= i < |keys| && keys[i] != "name_of_co" ==> ExportDocument("excel", data).document.columns[i].header == Header(keys[i])
  {
    assert data[0] in data;
    var keys := OutputKeys(ColumnList(ExportBase, t.caps));
    forall i | 0 <= i < |keys| && keys[i] != "name_of_co"
      ensures HeaderAsWritten(keys[i]) == Header(keys[i])
    {
      ExportOutputKey(t.caps, ColumnList(ExportBase, t.caps)[i]);
      ExportHeaderAsIntended(keys[i]);
    }
  }

  /** The output names of the export columns. */
  const ExportKeys: set<string> := {
    "sno", "habitat", "sarus_count", "latitude", "longitude", "district", "site",
    "range_fore", "name_of_co", "adults", "juvenile", "nests"}

  lemma ExportOutputKey(caps: Capabilities, x: Column)
    requires x in ColumnList(ExportBase, caps)
    ensures OutputKey(x) in ExportKeys
  {
    OptionalMembership(ExportBase, caps, x);
    if x !in ExportBase && x != DistrictColumn {
      var e := OptionalColumns(caps);
      var j :| 0 <= j < |e| && e[j] == (x, true);
      assert x in [SiteColumn, RangeColumn, ColonyColumn, AdultsColumn, JuvenileColumn, NestsColumn];
    }
  }

  /** Only `name_of_co` has two underscores among the export keys, so only its header keeps one. */
  lemma ExportHeaderAsIntended(k: string)
    requires k in ExportKeys && k != "name_of_co"
    ensures HeaderAsWritten(k) == Header(k)
  {
    if k == "sarus_count" {
      HeadersAgreeAround("sarus", "count");
      assert "sarus" + "_" + "count" == k;
    } else if k == "range_fore" {
      HeadersAgreeAround("range", "fore");
      assert "range" + "_" + "fore" == k;
    } else {
      HeadersAgreeWithoutUnderscore(k);
    }
  }

  /** The Lucknow export has a `name_of_co` column; as written its header keeps an underscore,
      corrected it reads NAME OF CO. */
  lemma LucknowColonyHeader(t: Target)
    requires t.caps == Config(Lucknow).value
    ensures ColonyColumn in ColumnList(ExportBase, t.caps) && OutputKey(ColonyColumn) == "name_of_co"
    ensures HeaderAsWritten(OutputKey(ColonyColumn)) == "NAME OF_CO"
    ensures Header(OutputKey(ColonyColumn)) == "NAME OF CO"
  {
    LucknowColumnLists(ExportBase);
    var tail := [RangeColumn, ColonyColumn, AdultsColumn, JuvenileColumn, NestsColumn];
    assert ColumnList(ExportBase, t.caps)[|ExportBase| + 1] == ColonyColumn;
    HeaderAsWrittenKeepsSecondUnderscore();
  }
}
