# Sarus crane report backend: query decisions and display-row mapping

This project models the Sarus crane part of the RSAC dashboard backend. The
backend is an Express service over a PostGIS database of survey tables. The
model covers three things:

- the decisions of the three Sarus endpoints:
  - `/districts` fills the district dropdown;
  - `/report` returns one page of rows, the row count, the crane total, the
    district or site chart, the habitat chart and the population summary;
  - `/export` writes every filtered row as CSV, an Excel workbook or a PDF;
- the `SCHEMA` capability table. It says, for each dataset key, which
  optional columns that dataset's physical table has;
- `normalizeColumns`, which turns a database row into a display row.

How the model is built:

- SQL is modelled as structure, not text. A query is its select list, table,
  WHERE form, grouping, ordering, LIMIT/OFFSET placeholders and bound
  parameters.
- The database is an oracle from a query to its rows or to an error message.
- Each handler returns its reply together with the queries it issued, in the
  order it awaited them.
- Each builder the handlers write step by step is a method proved equal to a
  declarative definition. This covers the reassigned `where`, pushed
  `params`, `unshift`/`push` column lists, pushed `popParts` and conditional
  chart `let`s, plus each `forEach` over the rows. The properties are lemmas
  about those definitions.
- JavaScript objects are ordered lists of (key, value) pairs. That keeps
  `Object.keys` order, which the CSV and spreadsheet headers follow.
- Reading a missing property gives `undefined`. Assigning a new (non-integer) key appends
  it, and `delete` keeps the order of the rest.

Modules:

- `Wrappers`: the Option type.
- `JsObject`: values and plain objects.
- `Schema`: the capability table.
- `Sql`: queries, placeholder binding, and a reference meaning for the WHERE
  forms and for LIMIT/OFFSET.
- `QueryBuilder`: table resolution, the filter, the column lists, the
  population parts, the page clause, the chart queries and the header rename.
- `SarusRoutes`: the three handlers.
- `ColumnMapper`: `normalizeColumns`.

Behaviour the model follows as the code has it:

- The district filter is an exact `district = $1`. There is no alias or
  misspelling merge and no case folding.
- Pagination is always on. An absent `page` and `per_page` default to 1 and 25.
- The habitat chart and the population summary always cover the whole table.
  The district chart covers the whole table in `ORDER BY district` order, with
  no top-N cut.
- The district list uses `SELECT DISTINCT`.
- An export with no rows answers 404 "No data found".
- The export keeps `gid AS sno` as its first base column.
- An export `format` other than `csv`, `excel` or `pdf` sends no reply at all.
- A query whose promise rejects ends the handler with a 500 carrying its
  message. `/report` also fails with a 500 when the count or total query
  returns no row, because it reads `rows[0]` of it.

For the findings below:

- The three handlers look tables up as the code does
  (`QueryBuilder.ResolveAsWritten`, behind the guard as written,
  `QueryBuilder.GuardPassesAsWritten`). A name every object inherits, such as
  `toString`, therefore gets past the guard of `/report` and `/export` with no
  flag set, and their queries are issued
  (`SarusRoutes.InheritedKeyReachesDatabase`). `QueryBuilder.Resolve` is the
  corrected, own-key lookup. The two agree on every other name.
- `/export` heads its spreadsheet columns as the code does
  (`QueryBuilder.HeaderAsWritten`). `QueryBuilder.Header` is the intended
  rename. `SarusRoutes.WorkbookFollowsColumns` shows the two agree on every
  export column except `name_of_co`.
- The mapper exists both as written (`ColumnMapper.NormalizeColumnsAsWritten`)
  and corrected (`ColumnMapper.NormalizeColumns`).

## Model

| member | source | states |
|---|---|---|
| Schema.Config | datasets/sarus/schema.js:1-38 | A capability record exists exactly for the four dataset keys |
| Schema.OnlyLucknowLacksDistrictAndSite | datasets/sarus/schema.js:29-31 | Among the schema keys, only sarus_lucknow_population has neither a district nor a site column |
| Schema.RangeAndColonyOnlyLucknow | datasets/sarus/schema.js:29-37 | hasRangeFO and hasColony hold only for Lucknow. The other records do not list them, and an absent flag reads as false |
| Schema.OnlySep2021LacksAdults | datasets/sarus/schema.js:20-27 | sarus_27_09_2021 is the only key whose adults flag is false |
| Schema.JuvenileAndNestsEverywhere | datasets/sarus/schema.js:2-37 | Every key has the juvenile and nests flags |
| Schema.ThreatsOnlyDated | datasets/sarus/schema.js:2-27 | hasThreats is set for the three dated tables and not for Lucknow |
| Schema.SiteImpliesDistrict | datasets/sarus/schema.js:2-37 | No table has a site column without a district column |
| QueryBuilder.Resolve | datasets/sarus/routes.js:44-49 | Resolution succeeds iff the key is one of the four dataset names, the table map owns it, and its table name is non-empty. It then yields that table name and the key's schema capabilities |
| QueryBuilder.ResolveAsWritten | datasets/sarus/routes.js:44-49 | The lookup goes on exactly when the guard as written passes. Off the Object.prototype names it is own-key resolution. On an inherited name it carries no flag and the table map's own entry when there is one |
| QueryBuilder.GuardPassesAsWritten | datasets/sarus/routes.js:212-217 | The guard as written lets every resolvable dataset through. Anything else it lets through is an inherited Object.prototype member name |
| QueryBuilder.ResolveOwnKeysOnly | datasets/sarus/routes.js:44-49 | Each of the twelve Object.prototype member names that the table map does not own passes the guard as written, but resolution rejects it. Whatever resolution accepts is a dataset name the map owns with a non-empty table name |
| QueryBuilder.InheritedKeyPassesGuardAsWritten | datasets/sarus/routes.js:44-49 | As written, `table=toString` passes the `!TABLE \|\| !config` guard, although own-key resolution rejects it |
| QueryBuilder.GuardAgreesOffPrototype | datasets/sarus/routes.js:44-49 | Apart from the Object.prototype member names, the guard as written and own-key resolution agree |
| QueryBuilder.BuildFilter | datasets/sarus/routes.js:53-59 | There is a WHERE clause iff the district is non-empty and the table has districts. It is then `district = $1` with params [district]; otherwise both are empty |
| QueryBuilder.FilterMeaning | datasets/sarus/routes.js:53-59 | The filter keeps exactly the rows of the given district, or every row when it does not apply. Its one placeholder is bound |
| QueryBuilder.FilterTextIgnoresValue | datasets/sarus/routes.js:56-58 | The WHERE form depends only on whether a district is given, never on its value |
| QueryBuilder.ColumnList | datasets/sarus/routes.js:63-83 | The list has length 5 + the number of true flags, and it is district-prefix + base + the chosen optional columns |
| QueryBuilder.BuildColumns | datasets/sarus/routes.js:63-83 | The unshift/push sequence builds exactly ColumnList |
| QueryBuilder.ColumnListSpeltOut | datasets/sarus/routes.js:63-83 | The list is district?, base, site?, range_fore?, name_of_co?, adults?, juvenile?, nests?, in that order |
| QueryBuilder.OptionalMembership | datasets/sarus/routes.js:71-83 | A column is selected iff it is the district column of a table with districts, a base column, or an optional column whose flag holds |
| QueryBuilder.DistrictFirst | datasets/sarus/routes.js:63-71 | district comes first iff hasDistrict, is selected only then, and the base follows unchanged |
| QueryBuilder.OptionalColumnIffFlag | datasets/sarus/routes.js:73-83 | Each of site, range_fore, name_of_co, adults, juvenile and nests is selected iff its own flag holds |
| QueryBuilder.ColumnListReadsSevenFlags | datasets/sarus/routes.js:71-83 | The list depends only on the seven flags it reads. hasThreats is never read and no threats column is ever selected |
| QueryBuilder.ReportAndExportShareTail | datasets/sarus/routes.js:227-247 | The report and export lists differ only in their five base columns |
| QueryBuilder.LucknowColumnLists | datasets/sarus/routes.js:63-83 | Lucknow's list is base, range_fore, name_of_co, adults, juvenile, nests: no district first and no site |
| QueryBuilder.DatedColumnLists | datasets/sarus/routes.js:63-83 | A dated table's list is district, base, site, adults (except 27-09-2021), juvenile, nests |
| QueryBuilder.RangeAndColonyOnlyForLucknow | datasets/sarus/routes.js:75-77 | range_fore and name_of_co appear in a schema table's list iff the table is Lucknow |
| QueryBuilder.AdultsOmittedOnlyForSep2021 | datasets/sarus/routes.js:79 | adults is missing from a schema table's list iff the table is 27-09-2021 |
| QueryBuilder.PopulationInOrder | datasets/sarus/routes.js:170-173 | The sums are adults, juvenile, nests, in that order, each iff its flag; without any flag there are none |
| QueryBuilder.BuildPopulationParts | datasets/sarus/routes.js:170-173 | The push sequence builds exactly PopulationParts |
| QueryBuilder.PopulationForSchema | datasets/sarus/routes.js:170-173 | Every dataset's summary sums juvenile and nests, and all but 27-09-2021 also sum adults |
| QueryBuilder.PagedQueryReturns | datasets/sarus/routes.js:90-103 | For page >= 1, the data query returns the window of filtered rows its bound LIMIT and OFFSET select: per_page rows from offset (page-1)*per_page |
| QueryBuilder.PagedQuerySize | datasets/sarus/routes.js:95-103 | Whatever the page, the data query returns at most per_page rows |
| QueryBuilder.DistrictChartQuery | datasets/sarus/routes.js:136-142 | The district chart binds nothing and keeps every row. It groups and orders by district, and outputs district and sarus_count |
| QueryBuilder.SiteChartQuery | datasets/sarus/routes.js:147-154 | The site chart binds $1 to the district and keeps exactly that district's rows. It groups and orders by site, and outputs site and sarus_count |
| QueryBuilder.HabitatChartQuery | datasets/sarus/routes.js:160-166 | The habitat chart keeps every row, whatever the filter. It groups by habitat with no ORDER BY, and outputs habitat and sarus_count |
| QueryBuilder.DistrictListQuery | datasets/sarus/routes.js:24-31 | The district list is DISTINCT, binds no request value, keeps exactly the rows whose district is neither NULL nor missing, and orders by district |
| QueryBuilder.PagedQueryBinding | datasets/sarus/routes.js:90-103 | LIMIT and OFFSET take placeholders params.length+1 and +2, distinct and after the filter's. They bind per_page and (page-1)*per_page, and the filter's placeholder binds the district |
| QueryBuilder.Upper | datasets/sarus/routes.js:283 | toUpperCase keeps the length and upper-cases each character |
| QueryBuilder.ReplaceFirst | datasets/sarus/routes.js:283 | `replace` with a one-character pattern keeps the string's length |
| QueryBuilder.ReplaceFirstChangesFirstOnly | datasets/sarus/routes.js:283 | `replace` with a string pattern changes the first occurrence and nothing else |
| QueryBuilder.ReplaceFirstAfter | datasets/sarus/routes.js:283 | Replacing the first occurrence keeps the text before and after it |
| QueryBuilder.HeaderAsWritten | datasets/sarus/routes.js:283 | The header as written: the key's length, every non-underscore character upper-cased, the first underscore a space, every later underscore kept |
| QueryBuilder.Header | datasets/sarus/routes.js:283 | The intended header: the key's length, every underscore a space, none left, and every other character upper-cased |
| QueryBuilder.HeaderAsWrittenKeepsSecondUnderscore | datasets/sarus/routes.js:283 | As written, name_of_co is headed NAME OF_CO; corrected it is NAME OF CO |
| QueryBuilder.HeadersAgreeOnOneUnderscore | datasets/sarus/routes.js:283 | For keys with at most one underscore, the header as written equals the corrected one |
| QueryBuilder.HeadersAgreeWithoutUnderscore | datasets/sarus/routes.js:283 | A key without an underscore gets the same header either way |
| QueryBuilder.HeadersAgreeAround | datasets/sarus/routes.js:283 | A key `a_b` with no other underscore gets the same header either way |
| Sql.Returned | datasets/sarus/routes.js:90-103 | The reference result of a query keeps the rows its WHERE form selects. Under LIMIT/OFFSET it holds at most the bound limit |
| Sql.MatchingIgnoresLaterParams | datasets/sarus/routes.js:99-103 | Page values bound after the filter's parameter do not change which rows the filter keeps |
| Sql.PagesArePrefix | datasets/sarus/routes.js:95-103 | Pages 1..c of an ordered result are its first c * per_page rows |
| Sql.PaginationLaw | datasets/sarus/routes.js:95-103 | Pages 1..ceil(n/per_page) give back all n rows, in order, each once |
| SarusRoutes.TableKey | datasets/sarus/routes.js:16-18 | The lookup key is the `table` field. When it is absent the key is "undefined", which is neither a dataset nor an inherited member name |
| SarusRoutes.Districts | datasets/sarus/routes.js:14-36 | The handler's early exit, single DISTINCT query and map over the rows equal DistrictsRun |
| SarusRoutes.DistrictsEmptyWithoutQuery | datasets/sarus/routes.js:17-32 | No query and [] iff own-key resolution fails or the table has no districts, so the lookup as written changes nothing here. Otherwise exactly the DISTINCT query, answered with each row's district, or a 500 with the error's message |
| SarusRoutes.LucknowDistrictsEmpty | datasets/sarus/routes.js:20-22 | The Lucknow dropdown is always [] and issues no query |
| SarusRoutes.CountQuery | datasets/sarus/routes.js:105-111 | The count query has the report filter's WHERE form and binding and no grouping or page, and outputs only the total_rows the handler reads |
| SarusRoutes.TotalQuery | datasets/sarus/routes.js:119-125 | The total query has the report filter's WHERE form and binding and no grouping or page, and outputs only the sarus_count the handler reads |
| SarusRoutes.PopulationQuery | datasets/sarus/routes.js:175-182 | The summary query binds nothing, keeps every row whatever the filter, and selects exactly the given parts |
| SarusRoutes.BuildReportPlan | datasets/sarus/routes.js:42-182 | Building the filter, columns, page clause, charts and population step by step gives PlanReport |
| SarusRoutes.Report | datasets/sarus/routes.js:40-204 | The handler, with its awaits in order and an early 500 at the first rejected query, equals ReportOutcome |
| SarusRoutes.ReportRunIssuesDataFirst | datasets/sarus/routes.js:99-103 | Once the table resolves, the data query is always issued first and the reply is never a 400 |
| SarusRoutes.ReportRejectsBeforeAnyQuery | datasets/sarus/routes.js:44-49 | A 400 "Invalid Sarus table" happens iff the guard as written fails, and then no query is issued. Otherwise the data query comes first |
| SarusRoutes.ReportFilterShared | datasets/sarus/routes.js:90-125 | The data, count and total queries share one WHERE form and district binding. The data query only appends its page values |
| SarusRoutes.ReportQueriesWellBound | datasets/sarus/routes.js:90-182 | Every query /report can issue binds exactly the placeholders $1..$n its text uses |
| SarusRoutes.FilteredQueriesWellBound | datasets/sarus/routes.js:105-125 | The count and total queries bind exactly their filter's placeholders |
| SarusRoutes.ReportDefaultPage | datasets/sarus/routes.js:42 | Without page and per_page, the data query asks for LIMIT 25 OFFSET 0 |
| SarusRoutes.ReportTextIgnoresDistrictValue | datasets/sarus/routes.js:53-166 | The SQL text of every query depends on whether a district is given, never on its value |
| SarusRoutes.ChartsExclusive | datasets/sarus/routes.js:131-155 | The district chart is planned iff no district and hasDistrict, the site chart iff a district and hasSite, and never both |
| SarusRoutes.ReplyChartsExclusive | datasets/sarus/routes.js:131-155 | In a successful reply, the district chart or the site chart is empty |
| SarusRoutes.PopulationOnlyWithParts | datasets/sarus/routes.js:170-182 | The summary query is issued iff a count flag holds, and selects PopulationParts. Without one, the reply's population is {} |
| SarusRoutes.TotalsIgnorePage | datasets/sarus/routes.js:105-125 | The count and total queries do not depend on the page asked for |
| SarusRoutes.DataPageIsWindow | datasets/sarus/routes.js:90-111 | Requesting page p >= 1 at per_page n, the data query returns the n counted rows from offset (p-1)*n |
| SarusRoutes.PageHoldsAtMostPerPage | datasets/sarus/routes.js:95-103 | Each page the data query returns holds at most per_page rows |
| SarusRoutes.CountedRowsIgnorePage | datasets/sarus/routes.js:105-111 | The rows the count query counts do not depend on page or per_page |
| SarusRoutes.PagedRowsArePages | datasets/sarus/routes.js:90-111 | Requesting pages 1..c and concatenating the data query's results gives Pages of the counted rows |
| SarusRoutes.PagesCoverCountedRows | datasets/sarus/routes.js:90-111 | Requesting pages 1..ceil(count/per_page), with the LIMIT and OFFSET the handler binds, returns every counted row once, in order |
| SarusRoutes.SiteChartUsesReportFilter | datasets/sarus/routes.js:146-155 | For every schema table, the site chart groups exactly the rows the report counts |
| SarusRoutes.BuildExportQuery | datasets/sarus/routes.js:219-256 | The export filter and column list built step by step give ExportQuery |
| SarusRoutes.ExportQueryShape | datasets/sarus/routes.js:219-256 | The export query is unpaged, ordered by gid and well bound. It has the report's filter and the export column list |
| SarusRoutes.SheetColumns | datasets/sarus/routes.js:282-286 | One sheet column per key of the first row, in key order, with width 22. Its header is the key upper-cased with its first underscore a space, as line 283 writes it |
| SarusRoutes.CellsOfShapedRow | datasets/sarus/routes.js:288 | addRow keeps every value, in order, of a row whose keys are the sheet's keys |
| SarusRoutes.AddRows | datasets/sarus/routes.js:288 | The forEach adds one sheet row per data row, in order, with each cell taken from the row under its column key |
| SarusRoutes.WritePdfLines | datasets/sarus/routes.js:314-317 | The forEach writes one line per row, in order, with serial i + 1 |
| SarusRoutes.PdfSerialsCount | datasets/sarus/routes.js:314-317 | The PDF serials start at 1 and end at the row count. Each is one more than the one before, so none repeats and none is skipped |
| SarusRoutes.RenderDocument | datasets/sarus/routes.js:265-320 | Rendering a non-empty result in a format gives ExportDocument |
| SarusRoutes.Export | datasets/sarus/routes.js:208-325 | The handler equals ExportOutcome: 400, one query, then a 500, a 404 or the document |
| SarusRoutes.ExportSingleQuery | datasets/sarus/routes.js:212-258 | No query iff the guard as written fails (400 "Invalid table"). Otherwise exactly one unpaged query in gid order, with the report's filter and the export column list |
| SarusRoutes.InheritedKeyReachesDatabase | datasets/sarus/routes.js:44-49 | For an inherited Object.prototype name, own-key resolution fails, yet /report issues its data query first and answers no 400, and /export issues its one query. Both run over the map's own entry or else the inherited member's text, with no flag set |
| SarusRoutes.AbsentTableRejected | datasets/sarus/routes.js:16-20 | Without a `table` field, /districts answers [] and /report and /export answer 400, with no query issued |
| SarusRoutes.FormatOf | datasets/sarus/routes.js:210 | The format is "csv" when the field is absent, and otherwise the field as given |
| SarusRoutes.ExportEmptyIsNotFound | datasets/sarus/routes.js:261-263 | The reply is 404 "No data found" iff the query returned no rows |
| SarusRoutes.ExportFormats | datasets/sarus/routes.js:267-320 | A file is attached iff the format is csv, excel or pdf. The csv holds the rows and the pdf one line per row |
| SarusRoutes.WorkbookFollowsColumns | datasets/sarus/routes.js:282-288 | For rows shaped by the export query, the sheet has one column per selected column, in select order, headed as line 283 writes it, with each row's cells under their keys. Every header except name_of_co's already turns all its underscores into spaces |
| SarusRoutes.ExportOutputKey | datasets/sarus/routes.js:227-247 | Every export column outputs one of twelve known names |
| SarusRoutes.ExportHeaderAsIntended | datasets/sarus/routes.js:283 | For every export key except name_of_co, the header as written equals the intended one |
| SarusRoutes.LucknowColonyHeader | datasets/sarus/routes.js:282-286 | The Lucknow export has a name_of_co column. Its header is NAME OF_CO as written and NAME OF CO corrected |
| JsObject.Get | utils/columnMapper.js:5-15 | Reading a key the object lacks gives undefined. Otherwise it gives a value stored under that key |
| JsObject.Assign | utils/columnMapper.js:19-20 | Assignment sets the key, leaves every other key's value, and keeps the key order, appending a new key at the end |
| JsObject.Delete | utils/columnMapper.js:21 | delete removes the key, keeps the others' values and order, and the key then reads undefined |
| JsObject.WithoutOnce | utils/columnMapper.js:21 | Removing a key that occurs once keeps the keys before and after it, in order |
| ColumnMapper.Mapped | utils/columnMapper.js:3-16 | The literal's keys are SNO, DISTRICT, LATITUDE, LONGITUDE, SARUS COUNT, ADULTS, JUVENILE, NESTS, SITE, HABITAT, THREATS, DATE |
| ColumnMapper.NormalizeColumnsAsWritten | utils/columnMapper.js:1-24 | normalizeColumns as written: the 12 common keys or the 13 Lucknow keys, SNO = index + 1, and RANGE FOREST read from row.range_fo |
| ColumnMapper.NormalizeColumns | utils/columnMapper.js:1-24 | The corrected mapper: the same keys and serial, with RANGE FOREST read from row.range_fore |
| ColumnMapper.DisplayKeysDistinct | utils/columnMapper.js:3-22 | No display name occurs twice |
| ColumnMapper.LucknowBranchKeys | utils/columnMapper.js:18-22 | On the common row, the Lucknow branch yields the Lucknow keys |
| ColumnMapper.LucknowBranch | utils/columnMapper.js:18-22 | After the branch, DISTRICT is undefined, the two new keys hold their values, and every other key is unchanged |
| ColumnMapper.NormalizedKeys | utils/columnMapper.js:1-24 | Exactly the 12 common keys in literal order, or the 13 Lucknow keys: DISTRICT removed, the rest in order, RANGE FOREST and NAME OF COLONY last. All keys are distinct |
| ColumnMapper.WithoutDistrict | utils/columnMapper.js:21 | Deleting DISTRICT from the keys after the two assignments leaves the Lucknow keys |
| ColumnMapper.SerialIsIndexPlusOne | utils/columnMapper.js:4 | SNO is index + 1 |
| ColumnMapper.MappedValues | utils/columnMapper.js:5-15 | Each common display name holds the value of its one source field, and the two colony names are absent |
| ColumnMapper.CopiedFromSource | utils/columnMapper.js:3-22 | Each display value comes from its one source field. For Lucknow, DISTRICT is gone, NAME OF COLONY is row.name_of_co and RANGE FOREST is the range field |
| ColumnMapper.SerialsCountUp | utils/columnMapper.js:4 | Mapping rows 0..n-1 numbers them 1..n, strictly increasing in output order. This holds whichever field RANGE FOREST is read from, the as-written range_fo included |
| ColumnMapper.SelectedOutputKey | datasets/sarus/routes.js:227-247 | No selected column is named range_fo, and range_fore names only the range column |
| ColumnMapper.NoRangeFoColumn | datasets/sarus/routes.js:239 | No report or export row has a range_fo key, and it has a range_fore key iff the table has hasRangeFO |
| ColumnMapper.RangeForestLostAsWritten | utils/columnMapper.js:19 | As written, RANGE FOREST is undefined for every row the report or export query returns |
| ColumnMapper.RangeForestKept | utils/columnMapper.js:19 | Read from range_fore, RANGE FOREST carries the row's range-forest value, which is there iff the table has one |
| ColumnMapper.RangeForestCounterexample | utils/columnMapper.js:19 | A concrete Lucknow row loses its range-forest value as written and keeps it corrected |

## Left out

- The database is an oracle. COUNT, SUM, COALESCE, GROUP BY, DISTINCT and ORDER BY are not evaluated. Only the WHERE forms and LIMIT/OFFSET have a reference meaning (`Sql.Matching`, `Sql.Window`).
- Each query's result is independent of the others. Concurrent writes and snapshot consistency are not modelled.
- SarusRoutes.ReportRun: the `Number(...)` conversion of `total_rows` and `sarus_count` is not applied. The reply carries the driver's value as it is.
- Numbers are exact rationals; floating point is not modelled.
- Sql.Returned: a bound LIMIT or OFFSET that is not a non-negative number counts as 0. PostgreSQL rejects a negative one; the model does not (page < 1 gives a negative offset).
- `page` and `per_page` are integers. The query-string coercion of their text (`"2" - 1`) is not modelled, nor query fields given twice (arrays). The source has no positivity check, so the model has none either.
- Express plumbing (status codes, headers, `res.json`, `res.send`, logging) is not modelled. Replies are datatypes with a status function.
- CSV serialisation (json2csv), workbook writing (ExcelJS), PDF layout (PDFKit: A4, margin 30, font sizes, line spacing) and `JSON.stringify` are not modelled. The documents carry the rows, the sheet columns and cells, and the numbered PDF lines.
- An error thrown by one of the rendering libraries (a 500) is not modelled.
- An unknown export format leaves the request without a reply (`NoReply`). Timing out such a request is not modelled.
- QueryBuilder.Upper: only ASCII letters are upper-cased. Unicode case mapping is not modelled.
- The Sarus `tableMap.js` is not part of this model. The key-to-table map is a parameter of the handlers, read as a plain object: its own keys, then the Object.prototype members.
- QueryBuilder.ResolveAsWritten: the statement text of an inherited member is the one V8 prints. What the database does with such a statement is left to the oracle.
- JsObject.Assign: integer-like keys, which `Object.keys` lists first in ascending order, are not modelled. No object here has one, so a new key is always appended.
- The transport routes, the transport table map and `app.js` (bootstrap, CORS, static files) are not part of this model.
- No caller of `normalizeColumns` is part of this model. `ColumnMapper.NormalizeRows` stands for the usual `rows.map((r, i) => ...)`, with the range field as a parameter.
- Objects are values, so the mapper's "input not modified, fresh object returned" holds by construction and is not a separate statement.

## Findings

| source | as written | input that shows it | evidently intended | confidence | as-written member | corrected member |
|---|---|---|---|---|---|---|
| datasets/sarus/routes.js:283 | `k.toUpperCase().replace("_", " ")` replaces only the first underscore of a column key | the Lucknow export column `name_of_co` is headed `NAME OF_CO` | every underscore becomes a space: `NAME OF CO` | medium, not executed | QueryBuilder.HeaderAsWrittenKeepsSecondUnderscore | QueryBuilder.Header |
| utils/columnMapper.js:19 | RANGE FOREST is read from `row.range_fo` | a Lucknow row from the report or export query, whose key is `range_fore`: RANGE FOREST is undefined | read `row.range_fore`, the column the queries select | medium, not executed | ColumnMapper.RangeForestLostAsWritten | ColumnMapper.RangeForestKept |
| datasets/sarus/routes.js:44-49 | `!TABLE \|\| !config` tests plain-object lookups, which also find inherited Object.prototype members | `table=toString` passes the guard (assuming the Sarus table map is a plain object literal), so the handler reaches the database instead of answering 400 | answer 400 "Invalid Sarus table" for any key that is not a dataset | low, not executed | SarusRoutes.InheritedKeyReachesDatabase | QueryBuilder.ResolveOwnKeysOnly |
