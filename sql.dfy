/**
 * The SQL the handlers send, as structure rather than text: select list,
 * table, WHERE form, grouping, ordering, LIMIT/OFFSET placeholders and the
 * bound parameters. Identifiers come only from the handlers' constants and
 * the table map; request values travel only in `params`.
 */
module Sql {
  import opened Wrappers
  import opened JsObject

  /** One entry of a select list. */
  datatype Column =
    | Field(name: string)                  // name
    | Alias(name: string, alias: string)   // name AS alias
    | Sum(name: string, alias: string)     // SUM(name) AS alias
    | CoalescedSum(name: string, alias: string)  // COALESCE(SUM(name),0) AS alias
    | CountAll(alias: string)              // COUNT(*) AS alias

  /** The property name the driver gives this column in each result row. */
  function OutputKey(c: Column): string {
    match c
    case Field(n) => n
    case Alias(_, a) => a
    case Sum(_, a) => a
    case CoalescedSum(_, a) => a
    case CountAll(a) => a
  }

  function OutputKeys(cs: seq<Column>): seq<string> {
    seq(|cs|, i requires 0 <= i < |cs| => OutputKey(cs[i]))
  }

  /** The WHERE forms that occur. */
  datatype Where =
    | NoWhere
    | DistrictEquals(slot: nat)   // WHERE district = $slot
    | DistrictNotNull             // WHERE district IS NOT NULL

  datatype Page = Unpaged | LimitOffset(limitSlot: nat, offsetSlot: nat)  // LIMIT $l OFFSET $o

  datatype Query = Query(
    distinct: bool,
    select: seq<Column>,
    from: string,
    where: Where,
    groupBy: Option<string>,
    orderBy: Option<string>,
    page: Page,
    params: seq<Value>)

  /** The `$n` placeholders of the query text, in text order. */
  function Placeholders(q: Query): seq<nat> {
    (match q.where
     case DistrictEquals(s) => [s]
     case _ => [])
    +
    (match q.page
     case LimitOffset(l, o) => [l, o]
     case Unpaged => [])
  }

  /** The placeholders are exactly $1 .. $n, in order, for the n bound parameters, so the
      server accepts the parameter list and each placeholder has its own value. */
  predicate WellBound(q: Query) {
    |Placeholders(q)| == |q.params|
    && forall i :: 0 <= i < |q.params| ==> Placeholders(q)[i] == i + 1
  }

  /** The value bound to `$slot`. */
  function Bound(q: Query, slot: nat): Value
    requires 1 <= slot <= |q.params|
  {
    q.params[slot - 1]
  }

  /** The query with its bound values removed: everything that is sent as SQL text. */
  function Statement(q: Query): Query {
    q.(params := [])
  }

  /** Reference meaning of a WHERE form for one row (SQL `=` is false on NULL). */
  predicate Selects(w: Where, params: seq<Value>, row: Record) {
    match w
    case NoWhere => true
    case DistrictEquals(s) => 1 <= s <= |params| && Get(row, "district") == params[s - 1]
    case DistrictNotNull => Get(row, "district") != Null && Get(row, "district") != Undefined
  }

  /** The rows of a table, in ORDER BY order, that a WHERE form keeps. */
  function Matching(w: Where, params: seq<Value>, rows: seq<Record>): (out: seq<Record>)
    ensures |out| <= |rows|
    ensures forall r :: r in out <==> r in rows && Selects(w, params, r)
  {
    if rows == [] then []
    else (if Selects(w, params, rows[0]) then [rows[0]] else []) + Matching(w, params, rows[1..])
  }

  /** Parameters bound after the WHERE form's own slot do not change which rows it keeps. */
  lemma {:induction false} MatchingIgnoresLaterParams(w: Where, params: seq<Value>, extra: seq<Value>, rows: seq<Record>)
    requires w.DistrictEquals? ==> 1 <= w.slot <= |params|
    ensures Matching(w, params + extra, rows) == Matching(w, params, rows)
  {
    if rows != [] {
      MatchingIgnoresLaterParams(w, params, extra, rows[1..]);
      if w.DistrictEquals? {
        assert (params + extra)[w.slot - 1] == params[w.slot - 1];
      }
    }
  }

  function Min(a: int, b: int): int {
    if a <= b then a else b
  }

  /** What `LIMIT limit OFFSET offset` keeps of an ordered result. */
  function Window<T>(rows: seq<T>, limit: nat, offset: nat): (out: seq<T>)
    ensures |out| <= limit
  {
    if offset >= |rows| then [] else rows[offset..Min(offset + limit, |rows|)]
  }

  /** A bound LIMIT or OFFSET value as a row count; a value that is not a non-negative number
      counts as 0. */
  function RowCount(v: Value): nat {
    if v.Number? && v.n >= 0.0 then v.n.Floor else 0
  }

  /** Reference result of a query over a table's rows in ORDER BY order: the rows its WHERE
      form keeps, cut to the window its LIMIT and OFFSET placeholders are bound to. */
  function Returned(q: Query, rows: seq<Record>): (out: seq<Record>)
    requires WellBound(q)
    ensures q.page.LimitOffset? ==> |out| <= RowCount(Bound(q, q.page.limitSlot))
  {
    var kept := Matching(q.where, q.params, rows);
    match q.page
    case Unpaged => kept
    case LimitOffset(l, o) =>
      assert Placeholders(q)[|Placeholders(q)| - 2] == l && Placeholders(q)[|Placeholders(q)| - 1] == o;
      Window(kept, RowCount(Bound(q, l)), RowCount(Bound(q, o)))
  }

  /** Pages 1 .. count of `rows` at `perPage` rows a page, concatenated in order. */
  function Pages<T>(rows: seq<T>, perPage: nat, count: nat): seq<T> {
    if count == 0 then [] else Pages(rows, perPage, count - 1) + Window(rows, perPage, (count - 1) * perPage)
  }

  /** The first `count` pages are the first count * perPage rows. */
  lemma {:induction false} PagesArePrefix<T>(rows: seq<T>, perPage: nat, count: nat)
    ensures Pages(rows, perPage, count) == rows[..Min(count * perPage, |rows|)]
  {
    if count > 0 {
      PagesArePrefix(rows, perPage, count - 1);
      var start := (count - 1) * perPage;
      assert count * perPage == start + perPage by {
        assert count * perPage == (count - 1) * perPage + perPage;
      }
      assert Pages(rows, perPage, count) == Pages(rows, perPage, count - 1) + Window(rows, perPage, start);
      if start >= |rows| {
        assert Min(start, |rows|) == |rows|;
      } else {
        assert rows[..start] + rows[start..Min(start + perPage, |rows|)] == rows[..Min(start + perPage, |rows|)];
      }
    }
  }

  /** ceil(n / perPage): the number of pages n rows fill. */
  function PageCount(n: nat, perPage: nat): nat
    requires perPage > 0
  {
    (n + perPage - 1) / perPage
  }

  /** The pagination law: pages 1 .. ceil(n / perPage) reproduce the n rows exactly, in order,
      with no row twice and none left out. */
  lemma PaginationLaw<T>(rows: seq<T>, perPage: nat)
    requires perPage > 0
    ensures Pages(rows, perPage, PageCount(|rows|, perPage)) == rows
  {
    var count := (|rows| + perPage - 1) / perPage;
    PagesArePrefix(rows, perPage, count);
    assert count * perPage >= |rows|;
  }
}
