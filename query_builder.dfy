/**
 * The query-building decisions of the Sarus routes: table resolution, the
 * district filter, the report and export column lists, the population
 * summary, the page clause, the chart queries and the spreadsheet header
 * rename. Each builder the handlers write step by step (reassigning `where`,
 * `push` and `unshift` on arrays) is a method proved equal to a declarative
 * definition, and the properties are lemmas about that definition.
 */
module QueryBuilder {
  import opened Wrappers
  import opened JsObject
  import opened Schema
  import opened Sql

  /* ---------------- table resolution ---------------- */

  /** A resolved dataset: the physical table name and its capabilities. */
  datatype Target = Target(table: string, caps: Capabilities)

  /** `sarusMap[key]` and `SCHEMA[key]`, both truthy, looking at own keys only. */
  function Resolve(tableMap: map<string, string>, key: string): (r: Option<Target>)
    ensures r.Some? <==> key in {Sarus2020, Sarus2021Jan, Sarus2021Sep, Lucknow} && key in tableMap && tableMap[key] != ""
    ensures r.Some? ==> r.value.table == tableMap[key] && Config(key) == Some(r.value.caps)
  {
    if key in tableMap && tableMap[key] != "" && key in SCHEMA
    then Some(Target(tableMap[key], CapabilitiesOf(SCHEMA[key])))
    else None
  }

  /** The guard `!TABLE || !config` as written: a property read on a plain object also finds
      the members every object inherits, and those are truthy. It lets every dataset through,
      and besides the datasets only inherited member names. */
  function GuardPassesAsWritten(tableMap: map<string, string>, key: string): (passes: bool)
    ensures Resolve(tableMap, key).Some? ==> passes
    ensures passes ==> Resolve(tableMap, key).Some? || key in ObjectPrototypeMembers
  {
    (if key in tableMap then tableMap[key] != "" else key in ObjectPrototypeMembers)
    && (key in SCHEMA || key in ObjectPrototypeMembers)
  }

  /** Every inherited member name the table map does not own passes the guard as written, and
      own-key resolution rejects every one of them; what own-key resolution accepts is a
      dataset name that the table map owns with a non-empty table name. */
  lemma ResolveOwnKeysOnly(tableMap: map<string, string>, key: string)
    ensures forall k :: k in ObjectPrototypeMembers && k !in tableMap ==>
              GuardPassesAsWritten(tableMap, k) && Resolve(tableMap, k).None?
    ensures Resolve(tableMap, key).Some? ==>
              key in {Sarus2020, Sarus2021Jan, Sarus2021Sep, Lucknow} && key in tableMap && tableMap[key] != ""
  {
    forall k | k in ObjectPrototypeMembers
      ensures k !in {Sarus2020, Sarus2021Jan, Sarus2021Sep, Lucknow}
    {
    }
  }

  /** As written, `table=toString` passes the guard of /report and /export although it names
      no dataset; own-key resolution rejects it. */
  lemma InheritedKeyPassesGuardAsWritten(tableMap: map<string, string>)
    requires "toString" !in tableMap
    ensures GuardPassesAsWritten(tableMap, "toString")
    ensures Resolve(tableMap, "toString").None?
  {
  }

  /** Apart from the inherited member names, the guard as written and own-key resolution agree. */
  lemma GuardAgreesOffPrototype(tableMap: map<string, string>, key: string)
    requires key !in ObjectPrototypeMembers
    ensures GuardPassesAsWritten(tableMap, key) <==> Resolve(tableMap, key).Some?
  {
  }

  /** No flag of `config` holds, as when `config` is an inherited member. */
  predicate NoFlags(c: Capabilities) {
    !c.hasDistrict && !c.hasThreats && !c.hasSite && !c.hasRangeFO
    && !c.hasColony && !c.hasAdults && !c.hasJuvenile && !c.hasNests
  }

  /** The statement text of an inherited member of the table map: a method is interpolated as
      its source text, `__proto__` as the prototype object; the texts are those V8 prints. */
  function InheritedText(key: string): string {
    if key == "__proto__" then "[object Object]"
    else if key == "constructor" then "function Object() { [native code] }"
    else "function " + key + "() { [native code] }"
  }

  /** What /report and /export go on with once `!TABLE || !config` as written lets a key through:
      the table text `TABLE` and the flags of `config`. For a dataset this is own-key resolution;
      an inherited name carries the table map's own entry or the inherited member's text, and
      an inherited `config` carries no flag. */
  function ResolveAsWritten(tableMap: map<string, string>, key: string): (r: Option<Target>)
    ensures r.Some? <==> GuardPassesAsWritten(tableMap, key)
    ensures key !in ObjectPrototypeMembers ==> r == Resolve(tableMap, key)
    ensures r.Some? && Resolve(tableMap, key).None? ==>
              key in ObjectPrototypeMembers && NoFlags(r.value.caps)
              && (key in tableMap ==> r.value.table == tableMap[key])
  {
    if !GuardPassesAsWritten(tableMap, key) then None
    else if key in SCHEMA then Some(Target(tableMap[key], CapabilitiesOf(SCHEMA[key])))
    else Some(Target(if key in tableMap then tableMap[key] else InheritedText(key), CapabilitiesOf(map[])))
  }

  /* ---------------- district filter ---------------- */

  /** JavaScript truthiness of `req.query.district`: absent or empty is falsy. */
  predicate Present(district: Option<string>) {
    district.Some? && district.value != ""
  }

  /** A WHERE form with the parameters it binds. */
  datatype Filter = Filter(where: Where, params: seq<Value>)

  function FilterFor(district: Option<string>, caps: Capabilities): Filter {
    if Present(district) && caps.hasDistrict
    then Filter(DistrictEquals(1), [Text(district.value)])
    else Filter(NoWhere, [])
  }

  /** The filter built step by step: empty WHERE and no parameters, then the district
      condition and its binding when a district is given and the table has districts. */
  method BuildFilter(district: Option<string>, caps: Capabilities) returns (where: Where, params: seq<Value>)
    ensures Filter(where, params) == FilterFor(district, caps)
    ensures where != NoWhere <==> Present(district) && caps.hasDistrict
    ensures where == NoWhere ==> params == []
    ensures where != NoWhere ==> where == DistrictEquals(1) && params == [Text(district.value)]
  {
    where := NoWhere;
    params := [];
    if Present(district) && caps.hasDistrict {
      where := DistrictEquals(1);
      params := params + [Text(district.value)];
    }
  }

  /** What the filter means: with a district given to a table that has districts, exactly the
      rows of that district; otherwise every row. Its placeholder is bound to the district. */
  lemma FilterMeaning(district: Option<string>, caps: Capabilities, row: Record)
    ensures var f := FilterFor(district, caps);
      Selects(f.where, f.params, row)
      <==> !(Present(district) && caps.hasDistrict) || Get(row, "district") == Text(district.value)
    ensures var f := FilterFor(district, caps);
      |f.params| <= 1 && (f.where == NoWhere || f.where == DistrictEquals(|f.params|))
  {
  }

  /** The filter's text never depends on the district's value: the value is only ever bound. */
  lemma FilterTextIgnoresValue(d1: Option<string>, d2: Option<string>, caps: Capabilities)
    requires Present(d1) == Present(d2)
    ensures FilterFor(d1, caps).where == FilterFor(d2, caps).where
    ensures |FilterFor(d1, caps).params| == |FilterFor(d2, caps).params|
  {
  }

  /* ---------------- column lists ---------------- */

  const DistrictColumn: Column := Field("district")
  const SiteColumn: Column := Field("site")
  const RangeColumn: Column := Field("range_fore")
  const ColonyColumn: Column := Field("name_of_co")
  const AdultsColumn: Column := Field("adults")
  const JuvenileColumn: Column := Field("juvenile")
  const NestsColumn: Column := Field("nests")

  /** The fixed start of the /report select list. */
  const ReportBase: seq<Column> :=
    [Field("gid"), Field("latitude"), Field("longitude"), Field("habitat"), Alias("sarus_coun", "sarus_count")]

  /** The fixed start of the /export select list. */
  const ExportBase: seq<Column> :=
    [Alias("gid", "sno"), Field("habitat"), Alias("sarus_coun", "sarus_count"), Field("latitude"), Field("longitude")]

  predicate StandardBase(base: seq<Column>) {
    base == ReportBase || base == ExportBase
  }

  /** The optional columns in the order they are appended, each with the flag that adds it. */
  function OptionalColumns(caps: Capabilities): seq<(Column, bool)> {
    [(SiteColumn, caps.hasSite), (RangeColumn, caps.hasRangeFO), (ColonyColumn, caps.hasColony),
     (AdultsColumn, caps.hasAdults), (JuvenileColumn, caps.hasJuvenile), (NestsColumn, caps.hasNests)]
  }

  function When<T>(b: bool, x: T): seq<T> {
    if b then [x] else []
  }

  function Ord(b: bool): nat {
    if b then 1 else 0
  }

  /** Starting from `prefix`, each entry whose flag holds is appended, in turn. */
  function AppendChosen<T>(prefix: seq<T>, entries: seq<(T, bool)>): seq<T>
    decreases |entries|
  {
    if entries == [] then prefix
    else AppendChosen(prefix + When(entries[0].1, entries[0].0), entries[1..])
  }

  /** The number of entries whose flag holds. */
  function CountChosen<T>(entries: seq<(T, bool)>): nat {
    if entries == [] then 0 else Ord(entries[0].1) + CountChosen(entries[1..])
  }

  /** Appending keeps the prefix and adds one item per flag that holds. */
  lemma {:induction false} AppendChosenShape<T>(prefix: seq<T>, entries: seq<(T, bool)>)
    ensures |AppendChosen(prefix, entries)| == |prefix| + CountChosen(entries)
    ensures AppendChosen(prefix, entries)[..|prefix|] == prefix
    decreases |entries|
  {
    if entries != [] {
      var next := prefix + When(entries[0].1, entries[0].0);
      AppendChosenShape(next, entries[1..]);
      assert AppendChosen(prefix, entries)[..|prefix|] == next[..|prefix|];
    }
  }

  /** An item ends up in the list exactly when it was in the prefix or its flag holds. */
  lemma {:induction false} AppendChosenMembership<T>(prefix: seq<T>, entries: seq<(T, bool)>, x: T)
    ensures x in AppendChosen(prefix, entries) <==> x in prefix || (x, true) in entries
    decreases |entries|
  {
    if entries != [] {
      var next := prefix + When(entries[0].1, entries[0].0);
      AppendChosenMembership(next, entries[1..], x);
      assert entries == [entries[0]] + entries[1..];
      assert (x, true) in entries <==> entries[0] == (x, true) || (x, true) in entries[1..];
    }
  }

  lemma AppendChosenStep<T>(prefix: seq<T>, x: T, b: bool, rest: seq<(T, bool)>)
    ensures AppendChosen(prefix, [(x, b)] + rest) == AppendChosen(prefix + When(b, x), rest)
  {
    assert ([(x, b)] + rest)[1..] == rest;
  }

  /** Appending to a prefix is the prefix followed by what would be appended to nothing. */
  lemma {:induction false} AppendChosenSplit<T>(prefix: seq<T>, entries: seq<(T, bool)>)
    ensures AppendChosen(prefix, entries) == prefix + AppendChosen([], entries)
    decreases |entries|
  {
    if entries != [] {
      var w := When(entries[0].1, entries[0].0);
      AppendChosenSplit(prefix + w, entries[1..]);
      AppendChosenSplit([] + w, entries[1..]);
      assert [] + w == w;
      assert (prefix + w) + AppendChosen([], entries[1..]) == prefix + (w + AppendChosen([], entries[1..]));
    }
  }

  /** The number of flags that add a column. */
  function FlagCount(caps: Capabilities): nat {
    Ord(caps.hasDistrict) + Ord(caps.hasSite) + Ord(caps.hasRangeFO) + Ord(caps.hasColony)
    + Ord(caps.hasAdults) + Ord(caps.hasJuvenile) + Ord(caps.hasNests)
  }

  lemma OptionalCount(caps: Capabilities)
    ensures CountChosen(OptionalColumns(caps)) + Ord(caps.hasDistrict) == FlagCount(caps)
  {
    var e := OptionalColumns(caps);
    assert e[1..][1..][1..][1..][1..][1..] == [];
    assert CountChosen(e) == Ord(caps.hasSite) + CountChosen(e[1..]);
    assert CountChosen(e[1..]) == Ord(caps.hasRangeFO) + CountChosen(e[1..][1..]);
    assert CountChosen(e[1..][1..]) == Ord(caps.hasColony) + CountChosen(e[1..][1..][1..]);
    assert CountChosen(e[1..][1..][1..]) == Ord(caps.hasAdults) + CountChosen(e[1..][1..][1..][1..]);
    assert CountChosen(e[1..][1..][1..][1..]) == Ord(caps.hasJuvenile) + CountChosen(e[1..][1..][1..][1..][1..]);
    assert CountChosen(e[1..][1..][1..][1..][1..]) == Ord(caps.hasNests);
  }

  /** The select list: district first when the table has one, then the base, then each optional
      column whose flag holds, in the order of OptionalColumns. */
  function ColumnList(base: seq<Column>, caps: Capabilities): (columns: seq<Column>)
    ensures |columns| == |base| + FlagCount(caps)
    ensures columns == When(caps.hasDistrict, DistrictColumn) + base + AppendChosen([], OptionalColumns(caps))
  {
    OptionalCount(caps);
    AppendChosenShape(When(caps.hasDistrict, DistrictColumn) + base, OptionalColumns(caps));
    AppendChosenSplit(When(caps.hasDistrict, DistrictColumn) + base, OptionalColumns(caps));
    AppendChosen(When(caps.hasDistrict, DistrictColumn) + base, OptionalColumns(caps))
  }

  /** The list spelt out: district, the base, site, range_fore, name_of_co, adults, juvenile,
      nests, each optional one present exactly when its flag holds, in that order. */
  lemma ColumnListSpeltOut(base: seq<Column>, caps: Capabilities)
    ensures ColumnList(base, caps)
         == When(caps.hasDistrict, DistrictColumn) + base
          + When(caps.hasSite, SiteColumn) + When(caps.hasRangeFO, RangeColumn)
          + When(caps.hasColony, ColonyColumn) + When(caps.hasAdults, AdultsColumn)
          + When(caps.hasJuvenile, JuvenileColumn) + When(caps.hasNests, NestsColumn)
  {
    var p0 := When(caps.hasDistrict, DistrictColumn) + base;
    var e6: seq<(Column, bool)> := [];
    var e5 := [(NestsColumn, caps.hasNests)] + e6;
    var e4 := [(JuvenileColumn, caps.hasJuvenile)] + e5;
    var e3 := [(AdultsColumn, caps.hasAdults)] + e4;
    var e2 := [(ColonyColumn, caps.hasColony)] + e3;
    var e1 := [(RangeColumn, caps.hasRangeFO)] + e2;
    assert OptionalColumns(caps) == [(SiteColumn, caps.hasSite)] + e1;
    var p1 := p0 + When(caps.hasSite, SiteColumn);
    var p2 := p1 + When(caps.hasRangeFO, RangeColumn);
    var p3 := p2 + When(caps.hasColony, ColonyColumn);
    var p4 := p3 + When(caps.hasAdults, AdultsColumn);
    var p5 := p4 + When(caps.hasJuvenile, JuvenileColumn);
    var p6 := p5 + When(caps.hasNests, NestsColumn);
    AppendChosenStep(p0, SiteColumn, caps.hasSite, e1);
    AppendChosenStep(p1, RangeColumn, caps.hasRangeFO, e2);
    AppendChosenStep(p2, ColonyColumn, caps.hasColony, e3);
    AppendChosenStep(p3, AdultsColumn, caps.hasAdults, e4);
    AppendChosenStep(p4, JuvenileColumn, caps.hasJuvenile, e5);
    AppendChosenStep(p5, NestsColumn, caps.hasNests, e6);
  }

  /** The select list built step by step: the base columns, district put in front when the
      table has districts, then each optional column appended when its flag holds. */
  method BuildColumns(base: seq<Column>, caps: Capabilities) returns (columns: seq<Column>)
    ensures columns == ColumnList(base, caps)
  {
    columns := base;
    if caps.hasDistrict { columns := [DistrictColumn] + columns; }
    ghost var p := When(caps.hasDistrict, DistrictColumn) + base;
    assert columns == p;
    if caps.hasSite { columns := columns + [SiteColumn]; }
    p := p + When(caps.hasSite, SiteColumn);
    assert columns == p;
    if caps.hasRangeFO { columns := columns + [RangeColumn]; }
    p := p + When(caps.hasRangeFO, RangeColumn);
    assert columns == p;
    if caps.hasColony { columns := columns + [ColonyColumn]; }
    p := p + When(caps.hasColony, ColonyColumn);
    assert columns == p;
    if caps.hasAdults { columns := columns + [AdultsColumn]; }
    p := p + When(caps.hasAdults, AdultsColumn);
    assert columns == p;
    if caps.hasJuvenile { columns := columns + [JuvenileColumn]; }
    p := p + When(caps.hasJuvenile, JuvenileColumn);
    assert columns == p;
    if caps.hasNests { columns := columns + [NestsColumn]; }
    p := p + When(caps.hasNests, NestsColumn);
    assert columns == p;
    ColumnListSpeltOut(base, caps);
  }

  /** A column outside the district prefix and the base is selected exactly when it is an
      optional column whose flag holds. */
  lemma OptionalMembership(base: seq<Column>, caps: Capabilities, x: Column)
    ensures x in ColumnList(base, caps)
        <==> (x == DistrictColumn && caps.hasDistrict) || x in base || (x, true) in OptionalColumns(caps)
  {
    AppendChosenMembership([], OptionalColumns(caps), x);
  }

  /** District comes first exactly when the table has districts, and only then is it selected;
      the base follows it unchanged. */
  lemma DistrictFirst(base: seq<Column>, caps: Capabilities)
    requires StandardBase(base)
    ensures ColumnList(base, caps)[0] == DistrictColumn <==> caps.hasDistrict
    ensures DistrictColumn in ColumnList(base, caps) <==> caps.hasDistrict
    ensures ColumnList(base, caps)[Ord(caps.hasDistrict)..Ord(caps.hasDistrict) + |base|] == base
  {
    DistrictPrefix(base, caps);
    OptionalMembership(base, caps, DistrictColumn);
  }

  lemma DistrictPrefix(base: seq<Column>, caps: Capabilities)
    requires |base| > 0
    ensures ColumnList(base, caps)[0] == if caps.hasDistrict then DistrictColumn else base[0]
    ensures ColumnList(base, caps)[Ord(caps.hasDistrict)..Ord(caps.hasDistrict) + |base|] == base
  {
    var d := When(caps.hasDistrict, DistrictColumn);
    var tail := AppendChosen([], OptionalColumns(caps));
    assert ColumnList(base, caps) == d + base + tail;
    assert (d + base + tail)[|d|..|d| + |base|] == base;
  }

  /** The j-th optional column is selected exactly when the j-th flag holds. */
  lemma OptionalColumnIffFlagAt(base: seq<Column>, caps: Capabilities, j: nat)
    requires StandardBase(base) && j < 6
    ensures OptionalColumns(caps)[j].0 in ColumnList(base, caps) <==> OptionalColumns(caps)[j].1
  {
    var e := OptionalColumns(caps);
    OptionalMembership(base, caps, e[j].0);
    assert (e[j].0, true) in e <==> e[j].1;
  }

  /** Each optional column is selected exactly when its flag holds. */
  lemma OptionalColumnIffFlag(base: seq<Column>, caps: Capabilities)
    requires StandardBase(base)
    ensures SiteColumn in ColumnList(base, caps) <==> caps.hasSite
    ensures RangeColumn in ColumnList(base, caps) <==> caps.hasRangeFO
    ensures ColonyColumn in ColumnList(base, caps) <==> caps.hasColony
    ensures AdultsColumn in ColumnList(base, caps) <==> caps.hasAdults
    ensures JuvenileColumn in ColumnList(base, caps) <==> caps.hasJuvenile
    ensures NestsColumn in ColumnList(base, caps) <==> caps.hasNests
  {
    OptionalColumnIffFlagAt(base, caps, 0);
    OptionalColumnIffFlagAt(base, caps, 1);
    OptionalColumnIffFlagAt(base, caps, 2);
    OptionalColumnIffFlagAt(base, caps, 3);
    OptionalColumnIffFlagAt(base, caps, 4);
    OptionalColumnIffFlagAt(base, caps, 5);
  }

  /** The list depends on the seven flags the builder reads and on nothing else: the threats
      flag is never read and no threats column is ever selected. */
  lemma ColumnListReadsSevenFlags(base: seq<Column>, c1: Capabilities, c2: Capabilities)
    requires StandardBase(base)
    requires c1.hasDistrict == c2.hasDistrict && c1.hasSite == c2.hasSite
    requires c1.hasRangeFO == c2.hasRangeFO && c1.hasColony == c2.hasColony
    requires c1.hasAdults == c2.hasAdults && c1.hasJuvenile == c2.hasJuvenile && c1.hasNests == c2.hasNests
    ensures ColumnList(base, c1) == ColumnList(base, c2)
    ensures Field("threats") !in ColumnList(base, c1)
  {
    assert OptionalColumns(c1) == OptionalColumns(c2);
    OptionalMembership(base, c1, Field("threats"));
  }

  /** /report and /export differ only in their five base columns: the district prefix and the
      optional columns after the base are the same. */
  lemma ReportAndExportShareTail(caps: Capabilities)
    ensures var d := Ord(caps.hasDistrict);
      |ColumnList(ReportBase, caps)| == |ColumnList(ExportBase, caps)|
      && ColumnList(ReportBase, caps)[..d] == ColumnList(ExportBase, caps)[..d]
      && ColumnList(ReportBase, caps)[d + 5..] == ColumnList(ExportBase, caps)[d + 5..]
  {
    var d := When(caps.hasDistrict, DistrictColumn);
    var tail := AppendChosen([], OptionalColumns(caps));
    assert (d + ReportBase + tail)[|d| + 5..] == tail;
    assert (d + ExportBase + tail)[|d| + 5..] == tail;
    assert (d + ReportBase + tail)[..|d|] == d;
    assert (d + ExportBase + tail)[..|d|] == d;
  }

  /** The Lucknow lists: no district first, no site, and its range-forest and colony columns. */
  lemma LucknowColumnLists(base: seq<Column>)
    ensures ColumnList(base, Config(Lucknow).value)
         == base + [RangeColumn, ColonyColumn, AdultsColumn, JuvenileColumn, NestsColumn]
  {
    var caps := Config(Lucknow).value;
    assert caps == Capabilities(false, false, false, true, true, true, true, true);
    ColumnListSpeltOut(base, caps);
    assert When(caps.hasDistrict, DistrictColumn) + base == base;
    assert base + When(caps.hasSite, SiteColumn) == base;
    assert ColumnList(base, caps) == base + [RangeColumn] + [ColonyColumn] + [AdultsColumn] + [JuvenileColumn] + [NestsColumn];
  }

  /** The dated tables' lists: district first, then the base, site, the counts they have. */
  lemma DatedColumnLists(key: string, base: seq<Column>)
    requires key in SCHEMA && key != Lucknow && StandardBase(base)
    ensures ColumnList(base, Config(key).value)
         == [DistrictColumn] + base + [SiteColumn]
          + When(key != Sarus2021Sep, AdultsColumn) + [JuvenileColumn, NestsColumn]
  {
    var caps := Config(key).value;
    assert caps == Capabilities(true, true, true, false, false, key != Sarus2021Sep, true, true);
    ColumnListSpeltOut(base, caps);
  }

  /** Range-forest and colony columns appear only in the Lucknow table's lists. */
  lemma RangeAndColonyOnlyForLucknow(key: string, base: seq<Column>)
    requires key in SCHEMA && StandardBase(base)
    ensures RangeColumn in ColumnList(base, Config(key).value) <==> key == Lucknow
    ensures ColonyColumn in ColumnList(base, Config(key).value) <==> key == Lucknow
  {
    RangeAndColonyOnlyLucknow(key);
    OptionalColumnIffFlag(base, Config(key).value);
  }

  /** Only the 27-09-2021 table's lists omit adults. */
  lemma AdultsOmittedOnlyForSep2021(key: string, base: seq<Column>)
    requires key in SCHEMA && StandardBase(base)
    ensures AdultsColumn in ColumnList(base, Config(key).value) <==> key != Sarus2021Sep
  {
    OnlySep2021LacksAdults(key);
    OptionalColumnIffFlag(base, Config(key).value);
  }

  /* ---------------- population summary ---------------- */

  function PopulationEntries(caps: Capabilities): seq<(Column, bool)> {
    [(Sum("adults", "adults"), caps.hasAdults),
     (Sum("juvenile", "juvenile"), caps.hasJuvenile),
     (Sum("nests", "nests"), caps.hasNests)]
  }

  function PopulationParts(caps: Capabilities): seq<Column> {
    AppendChosen([], PopulationEntries(caps))
  }

  /** The summary sums adults, juvenile, nests in that order, each exactly when its flag holds;
      with no flag there is nothing to select. */
  lemma PopulationInOrder(caps: Capabilities)
    ensures PopulationParts(caps)
         == When(caps.hasAdults, Sum("adults", "adults")) + When(caps.hasJuvenile, Sum("juvenile", "juvenile"))
          + When(caps.hasNests, Sum("nests", "nests"))
    ensures PopulationParts(caps) == [] <==> !caps.hasAdults && !caps.hasJuvenile && !caps.hasNests
  {
    var e3: seq<(Column, bool)> := [];
    var e2 := [(Sum("nests", "nests"), caps.hasNests)] + e3;
    var e1 := [(Sum("juvenile", "juvenile"), caps.hasJuvenile)] + e2;
    assert PopulationEntries(caps) == [(Sum("adults", "adults"), caps.hasAdults)] + e1;
    var p1 := [] + When(caps.hasAdults, Sum("adults", "adults"));
    var p2 := p1 + When(caps.hasJuvenile, Sum("juvenile", "juvenile"));
    AppendChosenStep([], Sum("adults", "adults"), caps.hasAdults, e1);
    AppendChosenStep(p1, Sum("juvenile", "juvenile"), caps.hasJuvenile, e2);
    AppendChosenStep(p2, Sum("nests", "nests"), caps.hasNests, e3);
    assert p1 == When(caps.hasAdults, Sum("adults", "adults"));
  }

  /** The population sums built step by step: adults, juvenile and nests, each appended when
      its flag holds. */
  method BuildPopulationParts(caps: Capabilities) returns (parts: seq<Column>)
    ensures parts == PopulationParts(caps)
  {
    parts := [];
    if caps.hasAdults { parts := parts + [Sum("adults", "adults")]; }
    ghost var p := When(caps.hasAdults, Sum("adults", "adults"));
    assert parts == p;
    if caps.hasJuvenile { parts := parts + [Sum("juvenile", "juvenile")]; }
    p := p + When(caps.hasJuvenile, Sum("juvenile", "juvenile"));
    assert parts == p;
    if caps.hasNests { parts := parts + [Sum("nests", "nests")]; }
    p := p + When(caps.hasNests, Sum("nests", "nests"));
    assert parts == p;
    PopulationInOrder(caps);
  }

  /** Every dataset's summary includes juvenile and nests, and adults except for 27-09-2021. */
  lemma PopulationForSchema(key: string)
    requires key in SCHEMA
    ensures Sum("juvenile", "juvenile") in PopulationParts(Config(key).value)
    ensures Sum("nests", "nests") in PopulationParts(Config(key).value)
    ensures Sum("adults", "adults") in PopulationParts(Config(key).value) <==> key != Sarus2021Sep
  {
    PopulationInOrder(Config(key).value);
  }

  /* ---------------- page clause ---------------- */

  function Offset(page: int, perPage: int): int {
    (page - 1) * perPage
  }

  /** The /report data query: the filter, ORDER BY gid, and LIMIT/OFFSET placeholders numbered
      after the filter's parameters. */
  function PagedQuery(table: string, columns: seq<Column>, f: Filter, page: int, perPage: int): Query {
    Query(false, columns, table, f.where, None, Some("gid"),
          LimitOffset(|f.params| + 1, |f.params| + 2),
          f.params + [Number(perPage as real), Number(Offset(page, perPage) as real)])
  }

  /** The page placeholders follow the filter's and never collide with it; every placeholder is
      bound to its own value: the district, the page size, the offset. */
  lemma PagedQueryBinding(table: string, columns: seq<Column>, district: Option<string>, caps: Capabilities,
                          page: int, perPage: int)
    ensures var q := PagedQuery(table, columns, FilterFor(district, caps), page, perPage);
      WellBound(q)
      && q.page.limitSlot != q.page.offsetSlot
      && q.page.limitSlot > |FilterFor(district, caps).params|
      && q.page.offsetSlot > |FilterFor(district, caps).params|
      && Bound(q, q.page.limitSlot) == Number(perPage as real)
      && Bound(q, q.page.offsetSlot) == Number(((page - 1) * perPage) as real)
      && (q.where.DistrictEquals? ==> Bound(q, q.where.slot) == Text(district.value))
  {
  }

  /** Page `page` >= 1 returns the window of the filtered rows its bound values select:
      `perPage` rows from offset (page - 1) * perPage. */
  lemma PagedQueryReturns(table: string, columns: seq<Column>, district: Option<string>, caps: Capabilities,
                          rows: seq<Record>, page: int, perPage: nat)
    requires page >= 1
    ensures var f := FilterFor(district, caps); var q := PagedQuery(table, columns, f, page, perPage);
      WellBound(q) && Returned(q, rows) == Window(Matching(f.where, f.params, rows), perPage, (page - 1) * perPage)
  {
    var f := FilterFor(district, caps);
    var q := PagedQuery(table, columns, f, page, perPage);
    PagedQueryBinding(table, columns, district, caps, page, perPage);
    var offset: nat := (page - 1) * perPage;
    var extra := [Number(perPage as real), Number(offset as real)];
    assert q.params == f.params + extra && q.where == f.where;
    MatchingIgnoresLaterParams(f.where, f.params, extra, rows);
    var kept := Matching(f.where, f.params, rows);
    RowCountOfNat(perPage);
    RowCountOfNat(offset);
    assert Returned(q, rows) == Window(kept, RowCount(Bound(q, q.page.limitSlot)), RowCount(Bound(q, q.page.offsetSlot)));
  }

  lemma RowCountOfNat(n: nat)
    ensures RowCount(Number(n as real)) == n
  {
  }

  /** Whatever the page, the data query returns at most `perPage` rows. */
  lemma PagedQuerySize(table: string, columns: seq<Column>, district: Option<string>, caps: Capabilities,
                       rows: seq<Record>, page: int, perPage: nat)
    ensures var q := PagedQuery(table, columns, FilterFor(district, caps), page, perPage);
      WellBound(q) && |Returned(q, rows)| <= perPage
  {
    var q := PagedQuery(table, columns, FilterFor(district, caps), page, perPage);
    PagedQueryBinding(table, columns, district, caps, page, perPage);
    RowCountOfNat(perPage);
  }

  /* ---------------- chart and lookup queries ---------------- */

  /** The district chart: the Sarus count summed per district over the whole table, one row
      per district, in district order. */
  function DistrictChartQuery(table: string): (q: Query)
    ensures WellBound(q) && q.from == table && q.page == Unpaged
    ensures forall r :: Selects(q.where, q.params, r)
    ensures q.groupBy == Some("district") && q.orderBy == Some("district")
    ensures OutputKeys(q.select) == ["district", "sarus_count"]
  {
    Query(false, [Field("district"), Sum("sarus_coun", "sarus_count")], table, NoWhere,
          Some("district"), Some("district"), Unpaged, [])
  }

  /** The site chart has its own `WHERE district = $1`, bound to the district: one row per site
      of that district. */
  function SiteChartQuery(table: string, district: string): (q: Query)
    ensures WellBound(q) && q.from == table && q.page == Unpaged
    ensures forall r :: Selects(q.where, q.params, r) <==> Get(r, "district") == Text(district)
    ensures q.groupBy == Some("site") && q.orderBy == Some("site")
    ensures OutputKeys(q.select) == ["site", "sarus_count"]
  {
    Query(false, [Field("site"), Sum("sarus_coun", "sarus_count")], table, DistrictEquals(1),
          Some("site"), Some("site"), Unpaged, [Text(district)])
  }

  /** The habitat chart groups the whole table, whatever the filter, in no particular order. */
  function HabitatChartQuery(table: string): (q: Query)
    ensures WellBound(q) && q.from == table && q.page == Unpaged
    ensures forall r :: Selects(q.where, q.params, r)
    ensures q.groupBy == Some("habitat") && q.orderBy == None
    ensures OutputKeys(q.select) == ["habitat", "sarus_count"]
  {
    Query(false, [Field("habitat"), Sum("sarus_coun", "sarus_count")], table, NoWhere,
          Some("habitat"), None, Unpaged, [])
  }

  /** The district dropdown: each non-null district once, in order, with no request value
      sent. */
  function DistrictListQuery(table: string): (q: Query)
    ensures WellBound(q) && q.params == [] && q.from == table && q.page == Unpaged
    ensures forall r :: Selects(q.where, q.params, r) <==> Get(r, "district") != Null && Get(r, "district") != Undefined
    ensures q.distinct && q.orderBy == Some("district") && OutputKeys(q.select) == ["district"]
  {
    Query(true, [Field("district")], table, DistrictNotNull, None, Some("district"), Unpaged, [])
  }

  /* ---------------- spreadsheet header ---------------- */

  /** `toUpperCase` on one character (ASCII letters; other characters are left as they are). */
  function UpperChar(c: char): char {
    if 'a' <= c <= 'z' then (c as int - 32) as char else c
  }

  /** `toUpperCase`, character by character. */
  function Upper(s: string): (u: string)
    ensures |u| == |s|
    ensures forall i :: 0 <= i < |s| ==> u[i] == UpperChar(s[i])
  {
    if s == [] then [] else [UpperChar(s[0])] + Upper(s[1..])
  }

  /** String replacement with a one-character string pattern, which replaces the first
      occurrence only.
      It keeps the length; ReplaceFirstChangesFirstOnly says which character changes. */
  function ReplaceFirst(s: string, from: char, to: char): (r: string)
    ensures |r| == |s|
  {
    if s == [] then []
    else if s[0] == from then [to] + s[1..]
    else [s[0]] + ReplaceFirst(s[1..], from, to)
  }

  /** Every occurrence replaced. */
  function ReplaceAll(s: string, from: char, to: char): string {
    seq(|s|, i requires 0 <= i < |s| => if s[i] == from then to else s[i])
  }

  /** The index of the first occurrence of c, or |s| when there is none. */
  function IndexOf(s: string, c: char): (i: nat)
    ensures i <= |s|
    ensures forall j :: 0 <= j < i ==> s[j] != c
    ensures i < |s| ==> s[i] == c
  {
    if s == [] then 0 else if s[0] == c then 0 else 1 + IndexOf(s[1..], c)
  }

  /** ReplaceFirst changes the first occurrence and nothing else. */
  lemma {:induction false} ReplaceFirstChangesFirstOnly(s: string, from: char, to: char)
    ensures var i := IndexOf(s, from);
      ReplaceFirst(s, from, to) == if i == |s| then s else s[..i] + [to] + s[i + 1..]
  {
    if s != [] && s[0] != from {
      var t := s[1..];
      ReplaceFirstChangesFirstOnly(t, from, to);
      var i := IndexOf(t, from);
      assert IndexOf(s, from) == i + 1;
      assert ReplaceFirst(s, from, to) == [s[0]] + ReplaceFirst(t, from, to);
      if i < |t| {
        assert s[..i + 1] == [s[0]] + t[..i];
        assert s[i + 2..] == t[i + 1..];
        assert [s[0]] + (t[..i] + [to] + t[i + 1..]) == s[..i + 1] + [to] + s[i + 2..];
      } else {
        assert [s[0]] + t == s;
      }
    } else if s != [] {
      assert s[..0] == [];
      assert ReplaceFirst(s, from, to) == [to] + s[1..];
    }
  }

  /** Upper-casing moves no underscore. */
  lemma UpperKeepsUnderscores(k: string)
    ensures IndexOf(Upper(k), '_') == IndexOf(k, '_')
    ensures forall i :: 0 <= i < |k| ==> (Upper(k)[i] == '_' <==> k[i] == '_')
  {
  }

  /** The header as written: the key upper-cased, then its first underscore replaced by a space.
      Every later underscore stays, and every other character is upper-cased. */
  function HeaderAsWritten(k: string): (h: string)
    ensures |h| == |k|
    ensures forall i :: 0 <= i < |k| && k[i] != '_' ==> h[i] == UpperChar(k[i])
    ensures IndexOf(k, '_') < |k| ==> h[IndexOf(k, '_')] == ' '
    ensures forall i :: IndexOf(k, '_') < i < |k| && k[i] == '_' ==> h[i] == '_'
  {
    HeaderAsWrittenShape(k);
    ReplaceFirst(Upper(k), '_', ' ')
  }

  lemma HeaderAsWrittenShape(k: string)
    ensures var h := ReplaceFirst(Upper(k), '_', ' '); var i := IndexOf(k, '_');
      |h| == |k|
      && (forall j :: 0 <= j < |k| && k[j] != '_' ==> h[j] == UpperChar(k[j]))
      && (i < |k| ==> h[i] == ' ')
      && (forall j :: i < j < |k| && k[j] == '_' ==> h[j] == '_')
  {
    var u := Upper(k);
    var i := IndexOf(k, '_');
    UpperKeepsUnderscores(k);
    ReplaceFirstChangesFirstOnly(u, '_', ' ');
    if i < |k| {
      var h := u[..i] + [' '] + u[i + 1..];
      assert ReplaceFirst(u, '_', ' ') == h;
      assert forall j :: i < j < |k| ==> h[j] == u[j];
      assert forall j :: 0 <= j < i ==> h[j] == u[j];
    }
  }

  /** The header with every underscore turned into a space, as the display names elsewhere are. */
  function Header(k: string): (h: string)
    ensures |h| == |k|
    ensures '_' !in h
    ensures forall i :: 0 <= i < |k| && k[i] == '_' ==> h[i] == ' '
    ensures forall i :: 0 <= i < |k| && k[i] != '_' ==> h[i] == UpperChar(k[i])
  {
    ReplaceAll(Upper(k), '_', ' ')
  }

  /** ReplaceFirst replaces the first occurrence, wherever it is, and keeps everything after it. */
  lemma {:induction false} ReplaceFirstAfter(a: string, from: char, to: char, b: string)
    requires from !in a
    ensures ReplaceFirst(a + [from] + b, from, to) == a + [to] + b
  {
    if a == [] {
      assert a + [from] + b == [from] + b;
    } else {
      assert (a + [from] + b)[1..] == a[1..] + [from] + b;
      ReplaceFirstAfter(a[1..], from, to, b);
    }
  }

  lemma UpperColonyKey()
    ensures Upper("name_of_co") == "NAME_OF_CO"
  {
    var u := Upper("name_of_co");
    assert u[0] == 'N' && u[1] == 'A' && u[2] == 'M' && u[3] == 'E' && u[4] == '_';
    assert u[5] == 'O' && u[6] == 'F' && u[7] == '_' && u[8] == 'C' && u[9] == 'O';
  }

  lemma ReplaceFirstColonyKey()
    ensures ReplaceFirst("NAME_OF_CO", '_', ' ') == "NAME OF_CO"
  {
    ReplaceFirstAfter("NAME", '_', ' ', "OF_CO");
    assert "NAME" + ['_'] + "OF_CO" == "NAME_OF_CO";
    assert "NAME" + [' '] + "OF_CO" == "NAME OF_CO";
  }

  lemma ReplaceAllColonyKey()
    ensures ReplaceAll("NAME_OF_CO", '_', ' ') == "NAME OF CO"
  {
  }

  /** As written, a key with two underscores keeps its second one. */
  lemma HeaderAsWrittenKeepsSecondUnderscore()
    ensures HeaderAsWritten("name_of_co") == "NAME OF_CO"
    ensures Header("name_of_co") == "NAME OF CO"
  {
    UpperColonyKey();
    ReplaceFirstColonyKey();
    ReplaceAllColonyKey();
  }

  /** A key without an underscore gets the same header either way. */
  lemma HeadersAgreeWithoutUnderscore(k: string)
    requires '_' !in k
    ensures HeaderAsWritten(k) == Header(k)
  {
    HeadersAgreeOnOneUnderscore(k);
  }

  /** A key with exactly one underscore gets the same header either way. */
  lemma HeadersAgreeAround(a: string, b: string)
    requires '_' !in a && '_' !in b
    ensures HeaderAsWritten(a + "_" + b) == Header(a + "_" + b)
  {
    var k := a + "_" + b;
    forall i, j | 0 <= i < j < |k| ensures k[i] != '_' || k[j] != '_' {
      if i < |a| {
        assert k[i] == a[i];
      } else if i > |a| {
        assert k[i] == b[i - |a| - 1];
      } else {
        assert k[j] == b[j - |a| - 1];
      }
    }
    HeadersAgreeOnOneUnderscore(k);
  }

  /** For keys with at most one underscore the header as written is already the intended one. */
  lemma HeadersAgreeOnOneUnderscore(k: string)
    requires forall i, j :: 0 <= i < j < |k| ==> k[i] != '_' || k[j] != '_'
    ensures HeaderAsWritten(k) == Header(k)
  {
    var u := Upper(k);
    assert forall i :: 0 <= i < |k| ==> (u[i] == '_' <==> k[i] == '_');
    ReplaceFirstChangesFirstOnly(u, '_', ' ');
    var i := IndexOf(u, '_');
    forall j | 0 <= j < |u| ensures ReplaceFirst(u, '_', ' ')[j] == ReplaceAll(u, '_', ' ')[j] {
      if i < |u| && j < i { assert u[j] == u[..i][j]; }
    }
  }
}
