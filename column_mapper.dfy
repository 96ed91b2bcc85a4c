/**
 * `normalizeColumns(row, index, isLucknow)`: the projection of a database row
 * into a display row with a 1-based serial and display names. The display row
 * is an ordered object, because its key order is the order of the headers of
 * any table or file written from it.
 */
module ColumnMapper {
  import opened JsObject
  import opened Schema
  import opened Sql
  import opened QueryBuilder

  /** The display row every table gets, in literal order: display name and source field. */
  const CommonFields: seq<(string, string)> := [
    ("DISTRICT", "district"), ("LATITUDE", "latitude"), ("LONGITUDE", "longitude"),
    ("SARUS COUNT", "sarus_count"), ("ADULTS", "adults"), ("JUVENILE", "juvenile"),
    ("NESTS", "nests"), ("SITE", "site"), ("HABITAT", "habitat"), ("THREATS", "threats"),
    ("DATE", "date")]

  const CommonKeys: seq<string> := [
    "SNO", "DISTRICT", "LATITUDE", "LONGITUDE", "SARUS COUNT", "ADULTS", "JUVENILE",
    "NESTS", "SITE", "HABITAT", "THREATS", "DATE"]

  /** The Lucknow display row: DISTRICT gone, the two colony fields at the end. */
  const LucknowKeys: seq<string> := [
    "SNO", "LATITUDE", "LONGITUDE", "SARUS COUNT", "ADULTS", "JUVENILE",
    "NESTS", "SITE", "HABITAT", "THREATS", "DATE", "RANGE FOREST", "NAME OF COLONY"]

  /** The object literal `mapped`: the serial, then each common field copied from the row.
      Its keys are the twelve display names, in literal order. */
  function Mapped(row: Record, index: int): (mapped: Record)
    ensures Keys(mapped) == CommonKeys
  {
    [("SNO", Number((index + 1) as real))]
    + seq(|CommonFields|, i requires 0 <= i < |CommonFields| => (CommonFields[i].0, Get(row, CommonFields[i].1)))
  }

  /** The mapper with the field the range-forest value is read from as a parameter. */
  function NormalizeWith(row: Record, index: int, isLucknow: bool, rangeField: string): Record {
    var mapped := Mapped(row, index);
    if isLucknow then LucknowBranch(mapped, Get(row, rangeField), Get(row, "name_of_co")) else mapped
  }

  /** The Lucknow branch: it assigns RANGE FOREST and NAME OF COLONY, then deletes DISTRICT.
      Afterwards DISTRICT is undefined, the two new keys hold their values, and every other key
      keeps its value. */
  function LucknowBranch(mapped: Record, range: Value, colony: Value): (out: Record)
    ensures Get(out, "DISTRICT") == Undefined
    ensures Get(out, "RANGE FOREST") == range && Get(out, "NAME OF COLONY") == colony
    ensures forall k :: k != "DISTRICT" && k != "RANGE FOREST" && k != "NAME OF COLONY" ==> Get(out, k) == Get(mapped, k)
  {
    Delete(Assign(Assign(mapped, "RANGE FOREST", range), "NAME OF COLONY", colony), "DISTRICT")
  }

  /** The mapper as written: RANGE FOREST is read from `row.range_fo`. */
  function NormalizeColumnsAsWritten(row: Record, index: int, isLucknow: bool): (out: Record)
    ensures Keys(out) == if isLucknow then LucknowKeys else CommonKeys
    ensures Get(out, "SNO") == Number((index + 1) as real)
    ensures Get(out, "RANGE FOREST") == if isLucknow then Get(row, "range_fo") else Undefined
  {
    NormalizedKeys(row, index, isLucknow, "range_fo");
    SerialIsIndexPlusOne(row, index, isLucknow, "range_fo");
    CopiedFromSource(row, index, isLucknow, "range_fo", 0);
    NormalizeWith(row, index, isLucknow, "range_fo")
  }

  /** The mapper reading RANGE FOREST from `range_fore`, the column the queries select. */
  function NormalizeColumns(row: Record, index: int, isLucknow: bool): (out: Record)
    ensures Keys(out) == if isLucknow then LucknowKeys else CommonKeys
    ensures Get(out, "SNO") == Number((index + 1) as real)
    ensures Get(out, "RANGE FOREST") == if isLucknow then Get(row, "range_fore") else Undefined
  {
    NormalizedKeys(row, index, isLucknow, "range_fore");
    SerialIsIndexPlusOne(row, index, isLucknow, "range_fore");
    CopiedFromSource(row, index, isLucknow, "range_fore", 0);
    NormalizeWith(row, index, isLucknow, "range_fore")
  }

  /** No display name occurs twice. */
  lemma DisplayKeysDistinct()
    ensures Distinct(CommonKeys) && Distinct(LucknowKeys)
  {
  }

  /** On the common display row, the Lucknow branch removes DISTRICT and appends its two keys. */
  lemma LucknowBranchKeys(mapped: Record, range: Value, colony: Value)
    requires Keys(mapped) == CommonKeys
    ensures Keys(LucknowBranch(mapped, range, colony)) == LucknowKeys
  {
    var m1 := Assign(mapped, "RANGE FOREST", range);
    assert "RANGE FOREST" !in CommonKeys;
    assert Keys(m1) == CommonKeys + ["RANGE FOREST"];
    var m2 := Assign(m1, "NAME OF COLONY", colony);
    assert "NAME OF COLONY" !in CommonKeys + ["RANGE FOREST"];
    assert Keys(m2) == CommonKeys + ["RANGE FOREST"] + ["NAME OF COLONY"];
    assert CommonKeys + ["RANGE FOREST"] + ["NAME OF COLONY"] == CommonKeys + ["RANGE FOREST", "NAME OF COLONY"];
    WithoutDistrict();
    assert Keys(Delete(m2, "DISTRICT")) == Without(Keys(m2), "DISTRICT");
  }

  /** Without the Lucknow branch the display row has exactly the twelve common keys, in literal
      order; with it DISTRICT is removed, the order of the rest kept, and RANGE FOREST and
      NAME OF COLONY come last. */
  lemma NormalizedKeys(row: Record, index: int, isLucknow: bool, rangeField: string)
    ensures Keys(NormalizeWith(row, index, isLucknow, rangeField)) == if isLucknow then LucknowKeys else CommonKeys
    ensures CommonKeys[1] == "DISTRICT"
            && LucknowKeys == CommonKeys[..1] + CommonKeys[2..] + ["RANGE FOREST", "NAME OF COLONY"]
    ensures Distinct(Keys(NormalizeWith(row, index, isLucknow, rangeField)))
  {
    DisplayKeysDistinct();
    if isLucknow {
      LucknowBranchKeys(Mapped(row, index), Get(row, rangeField), Get(row, "name_of_co"));
      WithoutDistrict();
    }
  }

  /** Deleting DISTRICT from the keys after the Lucknow assignments leaves the Lucknow keys. */
  lemma WithoutDistrict()
    ensures Without(CommonKeys + ["RANGE FOREST", "NAME OF COLONY"], "DISTRICT") == LucknowKeys
  {
    var b := CommonKeys[2..] + ["RANGE FOREST", "NAME OF COLONY"];
    assert CommonKeys + ["RANGE FOREST", "NAME OF COLONY"] == ["SNO"] + ["DISTRICT"] + b;
    WithoutOnce(["SNO"], "DISTRICT", b);
    assert ["SNO"] + b == LucknowKeys;
  }

  /** SNO is the serial `index + 1`. */
  lemma SerialIsIndexPlusOne(row: Record, index: int, isLucknow: bool, rangeField: string)
    ensures Get(NormalizeWith(row, index, isLucknow, rangeField), "SNO") == Number((index + 1) as real)
  {
    assert Mapped(row, index)[0] == ("SNO", Number((index + 1) as real));
  }

  /** In the literal, each common display name holds the value of its source field, and the
      two colony names are absent. */
  lemma MappedValues(row: Record, index: int, j: nat)
    requires j < |CommonFields|
    ensures Get(Mapped(row, index), CommonFields[j].0) == Get(row, CommonFields[j].1)
    ensures Get(Mapped(row, index), "NAME OF COLONY") == Undefined
    ensures Get(Mapped(row, index), "RANGE FOREST") == Undefined
  {
    var mapped := Mapped(row, index);
    DisplayKeysDistinct();
    assert mapped[j + 1] == (CommonFields[j].0, Get(row, CommonFields[j].1));
    GetAt(mapped, j + 1);
    assert "NAME OF COLONY" !in CommonKeys && "RANGE FOREST" !in CommonKeys;
  }

  /** Each common display value is copied from its one source field; for the Lucknow table
      DISTRICT is gone, NAME OF COLONY is `row.name_of_co` and RANGE FOREST is the range field. */
  lemma CopiedFromSource(row: Record, index: int, isLucknow: bool, rangeField: string, j: nat)
    requires j < |CommonFields|
    ensures var out := NormalizeWith(row, index, isLucknow, rangeField);
      Get(out, CommonFields[j].0) == if isLucknow && CommonFields[j].0 == "DISTRICT" then Undefined
                                     else Get(row, CommonFields[j].1)
    ensures var out := NormalizeWith(row, index, isLucknow, rangeField);
      Get(out, "NAME OF COLONY") == (if isLucknow then Get(row, "name_of_co") else Undefined)
      && Get(out, "RANGE FOREST") == (if isLucknow then Get(row, rangeField) else Undefined)
  {
    var mapped := Mapped(row, index);
    MappedValues(row, index, j);
    var k := CommonFields[j].0;
    assert k != "NAME OF COLONY" && k != "RANGE FOREST";
    assert Get(LucknowBranch(mapped, Get(row, rangeField), Get(row, "name_of_co")), k)
        == if k == "DISTRICT" then Undefined else Get(mapped, k);
  }

  /** The mapper applied to each row with its index, the range-forest value read from
      `rangeField`. */
  function NormalizeRows(rows: seq<Record>, isLucknow: bool, rangeField: string): seq<Record> {
    seq(|rows|, i requires 0 <= i < |rows| => NormalizeWith(rows[i], i, isLucknow, rangeField))
  }

  /** Mapping rows with indices 0 .. n-1 numbers them 1 .. n, in output order, whichever field
      the range-forest value is read from, `range_fo` as written included. */
  lemma SerialsCountUp(rows: seq<Record>, isLucknow: bool, rangeField: string)
    ensures |NormalizeRows(rows, isLucknow, rangeField)| == |rows|
    ensures forall i :: 0 <= i < |rows| ==> Get(NormalizeRows(rows, isLucknow, rangeField)[i], "SNO") == Number((i + 1) as real)
    ensures forall i, j :: 0 <= i < j < |rows| ==>
              Get(NormalizeRows(rows, isLucknow, rangeField)[i], "SNO").n < Get(NormalizeRows(rows, isLucknow, rangeField)[j], "SNO").n
  {
    forall i | 0 <= i < |rows|
      ensures Get(NormalizeRows(rows, isLucknow, rangeField)[i], "SNO") == Number((i + 1) as real)
    {
      SerialIsIndexPlusOne(rows[i], i, isLucknow, rangeField);
    }
  }

  /** Every selected column's output name is one of a known few; `range_fore` is the range
      column's. */
  lemma SelectedOutputKey(base: seq<Column>, caps: Capabilities, x: Column)
    requires StandardBase(base) && x in ColumnList(base, caps)
    ensures OutputKey(x) != "range_fo"
    ensures OutputKey(x) == "range_fore" <==> x == RangeColumn
  {
    OptionalMembership(base, caps, x);
    if x in base {
      assert x in ReportBase || x in ExportBase;
    } else if x != DistrictColumn {
      var e := OptionalColumns(caps);
      var j :| 0 <= j < |e| && e[j] == (x, true);
      assert x in [SiteColumn, RangeColumn, ColonyColumn, AdultsColumn, JuvenileColumn, NestsColumn];
    }
  }

  /** No report or export select list has a column whose output name is `range_fo`; the
      range-forest column is there, named `range_fore`, exactly when the table has it. */
  lemma NoRangeFoColumn(base: seq<Column>, caps: Capabilities)
    requires StandardBase(base)
    ensures "range_fo" !in OutputKeys(ColumnList(base, caps))
    ensures "range_fore" in OutputKeys(ColumnList(base, caps)) <==> caps.hasRangeFO
  {
    var cols := ColumnList(base, caps);
    forall i | 0 <= i < |cols|
      ensures OutputKeys(cols)[i] != "range_fo"
      ensures OutputKeys(cols)[i] == "range_fore" <==> cols[i] == RangeColumn
    {
      SelectedOutputKey(base, caps, cols[i]);
    }
    OptionalColumnIffFlag(base, caps);
    if caps.hasRangeFO {
      var i :| 0 <= i < |cols| && cols[i] == RangeColumn;
      assert OutputKeys(cols)[i] == "range_fore";
    }
  }

  /** As written, for a row shaped by the report or export query, RANGE FOREST is always
      undefined: no selected column is named `range_fo`. */
  lemma RangeForestLostAsWritten(row: Record, index: int, base: seq<Column>, caps: Capabilities)
    requires StandardBase(base)
    requires Keys(row) == OutputKeys(ColumnList(base, caps))
    ensures Get(NormalizeColumnsAsWritten(row, index, true), "RANGE FOREST") == Undefined
  {
    NoRangeFoColumn(base, caps);
    CopiedFromSource(row, index, true, "range_fo", 0);
  }

  /** Reading `range_fore`, RANGE FOREST carries the row's range-forest value, which the query
      selects exactly when the table has one. */
  lemma RangeForestKept(row: Record, index: int, base: seq<Column>, caps: Capabilities)
    requires StandardBase(base)
    requires Keys(row) == OutputKeys(ColumnList(base, caps))
    ensures Get(NormalizeColumns(row, index, true), "RANGE FOREST") == Get(row, "range_fore")
    ensures caps.hasRangeFO <==> "range_fore" in Keys(row)
    ensures !caps.hasRangeFO ==> Get(NormalizeColumns(row, index, true), "RANGE FOREST") == Undefined
  {
    NoRangeFoColumn(base, caps);
    CopiedFromSource(row, index, true, "range_fore", 0);
  }

  /** Concretely: a Lucknow row with a range-forest value loses it as written. */
  lemma RangeForestCounterexample()
    ensures var row := [("range_fore", Text("Lucknow")), ("name_of_co", Text("Colony"))];
      Get(NormalizeColumnsAsWritten(row, 0, true), "RANGE FOREST") == Undefined
      && Get(NormalizeColumns(row, 0, true), "RANGE FOREST") == Text("Lucknow")
  {
    var row := [("range_fore", Text("Lucknow")), ("name_of_co", Text("Colony"))];
    CopiedFromSource(row, 0, true, "range_fo", 0);
    CopiedFromSource(row, 0, true, "range_fore", 0);
  }
}
