/**
 * The Sarus capability table: for each dataset key, the flags that say which
 * optional columns its physical table has. A flag the record does not list
 * reads as `undefined` in the handlers, which is falsy.
 */
module Schema {
  import opened Wrappers

  /** One flag record exactly as written: only the flags it lists. */
  type FlagRecord = map<string, bool>

  const Sarus2020: string := "sarus_2_09_2020"
  const Sarus2021Jan: string := "sarus_21_01_2021"
  const Sarus2021Sep: string := "sarus_27_09_2021"
  const Lucknow: string := "sarus_lucknow_population"

  const SCHEMA: map<string, FlagRecord> := map[
    Sarus2020 := map[
      "hasDistrict" := true, "hasThreats" := true, "hasSite" := true,
      "hasAdults" := true, "hasJuvenile" := true, "hasNests" := true],
    Sarus2021Jan := map[
      "hasDistrict" := true, "hasSite" := true, "hasThreats" := true,
      "hasAdults" := true, "hasJuvenile" := true, "hasNests" := true],
    Sarus2021Sep := map[
      "hasDistrict" := true, "hasSite" := true, "hasThreats" := true,
      "hasAdults" := false, "hasJuvenile" := true, "hasNests" := true],
    Lucknow := map[
      "hasDistrict" := false, "hasSite" := false, "hasAdults" := true,
      "hasJuvenile" := true, "hasNests" := true, "hasRangeFO" := true,
      "hasColony" := true]
  ]

  /** The flags as the handlers read them, absent ones as false. */
  datatype Capabilities = Capabilities(
    hasDistrict: bool, hasThreats: bool, hasSite: bool, hasRangeFO: bool,
    hasColony: bool, hasAdults: bool, hasJuvenile: bool, hasNests: bool)

  /** `config.name` under JavaScript truthiness. */
  function Flag(rec: FlagRecord, name: string): bool {
    name in rec && rec[name]
  }

  function CapabilitiesOf(rec: FlagRecord): Capabilities {
    Capabilities(
      Flag(rec, "hasDistrict"), Flag(rec, "hasThreats"), Flag(rec, "hasSite"),
      Flag(rec, "hasRangeFO"), Flag(rec, "hasColony"), Flag(rec, "hasAdults"),
      Flag(rec, "hasJuvenile"), Flag(rec, "hasNests"))
  }

  /** `SCHEMA[key]` (own keys only), read as capabilities. */
  function Config(key: string): (c: Option<Capabilities>)
    ensures c.Some? <==> key in {Sarus2020, Sarus2021Jan, Sarus2021Sep, Lucknow}
  {
    if key in SCHEMA then Some(CapabilitiesOf(SCHEMA[key])) else None
  }

  /** The Lucknow table is the only one without district and site columns. */
  lemma OnlyLucknowLacksDistrictAndSite(key: string)
    requires key in SCHEMA
    ensures !Config(key).value.hasDistrict <==> key == Lucknow
    ensures !Config(key).value.hasSite <==> key == Lucknow
  {
  }

  /** Range-forest and colony flags are listed only for the Lucknow table; elsewhere they are absent, hence false. */
  lemma RangeAndColonyOnlyLucknow(key: string)
    requires key in SCHEMA
    ensures Config(key).value.hasRangeFO <==> key == Lucknow
    ensures Config(key).value.hasColony <==> key == Lucknow
    ensures key != Lucknow ==> "hasRangeFO" !in SCHEMA[key] && "hasColony" !in SCHEMA[key]
  {
  }

  /** The 27-09-2021 table is the only one whose adults flag is false. */
  lemma OnlySep2021LacksAdults(key: string)
    requires key in SCHEMA
    ensures !Config(key).value.hasAdults <==> key == Sarus2021Sep
  {
  }

  /** Every table has juvenile and nest counts. */
  lemma JuvenileAndNestsEverywhere(key: string)
    requires key in SCHEMA
    ensures Config(key).value.hasJuvenile && Config(key).value.hasNests
  {
  }

  /** The threats flag is set for the three dated tables only. */
  lemma ThreatsOnlyDated(key: string)
    requires key in SCHEMA
    ensures Config(key).value.hasThreats <==> key != Lucknow
  {
  }

  /** No table has a site column without a district column. */
  lemma SiteImpliesDistrict(key: string)
    requires key in SCHEMA
    ensures Config(key).value.hasSite ==> Config(key).value.hasDistrict
  {
  }
}
