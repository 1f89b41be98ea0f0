/**
 * The start-up mapping from the loaded JSON (year -> region -> fields) to the
 * list of `{year, regions}` records, and the initial shared selection.
 * JSON objects are given as their entries, in the order the loader sees them.
 */
module Loader {
  import opened Basics
  import opened Records
  import opened Shared

  /** One region's JSON object; `Prevencao_Index` is the key `Prevenção_Index`, `Dimensoes` is `Dimensões`. */
  datatype RawRegion = RawRegion(
    Area: Option<real>,
    Percentagem: Option<real>,
    Sapadores: Option<real>,
    Eficacia_Index: Option<real>,
    Prevencao_Index: Option<real>,
    Total: Option<real>,
    Causas: Option<seq<RawCause>>,
    Dimensoes: Option<seq<RawDimension>>)

  /** One year's object: region name -> region fields. */
  type RawYear = seq<(string, RawRegion)>

  /** `new RegionData(regionName, regionData.Area, ...)`, arguments in declared order. */
  function ToRegionData(name: string, raw: RawRegion): RegionData {
    NewRegionData(name, raw.Area, raw.Percentagem, raw.Sapadores, raw.Eficacia_Index,
                  raw.Prevencao_Index, raw.Total, raw.Causas, raw.Dimensoes)
  }

  /** True when `r` is what the loader builds for region `name` with fields `raw`. */
  ghost predicate Loaded(r: RegionData, name: string, raw: RawRegion) {
    && r.region == name
    && r.area == raw.Area && r.percentagem == raw.Percentagem && r.sapadores == raw.Sapadores
    && r.eficaciaIndex == raw.Eficacia_Index && r.prevencaoIndex == raw.Prevencao_Index
    && r.total == raw.Total
    && |r.causas| == |raw.Causas.GetOr([])| && |r.dimensoes| == |raw.Dimensoes.GetOr([])|
    && (forall k :: 0 <= k < |r.causas| ==> CausaJson(r.causas[k]) == raw.Causas.value[k])
    && (forall k :: 0 <= k < |r.dimensoes| ==> DimensaoJson(r.dimensoes[k]) == raw.Dimensoes.value[k])
  }

  /** The regions of one year, one per JSON entry, in entry order. */
  function LoadYear(regions: RawYear): (r: seq<RegionData>)
    ensures |r| == |regions|
    ensures forall j :: 0 <= j < |r| ==> Loaded(r[j], regions[j].0, regions[j].1)
  {
    seq(|regions|, j requires 0 <= j < |regions| => ToRegionData(regions[j].0, regions[j].1))
  }

  /**
   * `Object.entries(data).map(([year, regions]) => ({year, regions: ...}))`:
   * one record per top-level entry, in entry order, the year kept as the key
   * string, and each region built from its entry with the entry key as name.
   */
  function StructureData(raw: seq<(string, RawYear)>): (data: seq<YearRecord>)
    ensures |data| == |raw|
    ensures forall i :: 0 <= i < |data| ==>
      data[i].year == raw[i].0 && |data[i].regions| == |raw[i].1|
    ensures forall i, j :: 0 <= i < |data| && 0 <= j < |data[i].regions| ==>
      Loaded(data[i].regions[j], raw[i].1[j].0, raw[i].1[j].1)
  {
    seq(|raw|, i requires 0 <= i < |raw| => YearRecord(raw[i].0, LoadYear(raw[i].1)))
  }

  /** The region drop-down offers exactly the region keys of the JSON, after "Portugal". */
  lemma OfferedRegionsAreJsonKeys(raw: seq<(string, RawYear)>, name: string)
    ensures name in RegionOptions(StructureData(raw))[1..] <==>
      exists i, j :: 0 <= i < |raw| && 0 <= j < |raw[i].1| && raw[i].1[j].0 == name
  {
    var data := StructureData(raw);
    var names := RegionNames(data);
    var options := RegionOptions(data);
    RegionNamesExactly(data);
    if name in options[1..] {
      var k :| 0 <= k < |options[1..]| && options[1..][k] == name;
      assert name in names;
      var m :| 0 <= m < |names| && names[m] == name;
      assert IsRegionOf(data, names[m]);
      var i, j :| 0 <= i < |data| && 0 <= j < |data[i].regions| && data[i].regions[j].region == names[m];
      assert raw[i].1[j].0 == name;
    }
    if exists i, j :: 0 <= i < |raw| && 0 <= j < |raw[i].1| && raw[i].1[j].0 == name {
      var i, j :| 0 <= i < |raw| && 0 <= j < |raw[i].1| && raw[i].1[j].0 == name;
      EveryRegionIsOffered(data, i, j);
    }
  }

  /**
   * `new SharedState(structured_data, "Portugal", 0)`: the end index is not
   * passed, so it starts undefined, and no listener is registered yet.
   */
  method Init(raw: seq<(string, RawYear)>) returns (state: SharedState)
    ensures state.data == StructureData(raw)
    ensures state.region == Portugal
    ensures state.startYearIndex == Some(0) && state.endYearIndex == None
    ensures state.listeners == []
  {
    state := new SharedState(StructureData(raw), Portugal, Some(0), None);
  }
}
