/**
 * The dataset the charts read: one record per year, each holding the
 * regions' figures. Built by the `RegionData`, `Causa` and `Dimensao`
 * constructors from the raw JSON entries; lists the constructors receive as
 * `null`/`undefined` become empty.
 */
module Records {
  import opened Basics

  /** One cause entry: the cause label and its number of fires (may be null). */
  datatype Causa = Causa(causa: string, numero: Option<real>)

  /** One size-class entry; `dimension` is the JavaScript field `label`. */
  datatype Dimensao = Dimensao(dimension: string, numero: Option<real>)

  /** Figures for one region in one year; any scalar may be null or undefined. */
  datatype RegionData = RegionData(
    region: string,
    area: Option<real>,
    percentagem: Option<real>,
    sapadores: Option<real>,
    eficaciaIndex: Option<real>,
    prevencaoIndex: Option<real>,
    total: Option<real>,
    causas: seq<Causa>,
    dimensoes: seq<Dimensao>)

  /** `{year, regions}`: the year is kept as the JSON key string. */
  datatype YearRecord = YearRecord(year: string, regions: seq<RegionData>)

  /** JSON `{"Causa": ..., "Numero": ...}`. */
  datatype RawCause = RawCause(Causa: string, Numero: Option<real>)

  /** JSON `{"Dimensões": ..., "Numero": ...}`. */
  datatype RawDimension = RawDimension(Dimensoes: string, Numero: Option<real>)

  function CausaJson(c: Causa): RawCause {
    RawCause(c.causa, c.numero)
  }

  function DimensaoJson(d: Dimensao): RawDimension {
    RawDimension(d.dimension, d.numero)
  }

  /** `c => new Causa(c.Causa, c.Numero)`: nothing of the entry is lost or altered. */
  function ToCausa(c: RawCause): (r: Causa)
    ensures CausaJson(r) == c
  {
    Causa(c.Causa, c.Numero)
  }

  /** `d => new Dimensao(d.Dimensões, d.Numero)`: nothing of the entry is lost or altered. */
  function ToDimensao(d: RawDimension): (r: Dimensao)
    ensures DimensaoJson(r) == d
  {
    Dimensao(d.Dimensoes, d.Numero)
  }

  /**
   * `new RegionData(...)`: scalars are stored as given; each list is mapped
   * entry by entry, keeping length and order, and a missing list becomes [].
   */
  function NewRegionData(
    region: string, area: Option<real>, percentagem: Option<real>, sapadores: Option<real>,
    eficaciaIndex: Option<real>, prevencaoIndex: Option<real>, total: Option<real>,
    causas: Option<seq<RawCause>>, dimensoes: Option<seq<RawDimension>>): (r: RegionData)
    ensures r.region == region && r.area == area && r.percentagem == percentagem
    ensures r.sapadores == sapadores && r.eficaciaIndex == eficaciaIndex
    ensures r.prevencaoIndex == prevencaoIndex && r.total == total
    ensures causas.None? ==> r.causas == []
    ensures dimensoes.None? ==> r.dimensoes == []
    ensures |r.causas| == |causas.GetOr([])|
    ensures forall i :: 0 <= i < |r.causas| ==> CausaJson(r.causas[i]) == causas.value[i]
    ensures |r.dimensoes| == |dimensoes.GetOr([])|
    ensures forall i :: 0 <= i < |r.dimensoes| ==> DimensaoJson(r.dimensoes[i]) == dimensoes.value[i]
  {
    var cs := causas.GetOr([]);
    var ds := dimensoes.GetOr([]);
    RegionData(region, area, percentagem, sapadores, eficaciaIndex, prevencaoIndex, total,
               seq(|cs|, i requires 0 <= i < |cs| => ToCausa(cs[i])),
               seq(|ds|, i requires 0 <= i < |ds| => ToDimensao(ds[i])))
  }

  /** `regions.find(r => r.region === name)`: the first region with that name, if any. */
  function FindRegion(regions: seq<RegionData>, name: string): (r: Option<RegionData>)
    ensures r.None? <==> forall j :: 0 <= j < |regions| ==> regions[j].region != name
    ensures r.Some? ==>
              exists j :: 0 <= j < |regions| && regions[j] == r.value && regions[j].region == name &&
                          forall k :: 0 <= k < j ==> regions[k].region != name
  {
    if |regions| == 0 then None
    else if regions[0].region == name then Some(regions[0])
    else
      var r := FindRegion(regions[1..], name);
      r
  }

  /** `data.flatMap(d => d.regions.map(r => r.region))`. */
  function RegionNames(data: seq<YearRecord>): (names: seq<string>)
    ensures |data| == 0 ==> names == []
  {
    if |data| == 0 then []
    else
      var last := data[|data| - 1].regions;
      RegionNames(data[..|data| - 1]) + seq(|last|, j requires 0 <= j < |last| => last[j].region)
  }

  /** Some year of `data` has a region called `name`. */
  ghost predicate IsRegionOf(data: seq<YearRecord>, name: string) {
    exists i, j :: 0 <= i < |data| && 0 <= j < |data[i].regions| && data[i].regions[j].region == name
  }

  /** The flattened list holds every region of every year, and nothing else. */
  lemma {:induction false} RegionNamesExactly(data: seq<YearRecord>)
    ensures forall i, j :: 0 <= i < |data| && 0 <= j < |data[i].regions| ==>
      data[i].regions[j].region in RegionNames(data)
    ensures forall k :: 0 <= k < |RegionNames(data)| ==> IsRegionOf(data, RegionNames(data)[k])
  {
    if |data| > 0 {
      var prefix := data[..|data| - 1];
      RegionNamesExactly(prefix);
      var rest := RegionNames(prefix);
      var last := data[|data| - 1].regions;
      var names := RegionNames(data);
      var n := |data| - 1;
      forall i, j | 0 <= i < |data| && 0 <= j < |data[i].regions|
        ensures data[i].regions[j].region in names
      {
        if i < n {
          assert prefix[i] == data[i];
          assert data[i].regions[j].region in rest;
        } else {
          assert names[|rest| + j] == last[j].region;
        }
      }
      forall k | 0 <= k < |names|
        ensures IsRegionOf(data, names[k])
      {
        if k < |rest| {
          assert names[k] == rest[k];
          assert IsRegionOf(prefix, rest[k]);
          var i, j :| 0 <= i < |prefix| && 0 <= j < |prefix[i].regions| && prefix[i].regions[j].region == rest[k];
          assert prefix[i] == data[i];
        } else {
          assert names[k] == last[k - |rest|].region;
          assert data[n].regions[k - |rest|].region == names[k];
        }
      }
    } else {
      assert RegionNames(data) == [];
    }
  }

  /** `data.map(d => d.year)`: the year labels the arrows step through. */
  function Years(data: seq<YearRecord>): (years: seq<string>)
    ensures |years| == |data|
    ensures forall i :: 0 <= i < |data| ==> years[i] == data[i].year
  {
    seq(|data|, i requires 0 <= i < |data| => data[i].year)
  }

  /** The name of the nationwide selection, and the first entry of every region drop-down. */
  const Portugal: string := "Portugal"

  /**
   * The region drop-down shared by the charts: "Portugal", then every region
   * name of the dataset once, in order of first appearance. A region that is
   * itself called "Portugal" would appear a second time.
   */
  function RegionOptions(data: seq<YearRecord>): (options: seq<string>)
    ensures |options| >= 1 && options[0] == Portugal
    ensures FirstAppearanceOrder(RegionNames(data), options[1..])
  {
    var distinct := Dedup(RegionNames(data));
    DedupIsFirstAppearanceOrder(RegionNames(data));
    assert ([Portugal] + distinct)[1..] == distinct;
    [Portugal] + distinct
  }

  /** Every region of every year is offered in the drop-down, after "Portugal". */
  lemma EveryRegionIsOffered(data: seq<YearRecord>, i: nat, j: nat)
    requires i < |data| && j < |data[i].regions|
    ensures data[i].regions[j].region in RegionOptions(data)[1..]
  {
    RegionNamesExactly(data);
  }
}
