/**
 * The radial bar chart's data: the fire total of every year for the selected
 * region, and the decision to show "No data available for this region"
 * instead of bars. Two variants exist: the fires dashboard reads a region's
 * missing total as 0, the wines boilerplate passes it on unchanged.
 */
module Radial {
  import opened Basics
  import opened Records

  /** `{year, total}`: one bar. */
  datatype YearTotal = YearTotal(year: string, total: real)

  /** `d.regions.reduce((sum, r) => sum + (r.total || 0), 0)`. */
  function NationalTotal(regions: seq<RegionData>): real {
    if |regions| == 0 then 0.0
    else NationalTotal(regions[..|regions| - 1]) + OrZero(regions[|regions| - 1].total)
  }

  /** Fires variant: the first region with that name, its total or 0; 0 when absent. */
  function RegionTotal(regions: seq<RegionData>, region: string): real {
    match FindRegion(regions, region)
    case None => 0.0
    case Some(r) => OrZero(r.total)
  }

  /** Sum of the named-region totals of `names`, in order. */
  function SumNamed(regions: seq<RegionData>, names: seq<string>): real {
    if |names| == 0 then 0.0
    else SumNamed(regions, names[..|names| - 1]) + RegionTotal(regions, names[|names| - 1])
  }

  function Names(regions: seq<RegionData>): (names: seq<string>)
    ensures |names| == |regions|
    ensures forall j :: 0 <= j < |names| ==> names[j] == regions[j].region
  {
    seq(|regions|, j requires 0 <= j < |regions| => regions[j].region)
  }

  /**
   * `getTotals(region)` of the fires dashboard: one bar per year record, in
   * dataset order, each keeping its year; the national bar adds every
   * region's total, a named bar shows that region's own total.
   */
  function GetTotals(data: seq<YearRecord>, region: string): (bars: seq<YearTotal>)
    ensures |bars| == |data|
    ensures forall i :: 0 <= i < |bars| ==> bars[i].year == data[i].year
    ensures region == Portugal ==>
      forall i :: 0 <= i < |bars| ==> bars[i].total == NationalTotal(data[i].regions)
    ensures region != Portugal ==>
      forall i :: 0 <= i < |bars| ==> bars[i].total == RegionTotal(data[i].regions, region)
  {
    seq(|data|, i requires 0 <= i < |data| =>
      YearTotal(data[i].year,
                if region == Portugal then NationalTotal(data[i].regions)
                else RegionTotal(data[i].regions, region)))
  }

  /** With distinct region names, a region found by name is the one at its own position. */
  lemma {:induction false} FindOwnName(regions: seq<RegionData>, j: nat)
    requires Distinct(Names(regions)) && j < |regions|
    ensures FindRegion(regions, regions[j].region) == Some(regions[j])
  {
    if j > 0 {
      assert Names(regions)[0] != Names(regions)[j];
      var tail := regions[1..];
      assert forall a :: 0 <= a < |tail| ==> Names(tail)[a] == Names(regions)[a + 1];
      assert tail[j - 1] == regions[j];
      FindOwnName(tail, j - 1);
    }
  }

  /**
   * When no two regions of a year share a name, the national bar is the sum
   * of the bars of that year's regions: nothing is counted twice or lost.
   */
  lemma {:induction false} NationalIsSumOfRegions(regions: seq<RegionData>, k: nat)
    requires Distinct(Names(regions)) && k <= |regions|
    ensures NationalTotal(regions[..k]) == SumNamed(regions, Names(regions)[..k])
  {
    if k > 0 {
      NationalIsSumOfRegions(regions, k - 1);
      assert regions[..k][..k - 1] == regions[..k - 1];
      assert Names(regions)[..k][..k - 1] == Names(regions)[..k - 1];
      FindOwnName(regions, k - 1);
    }
  }

  /** `d3.max` over values that may be missing: the largest present value, or none. */
  function Max(xs: seq<Option<real>>): (m: Option<real>)
    ensures m.None? <==> forall i :: 0 <= i < |xs| ==> xs[i].None?
    ensures m.Some? ==> exists i :: 0 <= i < |xs| && xs[i] == m
    ensures m.Some? ==> forall i :: 0 <= i < |xs| && xs[i].Some? ==> xs[i].value <= m.value
  {
    if |xs| == 0 then None
    else
      var rest := Max(xs[..|xs| - 1]);
      var last := xs[|xs| - 1];
      assert forall i :: 0 <= i < |xs| - 1 ==> xs[..|xs| - 1][i] == xs[i];
      if last.None? then rest
      else if rest.None? || rest.value < last.value then last
      else rest
  }

  function TotalsOf(bars: seq<YearTotal>): (xs: seq<Option<real>>)
    ensures |xs| == |bars|
    ensures forall i :: 0 <= i < |xs| ==> xs[i] == Some(bars[i].total)
  {
    seq(|bars|, i requires 0 <= i < |bars| => Some(bars[i].total))
  }

  /** `(d3.max(totals, d => d.total) || 0) === 0`: the chart draws no bars. */
  predicate ShowsNoData(data: seq<YearRecord>, region: string): (b: bool)
    ensures b ==> forall i :: 0 <= i < |data| ==> GetTotals(data, region)[i].total <= 0.0
    ensures (forall i :: 0 <= i < |data| ==> GetTotals(data, region)[i].total == 0.0) ==> b
  {
    var xs := TotalsOf(GetTotals(data, region));
    assert forall i :: 0 <= i < |data| ==> xs[i] == Some(GetTotals(data, region)[i].total);
    OrZero(Max(xs)) == 0.0
  }

  /** No bars exactly when there are no years, or when the largest bar is 0. */
  lemma NoDataWhenMaxIsZero(data: seq<YearRecord>, region: string)
    ensures ShowsNoData(data, region) <==>
      |data| == 0 || Max(TotalsOf(GetTotals(data, region))) == Some(0.0)
  {
  }

  /** A region that appears in no year is shown as having no data. */
  lemma UnknownRegionHasNoData(data: seq<YearRecord>, region: string)
    requires region != Portugal
    requires forall i, j :: 0 <= i < |data| && 0 <= j < |data[i].regions| ==> data[i].regions[j].region != region
    ensures ShowsNoData(data, region)
  {
    var xs := TotalsOf(GetTotals(data, region));
    assert forall i :: 0 <= i < |xs| ==> xs[i] == Some(0.0);
  }

  /** No total in the data is negative. */
  ghost predicate NonNegative(data: seq<YearRecord>) {
    forall i, j :: 0 <= i < |data| && 0 <= j < |data[i].regions| ==> OrZero(data[i].regions[j].total) >= 0.0
  }

  lemma {:induction false} NationalNonNegative(regions: seq<RegionData>)
    requires forall j :: 0 <= j < |regions| ==> OrZero(regions[j].total) >= 0.0
    ensures NationalTotal(regions) >= 0.0
  {
    if |regions| > 0 {
      NationalNonNegative(regions[..|regions| - 1]);
    }
  }

  lemma RegionTotalNonNegative(regions: seq<RegionData>, region: string)
    requires forall j :: 0 <= j < |regions| ==> OrZero(regions[j].total) >= 0.0
    ensures RegionTotal(regions, region) >= 0.0
  {
  }

  /** With no negative totals, "no data" means every year's bar is 0. */
  lemma NoDataIffAllZero(data: seq<YearRecord>, region: string)
    requires NonNegative(data)
    ensures ShowsNoData(data, region) <==>
      forall i :: 0 <= i < |data| ==> GetTotals(data, region)[i].total == 0.0
  {
    var bars := GetTotals(data, region);
    var xs := TotalsOf(bars);
    forall i | 0 <= i < |data|
      ensures bars[i].total >= 0.0
    {
      if region == Portugal {
        NationalNonNegative(data[i].regions);
      } else {
        RegionTotalNonNegative(data[i].regions, region);
      }
    }
    if ShowsNoData(data, region) && |data| > 0 {
      assert Max(xs).Some?;
    }
  }

  // ---------------------------------------------------------------------
  // The wines boilerplate variant
  // ---------------------------------------------------------------------

  /** `{year, total}` where a named region's missing total stays missing. */
  datatype MaybeTotal = MaybeTotal(year: string, total: Option<real>)

  /** Wines variant: the first region with that name, its total as stored; 0 only when absent. */
  function WinesRegionTotal(regions: seq<RegionData>, region: string): (t: Option<real>)
    ensures FindRegion(regions, region).None? ==> t == Some(0.0)
    ensures FindRegion(regions, region).Some? ==> t == FindRegion(regions, region).value.total
  {
    match FindRegion(regions, region)
    case None => Some(0.0)
    case Some(r) => r.total
  }

  /** `getTotals(region)` of the wines boilerplate. */
  function WinesGetTotals(data: seq<YearRecord>, region: string): (bars: seq<MaybeTotal>)
    ensures |bars| == |data|
    ensures forall i :: 0 <= i < |bars| ==> bars[i].year == data[i].year
    ensures region == Portugal ==>
      forall i :: 0 <= i < |bars| ==> bars[i].total == Some(NationalTotal(data[i].regions))
    ensures region != Portugal ==>
      forall i :: 0 <= i < |bars| ==> bars[i].total == WinesRegionTotal(data[i].regions, region)
  {
    seq(|data|, i requires 0 <= i < |data| =>
      MaybeTotal(data[i].year,
                 if region == Portugal then Some(NationalTotal(data[i].regions))
                 else WinesRegionTotal(data[i].regions, region)))
  }

  /** The two variants differ only where a found region's total is missing: the fires one shows 0. */
  lemma VariantsAgreeUpToMissing(data: seq<YearRecord>, region: string, i: nat)
    requires i < |data|
    ensures OrZero(WinesGetTotals(data, region)[i].total) == GetTotals(data, region)[i].total
    ensures WinesGetTotals(data, region)[i].total.None? <==>
      region != Portugal && FindRegion(data[i].regions, region).Some? &&
      FindRegion(data[i].regions, region).value.total.None?
  {
  }

  /** `(d3.max(totals, d => d.total) || 0) === 0` on totals that may be missing. */
  predicate WinesShowsNoData(data: seq<YearRecord>, region: string): (b: bool)
    ensures b ==> forall i :: 0 <= i < |data| ==> OrZero(WinesGetTotals(data, region)[i].total) <= 0.0
    ensures (forall i :: 0 <= i < |data| ==> OrZero(WinesGetTotals(data, region)[i].total) == 0.0) ==> b
  {
    var bars := WinesGetTotals(data, region);
    var xs := seq(|bars|, i requires 0 <= i < |bars| => bars[i].total);
    assert forall i :: 0 <= i < |data| ==> xs[i] == bars[i].total;
    OrZero(Max(xs)) == 0.0
  }

  /** With no negative totals, the wines chart shows no data exactly when every year is 0 or missing. */
  lemma WinesNoDataIffZeroOrMissing(data: seq<YearRecord>, region: string)
    requires NonNegative(data)
    ensures WinesShowsNoData(data, region) <==>
      forall i :: 0 <= i < |data| ==> OrZero(WinesGetTotals(data, region)[i].total) == 0.0
  {
    var bars := WinesGetTotals(data, region);
    var xs := seq(|bars|, i requires 0 <= i < |bars| => bars[i].total);
    forall i | 0 <= i < |data|
      ensures OrZero(bars[i].total) >= 0.0
    {
      if region == Portugal {
        NationalNonNegative(data[i].regions);
      } else if FindRegion(data[i].regions, region).Some? {
        var r := FindRegion(data[i].regions, region).value;
        var j :| 0 <= j < |data[i].regions| && data[i].regions[j] == r;
      }
    }
    assert forall i :: 0 <= i < |xs| ==> xs[i] == bars[i].total;
    if WinesShowsNoData(data, region) {
      if Max(xs).Some? {
        assert forall i :: 0 <= i < |xs| && xs[i].Some? ==> xs[i].value <= 0.0;
      }
    } else {
      var m := Max(xs);
      var i :| 0 <= i < |xs| && xs[i] == m;
      assert OrZero(bars[i].total) != 0.0;
    }
  }

  /** With no negative totals, both variants decide "no data" alike. */
  lemma VariantsAgreeOnNoData(data: seq<YearRecord>, region: string)
    requires NonNegative(data)
    ensures WinesShowsNoData(data, region) <==> ShowsNoData(data, region)
  {
    NoDataIffAllZero(data, region);
    WinesNoDataIffZeroOrMissing(data, region);
    forall i | 0 <= i < |data|
      ensures OrZero(WinesGetTotals(data, region)[i].total) == GetTotals(data, region)[i].total
    {
      VariantsAgreeUpToMissing(data, region, i);
    }
  }
}
