/**
 * The causes donut: the list of (cause, number of fires) slices for a region
 * and year, the nationwide tally across regions, and the chart's own year
 * and region selection.
 */
module CausesDonut {
  import opened Basics
  import opened Records
  import opened Stepping

  /** `data.find(d => d.year === year)`: the first record with that year; an undefined year matches nothing. */
  function FindYear(data: seq<YearRecord>, year: Option<string>): (r: Option<YearRecord>)
    ensures r.None? <==> year.None? || forall i :: 0 <= i < |data| ==> data[i].year != year.value
    ensures r.Some? ==>
              exists i :: 0 <= i < |data| && data[i] == r.value && data[i].year == year.value &&
                          forall j :: 0 <= j < i ==> data[j].year != year.value
  {
    if year.None? || |data| == 0 then None
    else if data[0].year == year.value then Some(data[0])
    else
      var r := FindYear(data[1..], year);
      assert forall i :: 1 <= i < |data| ==> data[1..][i - 1] == data[i];
      r
  }

  /** Every region's cause entries, region after region. */
  function AllCauses(regions: seq<RegionData>): seq<Causa> {
    if |regions| == 0 then [] else AllCauses(regions[..|regions| - 1]) + regions[|regions| - 1].causas
  }

  function Labels(cs: seq<Causa>): (labels: seq<string>)
    ensures |labels| == |cs|
    ensures forall i :: 0 <= i < |cs| ==> labels[i] == cs[i].causa
  {
    seq(|cs|, i requires 0 <= i < |cs| => cs[i].causa)
  }

  /** Sum of `c.numero || 0`, which is also what `d3.sum` gives (it skips missing values). */
  function CauseSum(cs: seq<Causa>): real {
    if |cs| == 0 then 0.0 else CauseSum(cs[..|cs| - 1]) + OrZero(cs[|cs| - 1].numero)
  }

  /** Sum of `c.numero || 0` over the entries labelled `cause`. */
  function LabelSum(cs: seq<Causa>, cause: string): real {
    if |cs| == 0 then 0.0
    else LabelSum(cs[..|cs| - 1], cause) + (if cs[|cs| - 1].causa == cause then OrZero(cs[|cs| - 1].numero) else 0.0)
  }

  /** A label that does not occur sums to 0. */
  lemma {:induction false} LabelSumAbsent(cs: seq<Causa>, cause: string)
    ensures cause !in Labels(cs) ==> LabelSum(cs, cause) == 0.0
  {
    if |cs| > 0 {
      assert Labels(cs)[..|cs| - 1] == Labels(cs[..|cs| - 1]);
      LabelSumAbsent(cs[..|cs| - 1], cause);
    }
  }

  /** Where the slice labelled `cause` sits, if there is one (`causeMap.has`/`get`). */
  function Lookup(t: seq<Causa>, cause: string): (k: Option<nat>)
    ensures k.None? <==> forall i :: 0 <= i < |t| ==> t[i].causa != cause
    ensures k.Some? ==> k.value < |t| && t[k.value].causa == cause
  {
    if |t| == 0 then None
    else if t[0].causa == cause then Some(0)
    else
      assert forall i :: 1 <= i < |t| ==> t[1..][i - 1] == t[i];
      match Lookup(t[1..], cause)
      case None => None
      case Some(k) => Some(k + 1)
  }

  /**
   * `causeMap.set(c.causa, (causeMap.get(c.causa) || 0) + (c.numero || 0))`,
   * on the map's entries in insertion order: a known label keeps its place
   * and gets the new count, a new label goes at the end.
   */
  function Add(t: seq<Causa>, c: Causa): seq<Causa> {
    match Lookup(t, c.causa)
    case None => t + [Causa(c.causa, Some(0.0 + OrZero(c.numero)))]
    case Some(k) => t[k := Causa(c.causa, Some(OrZero(t[k].numero) + OrZero(c.numero)))]
  }

  /** The `forEach` loop over every entry, then `Array.from(causeMap, ...)`. */
  function Tally(cs: seq<Causa>): seq<Causa> {
    if |cs| == 0 then [] else Add(Tally(cs[..|cs| - 1]), cs[|cs| - 1])
  }

  /** A known label keeps the slice list as it is; a new label is appended as the last slice. */
  lemma AddLabels(t: seq<Causa>, c: Causa)
    ensures c.causa in Labels(t) ==> Labels(Add(t, c)) == Labels(t)
    ensures c.causa !in Labels(t) ==> Labels(Add(t, c)) == Labels(t) + [c.causa]
  {
    if c.causa in Labels(t) {
      var i :| 0 <= i < |t| && Labels(t)[i] == c.causa;
      assert t[i].causa == c.causa;
    }
  }

  /** The slices are labelled with the distinct labels, in order of first appearance. */
  lemma {:induction false} TallyLabels(cs: seq<Causa>)
    ensures Labels(Tally(cs)) == Dedup(Labels(cs))
  {
    if |cs| > 0 {
      var prefix := cs[..|cs| - 1];
      TallyLabels(prefix);
      AddLabels(Tally(prefix), cs[|cs| - 1]);
      DedupIsFirstAppearanceOrder(Labels(prefix));
      var labels := Labels(cs);
      assert labels[..|labels| - 1] == Labels(prefix);
      assert labels[|labels| - 1] == cs[|cs| - 1].causa;
    }
  }

  /** Adding the last entry keeps every slice's count equal to its label's sum. */
  lemma AddCounts(t: seq<Causa>, cs: seq<Causa>)
    requires |cs| > 0
    requires Distinct(Labels(t))
    requires forall i :: 0 <= i < |cs| - 1 ==> cs[i].causa in Labels(t)
    requires forall i :: 0 <= i < |t| ==> t[i].numero == Some(LabelSum(cs[..|cs| - 1], t[i].causa))
    ensures var u := Add(t, cs[|cs| - 1]);
      forall i :: 0 <= i < |u| ==> u[i].numero == Some(LabelSum(cs, u[i].causa))
  {
    var prefix, c := cs[..|cs| - 1], cs[|cs| - 1];
    match Lookup(t, c.causa)
    case None =>
      assert c.causa !in Labels(prefix);
      LabelSumAbsent(prefix, c.causa);
    case Some(k) =>
      forall i | 0 <= i < |t| && i != k
        ensures t[i].causa != c.causa
      {
        assert Labels(t)[i] != Labels(t)[k];
      }
  }

  /** Each slice carries the sum of the numbers of the entries with its label. */
  lemma {:induction false} TallyCounts(cs: seq<Causa>)
    ensures forall i :: 0 <= i < |Tally(cs)| ==> Tally(cs)[i].numero == Some(LabelSum(cs, Tally(cs)[i].causa))
  {
    if |cs| > 0 {
      var prefix := cs[..|cs| - 1];
      TallyCounts(prefix);
      TallyLabels(prefix);
      DedupIsFirstAppearanceOrder(Labels(prefix));
      var labels := Labels(prefix);
      assert forall i :: 0 <= i < |cs| - 1 ==> labels[i] == cs[i].causa;
      AddCounts(Tally(prefix), cs);
    }
  }

  lemma {:induction false} CauseSumUpdate(t: seq<Causa>, k: nat, e: Causa)
    requires k < |t|
    ensures CauseSum(t[k := e]) == CauseSum(t) - OrZero(t[k].numero) + OrZero(e.numero)
  {
    var u := t[k := e];
    assert u[..|u| - 1] == if k == |t| - 1 then t[..|t| - 1] else t[..|t| - 1][k := e];
    if k < |t| - 1 {
      CauseSumUpdate(t[..|t| - 1], k, e);
    }
  }

  /** One `causeMap.set` adds exactly the entry's `numero || 0` to the slices' total. */
  lemma AddConserves(t: seq<Causa>, c: Causa)
    ensures CauseSum(Add(t, c)) == CauseSum(t) + OrZero(c.numero)
  {
    match Lookup(t, c.causa)
    case None =>
      assert (t + [Causa(c.causa, Some(0.0 + OrZero(c.numero)))])[..|t|] == t;
    case Some(k) =>
      CauseSumUpdate(t, k, Causa(c.causa, Some(OrZero(t[k].numero) + OrZero(c.numero))));
  }

  /** The tally's slices add up to the same number of fires as the entries it was built from. */
  lemma {:induction false} TallyConserves(cs: seq<Causa>)
    ensures CauseSum(Tally(cs)) == CauseSum(cs)
  {
    if |cs| > 0 {
      TallyConserves(cs[..|cs| - 1]);
      AddConserves(Tally(cs[..|cs| - 1]), cs[|cs| - 1]);
    }
  }

  /**
   * `getCauses(region, year)`: nothing when no record has that year; for
   * "Portugal", one slice per distinct label in order of first appearance,
   * carrying the label's total over all regions; for a named region, that
   * region's own entries unchanged, or nothing when it is absent.
   */
  function GetCauses(data: seq<YearRecord>, region: string, year: Option<string>): (r: seq<Causa>)
    ensures FindYear(data, year).None? ==> r == []
    ensures FindYear(data, year).Some? && region == Portugal ==>
      var all := AllCauses(FindYear(data, year).value.regions);
      && Labels(r) == Dedup(Labels(all))
      && forall i :: 0 <= i < |r| ==> r[i].numero == Some(LabelSum(all, r[i].causa))
    ensures FindYear(data, year).Some? && region != Portugal ==>
      var regions := FindYear(data, year).value.regions;
      r == if FindRegion(regions, region).Some? then FindRegion(regions, region).value.causas else []
  {
    match FindYear(data, year)
    case None => []
    case Some(y) =>
      if region == Portugal then
        TallyLabels(AllCauses(y.regions));
        TallyCounts(AllCauses(y.regions));
        Tally(AllCauses(y.regions))
      else
        match FindRegion(y.regions, region)
        case None => []
        case Some(rd) => rd.causas
  }

  // ---------------------------------------------------------------------
  // Conservation of the nationwide counts
  // ---------------------------------------------------------------------

  lemma {:induction false} CauseSumAppend(a: seq<Causa>, b: seq<Causa>)
    ensures CauseSum(a + b) == CauseSum(a) + CauseSum(b)
    decreases |b|
  {
    if |b| == 0 {
      assert a + b == a;
    } else {
      assert (a + b)[..|a + b| - 1] == a + b[..|b| - 1];
      assert (a + b)[|a + b| - 1] == b[|b| - 1];
      CauseSumAppend(a, b[..|b| - 1]);
    }
  }

  /** Sum over regions of each region's `numero || 0` over its causes. */
  function RegionsCauseTotal(regions: seq<RegionData>): real {
    if |regions| == 0 then 0.0
    else RegionsCauseTotal(regions[..|regions| - 1]) + CauseSum(regions[|regions| - 1].causas)
  }

  lemma {:induction false} AllCausesTotal(regions: seq<RegionData>)
    ensures CauseSum(AllCauses(regions)) == RegionsCauseTotal(regions)
  {
    if |regions| > 0 {
      AllCausesTotal(regions[..|regions| - 1]);
      CauseSumAppend(AllCauses(regions[..|regions| - 1]), regions[|regions| - 1].causas);
    }
  }

  /**
   * The nationwide donut loses and invents no fires: its slices add up to
   * the sum, over every region of that year, of the region's cause numbers.
   */
  lemma NationalCausesConserveFires(data: seq<YearRecord>, year: Option<string>)
    requires FindYear(data, year).Some?
    ensures CauseSum(GetCauses(data, Portugal, year)) == RegionsCauseTotal(FindYear(data, year).value.regions)
  {
    TallyConserves(AllCauses(FindYear(data, year).value.regions));
    AllCausesTotal(FindYear(data, year).value.regions);
  }

  // ---------------------------------------------------------------------
  // The chart's own selection
  // ---------------------------------------------------------------------

  /** `currentRegion` and `currentYearIndex`, local to this chart. */
  datatype CausesView = CausesView(region: string, yearIndex: int)

  /** The chart starts on "Portugal" and the first year. */
  const InitialView: CausesView := CausesView(Portugal, 0)

  /** The drop-down's change handler: a new region, the same year. */
  function SelectRegion(v: CausesView, region: string): (r: CausesView)
    ensures r.region == region && r.yearIndex == v.yearIndex
  {
    v.(region := region)
  }

  function Prev(v: CausesView): (r: CausesView)
    ensures r.region == v.region && r.yearIndex == StepBack(v.yearIndex)
  {
    v.(yearIndex := StepBack(v.yearIndex))
  }

  function Next(v: CausesView, data: seq<YearRecord>): (r: CausesView)
    ensures r.region == v.region && r.yearIndex == StepForward(v.yearIndex, |data|)
  {
    v.(yearIndex := StepForward(v.yearIndex, |data|))
  }

  /** The initial view is in range, and every control keeps it there. */
  lemma ControlsKeepYearInRange(v: CausesView, data: seq<YearRecord>, region: string)
    requires InRange(v.yearIndex, |data|)
    ensures InRange(InitialView.yearIndex, |data|)
    ensures InRange(Prev(v).yearIndex, |data|)
    ensures InRange(Next(v, data).yearIndex, |data|)
    ensures InRange(SelectRegion(v, region).yearIndex, |data|)
  {
    StepsStayInRange(v.yearIndex, |data|);
  }

  /** What `updateChart` shows: the year label, the slices, and their total. */
  datatype CausesPanel = CausesPanel(year: Option<string>, slices: seq<Causa>, total: real)

  /**
   * `updateChart()`: the label shows a year exactly while the index is in
   * range, and then the year record is always found; out of range the donut
   * is empty. On "Portugal" the total shown is every region's cause numbers
   * added up.
   */
  function Render(data: seq<YearRecord>, v: CausesView): (p: CausesPanel)
    ensures p.year.Some? <==> 0 <= v.yearIndex < |data|
    ensures p.year.Some? ==> p.year.value == data[v.yearIndex].year && FindYear(data, p.year).Some?
    ensures p.year.None? ==> p.slices == [] && p.total == 0.0
    ensures p.year.Some? && v.region == Portugal ==>
      p.total == RegionsCauseTotal(FindYear(data, p.year).value.regions)
  {
    var year := YearAt(Years(data), v.yearIndex);
    var slices := GetCauses(data, v.region, year);
    if year.Some? then
      assert year.value == data[v.yearIndex].year;
      assert !(forall i :: 0 <= i < |data| ==> data[i].year != year.value);
      if v.region == Portugal then
        NationalCausesConserveFires(data, year);
        CausesPanel(year, slices, CauseSum(slices))
      else CausesPanel(year, slices, CauseSum(slices))
    else CausesPanel(year, slices, CauseSum(slices))
  }

  /** With the index in range and some data, the chart always finds its year's record. */
  lemma InRangeFindsYear(data: seq<YearRecord>, v: CausesView)
    requires InRange(v.yearIndex, |data|) && |data| > 0
    ensures FindYear(data, Render(data, v).year).Some?
  {
  }
}
