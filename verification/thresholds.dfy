/**
 * The risk classifiers of the choropleth map, its legend, and the index
 * arithmetic of the "dimensions"/"causes" chart switch.
 *
 * Each classifier maps a metric value that may be missing to one of four
 * colours. The comparisons are the ones the classifiers evaluate, which are
 * not the ones the legend text advertises (see `GetLegendItems`).
 */
module Thresholds {
  import opened Basics

  /** The four map colours; `Hex` is the CSS string the dashboard paints. */
  datatype RiskColor = MissingDataColor | LowRiskColor | MediumRiskColor | HighRiskColor {
    function Hex(): string {
      match this
      case MissingDataColor => "#ccc"
      case LowRiskColor => "#1a987dff"
      case MediumRiskColor => "#ffa528"
      case HighRiskColor => "#990000"
    }
  }

  /** Risk order of the colours: missing data 0, then low 1, medium 2, high 3. */
  function Rank(c: RiskColor): nat {
    match c
    case MissingDataColor => 0
    case LowRiskColor => 1
    case MediumRiskColor => 2
    case HighRiskColor => 3
  }

  /** `value === null || value === undefined || value === 0`. */
  predicate IsMissing(value: Option<real>) {
    value.None? || value.value == 0.0
  }

  /** Prevention index: small values are high risk. */
  function GetPreventionColor(value: Option<real>): (c: RiskColor)
    ensures c == MissingDataColor <==> IsMissing(value)
    ensures !IsMissing(value) ==> (c == HighRiskColor <==> value.value <= 0.009)
    ensures !IsMissing(value) ==> (c == MediumRiskColor <==> 0.009 < value.value < 0.1)
    ensures !IsMissing(value) ==> (c == LowRiskColor <==> 0.1 <= value.value)
  {
    if IsMissing(value) then MissingDataColor
    else if value.value <= 0.009 then HighRiskColor
    else if value.value < 0.1 then MediumRiskColor
    else LowRiskColor
  }

  /** Efficiency index: the same cut-offs as the prevention index. */
  function GetEfficiencyColor(value: Option<real>): (c: RiskColor)
    ensures c == MissingDataColor <==> IsMissing(value)
    ensures !IsMissing(value) ==> (c == HighRiskColor <==> value.value <= 0.009)
    ensures !IsMissing(value) ==> (c == MediumRiskColor <==> 0.009 < value.value < 0.1)
    ensures !IsMissing(value) ==> (c == LowRiskColor <==> 0.1 <= value.value)
  {
    if IsMissing(value) then MissingDataColor
    else if value.value <= 0.009 then HighRiskColor
    else if value.value < 0.1 then MediumRiskColor
    else LowRiskColor
  }

  /** Percentage of area burned: large values are high risk. */
  function GetPercentageColor(value: Option<real>): (c: RiskColor)
    ensures c == MissingDataColor <==> IsMissing(value)
    ensures !IsMissing(value) ==> (c == LowRiskColor <==> value.value <= 1.99)
    ensures !IsMissing(value) ==> (c == MediumRiskColor <==> 1.99 < value.value < 2.5)
    ensures !IsMissing(value) ==> (c == HighRiskColor <==> 2.5 <= value.value)
  {
    if IsMissing(value) then MissingDataColor
    else if value.value <= 1.99 then LowRiskColor
    else if value.value < 2.5 then MediumRiskColor
    else HighRiskColor
  }

  /** Number of fires: large values are high risk; 500 itself is medium. */
  function GetTotalFiresColor(value: Option<real>): (c: RiskColor)
    ensures c == MissingDataColor <==> IsMissing(value)
    ensures !IsMissing(value) ==> (c == LowRiskColor <==> value.value <= 199.0)
    ensures !IsMissing(value) ==> (c == MediumRiskColor <==> 199.0 < value.value <= 500.0)
    ensures !IsMissing(value) ==> (c == HighRiskColor <==> 500.0 < value.value)
  {
    if IsMissing(value) then MissingDataColor
    else if value.value <= 199.0 then LowRiskColor
    else if value.value <= 500.0 then MediumRiskColor
    else HighRiskColor
  }

  /** The filter names the dispatch recognises by name. */
  const EfficiencyFilter: string := "Efficiency Index"
  const PercentageFilter: string := "Percentage Burned"
  const PreventionFilter: string := "Prevention Index"
  const TotalFiresFilter: string := "Total Fires"

  /**
   * Dispatch on the filter name. Only three names are matched; every other
   * string, "Total Fires" included, falls through to the fire-count scale.
   */
  function GetColor(value: Option<real>, currentFilter: string): (c: RiskColor)
    ensures currentFilter == EfficiencyFilter ==> c == GetEfficiencyColor(value)
    ensures currentFilter == PercentageFilter ==> c == GetPercentageColor(value)
    ensures currentFilter == PreventionFilter ==> c == GetPreventionColor(value)
    ensures currentFilter !in [EfficiencyFilter, PercentageFilter, PreventionFilter] ==>
      c == GetTotalFiresColor(value)
  {
    if currentFilter == EfficiencyFilter then GetEfficiencyColor(value)
    else if currentFilter == PercentageFilter then GetPercentageColor(value)
    else if currentFilter == PreventionFilter then GetPreventionColor(value)
    else GetTotalFiresColor(value)
  }

  /** Missing data is grey on every filter, whatever its name. */
  lemma MissingIsGreyForEveryFilter(value: Option<real>, currentFilter: string)
    requires IsMissing(value)
    ensures GetColor(value, currentFilter) == MissingDataColor
  {
  }

  /** A present, non-zero value is never painted grey. */
  lemma PresentIsNeverGrey(value: Option<real>, currentFilter: string)
    requires !IsMissing(value)
    ensures GetColor(value, currentFilter) != MissingDataColor
  {
  }

  /** The prevention and efficiency scales classify every value identically. */
  lemma PreventionMatchesEfficiency(value: Option<real>)
    ensures GetPreventionColor(value) == GetEfficiencyColor(value)
  {
  }

  /** Fire counts and burned percentage: a larger value never gets a lower risk. */
  lemma RiskGrowsWithTotalsAndPercentage(a: real, b: real)
    requires a != 0.0 && b != 0.0 && a <= b
    ensures Rank(GetTotalFiresColor(Some(a))) <= Rank(GetTotalFiresColor(Some(b)))
    ensures Rank(GetPercentageColor(Some(a))) <= Rank(GetPercentageColor(Some(b)))
  {
  }

  /** Prevention and efficiency indices: a larger value never gets a higher risk. */
  lemma RiskFallsWithIndices(a: real, b: real)
    requires a != 0.0 && b != 0.0 && a <= b
    ensures Rank(GetPreventionColor(Some(a))) >= Rank(GetPreventionColor(Some(b)))
    ensures Rank(GetEfficiencyColor(Some(a))) >= Rank(GetEfficiencyColor(Some(b)))
  {
  }

  datatype LegendItem = LegendItem(text: string, color: RiskColor)

  /**
   * The legend rows for a filter. Their texts are display strings only and
   * are not the cut-offs the classifiers use: the prevention legend speaks
   * of 0.5 and 0.09 and the percentage legend of 5, while the classifiers
   * compare against 0.009/0.1 and 1.99/2.5.
   */
  function GetLegendItems(currentFilter: string): (items: seq<LegendItem>)
    ensures |items| == 4
    ensures items[0].text == "No data"
    ensures forall i :: 0 <= i < 4 ==> Rank(items[i].color) == i
  {
    if currentFilter == EfficiencyFilter then
      [ LegendItem("No data", MissingDataColor),
        LegendItem("≥ 0.1", LowRiskColor),
        LegendItem("0.1 > x > 0.009", MediumRiskColor),
        LegendItem("≤ 0.009", HighRiskColor) ]
    else if currentFilter == PreventionFilter then
      [ LegendItem("No data", MissingDataColor),
        LegendItem("≥ 0.5", LowRiskColor),
        LegendItem("0.5 > x > 0.09", MediumRiskColor),
        LegendItem("≤ 0.09", HighRiskColor) ]
    else if currentFilter == PercentageFilter then
      [ LegendItem("No data", MissingDataColor),
        LegendItem("≤ 1.99%", LowRiskColor),
        LegendItem("1.99% < x < 5%", MediumRiskColor),
        LegendItem("≥ 5", HighRiskColor) ]
    else
      [ LegendItem("No data", MissingDataColor),
        LegendItem("≤ 199", LowRiskColor),
        LegendItem("199 < x < 500", MediumRiskColor),
        LegendItem("≥ 500", HighRiskColor) ]
  }

  /** Whatever colour a region is painted, the legend has a row for it, at the colour's rank. */
  lemma PaintedColorIsInLegend(value: Option<real>, currentFilter: string)
    ensures var c := GetColor(value, currentFilter);
      GetLegendItems(currentFilter)[Rank(c)].color == c
  {
  }

  // ---------------------------------------------------------------------
  // Switching between the dimensions and the causes donut
  // ---------------------------------------------------------------------

  const Charts: seq<string> := ["dimensions", "causes"]

  /** JavaScript `a % b`: truncating remainder, with the sign of `a`. */
  function JsRemainder(a: int, b: int): (r: int)
    requires b != 0
    ensures a >= 0 ==> 0 <= r < if b > 0 then b else -b
    ensures a < 0 ==> -(if b > 0 then b else -b) < r <= 0
    ensures (a - r) % b == 0
  {
    if a >= 0 then
      var q := a / b;
      assert a - a % b == q * b;
      MultipleHasNoRemainder(q, b);
      a % b
    else
      var q := (-a) / b;
      assert a + (-a) % b == (-q) * b;
      MultipleHasNoRemainder(-q, b);
      -((-a) % b)
  }

  /** A multiple of `b` leaves no remainder. */
  lemma MultipleHasNoRemainder(k: int, b: int)
    requires b != 0
    ensures (k * b) % b == 0
  {
    var x := k * b;
    var d := k - x / b;
    assert x % b == b * d;
    if d != 0 {
      assert false;
    }
  }

  /** What the switch leaves on screen: which container is active, and the heading. */
  datatype ChartPanel = ChartPanel(causesActive: bool, dimensionsActive: bool, title: string)

  /**
   * One press of an arrow: `(index + direction + 2) % 2` with JavaScript's
   * remainder, then mark the chart named at that index active. An index
   * outside the list names no chart, so neither container is active.
   */
  function SwitchChart(currentChartIndex: int, direction: int): (r: (int, ChartPanel))
    ensures !(r.1.causesActive && r.1.dimensionsActive)
    ensures r.1.causesActive <==> r.0 == 1
    ensures r.1.dimensionsActive <==> r.0 == 0
    ensures r.1.title == if r.0 == 1 then "Causes of Fires" else "Dimensions of Fires"
  {
    var index := JsRemainder(currentChartIndex + direction + |Charts|, |Charts|);
    var current: Option<string> := if 0 <= index < |Charts| then Some(Charts[index]) else None;
    var causes := current == Some("causes");
    (index, ChartPanel(causes, current == Some("dimensions"),
                       if causes then "Causes of Fires" else "Dimensions of Fires"))
  }

  /**
   * From either chart, a step of +1 or -1 lands on the other one, and exactly
   * one container is active afterwards.
   */
  lemma SwitchFlips(currentChartIndex: int, direction: int)
    requires currentChartIndex in {0, 1} && direction in {-1, 1}
    ensures SwitchChart(currentChartIndex, direction).0 == 1 - currentChartIndex
    ensures var p := SwitchChart(currentChartIndex, direction).1;
      p.causesActive != p.dimensionsActive
  {
  }

  /** A larger step can leave the list: from 0, a step of -3 gives -1 and no active chart. */
  lemma SwitchCanLeaveTheList()
    ensures SwitchChart(0, -3).0 == -1
    ensures var p := SwitchChart(0, -3).1;
      !p.causesActive && !p.dimensionsActive
  {
  }
}
