/**
 * The choropleth map's own controls and its fill rule: a filter chosen from
 * four buttons, a year index moved by two arrows, and a region-to-value map
 * rebuilt for every redraw from the rows the map's data source returns.
 *
 * The data source (`getData(year, data, currentFilter)`) is supplied by the
 * caller and is a parameter here.
 */
module Choropleth {
  import opened Basics
  import opened Records
  import opened Thresholds
  import opened Stepping

  /** The filter buttons, in display order. */
  const Filters: seq<string> := [TotalFiresFilter, PreventionFilter, EfficiencyFilter, PercentageFilter]

  /** `currentYearIndex` and `currentFilter`, local to the map. */
  datatype MapView = MapView(yearIndex: int, filter: string)

  /** The map starts on the first year and on the first filter, "Total Fires". */
  const InitialView: MapView := MapView(0, Filters[0])

  lemma FourFiltersDefaultTotalFires()
    ensures |Filters| == 4 && InitialView.filter == TotalFiresFilter
    ensures forall i, j :: 0 <= i < j < |Filters| ==> Filters[i] != Filters[j]
  {
  }

  /** The map heading: `${currentFilter} by Region`. */
  function Heading(v: MapView): string {
    v.filter + " by Region"
  }

  /** The heading names the filter: two views with the same heading have the same filter. */
  lemma HeadingNamesFilter(v: MapView, w: MapView)
    requires Heading(v) == Heading(w)
    ensures v.filter == w.filter
  {
    var h := Heading(v);
    assert |v.filter| == |w.filter|;
    assert v.filter == h[..|v.filter|];
    assert w.filter == Heading(w)[..|w.filter|];
  }

  /** After a filter click, the heading names the button clicked, whichever view it came from. */
  lemma ClickRetitles(v: MapView, w: MapView, button: string)
    ensures Heading(ClickFilter(v, button)) == Heading(ClickFilter(w, button))
    ensures Heading(ClickFilter(v, button)) == Heading(v) <==> button == v.filter
  {
    if Heading(ClickFilter(v, button)) == Heading(v) {
      HeadingNamesFilter(ClickFilter(v, button), v);
    }
  }

  /** A filter button's `background` and `color`: green on white for the current filter. */
  datatype ButtonStyle = ButtonStyle(background: string, color: string)

  function StyleOf(button: string, currentFilter: string): ButtonStyle {
    if button == currentFilter then ButtonStyle("#1a987dff", "white") else ButtonStyle("#f8f8f8", "black")
  }

  predicate Highlighted(button: string, currentFilter: string) {
    StyleOf(button, currentFilter).background == "#1a987dff"
  }

  /** Background and text colour agree: a button is green exactly when its text is white, exactly when it is current. */
  lemma HighlightIsCurrentFilter(button: string, currentFilter: string)
    ensures Highlighted(button, currentFilter) <==> button == currentFilter
    ensures StyleOf(button, currentFilter).color == "white" <==> Highlighted(button, currentFilter)
  {
  }

  /** Whatever filter is current, exactly the button of that filter is highlighted. */
  lemma ExactlyOneHighlighted(v: MapView)
    requires v.filter in Filters
    ensures exists i :: 0 <= i < |Filters| && Highlighted(Filters[i], v.filter)
    ensures forall i, j ::
      (0 <= i < |Filters| && 0 <= j < |Filters| && Highlighted(Filters[i], v.filter) && Highlighted(Filters[j], v.filter))
      ==> i == j
  {
  }

  /** A filter button's click: the filter changes, the year does not. */
  function ClickFilter(v: MapView, button: string): (r: MapView)
    ensures r.filter == button && r.yearIndex == v.yearIndex
  {
    v.(filter := button)
  }

  /** The "previous" arrow: back one year when not at the first. */
  function MapPrev(v: MapView): (r: MapView)
    ensures r.filter == v.filter && r.yearIndex == StepBack(v.yearIndex)
  {
    v.(yearIndex := StepBack(v.yearIndex))
  }

  /** The "next" arrow: forward one year when not at the last. */
  function MapNext(v: MapView, yearCount: nat): (r: MapView)
    ensures r.filter == v.filter && r.yearIndex == StepForward(v.yearIndex, yearCount)
  {
    v.(yearIndex := StepForward(v.yearIndex, yearCount))
  }

  /** From the initial view, any sequence of clicks keeps the year index in range and a filter selected. */
  lemma ControlsKeepMapInRange(v: MapView, yearCount: nat, button: string)
    requires InRange(v.yearIndex, yearCount) && v.filter in Filters
    ensures InRange(InitialView.yearIndex, yearCount) && InitialView.filter in Filters
    ensures InRange(MapPrev(v).yearIndex, yearCount) && MapPrev(v).filter in Filters
    ensures InRange(MapNext(v, yearCount).yearIndex, yearCount) && MapNext(v, yearCount).filter in Filters
    ensures button in Filters ==> InRange(ClickFilter(v, button).yearIndex, yearCount) && ClickFilter(v, button).filter in Filters
  {
    StepsStayInRange(v.yearIndex, yearCount);
  }

  // ---------------------------------------------------------------------
  // The region map and the fill rule
  // ---------------------------------------------------------------------

  /** One row from the data source: `{region, total}`; the total may be null. */
  datatype MapRow = MapRow(region: string, total: Option<real>)

  /** `getData(year, data, currentFilter)`. */
  type DataSource = (Option<string>, seq<YearRecord>, string) -> seq<MapRow>

  /** `new Map(mapData.map(d => [d.region, d.total]))`, entries set in row order. */
  function RegionMap(rows: seq<MapRow>): (m: map<string, Option<real>>)
    ensures forall k :: 0 <= k < |rows| ==> rows[k].region in m
    ensures |rows| > 0 ==> m[rows[|rows| - 1].region] == rows[|rows| - 1].total
  {
    if |rows| == 0 then map[]
    else
      var last := rows[|rows| - 1];
      RegionMap(rows[..|rows| - 1])[last.region := last.total]
  }

  /** Row `k` is the last row of region `name`. */
  ghost predicate IsLastRow(rows: seq<MapRow>, name: string, k: nat)
    requires k < |rows|
  {
    rows[k].region == name && forall k' :: k < k' < |rows| ==> rows[k'].region != name
  }

  /** The keys of the map are exactly the regions of the rows. */
  lemma {:induction false} RegionMapKeys(rows: seq<MapRow>, name: string)
    ensures name in RegionMap(rows) <==> exists k :: 0 <= k < |rows| && rows[k].region == name
  {
    if |rows| > 0 {
      var n := |rows| - 1;
      var prefix := rows[..n];
      RegionMapKeys(prefix, name);
      if name != rows[n].region && exists k :: 0 <= k < |rows| && rows[k].region == name {
        var k :| 0 <= k < |rows| && rows[k].region == name;
        assert prefix[k].region == name;
      }
      if exists k :: 0 <= k < n && prefix[k].region == name {
        var k :| 0 <= k < n && prefix[k].region == name;
        assert rows[k].region == name;
      }
    }
  }

  /** A region that occurs more than once keeps the value of its last row. */
  lemma {:induction false} RegionMapLastRowWins(rows: seq<MapRow>, k: nat)
    requires k < |rows| && IsLastRow(rows, rows[k].region, k)
    ensures rows[k].region in RegionMap(rows) && RegionMap(rows)[rows[k].region] == rows[k].total
  {
    var n := |rows| - 1;
    if k < n {
      var prefix := rows[..n];
      assert prefix[k] == rows[k];
      assert IsLastRow(prefix, prefix[k].region, k) by {
        forall k' | k < k' < n
          ensures prefix[k'].region != rows[k].region
        {
          assert prefix[k'] == rows[k'];
        }
      }
      RegionMapLastRowWins(prefix, k);
    }
  }

  /**
   * The fill of a map region: the region's value coloured for the current
   * filter, or grey when the region has no entry in the map.
   */
  function Fill(regionMap: map<string, Option<real>>, name: string, currentFilter: string): (c: RiskColor)
    ensures name !in regionMap ==> c == MissingDataColor
    ensures name in regionMap ==> c == GetColor(regionMap[name], currentFilter)
  {
    if name in regionMap then GetColor(regionMap[name], currentFilter) else MissingDataColor
  }

  /**
   * A region without an entry and a region whose entry is null are painted
   * alike: the fill is the colour of the looked-up value, missing or not.
   */
  lemma FillIsColourOfLookup(regionMap: map<string, Option<real>>, name: string, currentFilter: string)
    ensures Fill(regionMap, name, currentFilter) ==
      GetColor(if name in regionMap then regionMap[name] else None, currentFilter)
  {
  }

  /** `updateMap(years[currentYearIndex])`: the fill of every named map region. */
  function UpdateMap(data: seq<YearRecord>, v: MapView, getData: DataSource, names: seq<string>)
    : (fills: seq<RiskColor>)
    ensures |fills| == |names|
    ensures forall i :: 0 <= i < |names| ==>
      var rows := getData(YearAt(Years(data), v.yearIndex), data, v.filter);
      fills[i] == Fill(RegionMap(rows), names[i], v.filter)
  {
    var rows := getData(YearAt(Years(data), v.yearIndex), data, v.filter);
    var m := RegionMap(rows);
    seq(|names|, i requires 0 <= i < |names| => Fill(m, names[i], v.filter))
  }

  /** Clicking a filter redraws the same year: the data source is asked for the same year. */
  lemma ClickRedrawsSameYear(data: seq<YearRecord>, v: MapView, button: string)
    ensures YearAt(Years(data), ClickFilter(v, button).yearIndex) == YearAt(Years(data), v.yearIndex)
  {
  }

  /** Every painted colour has a legend row for the current filter. */
  lemma EveryFillIsInLegend(data: seq<YearRecord>, v: MapView, getData: DataSource, names: seq<string>, i: nat)
    requires i < |names|
    ensures var c := UpdateMap(data, v, getData, names)[i];
      GetLegendItems(v.filter)[Rank(c)].color == c
  {
    var rows := getData(YearAt(Years(data), v.yearIndex), data, v.filter);
    var m := RegionMap(rows);
    if names[i] in m {
      PaintedColorIsInLegend(m[names[i]], v.filter);
    } else {
      PaintedColorIsInLegend(None, v.filter);
    }
  }
}
