/**
 * The configurable donut chart bound to the shared state: two charts (causes
 * and dimensions) share one slot, a toggle swaps which is active, and every
 * state change redraws the active data for the selected region and years.
 *
 * The chart's data function is supplied by its caller and is a parameter
 * here; the slices it returns are only summed, drawn and listed.
 */
module Donut {
  import opened Basics
  import opened Records
  import opened Shared

  /** One slice as the chart reads it: `d.label` and `d.numero`. */
  datatype Slice = Slice(name: string, numero: Option<real>)

  /** `config.dataFunction(region, startYearIndex, endYearIndex, data)`. */
  type DataFunction = (string, Option<int>, Option<int>, seq<YearRecord>) -> seq<Slice>

  // ---------------------------------------------------------------------
  // The two-chart toggle
  // ---------------------------------------------------------------------

  /** The `active` classes of this chart's container and of `config.inactiveSelector`. */
  datatype Flags = Flags(thisActive: bool, otherActive: bool)

  /** At start-up this chart is active and the other is not. */
  const InitialFlags: Flags := Flags(true, false)

  /** Exactly one of the two charts is active. */
  predicate ExactlyOneActive(f: Flags) {
    f.thisActive != f.otherActive
  }

  /**
   * `switchChart`: each container's `active` class is negated. The redraw it
   * then asks for, `updateChart(sharedState)`, is `UpdateDonut` on the
   * current state, whose title and slices do not depend on these flags.
   */
  function SwitchFlags(f: Flags): (r: Flags)
    ensures r.thisActive == !f.thisActive && r.otherActive == !f.otherActive
  {
    Flags(!f.thisActive, !f.otherActive)
  }

  /** Switching keeps exactly one chart active, and switching twice restores the flags. */
  lemma SwitchKeepsOneActive(f: Flags)
    requires ExactlyOneActive(f)
    ensures ExactlyOneActive(SwitchFlags(f))
    ensures SwitchFlags(SwitchFlags(f)) == f
    ensures SwitchFlags(f).thisActive == f.otherActive
  {
  }

  /** Any number of switches from the start leaves exactly one chart active; an even number restores it. */
  lemma {:induction false} SwitchesFromStart(n: nat)
    ensures ExactlyOneActive(SwitchTimes(InitialFlags, n))
    ensures SwitchTimes(InitialFlags, n).thisActive <==> n % 2 == 0
  {
    if n > 0 {
      SwitchesFromStart(n - 1);
    }
  }

  function SwitchTimes(f: Flags, n: nat): Flags {
    if n == 0 then f else SwitchFlags(SwitchTimes(f, n - 1))
  }

  /** The `checked` properties of the dimensions toggle and of the causes toggle. */
  datatype Checkboxes = Checkboxes(dimensionsChecked: bool, causesChecked: bool)

  /**
   * The toggle's visual state, chosen from the configuration alone: the
   * dimensions box is checked exactly when the other chart is the causes one.
   */
  function ToggleBoxes(inactiveSelector: string): (c: Checkboxes)
    ensures c.dimensionsChecked <==> inactiveSelector == ".CausesDonutChart"
    ensures c.dimensionsChecked != c.causesChecked
  {
    if inactiveSelector == ".CausesDonutChart" then Checkboxes(true, false) else Checkboxes(false, true)
  }

  // ---------------------------------------------------------------------
  // Drawing
  // ---------------------------------------------------------------------

  /** `d3.sum(chartData, d => d.numero)`: missing numbers are skipped. */
  function SliceSum(slices: seq<Slice>): real {
    if |slices| == 0 then 0.0 else SliceSum(slices[..|slices| - 1]) + OrZero(slices[|slices| - 1].numero)
  }

  /** What one `updateChart` leaves on screen. */
  datatype DonutPanel = DonutPanel(
    title: string,
    boxes: Checkboxes,
    arcs: seq<Slice>,
    legend: seq<Slice>,
    noDataMessage: bool)

  const TitlePrefix: string := "Fire Characteristics in "

  /**
   * `updateChart(state)`: fetch the slices for the state's region and
   * start/end indices; when they sum to 0, remove every arc, empty the
   * legend and show the no-data message; otherwise draw and list every slice.
   */
  function UpdateDonut(state: Snapshot, data: seq<YearRecord>, inactiveSelector: string, dataFunction: DataFunction)
    : (p: DonutPanel)
    ensures p.title == TitlePrefix + state.region
    ensures p.boxes == ToggleBoxes(inactiveSelector)
    ensures p.noDataMessage <==>
      SliceSum(dataFunction(state.region, state.startYearIndex, state.endYearIndex, data)) == 0.0
    ensures p.noDataMessage ==> p.arcs == [] && p.legend == []
    ensures !p.noDataMessage ==>
      p.arcs == p.legend == dataFunction(state.region, state.startYearIndex, state.endYearIndex, data)
  {
    var chartData := dataFunction(state.region, state.startYearIndex, state.endYearIndex, data);
    var total := SliceSum(chartData);
    var boxes := ToggleBoxes(inactiveSelector);
    if total == 0.0 then DonutPanel(TitlePrefix + state.region, boxes, [], [], true)
    else DonutPanel(TitlePrefix + state.region, boxes, chartData, chartData, false)
  }

  lemma {:induction false} SliceSumNonNegative(slices: seq<Slice>)
    requires forall i :: 0 <= i < |slices| ==> OrZero(slices[i].numero) >= 0.0
    ensures SliceSum(slices) >= 0.0
    ensures SliceSum(slices) == 0.0 <==> forall i :: 0 <= i < |slices| ==> OrZero(slices[i].numero) == 0.0
  {
    if |slices| > 0 {
      SliceSumNonNegative(slices[..|slices| - 1]);
    }
  }

  /**
   * With no negative numbers, the donut shows "no data" exactly when every
   * slice is 0 or missing; in particular an empty slice list shows it.
   */
  lemma NoDataIffNothingToDraw(state: Snapshot, data: seq<YearRecord>, inactiveSelector: string, dataFunction: DataFunction)
    requires var d := dataFunction(state.region, state.startYearIndex, state.endYearIndex, data);
      forall i :: 0 <= i < |d| ==> OrZero(d[i].numero) >= 0.0
    ensures var d := dataFunction(state.region, state.startYearIndex, state.endYearIndex, data);
      UpdateDonut(state, data, inactiveSelector, dataFunction).noDataMessage <==>
        forall i :: 0 <= i < |d| ==> OrZero(d[i].numero) == 0.0
  {
    SliceSumNonNegative(dataFunction(state.region, state.startYearIndex, state.endYearIndex, data));
  }

  /**
   * `sharedState.onChange(state => updateChart(state))`: one listener per
   * chart; afterwards the chart is drawn once from the current state.
   */
  method CreateDonutChart(s: SharedState, listener: ListenerId, inactiveSelector: string, dataFunction: DataFunction)
      returns (flags: Flags, first: DonutPanel)
    modifies s
    ensures s.listeners == old(s.listeners) + [listener]
    ensures s.Snap() == old(s.Snap()) && s.data == old(s.data)
    ensures flags == InitialFlags
    ensures first == UpdateDonut(s.Snap(), s.data, inactiveSelector, dataFunction)
  {
    s.OnChange(listener);
    flags := InitialFlags;
    first := UpdateDonut(s.Snap(), s.data, inactiveSelector, dataFunction);
  }

  /** Every notification a listener receives redraws the chart from the state it was handed. */
  function Redraws(calls: seq<Notification>, data: seq<YearRecord>, inactiveSelector: string, dataFunction: DataFunction)
    : (panels: seq<DonutPanel>)
    ensures |panels| == |calls|
    ensures forall i :: 0 <= i < |calls| ==>
      panels[i].title == TitlePrefix + calls[i].state.region
  {
    seq(|calls|, i requires 0 <= i < |calls| => UpdateDonut(calls[i].state, data, inactiveSelector, dataFunction))
  }

  /** After `setRegion`, every donut shows the new region in its title. */
  lemma SetRegionRetitles(listeners: seq<ListenerId>, state: Snapshot, data: seq<YearRecord>,
                          inactiveSelector: string, dataFunction: DataFunction)
    ensures var panels := Redraws(Broadcast(listeners, state), data, inactiveSelector, dataFunction);
      forall i :: 0 <= i < |panels| ==> panels[i].title == TitlePrefix + state.region
  {
  }
}
