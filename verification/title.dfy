/**
 * The dashboard title's year arrows and year label. They read and write a
 * single year index through `getYearIndex`/`setYearIndex`, which the shared
 * state class does not provide; the title is therefore modelled against that
 * index alone: each arrow is the call it makes to `setYearIndex`, if any.
 */
module Title {
  import opened Basics
  import opened Records
  import opened Stepping

  /** The "previous" arrow: `setYearIndex(i - 1)` when `i - 1 >= 0`, otherwise no call. */
  function TitlePrev(yearIndex: int): (call: Option<int>)
    ensures call.Some? <==> yearIndex - 1 >= 0
    ensures call.Some? ==> call.value == yearIndex - 1
  {
    var index := yearIndex - 1;
    if index >= 0 then Some(index) else None
  }

  /** The "next" arrow: `setYearIndex(i + 1)` when `i + 1 < years.length`, otherwise no call. */
  function TitleNext(yearIndex: int, years: seq<string>): (call: Option<int>)
    ensures call.Some? <==> yearIndex + 1 < |years|
    ensures call.Some? ==> call.value == yearIndex + 1
  {
    var index := yearIndex + 1;
    if index < |years| then Some(index) else None
  }

  /** The index after a press: the value passed to `setYearIndex`, or the old one. */
  function After(yearIndex: int, call: Option<int>): int {
    call.GetOr(yearIndex)
  }

  /** The title's guards move the index exactly as the chart arrows do. */
  lemma TitleStepsLikeCharts(yearIndex: int, years: seq<string>)
    ensures After(yearIndex, TitlePrev(yearIndex)) == StepBack(yearIndex)
    ensures After(yearIndex, TitleNext(yearIndex, years)) == StepForward(yearIndex, |years|)
  {
  }

  /** An index within `[0, years.length)` stays there whichever arrow is pressed. */
  lemma TitleStaysInRange(yearIndex: int, years: seq<string>)
    requires 0 <= yearIndex < |years|
    ensures 0 <= After(yearIndex, TitlePrev(yearIndex)) < |years|
    ensures 0 <= After(yearIndex, TitleNext(yearIndex, years)) < |years|
  {
  }

  /**
   * The label, `years[getYearIndex()]`, at creation and after every change
   * notification: the year at the index, shown as long as the index is in range.
   */
  function YearLabel(data: seq<YearRecord>, yearIndex: int): (shown: Option<string>)
    ensures shown.Some? <==> 0 <= yearIndex < |data|
    ensures shown.Some? ==> shown.value == data[yearIndex].year
  {
    YearAt(Years(data), yearIndex)
  }

  /** Pressing either arrow from an in-range index leaves a year on the label. */
  lemma LabelAlwaysShowsAYear(data: seq<YearRecord>, yearIndex: int, next: bool)
    requires 0 <= yearIndex < |data|
    ensures var years := Years(data);
      var call := if next then TitleNext(yearIndex, years) else TitlePrev(yearIndex);
      YearLabel(data, After(yearIndex, call)).Some?
  {
  }
}
