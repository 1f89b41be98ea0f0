/**
 * The year arrows of the causes donut and of the choropleth map: "previous"
 * moves back one year only when the index is above 0, "next" moves forward
 * one only when the index is below `years.length - 1`. Both charts keep their
 * own index, starting at 0.
 */
module Stepping {
  import opened Basics

  /**
   * The indices the arrows can reach from 0: never negative, and below the
   * number of years unless there are none (then the index stays 0).
   */
  predicate InRange(yearIndex: int, yearCount: nat) {
    0 <= yearIndex && (yearIndex == 0 || yearIndex < yearCount)
  }

  /** `if (currentYearIndex > 0) currentYearIndex--`. */
  function StepBack(yearIndex: int): (r: int)
    ensures r == yearIndex || r == yearIndex - 1
    ensures r != yearIndex <==> yearIndex > 0
  {
    if yearIndex > 0 then yearIndex - 1 else yearIndex
  }

  /** `if (currentYearIndex < years.length - 1) currentYearIndex++`. */
  function StepForward(yearIndex: int, yearCount: nat): (r: int)
    ensures r == yearIndex || r == yearIndex + 1
    ensures r != yearIndex <==> yearIndex < yearCount - 1
  {
    if yearIndex < yearCount - 1 then yearIndex + 1 else yearIndex
  }

  /** The starting index 0 is in range for any number of years. */
  lemma StartInRange(yearCount: nat)
    ensures InRange(0, yearCount)
  {
  }

  /** Both arrows keep the index in range. */
  lemma StepsStayInRange(yearIndex: int, yearCount: nat)
    requires InRange(yearIndex, yearCount)
    ensures InRange(StepBack(yearIndex), yearCount)
    ensures InRange(StepForward(yearIndex, yearCount), yearCount)
  {
  }

  /** Within range, the index names a year whenever there is at least one. */
  lemma InRangeNamesAYear(yearIndex: int, yearCount: nat)
    requires InRange(yearIndex, yearCount) && yearCount > 0
    ensures 0 <= yearIndex < yearCount
  {
  }

  /** Any sequence of arrow presses, `true` for "next", from any in-range index. */
  function Press(yearIndex: int, yearCount: nat, presses: seq<bool>): int
    decreases |presses|
  {
    if |presses| == 0 then yearIndex
    else Press(if presses[0] then StepForward(yearIndex, yearCount) else StepBack(yearIndex),
               yearCount, presses[1..])
  }

  /** However many times the arrows are pressed, the index never leaves the range. */
  lemma {:induction false} PressesStayInRange(yearIndex: int, yearCount: nat, presses: seq<bool>)
    requires InRange(yearIndex, yearCount)
    ensures InRange(Press(yearIndex, yearCount, presses), yearCount)
    decreases |presses|
  {
    if |presses| > 0 {
      StepsStayInRange(yearIndex, yearCount);
      PressesStayInRange(if presses[0] then StepForward(yearIndex, yearCount) else StepBack(yearIndex),
                         yearCount, presses[1..]);
    }
  }

  /** `years[i]`: the year at an index, undefined outside the list. */
  function YearAt(years: seq<string>, yearIndex: int): (y: Option<string>)
    ensures y.Some? <==> 0 <= yearIndex < |years|
    ensures y.Some? ==> y.value == years[yearIndex]
  {
    if 0 <= yearIndex < |years| then Some(years[yearIndex]) else None
  }
}
