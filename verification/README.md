# Portugal wildfire dashboard — data layer in Dafny

This project models the data layer of a D3 dashboard of forest fires in
Portugal. The dashboard has a choropleth map, a radial bar chart of yearly
totals, and donut charts of causes and burnt-area classes. Everything below
the drawing is modelled:

- **Preprocessing** (Python). Two scripts turn the statistics-office CSV
  tables into JSON: fires by cause and fires by burnt-area class ("dimensão"),
  per NUTS region and year. A third script merges these with two other
  per-year files (burnt percentage, sapper teams) into one file keyed by year,
  then region.
- **Loading** (JavaScript). The merged JSON becomes a list of
  `{year, regions: RegionData[]}` records, and an observable `SharedState`
  holds the selection.
- **Chart logic** (JavaScript). This covers the risk classifiers and the
  legend, the chart switch, the yearly totals and their "no data" decision,
  the nationwide cause tally, the region drop-down, the year arrows, the map's
  filters, its region map and its fill rule, and the donut's toggle and redraw
  on every state change.

| file | module | models |
|---|---|---|
| `basics.dfy` | `Basics` | `Option` (null/undefined), `x \|\| 0`, first-appearance de-duplication |
| `thresholds.dfy` | `Thresholds` | `utils.js`: classifiers, `getColor`, `getLegendItems`, `switchChart` |
| `records.dfy` | `Records` | `RegionData`, `Causa`, `Dimensao`, `regions.find`, the region drop-down |
| `shared_state.dfy` | `Shared` | `SharedState` with a ghost trace of listener calls |
| `stepping.dfy` | `Stepping` | the clamped year arrows of the causes donut and the map |
| `title.dfy` | `Title` | the title's arrows and year label |
| `radial.dfy` | `Radial` | `getTotals` (both variants) and the "no data" decision |
| `causes.dfy` | `CausesDonut` | `getCauses`, the chart's own year and region |
| `donut.dfy` | `Donut` | the configurable donut: toggle, checkboxes, `updateChart` |
| `choropleth.dfy` | `Choropleth` | filters, arrows, `regionMap`, fill rule |
| `loader.dfy` | `Loader` | `script.js`: raw JSON to records, initial state |
| `int_text.dfy` | `IntText` | Python `strip`, `int(...)` and `str(n)` on integers |
| `dicts.dfy` | `Dicts` | Python dictionaries as insertion-ordered lists |
| `json.dfy` | `JsonData` | JSON values |
| `csv_tables.dfy` | `FireTables` | `fires_causes.py` and `fires_dimensions.py` |
| `ordering.dfy` | `Ordering` | `sorted` on region names and on years |
| `merger.dfy` | `Merger` | `fires_merger.py` |

Conventions:

- JavaScript numbers are `real`. `null`/`undefined` is `Option.None`.
- Python dictionaries are sequences of `(key, value)` pairs. Reading a key
  finds its last entry. Assigning a key replaces it in place, or appends it
  when the key is new. Key order is therefore part of the model.
- Python raising an exception is modelled as `None`.
- Each operation comes with a partner: a reference definition, an invariant
  or an inverse, and a lemma connecting the two. Examples:
  - `LastWritten` is the reference for the CSV filing loop.
  - `FieldOf` is the reference for a merged record's fields.
  - `LabelSum` is the reference for the nationwide cause tally.
  - `ParsePrinted` is the round trip `int(str(n)) == n`.

Where the code and the documentation disagree, the model follows the code:

- **Classifier cut-offs.** The prevention index is classified at 0.009 and
  0.1, but its legend reads 0.5 and 0.09. The percentage is classified at 2.5,
  but its legend reads 5. The fire-count legend labels "≥ 500" as high and
  "199 < x < 500" as medium (`utils.js:117-119`), but the code paints exactly
  500 as medium (`utils.js:74`). The classifiers use the coded comparisons, and
  the legend keeps its display strings. `PaintedColorIsInLegend` states the only
  link the code guarantees: a painted colour always has a legend row.
- **"Total Fires".** This filter is not matched by name. It reaches the
  fire-count scale through the `default` branch, and so does every other
  unknown string (`GetColor`).
- **Region drop-down.** The list is built by the same two lines in four chart
  files. It is defined once, as `Records.RegionOptions`. A data region that is
  itself called "Portugal" would be listed twice.
- **Missing getters.** `title.js` calls `getYearIndex`/`setYearIndex`, which
  `SharedState` does not define. The title is modelled against the index those
  calls would read, and each arrow's result is the argument it would pass to
  `setYearIndex`.
- **Radial variants.** The fires `getTotals` turns a missing named-region
  total into 0, while the wines variant passes it on. Both are modelled, and
  `VariantsAgreeOnNoData` shows that their "no data" decisions agree.
- **Non-canonical year keys.** The merger looks regions up under `str(int(y))`,
  not under the input key `y`. An input year key that is not already in that
  form (for example "02020") produces a year with none of that input's
  regions. See `NonCanonicalKeyLosesItsRegions` and `LeadingZeroYear`. The CSV
  scripts always write canonical keys (`BuildTable`), so this only affects the
  percentage and sapper inputs, whose producers are not part of this model.

## Model

| member | source | states |
|---|---|---|
| Thresholds.GetPreventionColor | Code/portugalFires/idioms/utils/utils.js:50-55 | grey exactly for null/undefined/0; otherwise high iff v ≤ 0.009, medium iff 0.009 < v < 0.1, low iff v ≥ 0.1 (both directions of each band) |
| Thresholds.GetEfficiencyColor | Code/portugalFires/idioms/utils/utils.js:57-62 | same bands as the prevention index, each as an if-and-only-if |
| Thresholds.GetPercentageColor | Code/portugalFires/idioms/utils/utils.js:64-69 | grey exactly when missing/0; low iff v ≤ 1.99, medium iff 1.99 < v < 2.5, high iff v ≥ 2.5 |
| Thresholds.GetTotalFiresColor | Code/portugalFires/idioms/utils/utils.js:71-76 | grey exactly when missing/0; low iff v ≤ 199, medium iff 199 < v ≤ 500 (500 is medium), high iff v > 500 |
| Thresholds.GetColor | Code/portugalFires/idioms/utils/utils.js:78-89 | the three named filters use their own scale; every other string, "Total Fires" included, uses the fire-count scale |
| Thresholds.MissingIsGreyForEveryFilter | Code/portugalFires/idioms/utils/utils.js:50-76 | a null/undefined/0 value is grey whatever the filter string |
| Thresholds.PresentIsNeverGrey | Code/portugalFires/idioms/utils/utils.js:50-76 | a present non-zero value is never grey, whatever the filter |
| Thresholds.PreventionMatchesEfficiency | Code/portugalFires/idioms/utils/utils.js:50-62 | the prevention and efficiency classifiers agree on every input |
| Thresholds.RiskGrowsWithTotalsAndPercentage | Code/portugalFires/idioms/utils/utils.js:64-76 | for non-zero a ≤ b, the fire-count and percentage scales never give b a lower risk than a |
| Thresholds.RiskFallsWithIndices | Code/portugalFires/idioms/utils/utils.js:50-62 | for non-zero a ≤ b, the prevention and efficiency scales never give b a higher risk than a |
| Thresholds.GetLegendItems | Code/portugalFires/idioms/utils/utils.js:91-122 | every filter has exactly 4 legend rows, first "No data", colours in risk order missing, low, medium, high |
| Thresholds.PaintedColorIsInLegend | Code/portugalFires/idioms/utils/utils.js:78-122 | whatever colour `getColor` paints, the legend of the same filter has a row of that colour |
| Thresholds.JsRemainder | Code/portugalFires/idioms/utils/utils.js:31 | JavaScript `%`: result has the sign of the dividend and magnitude below the divisor's, and the dividend minus the result is a multiple of the divisor |
| Thresholds.SwitchChart | Code/portugalFires/idioms/utils/utils.js:30-40 | never both containers active; causes active iff the new index is 1, dimensions iff 0; heading follows the causes flag |
| Thresholds.SwitchFlips | Code/portugalFires/idioms/utils/utils.js:30-35 | from index 0 or 1 with direction ±1 the index flips to the other chart and exactly one container is active |
| Thresholds.SwitchCanLeaveTheList | Code/portugalFires/idioms/utils/utils.js:31-35 | a step of -3 from 0 yields index -1 and no active chart: the formula is only safe for ±1 |
| Shared.Broadcast | Code/portugalFires/models/sharedState.js:16-18 | one call per registered listener, in registration order, each handed the same state |
| Shared.SharedState.constructor | Code/portugalFires/models/sharedState.js:2-8 | stores the data, region and both indices as given, with no listeners and no calls yet |
| Shared.SharedState.OnChange | Code/portugalFires/models/sharedState.js:11-13 | appends exactly the one listener at the end and changes nothing else |
| Shared.SharedState.Notify | Code/portugalFires/models/sharedState.js:16-18 | the trace grows by one call per listener in order, state unchanged |
| Shared.SharedState.SetRegion | Code/portugalFires/models/sharedState.js:21-24 | writes only `region`, then notifies every listener even if the value is unchanged |
| Shared.SharedState.SetStartYearIndex | Code/portugalFires/models/sharedState.js:26-29 | writes only the start index, with no bounds check, then notifies |
| Shared.SharedState.GetStartYearIndex | Code/portugalFires/models/sharedState.js:31-33 | returns the start index last stored, unchecked |
| Shared.SharedState.SetEndYearIndex | Code/portugalFires/models/sharedState.js:35-38 | writes only the end index, with no check against the start, then notifies |
| Shared.SharedState.GetEndYearIndex | Code/portugalFires/models/sharedState.js:40-42 | returns the end index last stored, unchecked |
| Shared.SetThenGet | Code/portugalFires/models/sharedState.js:26-42 | a get right after its set returns the value set; each set notified all listeners with the state of that moment |
| Stepping.StepBack | Code/portugalFires/idioms/causesDonutChart.js:77-82 | moves back exactly one iff the index is above 0, otherwise stays |
| Stepping.StepForward | Code/portugalFires/idioms/causesDonutChart.js:89-96 | moves forward exactly one iff the index is below `years.length - 1`, otherwise stays |
| Stepping.StartInRange | Code/portugalFires/idioms/causesDonutChart.js:31 | the initial index 0 is in range for any number of years |
| Stepping.StepsStayInRange | Code/portugalFires/idioms/causesDonutChart.js:77-96 | both arrows keep an in-range index in range |
| Stepping.PressesStayInRange | Code/portugalFires/idioms/choroplethMap.js:107-137 | any sequence of arrow presses from an in-range index stays in range |
| Stepping.InRangeNamesAYear | Code/portugalFires/idioms/choroplethMap.js:110 | with at least one year, an in-range index is a valid position of `years` |
| Stepping.YearAt | Code/portugalFires/idioms/choroplethMap.js:110 | `years[i]` is defined exactly for 0 ≤ i < length, and is then the i-th year |
| Title.TitlePrev | Code/portugalFires/idioms/title.js:40-43 | calls `setYearIndex(i - 1)` iff i - 1 ≥ 0, otherwise makes no call |
| Title.TitleNext | Code/portugalFires/idioms/title.js:52-55 | calls `setYearIndex(i + 1)` iff i + 1 < years.length, otherwise makes no call |
| Title.TitleStepsLikeCharts | Code/portugalFires/idioms/title.js:40-55 | the title's guards move the index exactly as the charts' clamped arrows do |
| Title.TitleStaysInRange | Code/portugalFires/idioms/title.js:41-54 | an index in [0, years.length) stays there whichever arrow is pressed |
| Title.YearLabel | Code/portugalFires/idioms/title.js:45-59 | the label shows a year iff the index is in range, and then the year at that index |
| Title.LabelAlwaysShowsAYear | Code/portugalFires/idioms/title.js:38-59 | from an in-range index, the label still shows a year after either arrow |
| Records.ToCausa | Code/winesBoilterplate/idioms/models/regionData.js:2-7 | the entry's cause and number are kept unchanged: converting back gives the raw entry |
| Records.ToDimensao | Code/winesBoilterplate/idioms/models/regionData.js:10-15 | the entry's class label (key `Dimensões`) and number are kept unchanged |
| Records.NewRegionData | Code/portugalFires/models/regionData.js:3-15 | the seven scalars are stored as given; a missing list becomes []; a present list keeps length and order, entry by entry |
| Records.FindRegion | Code/portugalFires/idioms/radialBarchart.js:18 | none iff no region has the name; otherwise the first region with that name |
| Records.RegionNamesExactly | Code/portugalFires/idioms/causesDonutChart.js:27 | the flattened name list holds every region of every year and nothing else |
| Basics.DedupIsFirstAppearanceOrder | Code/portugalFires/idioms/causesDonutChart.js:27 | `Array.from(new Set(xs))` lists each distinct element once, ordered by first occurrence |
| Basics.Dedup | Code/portugalFires/idioms/causesDonutChart.js:27 | `Array.from(new Set(s))` holds every element of `s` and nothing else |
| Records.RegionOptions | Code/portugalFires/idioms/causesDonutChart.js:27-28 | "Portugal" first, then the distinct region names in first-appearance order (same code at radialBarchart.js:26-27 and donutChart.js:16-17) |
| Records.EveryRegionIsOffered | Code/portugalFires/idioms/causesDonutChart.js:27-28 | every region of every year appears in the drop-down after "Portugal" |
| Radial.GetTotals | Code/portugalFires/idioms/radialBarchart.js:12-20 | one bar per record in order with its year; national bar = sum of `total \|\| 0`; named bar = first match's `total \|\| 0`, 0 when absent |
| Radial.NationalIsSumOfRegions | Code/portugalFires/idioms/radialBarchart.js:14-19 | with distinct region names, the national total equals the sum of the per-region bars |
| Radial.Max | Code/portugalFires/idioms/radialBarchart.js:91 | `d3.max`: none iff every value is missing, otherwise a present value that bounds all present values |
| Radial.NoDataWhenMaxIsZero | Code/portugalFires/idioms/radialBarchart.js:90-99 | "no data" iff there are no years or the largest total is 0 |
| Radial.ShowsNoData | Code/portugalFires/idioms/radialBarchart.js:90-99 | shown only when no year's total is positive, and always when every total is 0 |
| Radial.UnknownRegionHasNoData | Code/portugalFires/idioms/radialBarchart.js:18-93 | a region that occurs in no year always takes the "no data" branch |
| Radial.NoDataIffAllZero | Code/portugalFires/idioms/radialBarchart.js:90-99 | with no negative totals, "no data" iff every year's bar is 0 |
| Radial.WinesRegionTotal | Code/winesBoilterplate/idioms/radialBarchart.js:18-19 | 0 when the region is absent, otherwise its stored total, missing or not |
| Radial.WinesGetTotals | Code/winesBoilterplate/idioms/radialBarchart.js:12-20 | one bar per record in order with its year; national = sum of `total \|\| 0`; named = total as stored |
| Radial.VariantsAgreeUpToMissing | Code/winesBoilterplate/idioms/radialBarchart.js:18-19 | the two variants differ exactly where a found region's total is missing (fires shows 0, wines leaves it missing) |
| Radial.WinesNoDataIffZeroOrMissing | Code/winesBoilterplate/idioms/radialBarchart.js:74-84 | with no negative totals, "no data" iff every year's total is 0 or missing |
| Radial.WinesShowsNoData | Code/winesBoilterplate/idioms/radialBarchart.js:74-84 | shown only when no year's total (missing read as 0) is positive, and always when every such total is 0 |
| Radial.VariantsAgreeOnNoData | Code/winesBoilterplate/idioms/radialBarchart.js:74-84 | with no negative totals, both variants take the "no data" branch on the same data |
| CausesDonut.FindYear | Code/portugalFires/idioms/causesDonutChart.js:6-7 | `Array.find`: none iff no record has the year (or the year is undefined); otherwise the first record with that year |
| CausesDonut.AddLabels | Code/portugalFires/idioms/causesDonutChart.js:13-14 | one `causeMap.set` keeps the labels for a known label and appends a new label last |
| CausesDonut.AddCounts | Code/portugalFires/idioms/causesDonutChart.js:13-14 | after one `causeMap.set` every slice still counts its label's sum over the entries seen so far |
| CausesDonut.AddConserves | Code/portugalFires/idioms/causesDonutChart.js:13-14 | one `causeMap.set` adds exactly the entry's `numero \|\| 0` to the slices' total |
| CausesDonut.TallyLabels | Code/portugalFires/idioms/causesDonutChart.js:10-17 | the nationwide slices carry the distinct cause labels in first-occurrence order |
| CausesDonut.TallyCounts | Code/portugalFires/idioms/causesDonutChart.js:11-16 | each nationwide slice's count is the sum of `numero \|\| 0` over all entries with its label |
| CausesDonut.TallyConserves | Code/portugalFires/idioms/causesDonutChart.js:11-16 | the slices add up to the same number of fires as the entries they were built from |
| CausesDonut.GetCauses | Code/portugalFires/idioms/causesDonutChart.js:5-22 | [] without a matching year; "Portugal": distinct labels with their summed counts; named region: its own entries unchanged, [] when absent |
| CausesDonut.NationalCausesConserveFires | Code/portugalFires/idioms/causesDonutChart.js:9-17 | the nationwide donut's total equals the sum over that year's regions of their cause numbers |
| CausesDonut.SelectRegion | Code/portugalFires/idioms/causesDonutChart.js:60-63 | the drop-down changes the region and keeps the year |
| CausesDonut.Prev | Code/portugalFires/idioms/causesDonutChart.js:77-82 | keeps the region; the year index takes the clamped step back |
| CausesDonut.Next | Code/portugalFires/idioms/causesDonutChart.js:89-96 | keeps the region; the year index takes the clamped step forward |
| CausesDonut.ControlsKeepYearInRange | Code/portugalFires/idioms/causesDonutChart.js:31-96 | the initial view ("Portugal", 0) is in range and every control keeps the index in range |
| CausesDonut.InRangeFindsYear | Code/portugalFires/idioms/causesDonutChart.js:153-155 | with data and an in-range index, `getCauses` always finds the year's record |
| CausesDonut.Render | Code/portugalFires/idioms/causesDonutChart.js:153-158 | a year is shown exactly while the index is in range and its record is then found; out of range the donut is empty with total 0; on "Portugal" the total is every region's cause numbers added up |
| Donut.SwitchFlags | Code/portugalFires/idioms/donutChart.js:130-139 | both containers' `active` classes are negated; the redraw that follows is `UpdateDonut` on the current state |
| Donut.SwitchKeepsOneActive | Code/portugalFires/idioms/donutChart.js:130-139 | exactly one chart stays active, and two switches restore the flags |
| Donut.SwitchesFromStart | Code/portugalFires/idioms/donutChart.js:287-288 | from the initial flags (this active, other not) any number of switches leaves exactly one active; this one iff the count is even |
| Donut.ToggleBoxes | Code/portugalFires/idioms/donutChart.js:213-219 | depends only on `inactiveSelector`; dimensions checked iff it is ".CausesDonutChart"; exactly one box checked |
| Donut.UpdateDonut | Code/portugalFires/idioms/donutChart.js:208-235 | title from the region; "no data" iff the slices sum to 0, and then no arcs and an empty legend; otherwise arcs and legend are the slices |
| Donut.NoDataIffNothingToDraw | Code/portugalFires/idioms/donutChart.js:210-235 | with no negative numbers, "no data" iff every slice is 0 or missing |
| Donut.CreateDonutChart | Code/portugalFires/idioms/donutChart.js:280-290 | registers exactly one listener, starts with this chart active, draws once from the current state |
| Donut.Redraws | Code/portugalFires/idioms/donutChart.js:280-282 | one redraw per notification, each titled with the region of the state it was handed |
| Donut.SetRegionRetitles | Code/portugalFires/idioms/donutChart.js:221 | after a broadcast of a state, every redraw shows that state's region in its title |
| Choropleth.FourFiltersDefaultTotalFires | Code/portugalFires/idioms/choroplethMap.js:13-14 | four distinct filters, and the initial one is "Total Fires" |
| Choropleth.ExactlyOneHighlighted | Code/portugalFires/idioms/choroplethMap.js:71-81 | exactly one filter button, the current filter's, is highlighted |
| Choropleth.ClickFilter | Code/portugalFires/idioms/choroplethMap.js:74-88 | a click sets the filter to the button and keeps the year index |
| Choropleth.HeadingNamesFilter | Code/portugalFires/idioms/choroplethMap.js:74-76 | two views with the same heading have the same filter: the heading names the filter |
| Choropleth.ClickRetitles | Code/portugalFires/idioms/choroplethMap.js:74-76 | after a click the heading depends only on the button, and it changes iff the button is not the current filter |
| Choropleth.HighlightIsCurrentFilter | Code/portugalFires/idioms/choroplethMap.js:71-81 | a button is highlighted, and its text white, exactly when it is the current filter |
| Choropleth.ClickRedrawsSameYear | Code/portugalFires/idioms/choroplethMap.js:86-88 | after a filter click the map is redrawn for the same year |
| Choropleth.MapPrev | Code/portugalFires/idioms/choroplethMap.js:107-114 | keeps the filter; the year index takes the clamped step back |
| Choropleth.MapNext | Code/portugalFires/idioms/choroplethMap.js:130-137 | keeps the filter; the year index takes the clamped step forward |
| Choropleth.ControlsKeepMapInRange | Code/portugalFires/idioms/choroplethMap.js:107-137 | the initial view and every click keep the index in range and a listed filter selected |
| Choropleth.RegionMapKeys | Code/portugalFires/idioms/choroplethMap.js:347 | a name is a key of `regionMap` iff some row has that region |
| Choropleth.RegionMapLastRowWins | Code/portugalFires/idioms/choroplethMap.js:347 | a region occurring in several rows maps to the total of its last row |
| Choropleth.RegionMap | Code/portugalFires/idioms/choroplethMap.js:347 | every row's region is a key, and the last row's region maps to that row's total |
| Choropleth.Fill | Code/portugalFires/idioms/choroplethMap.js:356-358 | a name absent from the map is grey; a present one gets `getColor` of its value under the current filter |
| Choropleth.FillIsColourOfLookup | Code/portugalFires/idioms/choroplethMap.js:356-358 | an absent region and a region with a null value are painted alike |
| Choropleth.UpdateMap | Code/portugalFires/idioms/choroplethMap.js:345-359 | one fill per map region, each the fill rule applied to the map built from the current year's rows |
| Choropleth.EveryFillIsInLegend | Code/portugalFires/idioms/choroplethMap.js:356-358 | every painted region's colour has a row in the current filter's legend |
| Loader.LoadYear | Code/portugalFires/script.js:5-14 | one `RegionData` per entry, in entry order, named by the entry key, fields passed in declared order |
| Loader.StructureData | Code/portugalFires/script.js:3-15 | one record per top-level entry in order, the year kept as the key string, every region loaded from its entry |
| Loader.OfferedRegionsAreJsonKeys | Code/portugalFires/script.js:3-15 | the drop-down, after "Portugal", offers exactly the region keys of the loaded JSON |
| Loader.Init | Code/portugalFires/script.js:18 | region "Portugal", start index 0, end index undefined, no listeners |
| IntText.TrimStartIsSuffix | Data/Causa/fires_causes.py:46 | `lstrip` removes a whitespace prefix and keeps the rest |
| IntText.TrimEndIsPrefix | Data/Causa/fires_causes.py:46 | `rstrip` removes a whitespace suffix and keeps the rest |
| IntText.Trim | Data/Causa/fires_causes.py:46 | `strip` leaves no whitespace at either end, whitespace being the characters Python's `str.isspace` accepts |
| IntText.TrimRemovesSpaceOnly | Data/Causa/fires_causes.py:17 | the input is the stripped text with only whitespace around it |
| IntText.ParseInt | Data/Causa/fires_causes.py:45-48 | succeeds iff the stripped text is an optional sign and one or more digits; the value is the digits' decimal value, negated after a leading '-' |
| IntText.ParsePrinted | Data/fires_merger.py:21-26 | `int(str(n)) == n` for every integer |
| IntText.PrintInjective | Data/fires_merger.py:26 | distinct integers print as distinct year keys |
| IntText.ParseIntCanonical | Data/Causa/fires_causes.py:46 | a parsed number prints back as the stripped text with a '+' and leading zeros dropped, and "-0" read as "0" |
| IntText.PrintDigits | Data/Causa/fires_causes.py:46 | the decimal text of a digit string's value is that string without its leading zeros |
| IntText.StripExamples | Data/Causa/fires_causes.py:17 | `strip` removes a no-break space, a next-line character and an information separator, not inner spaces |
| IntText.ParseSpacedExample | Data/Causa/fires_causes.py:46 | `int(" 12 ")` is 12 |
| IntText.ParseSignExample | Data/Causa/fires_causes.py:46 | `int("+7")` is 7 and `int("-0")` is 0 |
| IntText.ParseZerosExample | Data/Causa/fires_causes.py:46 | `int("007")` is 7, printing back as "7" |
| IntText.ParseInnerSpaceExample | Data/Causa/fires_causes.py:46 | `int("1 2")` raises |
| Ordering.SortAscending | Data/fires_merger.py:36 | `sorted(set)`: strictly ascending by code point, with the same elements |
| Ordering.SortDescending | Data/fires_merger.py:20-23 | `sorted(set, reverse=True)`: strictly descending, with the same elements |
| FireTables.CodeLengthIsRun | Data/Causa/fires_causes.py:14 | the code run is made of `[0-9A-Z]` and ends at the end of the text or at another character |
| FireTables.StripCodeRemovesCode | Data/Causa/fires_causes.py:17 | a coded cell loses exactly a `^[0-9A-Z]+: ?` prefix and keeps the rest |
| FireTables.StripCodeOfPrefixed | Data/Causa/fires_causes.py:17 | stripping recovers the name from any code, colon and optional space put before it |
| FireTables.StripCode | Data/Dimensao/fires_dimensions.py:14 | a cell without a code is left unchanged |
| FireTables.MissingRegionCellDropped | Data/Dimensao/fires_dimensions.py:14-19 | a missing region cell becomes "nan" and is dropped by both scripts |
| FireTables.CleanName | Data/Causa/fires_causes.py:17 | no longer than the cell's text, no whitespace at either end, and "nan" for a missing cell |
| FireTables.RowKept | Data/Causa/fires_causes.py:14-22 | a missing region cell is never kept |
| FireTables.Blank | Data/Causa/fires_causes.py:40 | a missing cell is blank and a cell holding an integer never is |
| FireTables.UncodedNameOnlyInDimensions | Data/Causa/fires_causes.py:14-22 | a row without a NUTS code is read by the dimensions script only |
| FireTables.BlockWidths | Data/Causa/fires_causes.py:37-38 | a year block is 7 cells wide for causes and 9 for dimensions (fires_dimensions.py:34-35) |
| FireTables.Block | Data/Causa/fires_causes.py:37-38 | year i reads `values[i*w : i*w + w]`, clipped at the end: w cells when available, none past the end |
| FireTables.YearKeysDistinct | Data/Causa/fires_causes.py:28-42 | the fifteen years are filed under fifteen distinct keys |
| FireTables.RemoveAmpersands | Data/Causa/fires_causes.py:46 | no `&` is left and nothing is added |
| FireTables.ParseCell | Data/Causa/fires_causes.py:45-48 | a missing cell gives None; otherwise a number iff the text without `&`, stripped, is an integer, and the number prints back as that text with its sign and leading zeros made canonical |
| FireTables.NanIsNotANumber | Data/Causa/fires_causes.py:45-48 | the text "nan" of a missing cell does not parse |
| FireTables.AmpersandIgnored | Data/Causa/fires_causes.py:46 | an `&` anywhere in a cell does not change the number read |
| FireTables.PrintedBlockRecorded | Data/Causa/fires_causes.py:40 | a block holding printed integers is never skipped |
| FireTables.ReadBlockShape | Data/Causa/fires_causes.py:44-56 | total from the first cell; entries zip the labels with the remaining cells: one per label for a full block, fewer for a clipped one; the dimensions script reads its blocks the same way with eight area-class labels (fires_dimensions.py:41-53) |
| FireTables.ReadBlock | Data/Causa/fires_causes.py:44-61 | at most one entry per label, named by the labels in order, one per label for a full block, and an empty record for an empty block |
| FireTables.ReadPrintedBlock | Data/Causa/fires_causes.py:44-56 | a block of printed integers reads back as exactly that total and those labelled numbers |
| FireTables.ReadRowFiles | Data/Causa/fires_causes.py:32-40 | a row files year i of a name iff it is kept, its cleaned name is that name and its block is not all blank |
| FireTables.ReadRow | Data/Causa/fires_causes.py:32-40 | fifteen years; year i is filed iff the row is kept and its block is not all blank |
| FireTables.FileYearsLookup | Data/Causa/fires_causes.py:36-61 | filing one row's years overwrites exactly the entries it files |
| FireTables.FileRowsLookup | Data/Causa/fires_causes.py:32-61 | each table entry is the record of the last row that files it (the `LastWritten` reference) |
| FireTables.EntryIffFed | Data/Causa/fires_causes.py:32-61 | the table has an entry for a year and a name iff some row feeds it; this holds for both scripts, and the dimensions one applies no code filter (fires_dimensions.py:29-58) |
| FireTables.LaterRowsOverwrite | Data/Causa/fires_causes.py:58-61 | an entry fed by several rows holds the record read from the last of them, in both scripts (fires_dimensions.py:55-58) |
| FireTables.BuildTable | Data/Causa/fires_causes.py:28-42 | the table's only year keys are the texts of 2024 down to 2010 |
| FireTables.RecordJson | Data/Causa/fires_causes.py:58-61 | a record's object has exactly the keys `Total` and the list key, in that order |
| FireTables.TableJsonLookup | Data/Causa/fires_causes.py:58-61 | the written file holds, for each year and region, the JSON of exactly the record filed there |
| Dicts.Get | Data/fires_merger.py:32-33 | a key reads a value iff it is among the keys |
| Dicts.GetIsLastEntry | Data/fires_merger.py:32-33 | a present key reads the value of its last entry |
| Dicts.AssignThenGet | Data/fires_merger.py:37-54 | after `d[k] = v`, k reads v and every other key reads as before |
| Dicts.PutThenLookup | Data/Causa/fires_causes.py:41-61 | after `result[y][r] = v`, that entry reads v and every other entry as before |
| Dicts.PutKeys | Data/Causa/fires_causes.py:41-42 | a new year key is appended at the end; existing key order is kept |
| Dicts.GetMapValues | Data/Causa/fires_causes.py:63-64 | reading a converted dictionary is converting what the original reads |
| Merger.ParseAll | Data/fires_merger.py:21 | succeeds iff every key parses, and then holds each key's integer in order |
| Merger.Merge | Data/fires_merger.py:17-54 | the merge fails exactly when some key of some input is not an integer |
| Merger.MergedKeyReadsBack | Data/fires_merger.py:25-27 | the i-th merged key is `str` of the i-th year of `all_years` |
| Merger.MergedYearsComeFromInputs | Data/fires_merger.py:20-27 | every merged year key reads back as the integer of some input key |
| Merger.EveryInputYearIsMerged | Data/fires_merger.py:20-27 | the year of every input key is in the merged file as `str(int(key))` |
| Merger.MergedYearsDescend | Data/fires_merger.py:20-23 | read back as integers, merged year keys strictly decrease: newest first, each once |
| Merger.MergedYearEntry | Data/fires_merger.py:25-27 | reading a merged year key gives that year's merged regions |
| Merger.RegionsOfIff | Data/fires_merger.py:31-33 | a region is collected from an input iff that input has the year and the region |
| Merger.MergedRegions | Data/fires_merger.py:29-37 | a year's regions are strictly ascending and are exactly those some input supplies for that year |
| Merger.MergedRegionEntry | Data/fires_merger.py:36-37 | each region of a merged year reads its merged record |
| Merger.CauseFieldsGet | Data/fires_merger.py:48-50 | from a causes record: `Total` (null when absent) and `Causas` ([] when absent), nothing else |
| Merger.DimensionFieldsGet | Data/fires_merger.py:53-54 | from a dimensions record: `Dimensões` ([] when absent) only; its `Total` is ignored |
| Merger.PartsFields | Data/fires_merger.py:39-54 | the four-part object reads, field by field, what the `FieldOf` reference sets |
| Merger.MergedRecordFields | Data/fires_merger.py:37-54 | `Percentagem`/`Sapadores` present iff their input has the entry, copied unchanged; `Total`/`Causas` only from causes; `Dimensões` only from dimensions |
| Merger.FieldOfNames | Data/fires_merger.py:37-54 | only the five field names ever have a value |
| Merger.MergedRecordKeys | Data/fires_merger.py:37-54 | a merged record has no key other than the five field names |
| Merger.MergedLookup | Data/fires_merger.py:25-54 | `merged[year][region]` exists iff some input supplies that year and region, and is then the merged record |
| Merger.NonCanonicalKeyLosesItsRegions | Data/fires_merger.py:25-33 | an input key that is not `str(int(key))` yields its year with none of its regions |
| Merger.SingleKeyYears | Data/fires_merger.py:20-23 | inputs whose only key is t have the single year `int(t)` |
| Merger.LeadingZeroYear | Data/fires_merger.py:20-26 | "02020" reads as 2020, which prints as "2020" |

## Left out

- Drawing is not modelled. This covers SVG, arcs, pies, transitions,
  tooltips, legend markup, styles, the geo projections and the inset layout
  (`choroplethMap.js:189-343`). `d3.tickStep`, the scales and the tick and
  axis arithmetic of the radial chart are also out. All of this is rendering
  through a library.
- I/O is not modelled: `d3.json`, pandas `read_csv` (and its `skiprows`,
  encoding and `header=None`), `json.load`/`json.dump` and the files they
  touch. The model starts from the loaded values: CSV cells as text or
  missing, JSON objects as lists of entries.
- `getData`, `getCausesForRange`, `createDimensionsDonutChart`, and the chart
  creation calls of `script.js`: their code is not part of this model. The map's
  data source and the donut's data function are parameters.
- `Code/winesBoilterplate/script.js`: wiring with no logic.
- Re-entrant setters called from inside a listener during `notify` are not
  modelled. Each listener is only an id recorded in the ghost trace.
- The year order of `Object.entries` in JavaScript is taken as the given
  entry order. JavaScript's reordering of integer-like keys is not modelled.
- The title's `getYearIndex`/`setYearIndex` do not exist on `SharedState`.
  They are not invented: the title is modelled on the index alone.
- NaN is not modelled; numbers are `real`. JavaScript `x || 0` also maps NaN
  to 0, and the tooltips' `toFixed` formatting is display only.
- IntText.ParseInt: models Python `int()` for an optional sign and ASCII
  digits between whitespace. Underscores between digits and non-ASCII digits
  are not accepted, where Python accepts them.
- FireTables.ParseCell: pandas dtype inference is not modelled. A cell is
  either missing or its text. A float cell that prints as "123.0" would fail
  `int` in Python; such cells are not represented.
- pandas `str.match(...) == True` on a missing first cell gives NaN, which is
  not `True`. This is modelled as "the row is dropped" (`MissingRegionCellDropped`).
- The order of the year keys in a written table is modelled, but only
  `Dicts.PutKeys` states anything about it.
- Merger.Merge: a causes or dimensions value that is not a JSON object makes
  Python raise on `.get`. Inputs are typed so this cannot happen.
- Merger.Merge: the four inputs are typed as dictionaries of dictionaries; a
  file whose top-level or year value is not an object is not modelled.
- CausesDonut.GetCauses: cause labels are strings. JavaScript `Map` keys such
  as `undefined` are not modelled.
- CausesDonut.Render: what `updateChart` draws beyond the year, slices and
  total (arc interpolation, legend rows) is not modelled. Render's contract does
  not restate the slices; `GetCauses`'s contract states them.
