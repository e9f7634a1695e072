# Dashboard chart data, modelled in Dafny

This project models the data side of two charts in a browser dashboard. Each
chart reads a CSV table and turns it into series that are drawn with D3.

- **Rental units occupied percentage** (`OccupiedPercentage`, in
  `occupied_percentage.dfy`) builds two series from the HUD housing table:
  - The Riverside series has one point `[year, pct_occupied / 100, total_units]`
    for each row whose code is `10003003002`, in input order.
  - The statewide "Delaware" series groups every row by year. Rows whose
    `pct_occupied` or `number_reported` is empty are skipped. Each year then
    gets a point with the mean percentage divided by 100 and the sum of the
    reported units.
  - Then one circle is placed per point of either series.

  The three loops of the drawing routine are methods. The year dictionary is a
  local `map`. Each method is proved against specification functions
  (`RiversideSeries`, `YearPairs`, `SumPct`, `SumUnits`, `MeanPct`). Lemmas
  then state what the series mean:
  - every kept year appears exactly once, in ascending order;
  - no group is empty, so the mean never divides by zero;
  - unit totals are conserved;
  - the mean lies between the smallest and the largest percentage of its year;
  - the row code plays no part in the statewide series;
  - the statewide series is fully determined by the table.
- **Literacy proficiency** (`Literacy`, in `literacy.dfy`) is the bar chart.
  - Each row becomes two bar records, `east_side` then `delaware`, each
    `{key, value: field / 100, year: schoolyear}`.
  - Each bar grows from the baseline (y = 380, height 0) to `y = yScale(value)`
    on the fixed scale from `[0, 0.6]` to `[380, 120]`.
  - Fill, hover highlight, tooltip year label and legend entries are modelled
    as functions of the subgroup.
- `Scales` (`scales.dfy`) holds the linear-scale formula and the chart frame
  (w = 1000, h = 500, padding = 120) that both charts share.

The model follows these conventions:
- CSV fields are taken as already parsed. In the housing table a field is
  `Empty` or a number, and the model uses exact `real` arithmetic.
- A housing year is a natural number. The table's years are four-digit,
  which the JavaScript engine treats as array-index keys. So `for (let key in
  yearGroup)` visits them in ascending numeric order, as section 10.1.11.1 of
  ECMA-262 (OrdinaryOwnPropertyKeys) specifies. `AggregateByYear` models that
  loop by taking the least key not yet visited at each step.
- `if (yearGroup[year])` tests whether the year already has an entry, since
  JavaScript treats every array, even an empty one, as true.
- The Riverside value of an empty `pct_occupied` is 0, because JavaScript
  computes `"" / 100` as 0. No emptiness check is made on that series.
- The D3 band scales (`xScale`, `subScale` and its band width) are left as
  arbitrary function parameters.

The statewide series is built from all rows with both fields present,
Riverside rows included; the code test at
src/component/housing/occupiedPercentage.js:26 applies only to the first loop.

## Model

| member | source | states |
|---|---|---|
| `Scales.Linear` | src/component/education/literacy.js:42-44 | A linear scale sends the ends of its domain to the ends of its range |
| `Scales.LinearReversedIsDecreasing` | src/component/housing/occupiedPercentage.js:60-62 | With a reversed range, a larger value lands strictly higher on screen |
| `OccupiedPercentage.RiversideIndices` | src/component/housing/occupiedPercentage.js:25-28 | Positions of the rows with code `10003003002`: strictly increasing, each such a row, and every such row listed |
| `OccupiedPercentage.RiversideSeriesIsFilter` | src/component/housing/occupiedPercentage.js:25-28 | The Riverside series is exactly those rows, in input order, each as `[year, pct/100, total_units]` |
| `OccupiedPercentage.BuildRiversideSeries` | src/component/housing/occupiedPercentage.js:25-28 | The first loop's pushes produce exactly the Riverside series |
| `OccupiedPercentage.GroupNonEmptyIffKeptYear` | src/component/housing/occupiedPercentage.js:35-38 | A year's group is non-empty if and only if some kept row has that year |
| `OccupiedPercentage.YearPairsAppend` | src/component/housing/occupiedPercentage.js:32-39 | Grouping two concatenated tables gives the first table's group followed by the second's |
| `OccupiedPercentage.RowPlacement` | src/component/housing/occupiedPercentage.js:32-39 | A row's pair is appended to its own year's group, in input order, if and only if both fields are present |
| `OccupiedPercentage.CodeNotConsulted` | src/component/housing/occupiedPercentage.js:32-33 | Changing a row's code changes no group, so Riverside rows also count statewide |
| `OccupiedPercentage.GroupByYear` | src/component/housing/occupiedPercentage.js:30-40 | The dictionary's keys are exactly the kept years; each entry is that year's pairs in input order and is non-empty |
| `OccupiedPercentage.SumGroup` | src/component/housing/occupiedPercentage.js:43-48 | The inner loop's accumulators end as the sum of the percentages and the sum of the units |
| `OccupiedPercentage.AggregateByYear` | src/component/housing/occupiedPercentage.js:42-51 | One point per dictionary key and no other, in ascending year order; each point holds its group's mean / 100 and unit sum |
| `OccupiedPercentage.BuildDatasets` | src/component/housing/occupiedPercentage.js:24-51 | Both series: the Riverside filter, and the statewide series over the kept years with exact mean and sum |
| `OccupiedPercentage.StatewideSeriesUnique` | src/component/housing/occupiedPercentage.js:42-50 | Two series meeting the statewide description are equal, so the table fixes content and order |
| `OccupiedPercentage.EachKeptYearOnce` | src/component/housing/occupiedPercentage.js:34-50 | Every kept year appears in the statewide series, and at exactly one position |
| `OccupiedPercentage.MeanWithinBounds` | src/component/housing/occupiedPercentage.js:45-49 | A group's mean is at least one of its percentages and at most another |
| `OccupiedPercentage.AverageWithinYearRange` | src/component/housing/occupiedPercentage.js:45-49 | Each statewide average lies between the lowest and highest `pct/100` of its year's kept rows |
| `OccupiedPercentage.YearTotalsConserved` | src/component/housing/occupiedPercentage.js:44-50 | Over any duplicate-free year list covering the kept years, the per-year unit sums add up to the total over kept rows |
| `OccupiedPercentage.UnitTotalConserved` | src/component/housing/occupiedPercentage.js:44-50 | The statewide series' unit sums add up to the sum of `number_reported` over all kept rows |
| `OccupiedPercentage.OccupancyY` | src/component/housing/occupiedPercentage.js:60-62 | The y scale puts 75% on the x axis (380) and 100% at the top (120) |
| `OccupiedPercentage.OccupancyYDecreasing` | src/component/housing/occupiedPercentage.js:60-62 | A higher occupancy is drawn strictly higher |
| `OccupiedPercentage.RiversideCircles` | src/component/housing/occupiedPercentage.js:100-108 | One circle per Riverside point, at `(xScale(year), yScale(value))`, radius 5, fill `#a8ddb5` |
| `OccupiedPercentage.DelawareCircles` | src/component/housing/occupiedPercentage.js:110-118 | One circle per statewide point, at `(xScale(year), yScale(average))`, radius 5, fill `#e7298a` |
| `OccupiedPercentage.RiversideCirclesPerRow` | src/component/housing/occupiedPercentage.js:100-108 | One Riverside circle per Riverside row, at that row's year, with larger values drawn higher |
| `OccupiedPercentage.DelawareCirclesPerYear` | src/component/housing/occupiedPercentage.js:110-118 | A statewide circle exists for a year if and only if that year has a kept row |
| `Literacy.BarRecords` | src/component/education/literacy.js:70 | A row gives exactly two records, east_side then delaware, each with the row's school year and its field / 100 |
| `Literacy.AllBarRecords` | src/component/education/literacy.js:63-72 | The table gives two records per row; record k comes from row k/2 and subgroup k%2 |
| `Literacy.RecordsOfRow` | src/component/education/literacy.js:65-70 | Record 2i+j has key `subgroups[j]`, year `schoolyear` of row i, and value that row's field / 100 |
| `Literacy.ExampleRow` | src/component/education/literacy.js:70 | A 2015 row with 40 and 35 gives values 0.40 and 0.35 |
| `Literacy.YScale` | src/component/education/literacy.js:42-44 | The scale from `[0, 0.6]` to `[380, 120]` is `y(v) = 380 - v*260/0.6` |
| `Literacy.StartBar` | src/component/education/literacy.js:75-78 | Before the transition a bar is at the baseline 380, with height 0, at `subScale(key)` with the band width |
| `Literacy.EndBar` | src/component/education/literacy.js:83-84 | After the transition `y = yScale(value)` and `y + height` is the baseline; x and width are unchanged |
| `Literacy.BarHeightScale` | src/component/education/literacy.js:84 | The final height is 0 at value 0, 260 at 0.6, and strictly increasing in the value |
| `Literacy.Fill` | src/component/education/literacy.js:79 | `#a8ddb5` exactly for `east_side`, `#e7298a` exactly for every other key |
| `Literacy.MouseoutRestoresFill` | src/component/education/literacy.js:139-164 | After any hover history, mouseout restores the bar's initial fill, and mouseover gives the highlight |
| `Literacy.TooltipYearLabel` | src/component/education/literacy.js:155 | The year line is the legend's series name followed by the year; it starts with `east side charter ` exactly for east_side |
| `Literacy.Legend` | src/component/education/literacy.js:109-131 | One entry per subgroup with the i-th shifted down by `13*i`, coloured like that subgroup's bars and labelled with its series name; the square at x = 981 sits 5 pixels right of the text anchor at 976, both at y = 70 |
| `Literacy.LegendMatchesBars` | src/component/education/literacy.js:113-124 | The legend lists east_side at 0 and delaware at 13, and each bar's initial fill is its legend entry's |

## Left out

- Component lifecycle: mount, redraw on update, and overlapping fetches. This is UI-framework and asynchronous behaviour.
- Loading the CSV files and logging load errors. This is I/O behind a library promise. Parsing the text into numbers, including JavaScript's string-to-number coercion, is also left out; fields are taken as already parsed.
- SVG and DOM construction, axes, transitions, durations and delays, tooltip positioning and visibility. This is drawing through D3.
- The band scales (`d3.scaleBand`, `bandwidth()`) and the group translation by `xScale(schoolyear)`. Their arithmetic lives in the charting library, so they are opaque function parameters. The housing `xScale` has only the Riverside years as its domain (src/component/housing/occupiedPercentage.js:55), so a statewide year without a Riverside row maps to `undefined` and its circle gets no usable `cx`; `DelawareCircles` takes a total `xScale` and does not capture that case.
- `OccupiedPercentage.AggregateByYear`: does not model the `toFixed(3)` rounding into a string. The average is the exact mean divided by 100, because the rounding is floating-point formatting.
- `d3.format(".1%")` tooltip text, the literacy tooltip's background and text colours (src/component/education/literacy.js:147-149), and the housing tooltips' `"Riverside " + year` / `"Delaware " + year` lines and their hover colours. These are number formatting in library code and hover styling outside the data path.
- `Literacy.MouseoutRestoresFill`: assumes each 250 ms `restoreBarColor` transition of a mouseout (src/component/education/literacy.js:161-164) has finished before the next hover event. A mouseover during that transition is overwritten by the transition, which ends with the subgroup's fill rather than the highlight; event timing is not modelled.
- The stroke-dash line animation from `getTotalLength()`. This is floating-point geometry measured by the browser.
- The series-name labels at the right edge, placed at the last point of each series. With no Riverside row, `dataset[dataset.length - 1]` is `undefined`, so that step throws. This is part of the drawing and is not modelled.
- `Literacy.FieldOf`: a row is modelled with its two subgroup fields only. A key outside those fields would read `undefined` in the source.
- The navigation header (src/component/homepage/header.js). It is stateless markup; its only logic is one equality test for the selected tab and one tab per menu entry.
