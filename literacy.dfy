/** The literacy proficiency bar chart (src/component/education/literacy.js):
    each CSV row becomes one bar record per subgroup, each record one bar
    that grows from the baseline to its value on a fixed y scale, coloured
    and labelled by its subgroup, with a legend entry per subgroup. */
module Literacy {
  import Scales

  /** The two series of the chart, in drawing order. */
  const SUBGROUPS: seq<string> := ["east_side", "delaware"]

  const EAST_SIDE_FILL: string := "#a8ddb5"
  const DELAWARE_FILL: string := "#e7298a"
  const HOVER_FILL: string := "#fd8d3c"

  /** The top of the y scale's domain: 60 percent. */
  const Y_DOMAIN_MAX: real := 0.6

  /** One row of the literacy table, its percentage fields already parsed. */
  datatype LiteracyRow = LiteracyRow(schoolyear: string, eastSide: real, delaware: real)

  /** The datum bound to one bar: {key, value, year}. */
  datatype BarRecord = BarRecord(key: string, value: real, year: string)

  /** The attributes of a drawn bar. */
  datatype Bar = Bar(x: real, y: real, width: real, height: real)

  /** One legend entry, shifted down by dy: a coloured square at (rectX, y)
      and its text, right-aligned at (textX, y). */
  datatype LegendEntry = LegendEntry(key: string, dy: int, rectX: real, textX: real, y: real, fill: string, text: string)

  /** Hover events on a bar. */
  datatype Hover = MouseOver | MouseOut

  // ---------------------------------------------------------------------
  // Bar records
  // ---------------------------------------------------------------------

  /** `d[key]` for one of the two subgroup keys. */
  function FieldOf(row: LiteracyRow, key: string): real
    requires key in SUBGROUPS
  {
    if key == "east_side" then row.eastSide else row.delaware
  }

  /** `subgroups.map(key => ({key, value: d[key] / 100, year: d.schoolyear}))`. */
  function BarRecords(row: LiteracyRow): (records: seq<BarRecord>)
    ensures records == [BarRecord("east_side", row.eastSide / 100.0, row.schoolyear),
                        BarRecord("delaware", row.delaware / 100.0, row.schoolyear)]
  {
    seq(|SUBGROUPS|, j requires 0 <= j < |SUBGROUPS| =>
      BarRecord(SUBGROUPS[j], FieldOf(row, SUBGROUPS[j]) / 100.0, row.schoolyear))
  }

  /** All bar records of a table, row by row: the nested selection flattened. */
  function AllBarRecords(data: seq<LiteracyRow>): (records: seq<BarRecord>)
    ensures |records| == |SUBGROUPS| * |data|
    ensures forall k :: 0 <= k < |records| ==> records[k] == BarRecords(data[k / 2])[k % 2]
  {
    if data == [] then []
    else
      var n := |data| - 1;
      var front := AllBarRecords(data[..n]);
      assert forall k :: 0 <= k < |front| ==> data[..n][k / 2] == data[k / 2] by {
        forall k | 0 <= k < |front| ensures k / 2 < n { }
      }
      var records := front + BarRecords(data[n]);
      assert forall k :: |front| <= k < |records| ==> k / 2 == n && k % 2 == k - |front|;
      records
  }

  /** Every row yields a record for each subgroup, in subgroup order, whose
      year is the row's school year and whose value is the row's field for
      that subgroup divided by 100. */
  lemma RecordsOfRow(data: seq<LiteracyRow>, i: nat, j: nat)
    requires i < |data| && j < |SUBGROUPS|
    ensures 2 * i + j < |AllBarRecords(data)|
    ensures AllBarRecords(data)[2 * i + j].key == SUBGROUPS[j]
    ensures AllBarRecords(data)[2 * i + j].year == data[i].schoolyear
    ensures AllBarRecords(data)[2 * i + j].value == FieldOf(data[i], SUBGROUPS[j]) / 100.0
  {
    var k := 2 * i + j;
    assert k / 2 == i && k % 2 == j;
  }

  /** A 2015 row with 40 and 35 percent gives the values 0.40 and 0.35. */
  lemma ExampleRow()
    ensures BarRecords(LiteracyRow("2015", 40.0, 35.0)) ==
      [BarRecord("east_side", 0.40, "2015"), BarRecord("delaware", 0.35, "2015")]
  {
  }

  // ---------------------------------------------------------------------
  // Geometry
  // ---------------------------------------------------------------------

  /** The y scale: domain [0, 0.6] onto [h - padding, padding], that is
      y(v) = 380 - v * 260 / 0.6. */
  function YScale(v: real): (y: real)
    ensures y == 380.0 - v * 260.0 / 0.6
  {
    Scales.Linear(0.0, Y_DOMAIN_MAX, Scales.H - Scales.PADDING, Scales.PADDING, v)
  }

  /** A bar before its transition: at the baseline, with no height. The
      sub-band scale and its band width are left as parameters. */
  function StartBar(d: BarRecord, subScale: string -> real, bandwidth: real): (b: Bar)
    ensures b.y == Scales.BASELINE && b.height == 0.0
    ensures b.x == subScale(d.key) && b.width == bandwidth
  {
    Bar(subScale(d.key), Scales.H - Scales.PADDING, bandwidth, 0.0)
  }

  /** A bar after its transition: from yScale(value) down to the baseline. */
  function EndBar(d: BarRecord, subScale: string -> real, bandwidth: real): (b: Bar)
    ensures b.y + b.height == Scales.BASELINE
    ensures b.y == YScale(d.value)
    ensures b.x == StartBar(d, subScale, bandwidth).x && b.width == StartBar(d, subScale, bandwidth).width
  {
    Bar(subScale(d.key), YScale(d.value), bandwidth, Scales.H - Scales.PADDING - YScale(d.value))
  }

  /** The final height of a bar is 0 at value 0, 260 at the top of the
      domain, and strictly increasing in the value. */
  lemma BarHeightScale(d: BarRecord, e: BarRecord, subScale: string -> real, bandwidth: real)
    ensures d.value == 0.0 ==> EndBar(d, subScale, bandwidth).height == 0.0
    ensures d.value == Y_DOMAIN_MAX ==> EndBar(d, subScale, bandwidth).height == 260.0
    ensures d.value < e.value ==> EndBar(d, subScale, bandwidth).height < EndBar(e, subScale, bandwidth).height
  {
    if d.value < e.value {
      Scales.LinearReversedIsDecreasing(0.0, Y_DOMAIN_MAX, Scales.H - Scales.PADDING, Scales.PADDING, d.value, e.value);
    }
  }

  // ---------------------------------------------------------------------
  // Colour, tooltip and legend
  // ---------------------------------------------------------------------

  /** The fill of a subgroup, used for its bars and its legend entry. */
  function Fill(key: string): (c: string)
    ensures c == EAST_SIDE_FILL <==> key == "east_side"
    ensures c == DELAWARE_FILL <==> key != "east_side"
  {
    if key == "east_side" then EAST_SIDE_FILL else DELAWARE_FILL
  }

  /** The fill of a bar after a sequence of hover events: its subgroup's fill
      at first, the highlight on mouseover and its subgroup's fill again on
      mouseout. */
  function FillAfter(d: BarRecord, events: seq<Hover>): string
  {
    if events == [] then Fill(d.key)
    else
      match events[|events| - 1]
      case MouseOver => HOVER_FILL
      case MouseOut => Fill(d.key)
  }

  /** Whatever the hover history, a mouseout leaves the bar with exactly its
      initial fill, and a mouseover with the highlight. Each event is taken to
      act once the previous one has fully taken effect, so the 250 ms restore
      transition of a mouseout has ended before the next mouseover. */
  lemma MouseoutRestoresFill(d: BarRecord, events: seq<Hover>)
    ensures FillAfter(d, events + [MouseOut]) == FillAfter(d, [])
    ensures FillAfter(d, events + [MouseOver]) == HOVER_FILL
    ensures FillAfter(d, events) == FillAfter(d, []) || FillAfter(d, events) == HOVER_FILL
  {
  }

  /** The series name shown in the legend. */
  function LegendText(key: string): string
  {
    if key == "east_side" then "east side charter " else "delaware "
  }

  /** The year line of the tooltip: the series name followed by the year. */
  function TooltipYearLabel(d: BarRecord): (line: string)
    ensures line == LegendText(d.key) + d.year
    ensures |line| >= |d.year| && line[|line| - |d.year|..] == d.year
    ensures d.key == "east_side" <==> line[..|line| - |d.year|] == "east side charter "
  {
    if d.key == "east_side" then "east side charter " + d.year else "delaware " + d.year
  }

  /** One legend entry per subgroup, the i-th shifted down by 13 * i, with
      the fill of that subgroup's bars. The square sits 5 pixels right of the
      text's anchor, both 50 pixels above the plotting area. */
  function Legend(subgroups: seq<string>): (entries: seq<LegendEntry>)
    ensures |entries| == |subgroups|
    ensures forall i :: 0 <= i < |subgroups| ==>
      entries[i].key == subgroups[i] && entries[i].dy == 13 * i &&
      entries[i].fill == Fill(subgroups[i]) && entries[i].text == LegendText(subgroups[i])
    ensures forall i :: 0 <= i < |subgroups| ==>
      entries[i].rectX == entries[i].textX + 5.0 && entries[i].textX == 976.0 && entries[i].y == 70.0
  {
    seq(|subgroups|, i requires 0 <= i < |subgroups| =>
      LegendEntry(subgroups[i], 13 * i, Scales.W - 19.0, Scales.W - 24.0, Scales.PADDING - 50.0,
                  Fill(subgroups[i]), LegendText(subgroups[i])))
  }

  /** The chart's legend: east side first, delaware 13 pixels below, and every
      bar record has the colour of its subgroup's legend entry. */
  lemma LegendMatchesBars(data: seq<LiteracyRow>, k: nat)
    requires k < |AllBarRecords(data)|
    ensures |Legend(SUBGROUPS)| == 2
    ensures Legend(SUBGROUPS)[0].key == "east_side" && Legend(SUBGROUPS)[0].dy == 0
    ensures Legend(SUBGROUPS)[1].key == "delaware" && Legend(SUBGROUPS)[1].dy == 13
    ensures Legend(SUBGROUPS)[k % 2].key == AllBarRecords(data)[k].key
    ensures Legend(SUBGROUPS)[k % 2].fill == FillAfter(AllBarRecords(data)[k], [])
  {
  }
}
