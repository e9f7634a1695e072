/** The continuous scale both charts use (d3.scaleLinear with a fixed domain
    and range, unclamped), and the chart frame both charts share. */
module Scales {

  /** Width, height and padding of the SVG drawing surface. */
  const W: real := 1000.0
  const H: real := 500.0
  const PADDING: real := 120.0

  /** The pixel row of the x axis: the bottom of the plotting area. */
  const BASELINE: real := H - PADDING

  /** A linear scale with domain [d0, d1] and range [r0, r1]: the value's
      position between d0 and d1, carried over to the range. Values outside the
      domain are extrapolated, since neither chart clamps its scale. */
  function Linear(d0: real, d1: real, r0: real, r1: real, v: real): (y: real)
    requires d0 < d1
    ensures v == d0 ==> y == r0
    ensures v == d1 ==> y == r1
  {
    r0 + (v - d0) / (d1 - d0) * (r1 - r0)
  }

  /** With the range reversed (as for every y scale of an SVG chart, whose
      rows grow downwards), a larger value lands strictly higher on screen. */
  lemma LinearReversedIsDecreasing(d0: real, d1: real, r0: real, r1: real, v: real, w: real)
    requires d0 < d1 && r1 < r0 && v < w
    ensures Linear(d0, d1, r0, r1, w) < Linear(d0, d1, r0, r1, v)
  {
    var tv, tw := (v - d0) / (d1 - d0), (w - d0) / (d1 - d0);
    assert tv < tw by {
      assert tw - tv == (w - v) / (d1 - d0);
    }
    assert (tw - tv) * (r1 - r0) < 0.0;
    assert tw * (r1 - r0) - tv * (r1 - r0) == (tw - tv) * (r1 - r0);
  }
}
