/**
  `interpolate_buffer` (app.py): the recommended buffer for a risk level,
  read off the three percentiles of a leg by piecewise-linear
  interpolation, clamped to `p80` below 80 and to `p95` above 95.
  Arithmetic is on exact reals.
*/
module BufferApp {

  /** The buffer in minutes for `risk` percent. */
  function InterpolateBuffer(risk: real, p80: real, p90: real, p95: real): (b: real)
    ensures risk <= 80.0 ==> b == p80
    ensures 80.0 < risk <= 90.0 ==> b == p80 + (risk - 80.0) / 10.0 * (p90 - p80)
    ensures 90.0 < risk <= 95.0 ==> b == p90 + (risk - 90.0) / 5.0 * (p95 - p90)
    ensures 95.0 < risk ==> b == p95
  {
    if risk <= 80.0 then p80
    else if risk <= 90.0 then
      var alpha := (risk - 80.0) / (90.0 - 80.0);
      p80 + alpha * (p90 - p80)
    else if risk <= 95.0 then
      var alpha := (risk - 90.0) / (95.0 - 90.0);
      p90 + alpha * (p95 - p90)
    else p95
  }

  /** The pieces meet: the curve passes through each percentile at its own risk level. */
  lemma Continuous(p80: real, p90: real, p95: real)
    ensures InterpolateBuffer(80.0, p80, p90, p95) == p80
    ensures InterpolateBuffer(90.0, p80, p90, p95) == p90
    ensures InterpolateBuffer(95.0, p80, p90, p95) == p95
  {
  }

  /** On a segment `lo + t * (hi - lo)` with `t` in `[0, 1]` grows with `t` and stays in `[lo, hi]`. */
  lemma Segment(lo: real, hi: real, t1: real, t2: real)
    requires lo <= hi && 0.0 <= t1 <= t2 <= 1.0
    ensures lo <= lo + t1 * (hi - lo) <= lo + t2 * (hi - lo) <= hi
  {
    var d := hi - lo;
    assert t2 * d - t1 * d == (t2 - t1) * d;
    assert d - t2 * d == (1.0 - t2) * d;
  }

  /** The position of a risk level inside the segment that holds it. */
  function SegmentParam(risk: real): (t: real)
    ensures 80.0 < risk <= 90.0 ==> t == (risk - 80.0) / 10.0 && 0.0 < t <= 1.0
    ensures 90.0 < risk <= 95.0 ==> t == (risk - 90.0) / 5.0 && 0.0 < t <= 1.0
  {
    if 80.0 < risk <= 90.0 then (risk - 80.0) / 10.0
    else if 90.0 < risk <= 95.0 then (risk - 90.0) / 5.0
    else 0.0
  }

  /** With ordered percentiles the buffer lies in `[p80, p95]`. */
  lemma BufferBounds(risk: real, p80: real, p90: real, p95: real)
    requires p80 <= p90 <= p95
    ensures p80 <= InterpolateBuffer(risk, p80, p90, p95) <= p95
  {
    var t := SegmentParam(risk);
    var b := InterpolateBuffer(risk, p80, p90, p95);
    if 80.0 < risk <= 90.0 {
      assert b == p80 + t * (p90 - p80);
      Segment(p80, p90, t, t);
    } else if 90.0 < risk <= 95.0 {
      assert b == p90 + t * (p95 - p90);
      Segment(p90, p95, t, t);
    }
  }

  /** With ordered percentiles a risk level up to 90 gets at most `p90`. */
  lemma AtMostP90(risk: real, p80: real, p90: real, p95: real)
    requires p80 <= p90 <= p95 && risk <= 90.0
    ensures InterpolateBuffer(risk, p80, p90, p95) <= p90
  {
    if 80.0 < risk {
      var t := SegmentParam(risk);
      assert InterpolateBuffer(risk, p80, p90, p95) == p80 + t * (p90 - p80);
      Segment(p80, p90, t, 1.0);
    }
  }

  /** With ordered percentiles a risk level above 90 gets at least `p90`. */
  lemma AtLeastP90(risk: real, p80: real, p90: real, p95: real)
    requires p80 <= p90 <= p95 && 90.0 < risk
    ensures p90 <= InterpolateBuffer(risk, p80, p90, p95)
  {
    if risk <= 95.0 {
      var t := SegmentParam(risk);
      assert InterpolateBuffer(risk, p80, p90, p95) == p90 + t * (p95 - p90);
      Segment(p90, p95, 0.0, t);
    }
  }

  /** With ordered percentiles a higher risk level never gets a smaller buffer. */
  lemma BufferMonotone(r1: real, r2: real, p80: real, p90: real, p95: real)
    requires p80 <= p90 <= p95 && r1 <= r2
    ensures InterpolateBuffer(r1, p80, p90, p95) <= InterpolateBuffer(r2, p80, p90, p95)
  {
    var t1, t2 := SegmentParam(r1), SegmentParam(r2);
    if r2 <= 80.0 || 95.0 < r1 {
      // Both on the same constant piece.
    } else if r1 <= 90.0 && 90.0 < r2 {
      AtMostP90(r1, p80, p90, p95);
      AtLeastP90(r2, p80, p90, p95);
    } else if r2 <= 90.0 {
      assert InterpolateBuffer(r2, p80, p90, p95) == p80 + t2 * (p90 - p80);
      if r1 <= 80.0 {
        Segment(p80, p90, 0.0, t2);
      } else {
        assert InterpolateBuffer(r1, p80, p90, p95) == p80 + t1 * (p90 - p80);
        Segment(p80, p90, t1, t2);
      }
    } else {
      assert InterpolateBuffer(r1, p80, p90, p95) == p90 + t1 * (p95 - p90);
      if 95.0 < r2 {
        Segment(p90, p95, t1, 1.0);
      } else {
        assert InterpolateBuffer(r2, p80, p90, p95) == p90 + t2 * (p95 - p90);
        Segment(p90, p95, t1, t2);
      }
    }
  }
}
