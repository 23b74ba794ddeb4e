/** The geometry of `paint` in `app/ui/app.js`: x in real pixels, y in hundredths of the height. */
module Sparkline {
  import opened Wrappers

  datatype Point = Point(x: real, y: real)

  /** How a chart is drawn: its width, the density, how many samples are kept, and its range. */
  datatype Spec = Spec(width: int, pxPerSample: real, retained: nat, lo: real, hi: real)

  predicate IsSpec(s: Spec) {
    s.width >= 1 && s.pxPerSample != 0.0
  }

  function Max(a: real, b: real): real { if a >= b then a else b }

  function Min(a: real, b: real): real { if a <= b then a else b }

  /** How many samples this width can show. */
  function Visible(s: Spec): (n: nat)
    requires IsSpec(s)
    ensures n <= s.retained && (s.retained >= 2 ==> n >= 2)
  {
    var fits := (s.width as real / s.pxPerSample).Floor;
    var wanted := if fits >= 2 then fits else 2;
    if s.retained <= wanted then s.retained else wanted
  }

  function Step(s: Spec): real
    requires IsSpec(s)
  {
    if Visible(s) > 1 then s.width as real / (Visible(s) - 1) as real else 0.0
  }

  function Window(values: seq<real>, visible: nat): (w: seq<real>)
    ensures |w| == if |values| <= visible then |values| else visible
    ensures w == values[|values| - |w|..]
  {
    if |values| <= visible then values else values[|values| - visible..]
  }

  function Height(s: Spec, v: real): real {
    100.0 - Min(Max((v - s.lo) / Max(s.hi - s.lo, 0.0001), 0.0), 1.0) * 100.0
  }

  /** The i-th of n visible samples. */
  function At(s: Spec, n: nat, i: int, v: real): Point
    requires IsSpec(s)
  {
    Point(s.width as real - (n - 1 - i) as real * Step(s), Height(s, v))
  }

  /** The polyline of one series; a history of fewer than two samples draws nothing. */
  function Points(s: Spec, values: seq<real>): Option<seq<Point>>
    requires IsSpec(s)
  {
    if |values| < 2 then None
    else
      var win := Window(values, Visible(s));
      Some(seq(|win|, i requires 0 <= i < |win| => At(s, |win|, i, win[i])))
  }

  // ------------------------------------------------------------------ what the picture promises

  lemma StepsFit(w: int, visible: nat, k: int)
    requires w >= 1 && visible > 1 && 0 <= k <= visible - 1
    ensures 0.0 <= k as real * (w as real / (visible - 1) as real) <= w as real
  {
    var n := (visible - 1) as real;
    var step := w as real / n;
    assert step * n == w as real;
    assert 0.0 <= k as real * step <= n * step by {
      MultiplyMonotone(k as real, n, step);
    }
  }

  lemma MultiplyMonotone(a: real, b: real, c: real)
    requires 0.0 <= a <= b && c >= 0.0
    ensures 0.0 <= a * c <= b * c
  {
    assert (b - a) * c >= 0.0;
  }

  lemma PointIsInside(s: Spec, n: nat, i: nat, v: real)
    requires IsSpec(s) && i < n <= Visible(s)
    ensures 0.0 <= At(s, n, i, v).x <= s.width as real && 0.0 <= At(s, n, i, v).y <= 100.0
  {
    if Visible(s) > 1 {
      StepsFit(s.width, Visible(s), n - 1 - i);
    }
  }

  lemma NeighboursAreOneStepApart(s: Spec, n: nat, i: int, v: real, u: real)
    requires IsSpec(s)
    ensures At(s, n, i + 1, u).x - At(s, n, i, v).x == Step(s)
  {
    var k := (n - 2 - i) as real;
    assert (n - 1 - i) as real == k + 1.0;
    assert (k + 1.0) * Step(s) == k * Step(s) + Step(s);
  }

  /** The newest sample stands at the right edge, samples are one step apart, and nothing leaves
      the picture, at every width, density and retention. */
  lemma PointsStayInside(s: Spec, values: seq<real>)
    requires IsSpec(s) && |values| >= 2
    ensures var pts := Points(s, values).value;
      && |pts| == (if |values| <= Visible(s) then |values| else Visible(s))
      && (pts != [] ==> pts[|pts| - 1].x == s.width as real)
      && (forall i :: 0 <= i < |pts| - 1 ==> pts[i + 1].x - pts[i].x == Step(s))
      && (forall i :: 0 <= i < |pts| ==> 0.0 <= pts[i].x <= s.width as real && 0.0 <= pts[i].y <= 100.0)
  {
    var win := Window(values, Visible(s));
    var pts := Points(s, values).value;
    forall i | 0 <= i < |pts| - 1 ensures pts[i + 1].x - pts[i].x == Step(s) {
      NeighboursAreOneStepApart(s, |win|, i, win[i], win[i + 1]);
    }
    forall i | 0 <= i < |pts| ensures 0.0 <= pts[i].x <= s.width as real && 0.0 <= pts[i].y <= 100.0 {
      PointIsInside(s, |win|, i, win[i]);
    }
  }

  /** A larger reading is never drawn lower. */
  lemma LargerIsHigher(s: Spec, a: real, b: real)
    requires a <= b
    ensures Height(s, a) >= Height(s, b)
  {
    var span := Max(s.hi - s.lo, 0.0001);
    assert (b - s.lo) / span - (a - s.lo) / span == (b - a) / span;
    assert (b - a) / span >= 0.0;
  }

  /** How many samples are drawn: no more than there are, than are kept, and than fit at the density, but
      room for two at least. A full window reaches from edge to edge. */
  lemma AsManyAsFit(s: Spec, values: seq<real>)
    requires IsSpec(s) && |values| >= 2
    ensures var pts := Points(s, values).value;
      && |pts| <= |values| && |pts| <= s.retained
      && (|pts| <= 2 || |pts| as real <= s.width as real / s.pxPerSample)
      && (|pts| < |values| && |pts| < s.retained ==>
            |pts| >= 2 && (|pts| + 1) as real > s.width as real / s.pxPerSample)
    ensures var pts := Points(s, values).value;
      && (|pts| == s.retained && s.retained >= 2 ==> pts[0].x == 0.0)
      && (|pts| < |values| && |pts| < s.retained ==> pts[0].x == 0.0)
  {
    var pts := Points(s, values).value;
    if |pts| == Visible(s) && Visible(s) >= 2 {
      FullWindow(s, Window(values, Visible(s))[0]);
    }
  }

  lemma FullWindow(s: Spec, v: real)
    requires IsSpec(s) && Visible(s) >= 2
    ensures At(s, Visible(s), 0, v).x == 0.0
  {
    var n := (Visible(s) - 1) as real;
    assert n * (s.width as real / n) == s.width as real;
  }

  /** Outside the range a reading is drawn on the edge. */
  lemma OutsideIsOnTheEdge(s: Spec, v: real)
    ensures v <= s.lo ==> Height(s, v) == 100.0
    ensures v >= s.hi && s.hi - s.lo >= 0.0001 ==> Height(s, v) == 0.0
  {
    var span := Max(s.hi - s.lo, 0.0001);
    if v <= s.lo {
      assert (v - s.lo) / span <= 0.0;
    }
    if v >= s.hi && s.hi - s.lo >= 0.0001 {
      ShareIsWhole(v - s.lo, span);
    }
  }

  lemma ShareIsWhole(part: real, whole: real)
    requires part >= whole > 0.0
    ensures part / whole >= 1.0
  {}

  lemma PointIs(s: Spec, values: seq<real>, i: nat)
    requires IsSpec(s) && |values| >= 2 && i < |Points(s, values).value|
    ensures var pts, win := Points(s, values).value, Window(values, Visible(s));
      |win| == |pts| && values[|values| - |pts| + i] == win[i] && pts[i].y == Height(s, win[i])
  {}

  /** Of two visible samples the larger is never drawn lower, and inside the range each can be read off
      its point. */
  lemma PointsFollowTheReadings(s: Spec, values: seq<real>, i: nat, j: nat)
    requires IsSpec(s) && |values| >= 2 && i < |Points(s, values).value| && j < |Points(s, values).value|
    ensures var pts := Points(s, values).value;
      values[|values| - |pts| + i] <= values[|values| - |pts| + j] ==> pts[i].y >= pts[j].y
    ensures var pts := Points(s, values).value;
      var v := values[|values| - |pts| + i];
      && (s.lo <= v <= s.hi && s.hi - s.lo >= 0.0001 ==> (100.0 - pts[i].y) / 100.0 * (s.hi - s.lo) + s.lo == v)
      && (v <= s.lo ==> pts[i].y == 100.0)
      && (v >= s.hi && s.hi - s.lo >= 0.0001 ==> pts[i].y == 0.0)
  {
    var win := Window(values, Visible(s));
    PointIs(s, values, i);
    PointIs(s, values, j);
    OutsideIsOnTheEdge(s, win[i]);
    if s.lo <= win[i] <= s.hi && s.hi - s.lo >= 0.0001 {
      HeightIsExact(s, win[i]);
    }
    if win[i] <= win[j] {
      LargerIsHigher(s, win[i], win[j]);
    }
  }

  /** Inside the range the drawing is exact: the reading can be recovered from the height. */
  lemma HeightIsExact(s: Spec, v: real)
    requires s.lo <= v <= s.hi && s.hi - s.lo >= 0.0001
    ensures (100.0 - Height(s, v)) / 100.0 * (s.hi - s.lo) + s.lo == v
  {
    var span := s.hi - s.lo;
    ShareIsInUnit(v - s.lo, span);
    assert (v - s.lo) / span * span == v - s.lo;
  }

  lemma ShareIsInUnit(part: real, whole: real)
    requires 0.0 <= part <= whole && whole > 0.0
    ensures 0.0 <= part / whole <= 1.0
  {}

  /** One new sample slides every sample that stays visible exactly one step to the left, at an
      unchanged height: a filling history grows in from the right at constant density. */
  lemma OneSampleSlidesOneStep(s: Spec, values: seq<real>, v: real, k: nat)
    requires IsSpec(s) && |values| >= 2
    requires var n := |Points(s, values + [v]).value|; k + 1 < n
    ensures var (earlier, later) := (Points(s, values).value, Points(s, values + [v]).value);
      && k < |earlier|
      && later[|later| - 2 - k] == earlier[|earlier| - 1 - k].(x := earlier[|earlier| - 1 - k].x - Step(s))
  {
    var before, after := Window(values, Visible(s)), Window(values + [v], Visible(s));
    SameSample(values, v, Visible(s), k);
    SlideLeft(s, |before|, |after|, k, before[|before| - 1 - k]);
  }

  lemma SlideLeft(s: Spec, n: nat, m: nat, k: nat, v: real)
    requires IsSpec(s) && k < n && k + 1 < m
    ensures At(s, m, m - 2 - k, v) == At(s, n, n - 1 - k, v).(x := At(s, n, n - 1 - k, v).x - Step(s))
  {
    FromTheRight(s, n, k, v);
    FromTheRight(s, m, k + 1, v);
    DistributeStep(k as real, Step(s));
  }

  lemma SameSample(values: seq<real>, v: real, visible: nat, k: nat)
    requires k + 1 < |Window(values + [v], visible)|
    ensures var (before, after) := (Window(values, visible), Window(values + [v], visible));
      k < |before| && after[|after| - 2 - k] == before[|before| - 1 - k]
  {}

  lemma FromTheRight(s: Spec, n: nat, k: nat, v: real)
    requires IsSpec(s) && k < n
    ensures At(s, n, n - 1 - k, v).x == s.width as real - k as real * Step(s)
  {}

  lemma DistributeStep(k: real, step: real)
    ensures (k + 1.0) * step == k * step + step
  {}
}
