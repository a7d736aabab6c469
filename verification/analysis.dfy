/** Per-scene metrics, `calculate_detection_metrics`
    (src/videos/eval/utils/analysis.py, lines 5-35). Precision divides the
    after-ignition detections by all detections, recall divides them by all
    after-ignition frames, and F1 is their harmonic mean; each is None when its
    denominator is zero. Rationals stand in for floats. */
module Analysis {
  import opened Base
  import opened SceneEvaluator

  /** The metrics dictionary, field for field. */
  datatype Metrics = Metrics(
    tnBeforeIgnition: nat,
    fpBeforeIgnition: nat,
    fnAfterIgnition: nat,
    tpAfterIgnition: nat,
    detectionDelay: int,
    recall: Option<real>,
    precision: Option<real>,
    f1Score: Option<real>)

  /** `detection_delay_seconds` when no delay was recorded. */
  const NoDelay: int := -1

  /** `num / den if den > 0 else None`, for counts. */
  function Ratio(num: nat, den: nat): (r: Option<real>)
    requires num <= den
    ensures r.Some? <==> den > 0
    ensures r.Some? ==> 0.0 <= r.value <= 1.0 && r.value * den as real == num as real
  {
    if den > 0 then Some(num as real / den as real) else None
  }

  lemma MulLe(a: real, b: real, c: real)
    requires a >= 0.0 && b <= c
    ensures a * b <= a * c
  {
  }

  lemma CrossMultiply(x: real, y: real, u: real, v: real)
    requires y > 0.0 && v > 0.0 && x * v == u * y
    ensures x / y == u / v
  {
    assert x / y * y == x && u / v * v == u;
    assert (x / y) * (y * v) == (u / v) * (y * v);
  }

  lemma ProductBounds(p: real, r: real)
    requires 0.0 <= p <= 1.0 && 0.0 <= r <= 1.0
    ensures 0.0 <= p * r <= p && p * r <= r
  {
    MulLe(p, r, 1.0);
    MulLe(r, p, 1.0);
    MulLe(p, 0.0, r);
  }

  /** `2 * (precision * recall) / (precision + recall)`, for the cases where
      the source computes it. */
  function HarmonicMean(p: real, r: real): (f: real)
    requires 0.0 <= p <= 1.0 && 0.0 <= r <= 1.0 && p + r > 0.0
    ensures 0.0 <= f <= 1.0
    ensures f * (p + r) == 2.0 * (p * r)
  {
    ProductBounds(p, r);
    var n, s := p + r, 2.0 * (p * r);
    var q := p * r;
    assert q <= p && q <= r && 0.0 <= q;
    assert s == q + q;
    assert s <= n;
    assert n * 1.0 == n;
    assert n * 0.0 <= s <= n * 1.0;
    DivideBounds(s, n, 0.0, 1.0);
    s / n
  }

  /** `calculate_detection_metrics`. */
  function CalculateDetectionMetrics(d: SceneResult): (m: Metrics)
    ensures m.tnBeforeIgnition == d.beforeNotDetected && m.fpBeforeIgnition == d.beforeDetected
    ensures m.fnAfterIgnition == d.afterNotDetected && m.tpAfterIgnition == d.afterDetected
    ensures d.delay.Some? ==> m.detectionDelay == d.delay.value
    ensures d.delay.None? ==> m.detectionDelay == NoDelay
    ensures m.precision.Some? <==> d.afterDetected + d.beforeDetected > 0
    ensures m.precision.Some? ==>
      0.0 <= m.precision.value <= 1.0
      && m.precision.value * (d.afterDetected + d.beforeDetected) as real == d.afterDetected as real
    ensures m.recall.Some? <==> d.afterDetected + d.afterNotDetected > 0
    ensures m.recall.Some? ==>
      0.0 <= m.recall.value <= 1.0
      && m.recall.value * (d.afterDetected + d.afterNotDetected) as real == d.afterDetected as real
    ensures m.f1Score.Some? <==>
      m.precision.Some? && m.recall.Some? && m.precision.value + m.recall.value > 0.0
    ensures m.f1Score.Some? ==>
      0.0 <= m.f1Score.value <= 1.0
      && m.f1Score.value * (m.precision.value + m.recall.value) == 2.0 * (m.precision.value * m.recall.value)
  {
    var precision := Ratio(d.afterDetected, d.afterDetected + d.beforeDetected);
    var recall := Ratio(d.afterDetected, d.afterDetected + d.afterNotDetected);
    var f1 :=
      if precision.Some? && recall.Some? && precision.value + recall.value > 0.0
      then Some(HarmonicMean(precision.value, recall.value))
      else None;
    Metrics(d.beforeNotDetected, d.beforeDetected, d.afterNotDetected, d.afterDetected,
            if d.delay.Some? then d.delay.value else NoDelay,
            recall, precision, f1)
  }

  /** F1 in terms of the counts: it exists exactly when some after-ignition frame
      was detected, and then equals 2·TP / (2·TP + FP + FN). */
  lemma F1FromCounts(d: SceneResult)
    ensures var m := CalculateDetectionMetrics(d);
      (m.f1Score.Some? <==> d.afterDetected > 0)
      && (m.f1Score.Some? ==>
            m.f1Score.value
            == 2.0 * d.afterDetected as real
               / (2 * d.afterDetected + d.beforeDetected + d.afterNotDetected) as real)
  {
    var m := CalculateDetectionMetrics(d);
    var tp := d.afterDetected as real;
    if d.afterDetected > 0 {
      var a := (d.afterDetected + d.beforeDetected) as real;
      var b := (d.afterDetected + d.afterNotDetected) as real;
      var p, r := m.precision.value, m.recall.value;
      assert p * a == tp && r * b == tp;
      assert p > 0.0 by { if p <= 0.0 { MulLe(a, p, 0.0); } }
      var f := m.f1Score.value;
      HarmonicOfRatios(tp, a, b, p, r, f);
      assert a + b == (2 * d.afterDetected + d.beforeDetected + d.afterNotDetected) as real;
    } else {
      assert m.precision.Some? ==> m.precision.value == 0.0;
      assert m.recall.Some? ==> m.recall.value == 0.0;
    }
  }

  lemma HarmonicOfRatios(t: real, a: real, b: real, p: real, r: real, f: real)
    requires t > 0.0 && a > 0.0 && b > 0.0 && p > 0.0 && r >= 0.0
    requires p * a == t && r * b == t
    requires f * (p + r) == 2.0 * (p * r)
    ensures f == 2.0 * t / (a + b)
  {
    // p*r*(a+b) == r*(p*a) + p*(r*b) == t*(p+r)
    assert (p * r) * (a + b) == r * (p * a) + p * (r * b);
    assert (p * r) * (a + b) == t * (p + r);
    assert f * (p + r) * (a + b) == 2.0 * t * (p + r);
    assert (f * (a + b)) * (p + r) == (2.0 * t) * (p + r);
    assert f * (a + b) == 2.0 * t;
    CrossMultiply(f, 1.0, 2.0 * t, a + b);
  }

  lemma CancelLe(x: real, y: real, c: real)
    requires c > 0.0 && x * c <= y * c
    ensures x <= y
  {
  }

  lemma HarmonicBetween(p: real, r: real, f: real)
    requires 0.0 <= p <= r && p + r > 0.0
    requires f * (p + r) == 2.0 * (p * r)
    ensures p <= f <= r
  {
    MulLe(p, p, r);
    MulLe(r, p, r);
    assert p * (p + r) == p * p + p * r;
    assert r * (p + r) == p * r + r * r;
    assert r * p == p * r;
    assert p * (p + r) <= f * (p + r);
    assert f * (p + r) <= r * (p + r);
    CancelLe(p, f, p + r);
    CancelLe(f, r, p + r);
  }

  /** The harmonic mean lies between precision and recall. */
  lemma F1BetweenPrecisionAndRecall(d: SceneResult)
    requires CalculateDetectionMetrics(d).f1Score.Some?
    ensures var m := CalculateDetectionMetrics(d);
      var p, r, f := m.precision.value, m.recall.value, m.f1Score.value;
      (p <= r ==> p <= f <= r) && (r <= p ==> r <= f <= p)
  {
    var m := CalculateDetectionMetrics(d);
    var p, r, f := m.precision.value, m.recall.value, m.f1Score.value;
    if p <= r {
      HarmonicBetween(p, r, f);
    }
    if r <= p {
      assert f * (r + p) == 2.0 * (r * p);
      HarmonicBetween(r, p, f);
    }
  }
}
