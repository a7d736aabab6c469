/** The two worked five-frame scenes: frames one minute apart, ignition at the
    third frame's time, and either the last three frames detected or none. */
module Scenarios {
  import opened Base
  import opened FrameClassifier
  import opened SceneEvaluator
  import opened Analysis

  function FiveFrames(detected: seq<bool>): (obs: seq<Observation>)
    requires |detected| == 5
    ensures |obs| == 5 && forall i :: 0 <= i < 5 ==> obs[i].time == 60 * i && obs[i].detected == detected[i]
  {
    seq(5, i requires 0 <= i < 5 => Observation(60 * i, detected[i], None))
  }

  /** The detector fires from the ignition frame on: two true negatives, three
      true positives, the marker before the third label, a delay of 0 minutes
      (the first detection is the ignition frame itself), and precision, recall
      and F1 all 1. */
  lemma DetectedFromIgnition()
    ensures var d := Run("scene", 5, FiveFrames([false, false, true, true, true]), Some(120)).data;
      var m := CalculateDetectionMetrics(d);
      d.beforeNotDetected == 2 && d.beforeDetected == 0 && d.afterDetected == 3 && d.afterNotDetected == 0
      && d.framePredictions == [1, 1, 0, 1, 1, 1]
      && d.delay == Some(0)
      && m.precision == Some(1.0) && m.recall == Some(1.0) && m.f1Score == Some(1.0)
  {
    DetectedFromIgnitionRun();
    var d := Run("scene", 5, FiveFrames([false, false, true, true, true]), Some(120)).data;
    var m := CalculateDetectionMetrics(d);
    assert m.precision.value * 3.0 == 3.0 && m.recall.value * 3.0 == 3.0;
    HarmonicOfOne(m.f1Score.value);
  }

  lemma DetectedFromIgnitionRun()
    ensures var d := Run("scene", 5, FiveFrames([false, false, true, true, true]), Some(120)).data;
      d.beforeNotDetected == 2 && d.beforeDetected == 0 && d.afterDetected == 3 && d.afterNotDetected == 0
      && d.framePredictions == [1, 1, 0, 1, 1, 1]
      && d.delay == Some(0)
  {
    var obs := FiveFrames([false, false, true, true, true]);
    var s0 := Run("scene", 5, obs[..0], Some(120));
    var s1 := Run("scene", 5, obs[..1], Some(120));
    var s2 := Run("scene", 5, obs[..2], Some(120));
    var s3 := Run("scene", 5, obs[..3], Some(120));
    var s4 := Run("scene", 5, obs[..4], Some(120));
    assert obs[..1][..0] == obs[..0] && obs[..2][..1] == obs[..1] && obs[..3][..2] == obs[..2];
    assert obs[..4][..3] == obs[..3] && obs[..4] == obs[..|obs| - 1];
    assert s1.data.framePredictions == [1];
    assert s2.data.framePredictions == [1, 1];
    assert s3.data.framePredictions == [1, 1, 0, 1] && s3.armed && s3.data.delay == Some(DelayMinutes(0));
    assert DelayMinutes(0) == 0;
    assert s4.data.framePredictions == [1, 1, 0, 1, 1];
  }

  lemma HarmonicOfOne(f: real)
    requires f * (1.0 + 1.0) == 2.0 * (1.0 * 1.0)
    ensures f == 1.0
  {
  }

  /** Nothing is detected: two true negatives, three misses, the marker before
      the third label, no delay, no precision, and a recall of 0 (the count of
      after-ignition frames is positive). */
  lemma NothingDetected()
    ensures var d := Run("scene", 5, FiveFrames([false, false, false, false, false]), Some(120)).data;
      var m := CalculateDetectionMetrics(d);
      d.beforeNotDetected == 2 && d.beforeDetected == 0 && d.afterDetected == 0 && d.afterNotDetected == 3
      && d.framePredictions == [1, 1, 0, -1, -1, -1]
      && d.delay.None?
      && m.precision.None? && m.recall == Some(0.0) && m.f1Score.None?
  {
    var obs := FiveFrames([false, false, false, false, false]);
    var s0 := Run("scene", 5, obs[..0], Some(120));
    var s1 := Run("scene", 5, obs[..1], Some(120));
    var s2 := Run("scene", 5, obs[..2], Some(120));
    var s3 := Run("scene", 5, obs[..3], Some(120));
    var s4 := Run("scene", 5, obs[..4], Some(120));
    assert obs[..1][..0] == obs[..0] && obs[..2][..1] == obs[..1] && obs[..3][..2] == obs[..2];
    assert obs[..4][..3] == obs[..3] && obs[..4] == obs[..|obs| - 1];
    assert s1.data.framePredictions == [1];
    assert s2.data.framePredictions == [1, 1];
    assert s3.data.framePredictions == [1, 1, 0, -1] && s3.data.delay.None?;
    assert s4.data.framePredictions == [1, 1, 0, -1, -1];
    var d := Run("scene", 5, obs, Some(120)).data;
    var m := CalculateDetectionMetrics(d);
    assert m.recall.value * 3.0 == 0.0;
  }
}
