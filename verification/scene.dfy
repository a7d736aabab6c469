/** The frame loop of `process_files_in_folder`
    (src/videos/eval/utils/file_processor.py, lines 45-205): each frame's verdict
    is classified before, at or after the ignition time, four counters and a
    label list are updated, and the first detection after an exact-ignition
    frame fixes the detection delay. */
module SceneEvaluator {
  import opened Base
  import opened FrameClassifier

  /** Where a frame's time lies relative to the ignition time. */
  datatype Phase = Before | At | After

  /** A missing ignition is replaced by `datetime.max`, which no frame reaches. */
  function PhaseOf(t: int, ignition: Option<int>): (p: Phase)
    ensures p == Before <==> ignition.None? || t < ignition.value
    ensures p == At <==> ignition.Some? && t == ignition.value
  {
    match ignition
    case None => Before
    case Some(ign) => if t < ign then Before else if t == ign then At else After
  }

  /** `detection_data`: the per-scene record the loop fills in. */
  datatype SceneResult = SceneResult(
    folderName: string,
    beforeNotDetected: nat,
    beforeDetected: nat,
    afterNotDetected: nat,
    afterDetected: nat,
    delay: Option<int>,
    totalFrames: nat,
    boundingBoxes: seq<seq<int>>,
    framePredictions: seq<int>)

  /** The record as created before the loop (lines 63-73). */
  function Fresh(folderName: string, totalFrames: nat): SceneResult
  {
    SceneResult(folderName, 0, 0, 0, 0, None, totalFrames, [], [])
  }

  /** The record plus the local flag `detected_after_ignition`. */
  datatype LoopState = LoopState(data: SceneResult, armed: bool)

  /** The label appended once, at the first exact-ignition frame. */
  const IgnitionMarker: int := 0

  const SecondsPerDay: int := 86400
  const MinutesPerDay: int := 1440

  /** The delay computation of lines 189-195: keep the `seconds` part of the
      timedelta (Python normalises it into [0, 86400)), rebuild a timedelta from
      its hours and minutes and floor its total seconds to minutes. The result is
      the whole minutes of the elapsed time within its day. */
  function DelayMinutes(elapsed: int): (minutes: int)
    ensures 0 <= minutes < MinutesPerDay
    ensures minutes * 60 <= elapsed % SecondsPerDay < minutes * 60 + 60
  {
    var seconds := elapsed % SecondsPerDay;
    var hours := seconds / 3600;
    var mins := (seconds / 60) % 60;
    var total := hours * 3600 + mins * 60;
    total / 60
  }

  /** Within one day of the ignition the delay is the true elapsed time in whole
      minutes; a detection whole days later reports only the remainder. */
  lemma {:induction false} DelayWithinADay(elapsed: int, days: int)
    requires 0 <= elapsed < SecondsPerDay
    ensures DelayMinutes(elapsed) == elapsed / 60
    ensures DelayMinutes(elapsed + days * SecondsPerDay) == DelayMinutes(elapsed)
  {
    assert (elapsed + days * SecondsPerDay) % SecondsPerDay == elapsed;
  }

  /** The label of one frame (lines 155-182): +1 for a correct verdict, -1 for a
      false alarm before ignition or a miss at or after it. */
  function Label(o: Observation, ignition: Option<int>): (l: int)
    ensures l == 1 || l == -1
    ensures l == 1 <==>
      ((ignition.None? || o.time < ignition.value) && !o.detected)
      || (ignition.Some? && o.time >= ignition.value && o.detected)
  {
    match PhaseOf(o.time, ignition)
    case Before => if o.detected then -1 else 1
    case _ => if o.detected then 1 else -1
  }

  /** One iteration of the frame loop, branch for branch as lines 148-197. The
      `ignition.Some?` test always holds once the loop is armed. */
  function Step(s: LoopState, o: Observation, ignition: Option<int>): LoopState
  {
    var d := s.data;
    var d1 := if o.boxRecord.Some? then d.(boundingBoxes := d.boundingBoxes + [o.boxRecord.value]) else d;
    var d2 :=
      match PhaseOf(o.time, ignition)
      case Before =>
        if o.detected then d1.(beforeDetected := d1.beforeDetected + 1, framePredictions := d1.framePredictions + [-1])
        else d1.(beforeNotDetected := d1.beforeNotDetected + 1, framePredictions := d1.framePredictions + [1])
      case At =>
        var marked := if IgnitionMarker in d1.framePredictions then d1.framePredictions
                      else d1.framePredictions + [IgnitionMarker];
        if o.detected then d1.(afterDetected := d1.afterDetected + 1, framePredictions := marked + [1])
        else d1.(afterNotDetected := d1.afterNotDetected + 1, framePredictions := marked + [-1])
      case After =>
        if o.detected then d1.(afterDetected := d1.afterDetected + 1, framePredictions := d1.framePredictions + [1])
        else d1.(afterNotDetected := d1.afterNotDetected + 1, framePredictions := d1.framePredictions + [-1]);
    var armed := s.armed || PhaseOf(o.time, ignition) == At;
    if armed && o.detected && d2.delay.None? && ignition.Some? then
      LoopState(d2.(delay := Some(DelayMinutes(o.time - ignition.value))), armed)
    else
      LoopState(d2, armed)
  }

  /** The frame loop as a fold over the observations, in frame order. */
  function Run(folderName: string, totalFrames: nat, obs: seq<Observation>, ignition: Option<int>): LoopState
    decreases |obs|
  {
    if |obs| == 0 then LoopState(Fresh(folderName, totalFrames), false)
    else Step(Run(folderName, totalFrames, obs[..|obs| - 1], ignition), obs[|obs| - 1], ignition)
  }

  // ---------------------------------------------------------------------------
  // Reference definitions, stated without the loop.

  /** How many frames fall in the bucket (before or not, detected or not). */
  function CountWhere(obs: seq<Observation>, ignition: Option<int>, before: bool, detected: bool): nat
    decreases |obs|
  {
    if |obs| == 0 then 0
    else
      var o := obs[|obs| - 1];
      CountWhere(obs[..|obs| - 1], ignition, before, detected)
      + (if (PhaseOf(o.time, ignition) == Before) == before && o.detected == detected then 1 else 0)
  }

  /** The per-frame labels, without the marker. */
  function Labels(obs: seq<Observation>, ignition: Option<int>): (ls: seq<int>)
    ensures |ls| == |obs|
    ensures IgnitionMarker !in ls
  {
    seq(|obs|, i requires 0 <= i < |obs| => Label(obs[i], ignition))
  }

  /** The position of the first frame exactly at the ignition time. */
  function FirstAt(obs: seq<Observation>, ignition: Option<int>): (r: Option<nat>)
    ensures r.Some? ==> r.value < |obs| && PhaseOf(obs[r.value].time, ignition) == At
    ensures r.Some? ==> forall j :: 0 <= j < r.value ==> PhaseOf(obs[j].time, ignition) != At
    ensures r.None? ==> forall j :: 0 <= j < |obs| ==> PhaseOf(obs[j].time, ignition) != At
    decreases |obs|
  {
    if |obs| == 0 then None
    else
      var r := FirstAt(obs[..|obs| - 1], ignition);
      assert forall j :: 0 <= j < |obs| - 1 ==> obs[..|obs| - 1][j] == obs[j];
      if r.Some? then r
      else if PhaseOf(obs[|obs| - 1].time, ignition) == At then Some(|obs| - 1)
      else None
  }

  /** The position of the first detected frame at or after position `k`. */
  function FirstDetectedFrom(obs: seq<Observation>, k: nat): (r: Option<nat>)
    ensures r.Some? ==> k <= r.value < |obs| && obs[r.value].detected
    ensures r.Some? ==> forall j :: k <= j < r.value ==> !obs[j].detected
    ensures r.None? ==> forall j :: k <= j < |obs| ==> !obs[j].detected
    decreases |obs|
  {
    if |obs| == 0 then None
    else
      var r := FirstDetectedFrom(obs[..|obs| - 1], k);
      assert forall j :: 0 <= j < |obs| - 1 ==> obs[..|obs| - 1][j] == obs[j];
      if r.Some? then r
      else if |obs| - 1 >= k && obs[|obs| - 1].detected then Some(|obs| - 1)
      else None
  }

  /** The label list the loop is expected to build: the labels in frame order,
      with the marker inserted just before the first exact-ignition frame's label. */
  function ExpectedLabels(obs: seq<Observation>, ignition: Option<int>): seq<int>
  {
    match FirstAt(obs, ignition)
    case None => Labels(obs, ignition)
    case Some(k) => Labels(obs[..k], ignition) + [IgnitionMarker] + Labels(obs[k..], ignition)
  }

  /** The delay the loop is expected to record: measured at the first detected
      frame from the first exact-ignition frame on, if both exist. */
  function ExpectedDelay(obs: seq<Observation>, ignition: Option<int>): Option<int>
  {
    match FirstAt(obs, ignition)
    case None => None
    case Some(k) =>
      match FirstDetectedFrom(obs, k)
      case None => None
      case Some(j) => Some(DelayMinutes(obs[j].time - ignition.value))
  }

  /** The flattened box lists of the frames that recorded one, in order. */
  function Records(obs: seq<Observation>): seq<seq<int>>
    decreases |obs|
  {
    if |obs| == 0 then []
    else
      var o := obs[|obs| - 1];
      Records(obs[..|obs| - 1]) + (if o.boxRecord.Some? then [o.boxRecord.value] else [])
  }

  // ---------------------------------------------------------------------------
  // The loop against the reference definitions.

  /** Each counter counts its bucket, the four add up to the number of frames,
      and the name and frame total are never touched. */
  lemma {:induction false} RunCounts(folderName: string, totalFrames: nat, obs: seq<Observation>, ignition: Option<int>)
    ensures var d := Run(folderName, totalFrames, obs, ignition).data;
      d.beforeDetected == CountWhere(obs, ignition, true, true)
      && d.beforeNotDetected == CountWhere(obs, ignition, true, false)
      && d.afterDetected == CountWhere(obs, ignition, false, true)
      && d.afterNotDetected == CountWhere(obs, ignition, false, false)
      && d.beforeDetected + d.beforeNotDetected + d.afterDetected + d.afterNotDetected == |obs|
      && d.folderName == folderName && d.totalFrames == totalFrames
    decreases |obs|
  {
    if |obs| > 0 {
      RunCounts(folderName, totalFrames, obs[..|obs| - 1], ignition);
      StepCounts(Run(folderName, totalFrames, obs[..|obs| - 1], ignition), obs[|obs| - 1], ignition);
    }
  }

  /** One frame adds one to the counter of its bucket and to no other. */
  lemma StepCounts(s: LoopState, o: Observation, ignition: Option<int>)
    ensures var d, d' := s.data, Step(s, o, ignition).data;
      var before := PhaseOf(o.time, ignition) == Before;
      d'.beforeDetected == d.beforeDetected + (if before && o.detected then 1 else 0)
      && d'.beforeNotDetected == d.beforeNotDetected + (if before && !o.detected then 1 else 0)
      && d'.afterDetected == d.afterDetected + (if !before && o.detected then 1 else 0)
      && d'.afterNotDetected == d.afterNotDetected + (if !before && !o.detected then 1 else 0)
      && d'.folderName == d.folderName && d'.totalFrames == d.totalFrames
  {
  }

  lemma LabelsSnoc(obs: seq<Observation>, o: Observation, ignition: Option<int>)
    ensures Labels(obs + [o], ignition) == Labels(obs, ignition) + [Label(o, ignition)]
  {
  }

  /** What one iteration does to the label list, the arming flag and the
      delay: the frame's label is appended, preceded by the marker iff the frame
      is exactly at ignition and no marker was written yet; the loop arms at an
      exact-ignition frame and stays armed; a delay, once set, is kept, and a
      new one comes from a detected frame of an armed loop. */
  lemma StepFacts(s: LoopState, o: Observation, ignition: Option<int>)
    ensures Step(s, o, ignition).data.framePredictions ==
      (if PhaseOf(o.time, ignition) == At && IgnitionMarker !in s.data.framePredictions
       then s.data.framePredictions + [IgnitionMarker] else s.data.framePredictions)
      + [Label(o, ignition)]
    ensures Step(s, o, ignition).armed <==> s.armed || PhaseOf(o.time, ignition) == At
    ensures s.data.delay.Some? ==> Step(s, o, ignition).data.delay == s.data.delay
    ensures Step(s, o, ignition).data.delay != s.data.delay ==>
      && Step(s, o, ignition).armed && o.detected && ignition.Some?
      && Step(s, o, ignition).data.delay == Some(DelayMinutes(o.time - ignition.value))
  {
  }

  /** The label list is exactly the expected one: one ±1 label per frame, and the
      marker once, before the first exact-ignition frame, if there is one. */
  lemma {:induction false} RunLabels(folderName: string, totalFrames: nat, obs: seq<Observation>, ignition: Option<int>)
    ensures Run(folderName, totalFrames, obs, ignition).data.framePredictions == ExpectedLabels(obs, ignition)
    decreases |obs|
  {
    if |obs| > 0 {
      var p := obs[..|obs| - 1];
      var o := obs[|obs| - 1];
      assert obs == p + [o];
      RunLabels(folderName, totalFrames, p, ignition);
      var s := Run(folderName, totalFrames, p, ignition);
      StepFacts(s, o, ignition);
      ExpectedLabelsSnoc(p, o, ignition);
    }
  }

  /** How the expected label list grows by one frame: the marker is added
      before the frame's label exactly when the frame is at ignition and no
      marker is there yet. */
  lemma ExpectedLabelsSnoc(p: seq<Observation>, o: Observation, ignition: Option<int>)
    ensures var e := ExpectedLabels(p, ignition);
      ExpectedLabels(p + [o], ignition) ==
        (if PhaseOf(o.time, ignition) == At && IgnitionMarker !in e then e + [IgnitionMarker] else e)
        + [Label(o, ignition)]
  {
    if FirstAt(p, ignition).Some? {
      ExpectedLabelsAfterMarker(p, o, ignition);
    } else {
      ExpectedLabelsBeforeMarker(p, o, ignition);
    }
  }

  lemma ExpectedLabelsAfterMarker(p: seq<Observation>, o: Observation, ignition: Option<int>)
    requires FirstAt(p, ignition).Some?
    ensures IgnitionMarker in ExpectedLabels(p, ignition)
    ensures ExpectedLabels(p + [o], ignition) == ExpectedLabels(p, ignition) + [Label(o, ignition)]
  {
    var obs := p + [o];
    var k := FirstAt(p, ignition).value;
    assert obs[..|obs| - 1] == p;
    assert FirstAt(obs, ignition) == Some(k);
    var before := ExpectedLabels(p, ignition);
    assert before[k] == IgnitionMarker;
    assert obs[..k] == p[..k];
    assert obs[k..] == p[k..] + [o];
    LabelsSnoc(p[k..], o, ignition);
  }

  lemma ExpectedLabelsBeforeMarker(p: seq<Observation>, o: Observation, ignition: Option<int>)
    requires FirstAt(p, ignition).None?
    ensures IgnitionMarker !in ExpectedLabels(p, ignition)
    ensures ExpectedLabels(p + [o], ignition) ==
      (if PhaseOf(o.time, ignition) == At then ExpectedLabels(p, ignition) + [IgnitionMarker] else ExpectedLabels(p, ignition))
      + [Label(o, ignition)]
  {
    var obs := p + [o];
    var l := Label(o, ignition);
    assert obs[..|obs| - 1] == p;
    LabelsSnoc(p, o, ignition);
    if PhaseOf(o.time, ignition) == At {
      assert FirstAt(obs, ignition) == Some(|p|);
      assert obs[..|p|] == p;
      assert obs[|p|..] == [o];
      assert Labels([o], ignition) == [l];
    } else {
      assert FirstAt(obs, ignition) == None;
    }
  }

  /** The loop is armed exactly when an exact-ignition frame has been seen, and
      the recorded delay is exactly the expected one. */
  lemma {:induction false} RunDelay(folderName: string, totalFrames: nat, obs: seq<Observation>, ignition: Option<int>)
    ensures Run(folderName, totalFrames, obs, ignition).armed <==> FirstAt(obs, ignition).Some?
    ensures Run(folderName, totalFrames, obs, ignition).data.delay == ExpectedDelay(obs, ignition)
    decreases |obs|
  {
    if |obs| > 0 {
      var p := obs[..|obs| - 1];
      var o := obs[|obs| - 1];
      assert obs == p + [o];
      RunDelay(folderName, totalFrames, p, ignition);
      DelaySnoc(Run(folderName, totalFrames, p, ignition), p, o, ignition);
    }
  }

  /** One more frame keeps the loop's arming and delay in step with the
      expected ones. */
  lemma DelaySnoc(s: LoopState, p: seq<Observation>, o: Observation, ignition: Option<int>)
    requires s.armed <==> FirstAt(p, ignition).Some?
    requires s.data.delay == ExpectedDelay(p, ignition)
    ensures Step(s, o, ignition).armed <==> FirstAt(p + [o], ignition).Some?
    ensures Step(s, o, ignition).data.delay == ExpectedDelay(p + [o], ignition)
  {
    var obs := p + [o];
    assert obs[..|obs| - 1] == p;
    if FirstAt(p, ignition).Some? {
      DelayAfterMarker(s, p, o, ignition);
    } else {
      DelayBeforeMarker(s, p, o, ignition);
    }
  }

  lemma DelayAfterMarker(s: LoopState, p: seq<Observation>, o: Observation, ignition: Option<int>)
    requires FirstAt(p, ignition).Some? && s.armed
    requires s.data.delay == ExpectedDelay(p, ignition)
    ensures FirstAt(p + [o], ignition) == FirstAt(p, ignition)
    ensures Step(s, o, ignition).data.delay == ExpectedDelay(p + [o], ignition)
  {
    var obs := p + [o];
    assert obs[..|obs| - 1] == p;
    var k := FirstAt(p, ignition).value;
    assert FirstAt(obs, ignition) == Some(k);
    match FirstDetectedFrom(p, k) {
      case Some(j) =>
        assert FirstDetectedFrom(obs, k) == Some(j);
      case None =>
        if o.detected {
          assert FirstDetectedFrom(obs, k) == Some(|p|);
        } else {
          assert FirstDetectedFrom(obs, k) == None;
        }
    }
  }

  lemma DelayBeforeMarker(s: LoopState, p: seq<Observation>, o: Observation, ignition: Option<int>)
    requires FirstAt(p, ignition).None? && !s.armed
    requires s.data.delay == ExpectedDelay(p, ignition)
    ensures Step(s, o, ignition).armed <==> FirstAt(p + [o], ignition).Some?
    ensures Step(s, o, ignition).data.delay == ExpectedDelay(p + [o], ignition)
  {
    var obs := p + [o];
    assert obs[..|obs| - 1] == p;
    if PhaseOf(o.time, ignition) == At {
      assert FirstAt(obs, ignition) == Some(|p|);
      assert FirstDetectedFrom(p, |p|) == None;
      if o.detected {
        assert FirstDetectedFrom(obs, |p|) == Some(|p|);
      } else {
        assert FirstDetectedFrom(obs, |p|) == None;
      }
    } else {
      assert FirstAt(obs, ignition) == None;
    }
  }

  /** The bounding-box list holds exactly the recorded box lists, in frame order. */
  lemma {:induction false} RunBoxes(folderName: string, totalFrames: nat, obs: seq<Observation>, ignition: Option<int>)
    ensures Run(folderName, totalFrames, obs, ignition).data.boundingBoxes == Records(obs)
    decreases |obs|
  {
    if |obs| > 0 {
      RunBoxes(folderName, totalFrames, obs[..|obs| - 1], ignition);
    }
  }

  // ---------------------------------------------------------------------------
  // Consequences.

  /** The label list has one entry per frame, plus one marker exactly when some
      frame is exactly at the ignition time; the marker is 0 and appears at most
      once, and every other label is ±1. */
  lemma LabelsShape(folderName: string, totalFrames: nat, obs: seq<Observation>, ignition: Option<int>)
    ensures var ls := Run(folderName, totalFrames, obs, ignition).data.framePredictions;
      |ls| == |obs| + (if exists i :: 0 <= i < |obs| && PhaseOf(obs[i].time, ignition) == At then 1 else 0)
      && (forall i :: 0 <= i < |ls| ==> ls[i] in {-1, 0, 1})
      && (forall i, j :: 0 <= i < |ls| && 0 <= j < |ls| && ls[i] == IgnitionMarker && ls[j] == IgnitionMarker ==> i == j)
  {
    RunLabels(folderName, totalFrames, obs, ignition);
    var ls := Run(folderName, totalFrames, obs, ignition).data.framePredictions;
    match FirstAt(obs, ignition)
    case None =>
    case Some(k) =>
      var a, b := Labels(obs[..k], ignition), Labels(obs[k..], ignition);
      assert ls == a + [IgnitionMarker] + b;
      assert forall i :: 0 <= i < |a| ==> ls[i] == a[i];
      assert forall i :: |a| < i < |ls| ==> ls[i] == b[i - |a| - 1];
  }

  /** With no ignition recorded every frame is "before": both after-counters stay
      zero, no marker is emitted and no delay is recorded. */
  lemma NoIgnitionAllBefore(folderName: string, totalFrames: nat, obs: seq<Observation>)
    ensures var d := Run(folderName, totalFrames, obs, None).data;
      d.afterDetected == 0 && d.afterNotDetected == 0
      && d.beforeDetected + d.beforeNotDetected == |obs|
      && IgnitionMarker !in d.framePredictions
      && d.delay == None
  {
    RunCounts(folderName, totalFrames, obs, None);
    RunLabels(folderName, totalFrames, obs, None);
    RunDelay(folderName, totalFrames, obs, None);
    AfterCountsZero(obs);
  }

  lemma {:induction false} AfterCountsZero(obs: seq<Observation>)
    ensures CountWhere(obs, None, false, true) == 0 && CountWhere(obs, None, false, false) == 0
    decreases |obs|
  {
    if |obs| > 0 {
      AfterCountsZero(obs[..|obs| - 1]);
    }
  }

  /** A recorded delay lies in [0, 1439] minutes and was measured at a detected
      frame no earlier than an exact-ignition frame. */
  lemma DelayRecordedOnlyAfterIgnition(folderName: string, totalFrames: nat, obs: seq<Observation>, ignition: Option<int>)
    requires Run(folderName, totalFrames, obs, ignition).data.delay.Some?
    ensures var d := Run(folderName, totalFrames, obs, ignition).data.delay.value;
      0 <= d < MinutesPerDay
      && ignition.Some?
      && exists k, j :: 0 <= k <= j < |obs| && obs[k].time == ignition.value && obs[j].detected
           && d == DelayMinutes(obs[j].time - ignition.value)
  {
    RunDelay(folderName, totalFrames, obs, ignition);
    var k := FirstAt(obs, ignition).value;
    var j := FirstDetectedFrom(obs, k).value;
    assert obs[k].time == ignition.value;
  }

  /** Once recorded, the delay is never overwritten by later frames. */
  lemma {:induction false} DelayWrittenOnce(folderName: string, totalFrames: nat, obs: seq<Observation>, more: seq<Observation>, ignition: Option<int>)
    requires Run(folderName, totalFrames, obs, ignition).data.delay.Some?
    ensures Run(folderName, totalFrames, obs + more, ignition).data.delay == Run(folderName, totalFrames, obs, ignition).data.delay
    decreases |more|
  {
    if |more| == 0 {
      assert obs + more == obs;
    } else {
      var m' := more[..|more| - 1];
      assert (obs + more)[..|obs + more| - 1] == obs + m';
      assert (obs + more)[|obs + more| - 1] == more[|more| - 1];
      DelayWrittenOnce(folderName, totalFrames, obs, m', ignition);
      StepFacts(Run(folderName, totalFrames, obs + m', ignition), more[|more| - 1], ignition);
    }
  }

  /** Only the detector-only mode records bounding boxes. */
  lemma {:induction false} TemporalModeRecordsNoBoxes(frames: seq<Frame>, framesBack: nat, m: Models)
    requires m.confirmer.Some?
    ensures Records(Observe(frames, framesBack, m)) == []
  {
    var obs := Observe(frames, framesBack, m);
    NoRecords(obs);
  }

  lemma {:induction false} NoRecords(obs: seq<Observation>)
    requires forall i :: 0 <= i < |obs| ==> obs[i].boxRecord.None?
    ensures Records(obs) == []
    decreases |obs|
  {
    if |obs| > 0 {
      NoRecords(obs[..|obs| - 1]);
    }
  }
}
