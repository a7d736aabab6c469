/** `process_files_in_folder` as a loop
    (src/videos/eval/utils/file_processor.py, lines 45-205): look up the
    ignition, list and sort the frames, give up on an empty folder, then walk them and
    update the scene record branch by branch. The loop is checked against the
    fold of the scene evaluator, from which its contract follows. */
module FileProcessor {
  import opened Base
  import opened FileNames
  import opened FrameClassifier
  import opened IgnitionTime
  import opened SceneEvaluator

  /** A stamped name with its image size: `size` stands for reading the image
      (`cv2.imread(...).shape`, line 98). */
  function WithSize(s: seq<Stamped>, size: string -> (nat, nat)): seq<Frame>
  {
    seq(|s|, i requires 0 <= i < |s| => Frame(s[i].name, s[i].time, size(s[i].name).0, size(s[i].name).1))
  }

  /** The name and timestamp of each frame. */
  function StampsOf(fs: seq<Frame>): seq<Stamped>
  {
    seq(|fs|, i requires 0 <= i < |fs| => Stamped(fs[i].name, fs[i].time))
  }

  /** The frame list of a folder listing (lines 49-52): every `.jpg` name is
      stamped, in listing order, and the first unparsable stamp raises; then the
      names are sorted stably by time. */
  function ListFrames(listing: seq<string>, stampParse: string -> Option<int>, size: string -> (nat, nat)): (r: Result<seq<Frame>>)
    ensures r.Err? <==> exists i :: 0 <= i < |JpgFiles(listing)| && stampParse(StampText(JpgFiles(listing)[i])).None?
    ensures r.Err? ==> r.error == StampAll(JpgFiles(listing), stampParse).error
    ensures r.Ok? ==>
              && |r.value| == |JpgFiles(listing)|
              && (forall i, j :: 0 <= i < j < |r.value| ==> r.value[i].time <= r.value[j].time)
              && (forall i :: 0 <= i < |r.value| ==> FrameOfListing(r.value[i], listing, stampParse, size))
              && multiset(StampsOf(r.value)) == multiset(StampAll(JpgFiles(listing), stampParse).value)
              && (forall t :: WithTime(StampsOf(r.value), t) == WithTime(StampAll(JpgFiles(listing), stampParse).value, t))
  {
    match StampAll(JpgFiles(listing), stampParse)
    case Err(e) => Err(e)
    case Ok(stamps) =>
      SortedFrames(listing, stampParse, size, stamps);
      Ok(WithSize(SortByTime(stamps), size))
  }

  /** The frames of the sorted stamps: in time order, each from a `.jpg` name
      of the listing, the same stamps, and equal stamps in listing order. */
  lemma SortedFrames(listing: seq<string>, stampParse: string -> Option<int>, size: string -> (nat, nat), stamps: seq<Stamped>)
    requires StampAll(JpgFiles(listing), stampParse) == Ok(stamps)
    ensures var fs := WithSize(SortByTime(stamps), size);
      && |fs| == |stamps|
      && (forall i, j :: 0 <= i < j < |fs| ==> fs[i].time <= fs[j].time)
      && (forall i :: 0 <= i < |fs| ==> FrameOfListing(fs[i], listing, stampParse, size))
      && multiset(StampsOf(fs)) == multiset(stamps)
      && (forall t :: WithTime(StampsOf(fs), t) == WithTime(stamps, t))
  {
    var sorted := SortByTime(stamps);
    var fs := WithSize(sorted, size);
    StampsOfWithSize(sorted, size);
    forall t
      ensures WithTime(StampsOf(fs), t) == WithTime(stamps, t)
    {
      SortIsStable(stamps, t);
    }
    FramesFromListing(listing, stampParse, size, stamps, sorted);
  }

  /** Adding the image sizes and dropping them again gives the stamps back. */
  lemma StampsOfWithSize(s: seq<Stamped>, size: string -> (nat, nat))
    ensures StampsOf(WithSize(s, size)) == s
  {
    var back := StampsOf(WithSize(s, size));
    assert |back| == |s|;
    forall i | 0 <= i < |s|
      ensures back[i] == s[i]
    {
      assert back[i] == Stamped(s[i].name, s[i].time);
    }
  }

  /** Each frame of a rearrangement of the stamps is built from a `.jpg` name
      of the listing. */
  lemma FramesFromListing(listing: seq<string>, stampParse: string -> Option<int>, size: string -> (nat, nat),
                          stamps: seq<Stamped>, sorted: seq<Stamped>)
    requires StampAll(JpgFiles(listing), stampParse) == Ok(stamps)
    requires multiset(sorted) == multiset(stamps)
    ensures forall i :: 0 <= i < |sorted| ==> FrameOfListing(WithSize(sorted, size)[i], listing, stampParse, size)
  {
    var fs := WithSize(sorted, size);
    forall i | 0 <= i < |fs|
      ensures FrameOfListing(fs[i], listing, stampParse, size)
    {
      assert sorted[i] in multiset(stamps);
      var k :| 0 <= k < |stamps| && stamps[k] == sorted[i];
      assert JpgFiles(listing)[k] in listing;
    }
  }

  /** `f` is built from a `.jpg` name of the listing: its time is the parsed
      stamp of its name and its size that of its image. */
  ghost predicate FrameOfListing(f: Frame, listing: seq<string>, stampParse: string -> Option<int>, size: string -> (nat, nat))
  {
    && IsJpg(f.name)
    && f.name in listing
    && stampParse(StampText(f.name)) == Some(f.time)
    && (f.width, f.height) == size(f.name)
  }

  /** Processes one folder whose listing is `listing`. An unparsable or
      incomplete ignition entry raises before anything else, then an
      unparsable frame stamp; an empty frame list yields None; otherwise the
      scene record of the sorted frames is returned. */
  method ProcessFilesInFolder(folderName: string, entries: seq<Entry>, parse: string -> Option<int>,
                              listing: seq<string>, stampParse: string -> Option<int>, size: string -> (nat, nat),
                              framesBack: nat, m: Models)
    returns (r: Result<Option<SceneResult>>)
    ensures GetIgnitionTime(folderName, entries, parse).Err? ==>
      r == Err(GetIgnitionTime(folderName, entries, parse).error)
    ensures GetIgnitionTime(folderName, entries, parse).Ok? && ListFrames(listing, stampParse, size).Err? ==>
      r == Err(ListFrames(listing, stampParse, size).error)
    ensures GetIgnitionTime(folderName, entries, parse).Ok? && ListFrames(listing, stampParse, size).Ok? ==>
      r.Ok? && (r.value.None? <==> |JpgFiles(listing)| == 0)
    ensures r.Ok? && r.value.Some? ==>
      var d := r.value.value;
      var ignition := GetIgnitionTime(folderName, entries, parse).value;
      var frames := ListFrames(listing, stampParse, size).value;
      var obs := Observe(frames, framesBack, m);
      d.folderName == folderName
      && d.totalFrames == |frames|
      && d.beforeDetected + d.beforeNotDetected + d.afterDetected + d.afterNotDetected == |frames|
      && d.beforeDetected == CountWhere(obs, ignition, true, true)
      && d.beforeNotDetected == CountWhere(obs, ignition, true, false)
      && d.afterDetected == CountWhere(obs, ignition, false, true)
      && d.afterNotDetected == CountWhere(obs, ignition, false, false)
      && d.framePredictions == ExpectedLabels(obs, ignition)
      && d.delay == ExpectedDelay(obs, ignition)
      && d.boundingBoxes == Records(obs)
  {
    var lookup := GetIgnitionTime(folderName, entries, parse);
    if lookup.Err? {
      return Err(lookup.error);
    }
    var ignition := lookup.value;
    var listed := ListFrames(listing, stampParse, size);
    if listed.Err? {
      return Err(listed.error);
    }
    var frames := listed.value;
    if |frames| == 0 {
      return Ok(None);
    }
    var data := WalkFrames(folderName, ignition, frames, framesBack, m);
    return Ok(Some(data));
  }

  /** The frame loop (lines 92-197) over a non-empty sorted frame list: the
      record it builds is the one the scene evaluator prescribes. */
  method WalkFrames(folderName: string, ignition: Option<int>, frames: seq<Frame>, framesBack: nat, m: Models)
    returns (d: SceneResult)
    ensures
      var obs := Observe(frames, framesBack, m);
      d.folderName == folderName
      && d.totalFrames == |frames|
      && d.beforeDetected + d.beforeNotDetected + d.afterDetected + d.afterNotDetected == |frames|
      && d.beforeDetected == CountWhere(obs, ignition, true, true)
      && d.beforeNotDetected == CountWhere(obs, ignition, true, false)
      && d.afterDetected == CountWhere(obs, ignition, false, true)
      && d.afterNotDetected == CountWhere(obs, ignition, false, false)
      && d.framePredictions == ExpectedLabels(obs, ignition)
      && d.delay == ExpectedDelay(obs, ignition)
      && d.boundingBoxes == Records(obs)
  {
    ghost var obs := Observe(frames, framesBack, m);
    var data := Fresh(folderName, |frames|);
    var armed := false;
    var idx := 0;
    while idx < |frames|
      invariant 0 <= idx <= |frames|
      invariant LoopState(data, armed) == Run(folderName, |frames|, obs[..idx], ignition)
    {
      var o := Verdict(frames, idx, framesBack, m);
      data, armed := VisitFrame(data, armed, o, ignition);
      assert obs[..idx + 1][..idx] == obs[..idx];
      assert obs[..idx + 1][idx] == o;
      idx := idx + 1;
    }
    assert obs[..|frames|] == obs;
    RunCounts(folderName, |frames|, obs, ignition);
    RunLabels(folderName, |frames|, obs, ignition);
    RunDelay(folderName, |frames|, obs, ignition);
    RunBoxes(folderName, |frames|, obs, ignition);
    return data;
  }

  /** The body of the frame loop (lines 148-197) for one frame's verdict: the
      box list, the counter and label of the frame's phase, the arming at the
      exact ignition time and the first delay after it. */
  method VisitFrame(data: SceneResult, armed: bool, o: Observation, ignition: Option<int>)
    returns (data': SceneResult, armed': bool)
    ensures LoopState(data', armed') == Step(LoopState(data, armed), o, ignition)
    ensures armed' <==> armed || PhaseOf(o.time, ignition) == At
    ensures data'.beforeDetected + data'.beforeNotDetected + data'.afterDetected + data'.afterNotDetected
            == data.beforeDetected + data.beforeNotDetected + data.afterDetected + data.afterNotDetected + 1
    ensures data.delay.Some? ==> data'.delay == data.delay
  {
    data', armed' := data, armed;
    if o.boxRecord.Some? {
      data' := data'.(boundingBoxes := data'.boundingBoxes + [o.boxRecord.value]);
    }
    var phase := PhaseOf(o.time, ignition);
    if phase == Before {
      if o.detected {
        data' := data'.(beforeDetected := data'.beforeDetected + 1, framePredictions := data'.framePredictions + [-1]);
      } else {
        data' := data'.(beforeNotDetected := data'.beforeNotDetected + 1, framePredictions := data'.framePredictions + [1]);
      }
    } else if phase == At {
      if IgnitionMarker !in data'.framePredictions {
        data' := data'.(framePredictions := data'.framePredictions + [IgnitionMarker]);
      }
      if o.detected {
        data' := data'.(afterDetected := data'.afterDetected + 1, framePredictions := data'.framePredictions + [1]);
      } else {
        data' := data'.(afterNotDetected := data'.afterNotDetected + 1, framePredictions := data'.framePredictions + [-1]);
      }
    } else {
      if o.detected {
        data' := data'.(afterDetected := data'.afterDetected + 1, framePredictions := data'.framePredictions + [1]);
      } else {
        data' := data'.(afterNotDetected := data'.afterNotDetected + 1, framePredictions := data'.framePredictions + [-1]);
      }
    }
    if phase == At && !armed' {
      armed' := true;
    }
    if armed' && o.detected && data'.delay.None? && ignition.Some? {
      data' := data'.(delay := Some(DelayMinutes(o.time - ignition.value)));
    }
  }
}
