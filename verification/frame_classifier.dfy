/** The per-frame verdict of `process_files_in_folder`
    (src/videos/eval/utils/file_processor.py, lines 92-146): the detector's boxes
    alone, or each size-gated box confirmed by the temporal classifier on crops
    of a trailing window of frames. The detector, the classifier and the square
    root of the box expansion are parameters; image reading and drawing are not
    modelled. */
module FrameClassifier {
  import opened Base
  import opened Geometry

  /** One frame of a scene: its file name, its timestamp in seconds and the
      dimensions of its image. */
  datatype Frame = Frame(name: string, time: int, width: nat, height: nat)

  /** The model collaborators. `detect` returns the boxes of a frame, already
      filtered by the confidence threshold; `confirmer` is the optional temporal
      classifier, given the frames of the window and the expanded box it crops
      them to, and returns a probability. */
  datatype Models = Models(
    detect: Frame -> seq<Box>,
    confirmer: Option<(seq<Frame>, Box) -> real>,
    sqrt: real -> real)

  /** What the frame loop learns from one frame: its time, the verdict, and the
      flattened boxes the detector-only mode records. */
  datatype Observation = Observation(time: int, detected: bool, boxRecord: Option<seq<int>>)

  /** A crop is confirmed when the classifier's probability exceeds this. */
  const ConfirmThreshold: real := 0.5

  /** The frames cropped for frame `idx`: at most `framesBack` preceding frames,
      then the frame itself. It is the trailing part of the frames seen so far. */
  function CropWindow(frames: seq<Frame>, idx: nat, framesBack: nat): (w: seq<Frame>)
    requires idx < |frames|
    ensures |w| == Min(idx, framesBack) + 1
    ensures w == frames[idx + 1 - |w|..idx + 1]
  {
    frames[Max(0, idx - framesBack)..idx] + [frames[idx]]
  }

  /** One pass of the loop over boxes (lines 110-127): a gated box whose window
      is complete and whose crops score above the threshold. */
  predicate BoxConfirms(frames: seq<Frame>, idx: nat, framesBack: nat, b: Box,
                        confirm: (seq<Frame>, Box) -> real, sqrt: real -> real)
    requires idx < |frames|
  {
    var f := frames[idx];
    LargeEnough(b)
    && var window := CropWindow(frames, idx, framesBack);
       |window| == framesBack + 1
       && confirm(window, ExpandBox(b, f.width, f.height, GrowthFor(b, f.width, f.height, sqrt))) > ConfirmThreshold
  }

  /** The loop over boxes, which sets `detected` on every confirming box and
      never breaks: the verdict is the disjunction over all boxes. */
  function AnyConfirms(frames: seq<Frame>, idx: nat, framesBack: nat, boxes: seq<Box>,
                       confirm: (seq<Frame>, Box) -> real, sqrt: real -> real): (detected: bool)
    requires idx < |frames|
    ensures detected <==> exists k :: 0 <= k < |boxes| && BoxConfirms(frames, idx, framesBack, boxes[k], confirm, sqrt)
    decreases |boxes|
  {
    if |boxes| == 0 then false
    else
      var earlier := AnyConfirms(frames, idx, framesBack, boxes[..|boxes| - 1], confirm, sqrt);
      assert forall k :: 0 <= k < |boxes| - 1 ==> boxes[..|boxes| - 1][k] == boxes[k];
      earlier || BoxConfirms(frames, idx, framesBack, boxes[|boxes| - 1], confirm, sqrt)
  }

  /** `[int(x) for box in boxes for x in box]`: four coordinates per box. */
  function Flatten(boxes: seq<Box>): (r: seq<int>)
    ensures |r| == 4 * |boxes|
    ensures forall k :: 0 <= k < |boxes| ==>
      r[4 * k] == boxes[k].x1 && r[4 * k + 1] == boxes[k].y1
      && r[4 * k + 2] == boxes[k].x2 && r[4 * k + 3] == boxes[k].y2
    decreases |boxes|
  {
    if |boxes| == 0 then []
    else
      var b := boxes[0];
      var rest := Flatten(boxes[1..]);
      assert forall k :: 1 <= k < |boxes| ==> boxes[1..][k - 1] == boxes[k];
      [b.x1, b.y1, b.x2, b.y2] + rest
  }

  /** The verdict for frame `idx` (lines 99-146). */
  function Verdict(frames: seq<Frame>, idx: nat, framesBack: nat, m: Models): (o: Observation)
    requires idx < |frames|
    ensures o.time == frames[idx].time
    ensures m.confirmer.None? ==> (o.detected <==> |m.detect(frames[idx])| > 0)
    ensures m.confirmer.Some? ==>
      (o.detected <==>
        idx >= framesBack
        && exists k :: 0 <= k < |m.detect(frames[idx])| && LargeEnough(m.detect(frames[idx])[k])
             && BoxConfirms(frames, idx, framesBack, m.detect(frames[idx])[k], m.confirmer.value, m.sqrt))
    ensures o.boxRecord.Some? <==> m.confirmer.None? && |m.detect(frames[idx])| > 0
    ensures o.boxRecord.Some? ==> o.boxRecord.value == Flatten(m.detect(frames[idx]))
  {
    var f := frames[idx];
    var boxes := m.detect(f);
    if |boxes| > 0 && m.confirmer.Some? then
      Observation(f.time, AnyConfirms(frames, idx, framesBack, boxes, m.confirmer.value, m.sqrt), None)
    else if |boxes| > 0 && m.confirmer.None? then
      Observation(f.time, true, Some(Flatten(boxes)))
    else
      Observation(f.time, false, None)
  }

  /** The verdicts of a whole scene, frame by frame. */
  function Observe(frames: seq<Frame>, framesBack: nat, m: Models): (obs: seq<Observation>)
    ensures |obs| == |frames|
    ensures forall i :: 0 <= i < |frames| ==> obs[i] == Verdict(frames, i, framesBack, m)
  {
    seq(|frames|, i requires 0 <= i < |frames| => Verdict(frames, i, framesBack, m))
  }

  /** Near the start of a scene no box can be confirmed: fewer than
      `framesBack + 1` crops exist, so the classifier is never asked. */
  lemma {:induction false} NoConfirmationBeforeWindowFills(frames: seq<Frame>, idx: nat, framesBack: nat, m: Models)
    requires idx < |frames| && idx < framesBack && m.confirmer.Some?
    ensures !Verdict(frames, idx, framesBack, m).detected
    ensures Verdict(frames, idx, framesBack, m).boxRecord.None?
  {
    var boxes := m.detect(frames[idx]);
    forall k | 0 <= k < |boxes|
      ensures !BoxConfirms(frames, idx, framesBack, boxes[k], m.confirmer.value, m.sqrt)
    {
      assert |CropWindow(frames, idx, framesBack)| == idx + 1;
    }
  }
}
