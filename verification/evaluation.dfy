/** The corpus-level driver, `main` and `save_predictions_to_json`
    (src/videos/eval/eval.py, lines 22-171): which folders are processed, the
    saved prediction rows, the global averages, and the delay statistics over
    the folders with a recorded delay. The averaging as written raises on some
    inputs (`FalseAlarmFolderBreaksAverages`), and `Evaluate` raises with it;
    `EvaluateCorrected` is the same run with the per-metric averaging
    `CorpusAverages`. Processing one folder is a parameter (`scan`), since it
    reads the disk. */
module Evaluation {
  import opened Base
  import opened SceneEvaluator
  import opened Analysis

  // ---------------------------------------------------------------------------
  // Saved prediction rows (lines 22-34).

  /** A JSON value of a saved row: the folder name, then integer labels. */
  datatype Cell = Text(text: string) | Number(number: int)

  /** `[folder] + predictions`. */
  function PredictionRow(d: SceneResult): (row: seq<Cell>)
    ensures |row| == |d.framePredictions| + 1
  {
    [Text(d.folderName)] + seq(|d.framePredictions|, i requires 0 <= i < |d.framePredictions| => Number(d.framePredictions[i]))
  }

  /** One row per scene, in processing order. */
  function SavePredictions(ds: seq<SceneResult>): (rows: seq<seq<Cell>>)
    ensures |rows| == |ds|
  {
    seq(|ds|, i requires 0 <= i < |ds| => PredictionRow(ds[i]))
  }

  /** Reads integer cells back; None if a cell is not a number. */
  function DecodeNumbers(cells: seq<Cell>): Option<seq<int>>
    decreases |cells|
  {
    if |cells| == 0 then Some([])
    else match (cells[0], DecodeNumbers(cells[1..]))
      case (Number(n), Some(rest)) => Some([n] + rest)
      case _ => None
  }

  /** Reads a saved row back into its folder name and labels. */
  function DecodeRow(row: seq<Cell>): Option<(string, seq<int>)>
  {
    if |row| == 0 || !row[0].Text? then None
    else match DecodeNumbers(row[1..])
      case Some(labels) => Some((row[0].text, labels))
      case None => None
  }

  lemma {:induction false} DecodeNumbersRoundTrip(labels: seq<int>)
    ensures DecodeNumbers(seq(|labels|, i requires 0 <= i < |labels| => Number(labels[i]))) == Some(labels)
    decreases |labels|
  {
    var cells := seq(|labels|, i requires 0 <= i < |labels| => Number(labels[i]));
    if |labels| > 0 {
      assert cells[1..] == seq(|labels[1..]|, i requires 0 <= i < |labels[1..]| => Number(labels[1..][i]));
      DecodeNumbersRoundTrip(labels[1..]);
      assert [labels[0]] + labels[1..] == labels;
    }
  }

  /** Every saved row reads back as its scene's name and label list, unchanged,
      in processing order. */
  lemma SavedRowsRoundTrip(ds: seq<SceneResult>)
    ensures var rows := SavePredictions(ds);
      forall i :: 0 <= i < |ds| ==> DecodeRow(rows[i]) == Some((ds[i].folderName, ds[i].framePredictions))
  {
    forall i | 0 <= i < |ds|
      ensures DecodeRow(SavePredictions(ds)[i]) == Some((ds[i].folderName, ds[i].framePredictions))
    {
      var row := PredictionRow(ds[i]);
      var labels := ds[i].framePredictions;
      assert row[1..] == seq(|labels|, k requires 0 <= k < |labels| => Number(labels[k]));
      DecodeNumbersRoundTrip(labels);
    }
  }

  // ---------------------------------------------------------------------------
  // Which folders are processed (lines 85-120).

  /** `str.lower()` on one character, for ASCII letters. */
  function LowerChar(c: char): (l: char)
    ensures 'A' <= c <= 'Z' ==> 'a' <= l <= 'z' && l as int - 'a' as int == c as int - 'A' as int
    ensures !('A' <= c <= 'Z') ==> l == c
  {
    if 'A' <= c <= 'Z' then (c as int - 'A' as int + 'a' as int) as char else c
  }

  function Lower(s: string): (l: string)
    ensures |l| == |s| && forall i :: 0 <= i < |s| ==> l[i] == LowerChar(s[i])
  {
    seq(|s|, i requires 0 <= i < |s| => LowerChar(s[i]))
  }

  predicate OccursAt(s: string, sub: string, i: int)
  {
    0 <= i && i + |sub| <= |s| && s[i..i + |sub|] == sub
  }

  /** Python's `sub in s` on strings. */
  predicate Contains(s: string, sub: string)
  {
    exists i :: 0 <= i <= |s| - |sub| && OccursAt(s, sub, i)
  }

  /** Directories whose name holds "labels" in any case are skipped. */
  predicate IsLabelsDir(name: string)
  {
    Contains(Lower(name), "labels")
  }

  /** A directory listed by `os.walk`: the directory it was found under and
      its own name. The folder processed is the two joined; the skip test looks
      at the name alone. */
  datatype Dir = Dir(root: string, name: string)

  /** `process_files_in_folder` on one directory: a scene record, None for a
      folder without frames, or an error. It reads the disk, so it is a
      parameter. */
  type Scan = Dir -> Result<Option<SceneResult>>

  /** One directory of the walk: skipped, processed to nothing (an empty
      folder), processed to a scene record, or raising. */
  function VisitFolder(dir: Dir, scan: Scan): (r: Result<seq<SceneResult>>)
    ensures IsLabelsDir(dir.name) ==> r == Ok([])
    ensures !IsLabelsDir(dir.name) && scan(dir).Err? ==> r == Err(scan(dir).error)
    ensures !IsLabelsDir(dir.name) && scan(dir).Ok? ==>
      r.Ok? && (|r.value| == 1 <==> scan(dir).value.Some?)
      && (scan(dir).value.Some? ==> r.value == [scan(dir).value.value])
      && (scan(dir).value.None? ==> r.value == [])
  {
    if IsLabelsDir(dir.name) then Ok([])
    else match scan(dir)
      case Err(e) => Err(e)
      case Ok(None) => Ok([])
      case Ok(Some(d)) => Ok([d])
  }

  /** Sequencing two steps of the run: the first error ends it, otherwise the
      records are concatenated. */
  function Then(x: Result<seq<SceneResult>>, y: Result<seq<SceneResult>>): Result<seq<SceneResult>>
  {
    match x
    case Err(e) => Err(e)
    case Ok(xs) =>
      match y
      case Err(e) => Err(e)
      case Ok(ys) => Ok(xs + ys)
  }

  lemma ThenAssociative(x: Result<seq<SceneResult>>, y: Result<seq<SceneResult>>, z: Result<seq<SceneResult>>)
    ensures Then(x, Then(y, z)) == Then(Then(x, y), z)
  {
    if x.Ok? && y.Ok? && z.Ok? {
      assert x.value + (y.value + z.value) == (x.value + y.value) + z.value;
    }
  }

  /** The walk-mode loop over the directories in `os.walk` order. */
  function WalkFolders(dirs: seq<Dir>, scan: Scan): (r: Result<seq<SceneResult>>)
    ensures r.Ok? <==> forall i :: 0 <= i < |dirs| ==> VisitFolder(dirs[i], scan).Ok?
    ensures r.Ok? ==> |r.value| <= |dirs|
    decreases |dirs|
  {
    if |dirs| == 0 then Ok([])
    else
      assert forall i :: 1 <= i < |dirs| ==> dirs[1..][i - 1] == dirs[i];
      Then(VisitFolder(dirs[0], scan), WalkFolders(dirs[1..], scan))
  }

  /** Running the walk over two lists of directories is running it over each in
      turn: the first error wins, otherwise the records are concatenated. With
      the one-directory case below, this determines the walk completely. */
  lemma {:induction false} WalkFoldersAppend(a: seq<Dir>, b: seq<Dir>, scan: Scan)
    ensures WalkFolders(a + b, scan) == Then(WalkFolders(a, scan), WalkFolders(b, scan))
    decreases |a|
  {
    if |a| == 0 {
      assert a + b == b;
      var w := WalkFolders(b, scan);
      if w.Ok? {
        assert [] + w.value == w.value;
      }
    } else {
      assert (a + b)[0] == a[0];
      assert (a + b)[1..] == a[1..] + b;
      WalkFoldersAppend(a[1..], b, scan);
      ThenAssociative(VisitFolder(a[0], scan), WalkFolders(a[1..], scan), WalkFolders(b, scan));
    }
  }

  /** A single directory contributes exactly its visit. */
  lemma WalkOneFolder(dir: Dir, scan: Scan)
    ensures WalkFolders([dir], scan) == VisitFolder(dir, scan)
  {
    assert [dir][1..] == [];
    var v := VisitFolder(dir, scan);
    if v.Ok? {
      assert v.value + [] == v.value;
    }
  }

  /** Single-folder mode: the result is used without a None test, so an empty
      folder raises. */
  function SingleFolder(dir: Dir, scan: Scan): (r: Result<seq<SceneResult>>)
    ensures r.Ok? <==> scan(dir).Ok? && scan(dir).value.Some?
    ensures r.Ok? ==> r.value == [scan(dir).value.value]
    ensures scan(dir) == Ok(None) ==> r == Err(NoSceneResult)
  {
    match scan(dir)
    case Err(e) => Err(e)
    case Ok(None) => Err(NoSceneResult)
    case Ok(Some(d)) => Ok([d])
  }

  // ---------------------------------------------------------------------------
  // Global averages (lines 126-143).

  /** The metrics whose precision is defined, in order. */
  function WithPrecision(ms: seq<Metrics>): (v: seq<Metrics>)
    ensures |v| <= |ms|
    ensures forall i :: 0 <= i < |v| ==> v[i].precision.Some? && v[i] in ms
    ensures forall m :: m in ms && m.precision.Some? ==> m in v
    decreases |ms|
  {
    if |ms| == 0 then []
    else
      var last := ms[|ms| - 1];
      assert forall m :: m in ms ==> m in ms[..|ms| - 1] || m == last;
      WithPrecision(ms[..|ms| - 1]) + (if last.precision.Some? then [last] else [])
  }

  /** `WithPrecision` is the filter `[m for m in ms if m.precision is not None]`:
      it distributes over concatenation and keeps a single folder exactly when
      its precision is defined, which fixes order and multiplicity. */
  lemma {:induction false} WithPrecisionAppend(a: seq<Metrics>, b: seq<Metrics>)
    ensures WithPrecision(a + b) == WithPrecision(a) + WithPrecision(b)
    ensures |a| == 1 ==> WithPrecision(a) == if a[0].precision.Some? then a else []
    decreases |b|
  {
    if |a| == 1 {
      assert a[..0] == [];
    }
    if |b| == 0 {
      assert a + b == a;
    } else {
      assert (a + b)[..|a + b| - 1] == a + b[..|b| - 1];
      WithPrecisionAppend(a, b[..|b| - 1]);
    }
  }

  /** The global averages, or nothing when no folder has a precision. */
  datatype GlobalMetrics = NoValidMetrics | Averages(precision: real, recall: real, f1Score: real)

  /** The three means over the same subset. `statistics.mean` raises on a None,
      which happens when a folder with a precision has no recall or no F1. */
  function GlobalAverages(ms: seq<Metrics>): (r: Result<GlobalMetrics>)
    ensures r == Ok(NoValidMetrics) <==> forall i :: 0 <= i < |ms| ==> ms[i].precision.None?
    ensures r.Err? <==>
      exists i :: 0 <= i < |ms| && ms[i].precision.Some? && (ms[i].recall.None? || ms[i].f1Score.None?)
  {
    var valid := WithPrecision(ms);
    if |valid| == 0 then
      assert forall i :: 0 <= i < |ms| ==> ms[i] in ms;
      Ok(NoValidMetrics)
    else if exists i :: 0 <= i < |valid| && (valid[i].recall.None? || valid[i].f1Score.None?) then
      Err(MeanOfNone)
    else
      assert forall i :: 0 <= i < |ms| ==> ms[i] in ms;
      Ok(Averages(
        Mean(seq(|valid|, i requires 0 <= i < |valid| => valid[i].precision.value)),
        Mean(seq(|valid|, i requires 0 <= i < |valid| => valid[i].recall.value)),
        Mean(seq(|valid|, i requires 0 <= i < |valid| => valid[i].f1Score.value))))
  }

  /** Folders without a precision are left out of the means, not counted as 0:
      adding one changes nothing. */
  lemma UndefinedPrecisionIgnored(ms: seq<Metrics>, m: Metrics)
    requires m.precision.None?
    ensures GlobalAverages(ms + [m]) == GlobalAverages(ms)
  {
    assert (ms + [m])[..|ms|] == ms;
    assert WithPrecision(ms + [m]) == WithPrecision(ms);
    assert forall i :: 0 <= i < |ms| ==> (ms + [m])[i] == ms[i];
  }

  /** When no folder has only before-ignition detections, the averaging of
      metrics computed by `calculate_detection_metrics` succeeds, and the
      averages lie in [0, 1]. */
  lemma AveragesInUnitRange(ds: seq<SceneResult>)
    requires forall i :: 0 <= i < |ds| ==> ds[i].afterDetected > 0 || ds[i].beforeDetected == 0
    ensures var r := GlobalAverages(MetricsOf(ds));
      r.Ok?
      && match r.value
         case NoValidMetrics => true
         case Averages(p, r, f) => 0.0 <= p <= 1.0 && 0.0 <= r <= 1.0 && 0.0 <= f <= 1.0
  {
    var ms := MetricsOf(ds);
    AveragingSucceedsIff(ds);
    var valid := WithPrecision(ms);
    if |valid| > 0 {
      ValidInUnitRange(ms);
      MeanBounds(seq(|valid|, i requires 0 <= i < |valid| => valid[i].precision.value), 0.0, 1.0);
      MeanBounds(seq(|valid|, i requires 0 <= i < |valid| => valid[i].recall.value), 0.0, 1.0);
      MeanBounds(seq(|valid|, i requires 0 <= i < |valid| => valid[i].f1Score.value), 0.0, 1.0);
    }
  }

  /** Metrics that average without raising have all three values of every
      averaged folder in [0, 1]. */
  lemma ValidInUnitRange(ms: seq<Metrics>)
    requires forall i :: 0 <= i < |ms| ==> ms[i].precision.Some? ==> ms[i].recall.Some? && ms[i].f1Score.Some?
    requires forall i :: 0 <= i < |ms| ==> ms[i].precision.Some? ==> 0.0 <= ms[i].precision.value <= 1.0
    requires forall i :: 0 <= i < |ms| ==> ms[i].recall.Some? ==> 0.0 <= ms[i].recall.value <= 1.0
    requires forall i :: 0 <= i < |ms| ==> ms[i].f1Score.Some? ==> 0.0 <= ms[i].f1Score.value <= 1.0
    ensures var v := WithPrecision(ms);
      forall k :: 0 <= k < |v| ==>
        v[k].recall.Some? && v[k].f1Score.Some?
        && 0.0 <= v[k].precision.value <= 1.0 && 0.0 <= v[k].recall.value <= 1.0 && 0.0 <= v[k].f1Score.value <= 1.0
  {
    var v := WithPrecision(ms);
    forall k | 0 <= k < |v|
      ensures v[k].recall.Some? && v[k].f1Score.Some?
      ensures 0.0 <= v[k].precision.value <= 1.0 && 0.0 <= v[k].recall.value <= 1.0 && 0.0 <= v[k].f1Score.value <= 1.0
    {
      var i :| 0 <= i < |ms| && ms[i] == v[k];
    }
  }

  /** Which folders make the averaging above raise: those with a detection but
      none at or after ignition. Their precision is 0, and their recall is
      either undefined or 0, so F1 is undefined. */
  lemma MetricsBreakAverages(d: SceneResult)
    ensures var m := CalculateDetectionMetrics(d);
      (m.precision.Some? && (m.recall.None? || m.f1Score.None?))
      <==> d.afterDetected == 0 && d.beforeDetected > 0
  {
    var m := CalculateDetectionMetrics(d);
    if d.afterDetected == 0 && d.beforeDetected > 0 {
      var p := m.precision.value;
      assert p * d.beforeDetected as real == 0.0 * d.beforeDetected as real;
      CancelLe(p, 0.0, d.beforeDetected as real);
      assert m.recall.Some? ==> m.recall.value == 0.0;
    } else if d.afterDetected > 0 {
      var p := m.precision.value;
      assert p > 0.0 by {
        if p <= 0.0 { MulLe((d.afterDetected + d.beforeDetected) as real, p, 0.0); }
      }
    }
  }

  /** The smallest input that stops the run: one folder whose only detections
      come before ignition. */
  lemma FalseAlarmFolderBreaksAverages(d: SceneResult)
    requires d.beforeDetected > 0 && d.afterDetected == 0
    ensures GlobalAverages([CalculateDetectionMetrics(d)]) == Err(MeanOfNone)
  {
    MetricsBreakAverages(d);
    var ms := [CalculateDetectionMetrics(d)];
    assert ms[0].precision.Some? && (ms[0].recall.None? || ms[0].f1Score.None?);
  }

  /** The corrected corpus metrics: each mean is taken over the folders where
      that metric is defined, and is None when there are none. */
  datatype CorpusMetrics = CorpusMetrics(precision: Option<real>, recall: Option<real>, f1Score: Option<real>)

  /** The defined values, in order. */
  function Present(xs: seq<Option<real>>): (vs: seq<real>)
    ensures |vs| <= |xs|
    ensures forall k :: 0 <= k < |vs| ==> exists i :: 0 <= i < |xs| && xs[i] == Some(vs[k])
    decreases |xs|
  {
    if |xs| == 0 then []
    else
      var init := xs[..|xs| - 1];
      assert forall i :: 0 <= i < |init| ==> init[i] == xs[i];
      Present(init) + (if xs[|xs| - 1].Some? then [xs[|xs| - 1].value] else [])
  }

  /** `Present` is the filter of the defined values: it distributes over
      concatenation and keeps a single entry exactly when it is defined. */
  lemma {:induction false} PresentAppend(a: seq<Option<real>>, b: seq<Option<real>>)
    ensures Present(a + b) == Present(a) + Present(b)
    ensures |a| == 1 ==> Present(a) == if a[0].Some? then [a[0].value] else []
    decreases |b|
  {
    if |a| == 1 {
      assert a[..0] == [];
    }
    if |b| == 0 {
      assert a + b == a;
    } else {
      assert (a + b)[..|a + b| - 1] == a + b[..|b| - 1];
      PresentAppend(a, b[..|b| - 1]);
    }
  }

  /** The mean of the defined values, or None when there are none. */
  function MeanOfPresent(xs: seq<Option<real>>): (r: Option<real>)
    ensures r.None? <==> forall i :: 0 <= i < |xs| ==> xs[i].None?
    ensures r.Some? ==> |Present(xs)| > 0 && r.value == Mean(Present(xs))
  {
    PresentEmpty(xs);
    var vs := Present(xs);
    if |vs| == 0 then None else Some(Mean(vs))
  }

  lemma {:induction false} PresentEmpty(xs: seq<Option<real>>)
    ensures |Present(xs)| == 0 <==> forall i :: 0 <= i < |xs| ==> xs[i].None?
    decreases |xs|
  {
    if |xs| > 0 {
      var init := xs[..|xs| - 1];
      PresentEmpty(init);
      assert forall i :: 0 <= i < |init| ==> init[i] == xs[i];
    }
  }

  function PrecisionOf(m: Metrics): Option<real> { m.precision }

  function Precisions(ms: seq<Metrics>): (xs: seq<Option<real>>)
    ensures |xs| == |ms| && forall i :: 0 <= i < |ms| ==> xs[i] == ms[i].precision
  {
    Project(ms, PrecisionOf)
  }

  function RecallOf(m: Metrics): Option<real> { m.recall }

  function Recalls(ms: seq<Metrics>): (xs: seq<Option<real>>)
    ensures |xs| == |ms| && forall i :: 0 <= i < |ms| ==> xs[i] == ms[i].recall
  {
    Project(ms, RecallOf)
  }

  function F1Of(m: Metrics): Option<real> { m.f1Score }

  function F1Scores(ms: seq<Metrics>): (xs: seq<Option<real>>)
    ensures |xs| == |ms| && forall i :: 0 <= i < |ms| ==> xs[i] == ms[i].f1Score
  {
    Project(ms, F1Of)
  }

  function CorpusAverages(ms: seq<Metrics>): (c: CorpusMetrics)
    ensures c.precision.None? <==> forall i :: 0 <= i < |ms| ==> ms[i].precision.None?
    ensures c.recall.None? <==> forall i :: 0 <= i < |ms| ==> ms[i].recall.None?
    ensures c.f1Score.None? <==> forall i :: 0 <= i < |ms| ==> ms[i].f1Score.None?
    ensures c.precision.Some? ==> |Present(Precisions(ms))| > 0 && c.precision.value == Mean(Present(Precisions(ms)))
    ensures c.recall.Some? ==> |Present(Recalls(ms))| > 0 && c.recall.value == Mean(Present(Recalls(ms)))
    ensures c.f1Score.Some? ==> |Present(F1Scores(ms))| > 0 && c.f1Score.value == Mean(Present(F1Scores(ms)))
  {
    var p, r, f := Precisions(ms), Recalls(ms), F1Scores(ms);
    CorpusMetrics(MeanOfPresent(p), MeanOfPresent(r), MeanOfPresent(f))
  }

  lemma PresentSnocNone(xs: seq<Option<real>>)
    ensures Present(xs + [None]) == Present(xs)
  {
    assert (xs + [None])[..|xs|] == xs;
  }

  /** A folder missing a metric leaves that metric's mean unchanged. */
  lemma AbsentMetricIgnored(ms: seq<Metrics>, m: Metrics)
    ensures m.precision.None? ==> CorpusAverages(ms + [m]).precision == CorpusAverages(ms).precision
    ensures m.recall.None? ==> CorpusAverages(ms + [m]).recall == CorpusAverages(ms).recall
    ensures m.f1Score.None? ==> CorpusAverages(ms + [m]).f1Score == CorpusAverages(ms).f1Score
  {
    var ms' := ms + [m];
    assert Precisions(ms') == Precisions(ms) + [m.precision];
    assert Recalls(ms') == Recalls(ms) + [m.recall];
    assert F1Scores(ms') == F1Scores(ms) + [m.f1Score];
    PresentSnocNone(Precisions(ms));
    PresentSnocNone(Recalls(ms));
    PresentSnocNone(F1Scores(ms));
  }

  lemma MeanSingleton(x: real)
    ensures Mean([x]) == x
  {
    assert [x][..0] == [];
    assert Sum([x]) == x;
  }

  /** With one folder lacking a precision and one having it, the corpus
      precision is exactly the second folder's, not an average with a zero. */
  lemma OneUndefinedPrecision(a: Metrics, b: Metrics)
    requires a.precision.None? && b.precision.Some?
    ensures CorpusAverages([a, b]).precision == b.precision
  {
    var xs := Precisions([a, b]);
    var none: seq<Option<real>> := [None];
    assert xs == [None, b.precision];
    assert xs[..1] == none;
    assert Present(none) == [] by { assert none[..0] == []; }
    assert Present(xs) == [b.precision.value];
    MeanSingleton(b.precision.value);
  }

  /** The corrected means of metrics from `calculate_detection_metrics` lie in [0, 1]. */
  lemma CorpusAveragesInUnitRange(ds: seq<SceneResult>)
    ensures var c := CorpusAverages(MetricsOf(ds));
      (c.precision.Some? ==> 0.0 <= c.precision.value <= 1.0)
      && (c.recall.Some? ==> 0.0 <= c.recall.value <= 1.0)
      && (c.f1Score.Some? ==> 0.0 <= c.f1Score.value <= 1.0)
  {
    var ms := MetricsOf(ds);
    PresentInUnitRange(Precisions(ms));
    PresentInUnitRange(Recalls(ms));
    PresentInUnitRange(F1Scores(ms));
  }

  lemma PresentInUnitRange(xs: seq<Option<real>>)
    requires forall i :: 0 <= i < |xs| && xs[i].Some? ==> 0.0 <= xs[i].value <= 1.0
    ensures MeanOfPresent(xs).Some? ==> 0.0 <= MeanOfPresent(xs).value <= 1.0
  {
    var vs := Present(xs);
    if |vs| > 0 {
      forall k | 0 <= k < |vs| ensures 0.0 <= vs[k] <= 1.0 {
        var i :| 0 <= i < |xs| && xs[i] == Some(vs[k]);
      }
      MeanBounds(vs, 0.0, 1.0);
    }
  }

  /** Where every folder has either all three metrics or none, the corrected
      means are the ones the source computes. */
  lemma CorpusAgreesWhenComplete(ms: seq<Metrics>)
    requires forall i :: 0 <= i < |ms| ==>
      (ms[i].precision.Some? <==> ms[i].recall.Some?) && (ms[i].precision.Some? <==> ms[i].f1Score.Some?)
    ensures GlobalAverages(ms).Ok?
    ensures GlobalAverages(ms) == Ok(NoValidMetrics) ==> CorpusAverages(ms) == CorpusMetrics(None, None, None)
    ensures GlobalAverages(ms).Ok? && GlobalAverages(ms).value.Averages? ==>
      var g := GlobalAverages(ms).value;
      CorpusAverages(ms) == CorpusMetrics(Some(g.precision), Some(g.recall), Some(g.f1Score))
  {
    var valid := WithPrecision(ms);
    assert forall i :: 0 <= i < |ms| ==> ms[i] in ms;
    if |valid| > 0 {
      forall k | 0 <= k < |valid| ensures valid[k].recall.Some? && valid[k].f1Score.Some? {
        var i :| 0 <= i < |ms| && ms[i] == valid[k];
      }
      PresentOfValid(ms, PrecisionOf);
      PresentOfValid(ms, RecallOf);
      PresentOfValid(ms, F1Of);
      GlobalAveragesAsValues(ms);
    }
  }

  /** The value of each global mean: the `Mean` of that metric over the
      folders with a precision, all of which then have all three metrics. */
  lemma GlobalAveragesValue(ms: seq<Metrics>)
    ensures GlobalAverages(ms).Ok? && GlobalAverages(ms).value.Averages? ==>
      var v := WithPrecision(ms);
      |v| > 0
      && (forall k :: 0 <= k < |v| ==> v[k].recall.Some? && v[k].f1Score.Some?)
      && GlobalAverages(ms).value
         == Averages(Mean(ValuesOf(v, PrecisionOf)), Mean(ValuesOf(v, RecallOf)), Mean(ValuesOf(v, F1Of)))
  {
    var v, r := WithPrecision(ms), GlobalAverages(ms);
    if r.Ok? && r.value.Averages? {
      forall k | 0 <= k < |v| ensures v[k].recall.Some? && v[k].f1Score.Some? {
        var i :| 0 <= i < |ms| && ms[i] == v[k];
      }
      GlobalAveragesAsValues(ms);
    }
  }

  /** The source's three means, written with `ValuesOf`. */
  lemma GlobalAveragesAsValues(ms: seq<Metrics>)
    requires var v := WithPrecision(ms);
      |v| > 0 && forall k :: 0 <= k < |v| ==> v[k].recall.Some? && v[k].f1Score.Some?
    ensures var v := WithPrecision(ms);
      GlobalAverages(ms) == Ok(Averages(Mean(ValuesOf(v, PrecisionOf)), Mean(ValuesOf(v, RecallOf)), Mean(ValuesOf(v, F1Of))))
  {
    var valid := WithPrecision(ms);
    assert ValuesOf(valid, PrecisionOf) == seq(|valid|, i requires 0 <= i < |valid| => valid[i].precision.value);
    assert ValuesOf(valid, RecallOf) == seq(|valid|, i requires 0 <= i < |valid| => valid[i].recall.value);
    assert ValuesOf(valid, F1Of) == seq(|valid|, i requires 0 <= i < |valid| => valid[i].f1Score.value);
  }

  /** One metric of each folder, in order. */
  function Project(ms: seq<Metrics>, f: Metrics -> Option<real>): (xs: seq<Option<real>>)
    ensures |xs| == |ms| && forall i :: 0 <= i < |ms| ==> xs[i] == f(ms[i])
  {
    seq(|ms|, i requires 0 <= i < |ms| => f(ms[i]))
  }

  /** The values of one metric over folders that all have it. */
  function ValuesOf(v: seq<Metrics>, f: Metrics -> Option<real>): (ys: seq<real>)
    ensures |ys| == |v| && forall i :: 0 <= i < |v| && f(v[i]).Some? ==> ys[i] == f(v[i]).value
  {
    seq(|v|, i requires 0 <= i < |v| => if f(v[i]).Some? then f(v[i]).value else 0.0)
  }

  /** A metric defined exactly where precision is: its defined values are those
      of the folders with a precision. */
  lemma {:induction false} PresentOfValid(ms: seq<Metrics>, f: Metrics -> Option<real>)
    requires forall i :: 0 <= i < |ms| ==> (ms[i].precision.Some? <==> f(ms[i]).Some?)
    ensures Present(Project(ms, f)) == ValuesOf(WithPrecision(ms), f)
    decreases |ms|
  {
    if |ms| > 0 {
      var init, m := ms[..|ms| - 1], ms[|ms| - 1];
      PresentOfValid(init, f);
      assert Project(ms, f)[..|ms| - 1] == Project(init, f);
      var v := WithPrecision(init);
      if m.precision.Some? {
        assert ValuesOf(v + [m], f) == ValuesOf(v, f) + [f(m).value];
      }
    }
  }

  // ---------------------------------------------------------------------------
  // Delay statistics (lines 145-168).

  /** The recorded delays, in folder order; folders without one are skipped. */
  function CollectDelays(ds: seq<SceneResult>): (delays: seq<int>)
    ensures |delays| <= |ds|
    ensures forall k :: 0 <= k < |delays| ==> exists i :: 0 <= i < |ds| && ds[i].delay == Some(delays[k])
    ensures forall i :: 0 <= i < |ds| && ds[i].delay.Some? ==> ds[i].delay.value in delays
    decreases |ds|
  {
    if |ds| == 0 then []
    else
      var init := CollectDelays(ds[..|ds| - 1]);
      assert forall i :: 0 <= i < |ds| - 1 ==> ds[..|ds| - 1][i] == ds[i];
      init + (if ds[|ds| - 1].delay.Some? then [ds[|ds| - 1].delay.value] else [])
  }

  lemma {:induction false} CollectDelaysAppend(a: seq<SceneResult>, b: seq<SceneResult>)
    ensures CollectDelays(a + b) == CollectDelays(a) + CollectDelays(b)
    decreases |b|
  {
    if |b| == 0 {
      assert a + b == a;
    } else {
      assert (a + b)[..|a + b| - 1] == a + b[..|b| - 1];
      CollectDelaysAppend(a, b[..|b| - 1]);
    }
  }

  /** Mean and sample variance of the delays; the reported deviation is the
      square root of the variance, 0 for fewer than two delays. */
  datatype DelayStats = NoDelays | DelayStats(mean: real, variance: real)

  function Square(x: real): (y: real)
    ensures y >= 0.0
  {
    if x >= 0.0 then x * x else (-x) * (-x)
  }

  function SquaredDeviations(xs: seq<real>, mean: real): (sq: seq<real>)
    ensures |sq| == |xs| && forall i :: 0 <= i < |sq| ==> sq[i] >= 0.0
  {
    seq(|xs|, i requires 0 <= i < |xs| => Square(xs[i] - mean))
  }

  /** The delays as numbers, as `statistics` reads them. */
  function Reals(delays: seq<int>): (xs: seq<real>)
    ensures |xs| == |delays| && forall i :: 0 <= i < |delays| ==> xs[i] == delays[i] as real
  {
    seq(|delays|, i requires 0 <= i < |delays| => delays[i] as real)
  }

  /** `statistics.mean` and, for two or more delays, the sample variance that
      `statistics.stdev` takes the root of: the squared deviations from the
      mean summed and divided by one less than the count. */
  function DelayStatistics(delays: seq<int>): (s: DelayStats)
    ensures s.NoDelays? <==> |delays| == 0
    ensures s.DelayStats? ==> s.mean * |delays| as real == Sum(Reals(delays))
    ensures s.DelayStats? ==> s.variance >= 0.0
    ensures s.DelayStats? && |delays| < 2 ==> s.variance == 0.0
    ensures s.DelayStats? && |delays| >= 2 ==>
      s.variance * (|delays| - 1) as real == Sum(SquaredDeviations(Reals(delays), s.mean))
  {
    if |delays| == 0 then NoDelays
    else
      var xs := Reals(delays);
      var mean := Mean(xs);
      if |delays| < 2 then DelayStats(mean, 0.0)
      else DelayStats(mean, SampleVariance(xs, mean))
  }

  /** The squared deviations from `mean`, summed and divided by one less than
      the count. */
  function SampleVariance(xs: seq<real>, mean: real): (v: real)
    requires |xs| >= 2
    ensures v >= 0.0
    ensures v * (|xs| - 1) as real == Sum(SquaredDeviations(xs, mean))
  {
    var total := Sum(SquaredDeviations(xs, mean));
    SumNonNegative(SquaredDeviations(xs, mean));
    DivideBack(total, (|xs| - 1) as real);
    total / (|xs| - 1) as real
  }

  lemma DivideBack(a: real, b: real)
    requires b > 0.0
    ensures a / b * b == a && (a >= 0.0 ==> a / b >= 0.0)
  {
  }

  /** Equal delays have that delay as their mean and no spread; in particular
      a single delay is its own mean. */
  lemma ConstantDelays(delays: seq<int>, c: int)
    requires |delays| > 0
    requires forall i :: 0 <= i < |delays| ==> delays[i] == c
    ensures DelayStatistics(delays) == DelayStats(c as real, 0.0)
  {
    var xs := Reals(delays);
    MeanConstant(xs, c as real);
    var sq := SquaredDeviations(xs, c as real);
    assert forall i :: 0 <= i < |sq| ==> sq[i] == 0.0;
    SumConstant(sq, 0.0);
  }

  lemma {:induction false} SumNonNegative(xs: seq<real>)
    requires forall i :: 0 <= i < |xs| ==> xs[i] >= 0.0
    ensures Sum(xs) >= 0.0
    decreases |xs|
  {
    if |xs| > 0 {
      SumNonNegative(xs[..|xs| - 1]);
    }
  }

  /** Delays recorded by the frame loop lie in [0, 1439], and so does their mean. */
  lemma DelayMeanInDay(ds: seq<SceneResult>)
    requires forall i :: 0 <= i < |ds| && ds[i].delay.Some? ==> 0 <= ds[i].delay.value < MinutesPerDay
    requires |CollectDelays(ds)| > 0
    ensures 0.0 <= DelayStatistics(CollectDelays(ds)).mean <= (MinutesPerDay - 1) as real
  {
    var delays := CollectDelays(ds);
    var xs := Reals(delays);
    forall k | 0 <= k < |xs| ensures 0.0 <= xs[k] <= (MinutesPerDay - 1) as real {
      var i :| 0 <= i < |ds| && ds[i].delay == Some(delays[k]);
    }
    MeanBounds(xs, 0.0, (MinutesPerDay - 1) as real);
  }

  // ---------------------------------------------------------------------------
  // The run as a whole.

  /** How `main` chooses its folders. */
  datatype Selection = OneFolder(dir: Dir) | WalkAll(dirs: seq<Dir>)

  /** The scene records of the selected folders, in order. */
  function Scenes(sel: Selection, scan: Scan): Result<seq<SceneResult>>
  {
    match sel
    case OneFolder(dir) => SingleFolder(dir, scan)
    case WalkAll(dirs) => WalkFolders(dirs, scan)
  }

  /** The metrics of each scene, in order (`all_metrics`). */
  function MetricsOf(ds: seq<SceneResult>): (ms: seq<Metrics>)
    ensures |ms| == |ds| && forall i :: 0 <= i < |ds| ==> ms[i] == CalculateDetectionMetrics(ds[i])
  {
    seq(|ds|, i requires 0 <= i < |ds| => CalculateDetectionMetrics(ds[i]))
  }

  /** The averaging at lines 127-132 succeeds exactly when no folder has
      detections that all come before ignition. */
  lemma AveragingSucceedsIff(ds: seq<SceneResult>)
    ensures GlobalAverages(MetricsOf(ds)).Ok? <==>
      forall i :: 0 <= i < |ds| ==> ds[i].afterDetected > 0 || ds[i].beforeDetected == 0
  {
    var ms := MetricsOf(ds);
    forall i | 0 <= i < |ds|
      ensures (ms[i].precision.Some? && (ms[i].recall.None? || ms[i].f1Score.None?))
              <==> ds[i].afterDetected == 0 && ds[i].beforeDetected > 0
    {
      MetricsBreakAverages(ds[i]);
    }
  }

  /** What a completed run writes: the prediction rows, the global averages
      and the delay statistics. */
  datatype Report = Report(rows: seq<seq<Cell>>, global: GlobalMetrics, delays: DelayStats)

  /** How a run of `main` ends: it completes; or it raises in the averaging,
      after the prediction rows are saved and before the delay file is
      written; or it raises while processing a folder, before anything is
      saved. */
  datatype Outcome =
    | Completed(report: Report)
    | RaisedAfterRows(rows: seq<seq<Cell>>, error: Error)
    | Raised(error: Error)

  /** `main` as written (lines 85-168). */
  function Evaluate(sel: Selection, scan: Scan): (r: Outcome)
    ensures r.Raised? <==> Scenes(sel, scan).Err?
    ensures r.Raised? ==> r.error == Scenes(sel, scan).error
    ensures r.RaisedAfterRows? ==>
      r.rows == SavePredictions(Scenes(sel, scan).value) && r.error == MeanOfNone
    ensures r.Completed? ==>
      var ds := Scenes(sel, scan).value;
      r.report.rows == SavePredictions(ds)
      && (r.report.global.NoValidMetrics? <==> forall i :: 0 <= i < |ds| ==> ds[i].afterDetected + ds[i].beforeDetected == 0)
      && (r.report.global.Averages? ==>
            var g := r.report.global;
            0.0 <= g.precision <= 1.0 && 0.0 <= g.recall <= 1.0 && 0.0 <= g.f1Score <= 1.0)
      && (r.report.delays.NoDelays? <==> forall i :: 0 <= i < |ds| ==> ds[i].delay.None?)
      && GlobalAverages(MetricsOf(ds)) == Ok(r.report.global)
      && r.report.delays == DelayStatistics(CollectDelays(ds))
  {
    match Scenes(sel, scan)
    case Err(e) => Raised(e)
    case Ok(ds) =>
      var ms := MetricsOf(ds);
      match GlobalAverages(ms)
      case Err(e) => RaisedAfterRows(SavePredictions(ds), e)
      case Ok(global) =>
        AveragingSucceedsIff(ds);
        AveragesInUnitRange(ds);
        CollectDelaysEmpty(ds);
        Completed(Report(SavePredictions(ds), global, DelayStatistics(CollectDelays(ds))))
  }

  /** The run stops in the averaging, after saving the rows, exactly when
      folder processing succeeds and some folder's detections all come before
      ignition. */
  lemma EvaluateRaisesAfterRowsIff(sel: Selection, scan: Scan)
    ensures Evaluate(sel, scan).RaisedAfterRows? <==>
      Scenes(sel, scan).Ok?
      && exists i :: 0 <= i < |Scenes(sel, scan).value|
           && Scenes(sel, scan).value[i].afterDetected == 0 && Scenes(sel, scan).value[i].beforeDetected > 0
  {
    if Scenes(sel, scan).Ok? {
      AveragingSucceedsIff(Scenes(sel, scan).value);
    }
  }

  /** What the corrected run writes: the rows, the per-metric corpus means,
      and the delay statistics. */
  datatype CorrectedReport = CorrectedReport(rows: seq<seq<Cell>>, global: CorpusMetrics, delays: DelayStats)

  /** `main` with the averaging replaced by `CorpusAverages`: it raises only
      where folder processing does. */
  function EvaluateCorrected(sel: Selection, scan: Scan): (r: Result<CorrectedReport>)
    ensures r.Err? <==> Scenes(sel, scan).Err?
    ensures r.Ok? ==> r.value.rows == SavePredictions(Scenes(sel, scan).value)
    ensures sel.OneFolder? && r.Ok? ==> |r.value.rows| == 1
    ensures r.Ok? ==>
      var g := r.value.global;
      (g.precision.Some? ==> 0.0 <= g.precision.value <= 1.0)
      && (g.recall.Some? ==> 0.0 <= g.recall.value <= 1.0)
      && (g.f1Score.Some? ==> 0.0 <= g.f1Score.value <= 1.0)
    ensures r.Ok? ==>
      (r.value.delays.NoDelays? <==> forall i :: 0 <= i < |Scenes(sel, scan).value| ==> Scenes(sel, scan).value[i].delay.None?)
    ensures r.Ok? ==>
      r.value.global == CorpusAverages(MetricsOf(Scenes(sel, scan).value))
      && r.value.delays == DelayStatistics(CollectDelays(Scenes(sel, scan).value))
  {
    match Scenes(sel, scan)
    case Err(e) => Err(e)
    case Ok(ds) =>
      CorpusAveragesInUnitRange(ds);
      CollectDelaysEmpty(ds);
      Ok(CorrectedReport(SavePredictions(ds), CorpusAverages(MetricsOf(ds)), DelayStatistics(CollectDelays(ds))))
  }

  lemma {:induction false} CollectDelaysEmpty(ds: seq<SceneResult>)
    ensures |CollectDelays(ds)| == 0 <==> forall i :: 0 <= i < |ds| ==> ds[i].delay.None?
    decreases |ds|
  {
    if |ds| > 0 {
      var init := ds[..|ds| - 1];
      CollectDelaysEmpty(init);
      assert forall i :: 0 <= i < |init| ==> init[i] == ds[i];
    }
  }
}
