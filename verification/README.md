# Wildfire video evaluation and dataset building, modelled in Dafny

This project models the core of a wildfire-smoke detection evaluator for
time-lapse camera videos, and of the script that builds its video training set.

- **The scene evaluator.** For one camera folder:
  - it looks up the ignition time;
  - it walks the frames in time order and asks a detector for boxes;
  - optionally it confirms each size-gated, expanded box with a temporal
    classifier run on crops of the preceding frames;
  - it counts true and false verdicts before and after ignition;
  - it builds a per-frame label list with a one-time ignition marker;
  - it records the delay of the first detection after the ignition frame.
- **Metrics.** The per-scene metrics are precision, recall and F1, each absent
  when its denominator is zero.
- **The corpus driver:**
  - it chooses folders, skipping `labels` directories;
  - it saves one prediction row per folder;
  - it averages the metrics;
  - it summarises the delays.
- **The dataset builder:**
  - it groups label files by the timestamps in their paths;
  - it drops small or mostly empty groups;
  - it cuts the shuffled group ids into train, validation and test;
  - it copies the first four unused files of each selected group.

Each module mirrors one part of the program:

| file | module | program part |
|---|---|---|
| base.dfy | `Base` | `Option`, `Result`, the error kinds, and `Sum`/`Mean` (`statistics.mean` on rationals) |
| geometry.dfy | `Geometry` | `is_bounding_box_large_enough` and `expand_bounding_box` |
| filenames.dfy | `FileNames` | the `.jpg` filter, the fixed-width timestamp slice of a frame name, the parsing of every sort key, and the stable sort by time |
| frame_classifier.dfy | `FrameClassifier` | the per-frame verdict (detector only, or detector plus temporal confirmer) |
| ignition.dfy | `IgnitionTime` | `get_ignition_time` |
| scene.dfy | `SceneEvaluator` | the frame loop as a fold, its reference definitions, and the lemmas connecting them |
| file_processor.dfy | `FileProcessor` | `process_files_in_folder`: the frame list of a listing, and the frame loop as an imperative loop checked against the fold |
| analysis.dfy | `Analysis` | `calculate_detection_metrics` |
| evaluation.dfy | `Evaluation` | `save_predictions_to_json`, the folder selection of `main`, the global averages and the delay statistics |
| dataset.dfy | `VideoDataset` | `group_files_by_time`, `filter_groups`, and `split_and_save_groups` with its inner `save_subset` |
| scenarios.dfy | `Scenarios` | the two worked five-frame scenes |

Some things are parameters, because they are I/O or foreign code:
- the detector (already thresholded on confidence);
- the temporal classifier;
- the square root used by the box expansion;
- `strptime`, as a partial function from text to seconds (None where it raises);
- the directory listing of a folder, and the size of each frame image;
- the per-folder scan that reads the disk;
- the line counter of a label file;
- the shuffled id order and the cut points of the split.

Timestamps are whole seconds. Ratios are exact rationals.

Five behaviours of the code are easy to misread. The model follows the code in each:
- The ignition marker `0` is appended, and the delay clock armed, only on a frame whose time *equals* the ignition time. If no frame falls exactly on it, neither happens, and the delay stays absent even when frames after ignition are detected.
- The loop over boxes never breaks. The verdict is the disjunction over all boxes.
- When nothing is detected in a scene that has after-ignition frames, recall is `0`, not absent (`Scenarios.NothingDetected`). Only precision is absent.
- The global mean is taken over the folders whose *precision* is defined, for all three metrics. This raises on some inputs; `Evaluation.Evaluate` raises with it, after the prediction rows are saved. See Findings.
- Ignition times are full date-times (`%Y-%m-%d %H:%M:%S`), not times of day.

## Model

| member | source | states |
|---|---|---|
| Geometry.LargeEnough | src/videos/eval/utils/file_processor.py:25-29 | a box that passes the default 20..200 gate has strictly positive extents, so the expansion's `+1` denominators are non-zero |
| Geometry.GateIsInclusiveAndShiftInvariant | src/videos/eval/utils/file_processor.py:25-29 | the gate depends only on width and height (translation never changes it), and both bounds are inclusive: 20 and 200 pass, 19 and 201 fail |
| Geometry.Trunc | src/videos/eval/utils/file_processor.py:23 | `int()` of a float truncates toward zero: within 1 of the input, below it for positives and above it for negatives |
| Geometry.ExpandBox | src/videos/eval/utils/file_processor.py:18-23 | whatever the growth, the expanded corners are clamped into the image: left/top at least 0, right/bottom at most the image size |
| Geometry.ExpandContains | src/videos/eval/utils/file_processor.py:12-23 | a box inside the image, grown by a non-negative amount, lies inside its expansion, and the expansion lies inside the image |
| FileNames.JpgFiles | src/videos/eval/utils/file_processor.py:50 | the frame list keeps exactly the names ending in `.jpg`, and nothing else |
| FileNames.JpgFilesAppend | src/videos/eval/utils/file_processor.py:50 | the `.jpg` filter distributes over concatenation and keeps a single name iff it ends in `.jpg`, so the listing's order and repetitions are kept |
| FileNames.StampText | src/videos/eval/utils/file_processor.py:93 | for a name of at least 23 characters the slice is the 19 characters just before the 4-character extension; a shorter name gives a shorter text |
| FileNames.StampTextRoundTrip | src/videos/eval/utils/file_processor.py:93 | a 19-character stamp placed before any 4-character extension, after any prefix, is read back unchanged |
| FileNames.StampAll | src/videos/eval/utils/file_processor.py:49-52 | the sort keys exist iff every name's stamp parses, and are then each name with its parsed time, in list order; otherwise the error is the `ValueError` of the first name whose stamp does not parse |
| FileNames.SortByTime | src/videos/eval/utils/file_processor.py:49-52 | the sorted list is a permutation of the input, and its times never decrease |
| FileNames.SortIsStable | src/videos/eval/utils/file_processor.py:49-52 | `sorted` is stable: for every time, the names with that time keep their input order |
| FileNames.SortKeepsSorted | src/videos/eval/utils/file_processor.py:49-52 | a list already in time order is returned unchanged |
| FrameClassifier.CropWindow | src/videos/eval/utils/file_processor.py:117-119 | the cropped frames are the last `min(idx, frames_back) + 1` frames up to and including the current one |
| FrameClassifier.AnyConfirms | src/videos/eval/utils/file_processor.py:109-127 | a frame is detected exactly when at least one of its boxes passes the gate, has a full window, and scores above 0.5 |
| FrameClassifier.Flatten | src/videos/eval/utils/file_processor.py:134 | the recorded box list has four integers per box, the corners in order |
| FrameClassifier.Verdict | src/videos/eval/utils/file_processor.py:103-146 | without a confirmer a frame is detected iff it has boxes, and its boxes are recorded; with one, it is detected iff the window is full and some gated box confirms, and nothing is recorded |
| FrameClassifier.NoConfirmationBeforeWindowFills | src/videos/eval/utils/file_processor.py:121-122 | with a confirmer, no frame before index `frames_back` can be detected, since its crop count never reaches `frames_back + 1` |
| IgnitionTime.ParseEntry | src/videos/eval/utils/ignition_time.py:11-12 | an entry without `folder` raises `KeyError('folder')`; a matching entry without `ignition_time` raises `KeyError('ignition_time')`; otherwise it yields the parsed time, or the `ValueError` of its text |
| IgnitionTime.GetIgnitionTime | src/videos/eval/utils/ignition_time.py:9-13 | the scan stops at the first entry that is for the folder or lacks `folder`, and that entry decides; if there is none there is no ignition, and no ignition means there is none |
| IgnitionTime.LaterEntriesIgnored | src/videos/eval/utils/ignition_time.py:10-12 | once an entry where the scan stops exists, appending entries cannot change the answer |
| IgnitionTime.OtherFoldersIgnored | src/videos/eval/utils/ignition_time.py:10-11 | inserting a complete-keyed entry for another folder anywhere cannot change the answer |
| SceneEvaluator.PhaseOf | src/videos/eval/utils/file_processor.py:148-163 | a frame is before ignition iff there is no ignition or its time is earlier; it is at ignition iff its time equals the ignition time |
| SceneEvaluator.DelayMinutes | src/videos/eval/utils/file_processor.py:189-195 | the delay lies in [0, 1439], and is the whole minutes of the elapsed time modulo one day |
| SceneEvaluator.DelayWithinADay | src/videos/eval/utils/file_processor.py:189-195 | within a day of ignition the delay is the elapsed time in whole minutes; whole days are dropped |
| SceneEvaluator.Label | src/videos/eval/utils/file_processor.py:155-182 | a frame's label is ±1, and +1 exactly for an undetected frame before ignition or a detected frame at or after it |
| SceneEvaluator.StepCounts | src/videos/eval/utils/file_processor.py:155-182 | one frame adds one to the counter of its bucket (before/after × detected/not) and to no other; name and total are kept |
| SceneEvaluator.StepFacts | src/videos/eval/utils/file_processor.py:148-197 | one frame appends its label, preceded by the marker iff it is exactly at ignition and no marker was written; the loop arms at an exact-ignition frame and stays armed; a delay once set is kept, and a new one comes from a detected frame of an armed loop |
| SceneEvaluator.RunCounts | src/videos/eval/utils/file_processor.py:155-182 | each counter counts its bucket (before/after × detected/not), the four add up to the number of frames, and name and total are kept |
| SceneEvaluator.RunLabels | src/videos/eval/utils/file_processor.py:155-182 | the label list is the frame labels in order, with one `0` inserted just before the first frame exactly at ignition |
| SceneEvaluator.RunDelay | src/videos/eval/utils/file_processor.py:183-197 | the loop is armed iff some frame was exactly at ignition, and the delay is measured at the first detected frame from there on, if any |
| SceneEvaluator.RunBoxes | src/videos/eval/utils/file_processor.py:132-134 | the bounding-box list holds exactly the recorded box lists, in frame order |
| SceneEvaluator.LabelsShape | src/videos/eval/utils/file_processor.py:155-182 | the label list has one entry per frame plus one iff some frame is at ignition; its values are in {-1, 0, 1}, with at most one 0 |
| SceneEvaluator.NoIgnitionAllBefore | src/videos/eval/utils/file_processor.py:148-161 | without an ignition entry both after-counters stay 0, no marker is written and no delay is recorded |
| SceneEvaluator.DelayRecordedOnlyAfterIgnition | src/videos/eval/utils/file_processor.py:183-197 | a recorded delay lies in [0, 1439] and comes from a detected frame at or after an exact-ignition frame |
| SceneEvaluator.DelayWrittenOnce | src/videos/eval/utils/file_processor.py:186 | once the delay is recorded, later frames never change it |
| SceneEvaluator.TemporalModeRecordsNoBoxes | src/videos/eval/utils/file_processor.py:105-134 | with a temporal confirmer the bounding-box list stays empty |
| FileProcessor.ListFrames | src/videos/eval/utils/file_processor.py:49-52 | the frame list raises iff some `.jpg` name's stamp does not parse, with the first such error; otherwise it has one frame per `.jpg` name, in non-decreasing time, each built from a `.jpg` name of the listing with its parsed time and image size, the same stamps as the listing, and equal times in listing order |
| FileProcessor.SortedFrames | src/videos/eval/utils/file_processor.py:49-52 | the frames of the sorted keys are in time order, come from the listing, are a permutation of the keys, and keep equal times in listing order |
| FileProcessor.ProcessFilesInFolder | src/videos/eval/utils/file_processor.py:45-205 | a bad or incomplete ignition entry raises first, then an unparsable frame stamp; a folder without `.jpg` files gives None; otherwise the loop's record over the sorted frames matches the reference counts, labels, delay and boxes |
| FileProcessor.WalkFrames | src/videos/eval/utils/file_processor.py:92-197 | the loop over the frames builds the record the fold prescribes: the reference counts, labels, delay and boxes, with name and total kept |
| FileProcessor.VisitFrame | src/videos/eval/utils/file_processor.py:132-197 | one frame is one step of the fold; exactly one of the four counters grows by one; the loop is armed once a frame is exactly at ignition and stays armed; a recorded delay is never overwritten |
| Base.Mean | src/videos/eval/eval.py:130-132 | `statistics.mean`: the mean times the number of values is their sum |
| Base.MeanConstant | src/videos/eval/eval.py:162 | the mean of values that are all equal is that value |
| Analysis.Ratio | src/videos/eval/utils/analysis.py:9-11 | a ratio exists iff its denominator is positive; it then lies in [0, 1] and times the denominator gives the numerator |
| Analysis.HarmonicMean | src/videos/eval/utils/analysis.py:13-15 | F1 lies in [0, 1] and satisfies F1 · (p + r) = 2 · p · r |
| Analysis.CalculateDetectionMetrics | src/videos/eval/utils/analysis.py:5-35 | counters are copied; the delay is copied or -1; precision and recall exist iff their denominators are positive and then solve their defining equations; F1 exists iff both exist with a positive sum |
| Analysis.F1FromCounts | src/videos/eval/utils/analysis.py:9-15 | F1 exists iff some after-ignition frame was detected, and then equals 2·TP / (2·TP + FP + FN) |
| Analysis.F1BetweenPrecisionAndRecall | src/videos/eval/utils/analysis.py:13-15 | F1 lies between precision and recall |
| Evaluation.SavePredictions | src/videos/eval/eval.py:22-34 | one saved row per processed folder (its partner, the round trip, is the next row) |
| Evaluation.SavedRowsRoundTrip | src/videos/eval/eval.py:22-34 | each saved row reads back as its scene's folder name followed by its label list, unchanged, in processing order |
| Evaluation.VisitFolder | src/videos/eval/eval.py:102-120 | a directory whose name contains "labels" in any case is skipped; otherwise its error propagates, and it contributes one record iff the scan returned one |
| Evaluation.WalkFolders | src/videos/eval/eval.py:101-120 | the walk succeeds iff every directory's visit succeeds, and yields at most one record per directory |
| Evaluation.WalkFoldersAppend | src/videos/eval/eval.py:101-120 | walking two directory lists is walking each in turn: the first error wins, otherwise the records are concatenated |
| Evaluation.WalkOneFolder | src/videos/eval/eval.py:102-120 | a single directory contributes exactly its visit |
| Evaluation.SingleFolder | src/videos/eval/eval.py:85-98 | single-folder mode succeeds iff the scan gives a record; an empty folder fails, because the metrics are computed without a None test |
| Evaluation.GlobalAverages | src/videos/eval/eval.py:126-143 | as written: no averages iff no folder has a precision; an error iff some folder with a precision lacks recall or F1 |
| Evaluation.WithPrecisionAppend | src/videos/eval/eval.py:128 | `valid_metrics` is the order-keeping filter on a defined precision: it distributes over concatenation and keeps a single folder iff its precision is defined |
| Evaluation.GlobalAveragesValue | src/videos/eval/eval.py:128-132 | when the averaging completes with averages, every folder with a precision has all three metrics, and each average is the `Mean` of that metric over those folders, in order |
| Evaluation.UndefinedPrecisionIgnored | src/videos/eval/eval.py:128 | adding a folder without a precision does not change the averages |
| Evaluation.AveragesInUnitRange | src/videos/eval/eval.py:129-132 | when no folder's detections all come before ignition, the averaging of metrics produced by `calculate_detection_metrics` succeeds and the averages lie in [0, 1] |
| Evaluation.AveragingSucceedsIff | src/videos/eval/eval.py:127-132 | the averaging of the computed metrics succeeds exactly when no folder's detections all come before ignition |
| Evaluation.MetricsBreakAverages | src/videos/eval/eval.py:128-132 | a folder breaks the averaging exactly when it has detections, none of them at or after ignition |
| Evaluation.FalseAlarmFolderBreaksAverages | src/videos/eval/eval.py:128-132 | one folder whose only detections precede ignition makes the averaging raise |
| Evaluation.CorpusAverages | src/videos/eval/eval.py:126-143 | corrected: each mean is absent iff no folder has that metric, and otherwise is the `Mean` of that metric's defined values over the folders |
| Evaluation.PresentAppend | src/videos/eval/eval.py:126-143 | corrected: the defined values of a metric are the order-keeping filter on `Some`: it distributes over concatenation and keeps a single entry iff it is defined |
| Evaluation.AbsentMetricIgnored | src/videos/eval/eval.py:128 | a folder missing a metric leaves that metric's corrected mean unchanged |
| Evaluation.OneUndefinedPrecision | src/videos/eval/eval.py:128-130 | for two folders, one without a precision, the corpus precision is exactly the other folder's |
| Evaluation.CorpusAveragesInUnitRange | src/videos/eval/eval.py:129-132 | corrected means of computed metrics lie in [0, 1] |
| Evaluation.CorpusAgreesWhenComplete | src/videos/eval/eval.py:126-143 | when each folder has all three metrics or none, the source's averaging succeeds and equals the corrected one |
| Evaluation.CollectDelays | src/videos/eval/eval.py:151-158 | every collected delay is some folder's recorded delay, and every folder's recorded delay is collected |
| Evaluation.CollectDelaysAppend | src/videos/eval/eval.py:151-157 | collecting delays over two folder lists concatenates their delays |
| Evaluation.DelayStatistics | src/videos/eval/eval.py:160-166 | statistics exist iff some delay exists; the mean times the count is the sum of the delays; the variance is 0 for fewer than two delays and otherwise times (n - 1) is the sum of squared deviations from the mean |
| Evaluation.ConstantDelays | src/videos/eval/eval.py:160-163 | delays that are all equal have that value as their mean and a variance of 0 |
| Evaluation.DelayMeanInDay | src/videos/eval/eval.py:161-162 | the mean of delays recorded by the frame loop lies in [0, 1439] |
| Evaluation.Evaluate | src/videos/eval/eval.py:85-168 | as written: the run raises before saving iff folder processing raises, with that error; if it stops in the averaging, the rows were saved and the error is the `TypeError` of `statistics.mean`; a completed run saved the rows, has no averages iff no folder detected anything, has averages in [0, 1], its averages are those of the averaging over the folders' metrics, and its delay statistics are those of the collected delays, absent iff no folder has a delay |
| Evaluation.EvaluateRaisesAfterRowsIff | src/videos/eval/eval.py:122-132 | the run stops in the averaging, after saving the rows, exactly when folder processing succeeds and some folder's detections all come before ignition |
| Evaluation.EvaluateCorrected | src/videos/eval/eval.py:85-168 | corrected: the run raises iff folder processing raises; it saves the same rows (one in single-folder mode), its means are the corrected per-metric means of the folders' metrics and lie in [0, 1], and its delay statistics are those of the collected delays, absent iff no folder has a delay |
| VideoDataset.SearchStamp | src/videos/train/utils/make_video_ds.py:41 | the match found is a stamp, and no stamp starts earlier; no match means no stamp anywhere |
| VideoDataset.GroupRunMeetsReference | src/videos/train/utils/make_video_ds.py:34-51 | grouping fails iff some matched stamp does not parse; otherwise its groups, flattened, are the matched files in input order, with ids that follow the two-minute gap rule |
| VideoDataset.GroupFilesByTimeSpec | src/videos/train/utils/make_video_ds.py:36-48 | there are groups iff some file matched; ids are consecutive from -1 or 0, and every group is non-empty |
| VideoDataset.GroupRunFilesDistinct | src/videos/train/utils/make_video_ds.py:34-51 | grouping distinct paths puts no file twice into a group, and every grouped file is an input path |
| VideoDataset.NonEmptyFiles | src/videos/train/utils/make_video_ds.py:59 | a file is kept iff it is in the group and has at least one line |
| VideoDataset.NonEmptyFilesAppend | src/videos/train/utils/make_video_ds.py:59 | the filter of a concatenation is the concatenation of the filters, and one file is kept iff it has a line: so the kept files keep their order and multiplicity |
| VideoDataset.FilterGroups | src/videos/train/utils/make_video_ds.py:54-64 | every kept group has at least four files, all non-empty |
| VideoDataset.FilterGroupsMembers | src/videos/train/utils/make_video_ds.py:57-61 | a group is kept, under its own id and reduced to its non-empty files, iff it has at least four files of which at least four are non-empty |
| VideoDataset.FilterGroupsNoDuplicates | src/videos/train/utils/make_video_ds.py:54-64 | filtering never makes a group list a file twice |
| VideoDataset.FilterGroupsIdempotent | src/videos/train/utils/make_video_ds.py:54-64 | filtering twice is filtering once |
| VideoDataset.SplitIds | src/videos/train/utils/make_video_ds.py:73-79 | the three slices, clipped as Python clips, concatenate back to the id list, with sizes fixed by the cut points, and each slice is the matching run of the id list |
| VideoDataset.SplitDisjoint | src/videos/train/utils/make_video_ds.py:77-79 | with distinct ids, no group lands in two subsets |
| VideoDataset.Unused | src/videos/train/utils/make_video_ds.py:87 | the unused files are exactly the group's files not yet used |
| VideoDataset.UnusedAppend | src/videos/train/utils/make_video_ds.py:87 | the filter of a concatenation is the concatenation of the filters, and one file is kept iff it is unused: so the unused files keep the group's order |
| VideoDataset.Selection | src/videos/train/utils/make_video_ds.py:87-89 | a group contributes exactly the first four of its unused files when it has at least four, and nothing otherwise |
| VideoDataset.SaveSubset | src/videos/train/utils/make_video_ds.py:85-92 | the used set only grows, earlier copies are kept, and every new copy is for this subset and one of its group ids |
| VideoDataset.SaveSubsetAppend | src/videos/train/utils/make_video_ds.py:85-92 | saving ids `a + b` is saving `a`, then `b` from that state; one id appends the copies of its selection, tagged with the subset and group id, and adds the selected files to the used set |
| VideoDataset.SaveSubsetNoFileTwice | src/videos/train/utils/make_video_ds.py:85-92 | the used set grows by exactly the copied files, and no file is copied twice or after being used |
| VideoDataset.SplitAndSaveGroups | src/videos/train/utils/make_video_ds.py:67-109 | the result is saving the train slice from an empty state, then the val slice, then the test slice, sharing one used set; every copy is labelled train, val or test and is of a group whose id lies in that subset's slice |
| VideoDataset.SplitAndSaveNoFileTwice | src/videos/train/utils/make_video_ds.py:83-109 | across train, val and test no label file is copied twice, and the used set is exactly the copied files |
| VideoDataset.PipelineNoFileTwice | src/videos/train/utils/make_video_ds.py:34-109 | from distinct label paths through grouping, filtering and the split, no label file is copied twice and the used set is exactly the copied files |
| Scenarios.DetectedFromIgnition | src/videos/eval/utils/file_processor.py:155-197 | five frames, ignition at the third, detections from the third on: counts 2/0/0/3, labels [1,1,0,1,1,1], delay 0, and precision, recall and F1 all 1 |
| Scenarios.NothingDetected | src/videos/eval/utils/file_processor.py:155-197 | the same scene with no detection: counts 2/0/3/0, labels [1,1,0,-1,-1,-1], no delay, no precision, recall 0, no F1 |

## Left out

- Image reading, drawing, writing detection images, temporary crop files and their clean-up, plots, metric files, the JSON and text outputs (only their row contents are modelled), and all printing: these are I/O.
- Unreadable images: every frame image is assumed readable. The crop count then equals the window length, and image dimensions are fields of a frame.
- Calendar parsing (`strptime`) is a parameter giving seconds, or None where it raises. The frame loop parses each stamp again (line 93); it gives the same time as the sort key, so one parse per name is modelled.
- The YOLO detector, the LSTM-ResNet classifier, the model loader and the confidence threshold: the detector and the classifier are parameters.
- Geometry.GrowthFor: the square root and the floating-point arithmetic of `expand_bounding_box` are a parameter and exact rationals, so float rounding before `int()` is not modelled.
- Evaluation.DelayStatistics: the standard deviation is given as the sample variance; the square root inside `statistics.stdev` is not taken.
- Evaluation.Lower: `str.lower()` is modelled for ASCII letters only; other Unicode case mappings are not.
- VideoDataset.IsStamp: `\d` is modelled as the ASCII digits; Python also accepts other Unicode digits.
- `datetime.now()` as the seed of the last time in the grouping is a parameter in seconds.
- `random.shuffle` and `int(n * ratio)`: the shuffled order and the two cut points are parameters of the split.
- `_copy_pair`'s path rewriting (`labels/` to images, `.txt` to `.jpg`) and the copies themselves: a copy is recorded as (subset, group id, label file).
- `find_label_files`, `count_files_in_sets`, the script's `__main__` block, `os.walk`'s recursion (the directory names arrive as one list in walk order), configuration loading and the other scripts of the repository (graph plotting, image training and evaluation, lag fixing, ignition labelling GUI): outside the modelled core.
- A negative `frames_back`: it is a natural number here.
- Re-running on identical inputs gives identical results trivially, because every member is a function of its inputs.

## Findings

| source | as written | input that shows it | evidently intended | confidence | as-written member | corrected member |
|---|---|---|---|---|---|---|
| src/videos/eval/eval.py:128-132 | folders are filtered on precision only, then recall and F1 are averaged over the same folders | one folder whose only detections come before ignition: precision 0, and recall absent (no after-ignition frames) or F1 absent (recall 0): `statistics.mean` raises `TypeError` on the `None` | each metric averaged over the folders where it is defined | not executed; medium (the raise is certain; the intended averaging is read from the comment "Compute and save global precision/recall/F1 if available" and the message "No files with sufficient metrics to calculate averages") | Evaluation.FalseAlarmFolderBreaksAverages | Evaluation.EvaluateCorrected |
