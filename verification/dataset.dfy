/** Building the video training set (src/videos/train/utils/make_video_ds.py,
    lines 19-109): label files are grouped by the proximity of the timestamps in
    their paths, small or mostly empty groups are dropped, the shuffled group ids
    are cut into train, validation and test, and each subset copies the first
    four unused files of each of its groups. Shuffling, file copying and the
    float products behind the cut points are not modelled: the id order and the
    cut points are parameters. */
module VideoDataset {
  import opened Base

  /** `GROUP_MIN_SIZE`. */
  const GroupMinSize: nat := 4

  /** `TIME_THRESHOLD`: two minutes, in seconds. */
  const TimeThreshold: real := 120.0

  // ---------------------------------------------------------------------------
  // Finding the timestamp in a path: `re.search(r"(\d{4}_\d{2}_\d{2}T\d{2}_\d{2}_\d{2})", file)`.

  /** The shape of a stamp, one character per position; 'D' stands for a digit. */
  const StampShape: string := "DDDD_DD_DDTDD_DD_DD"

  predicate ShapeChar(p: char, c: char)
  {
    if p == 'D' then '0' <= c <= '9' else c == p
  }

  predicate IsStamp(w: string)
  {
    |w| == |StampShape| && forall i :: 0 <= i < |w| ==> ShapeChar(StampShape[i], w[i])
  }

  /** A stamp starts at position `j` of `s`. */
  predicate StampAt(s: string, j: int)
  {
    0 <= j && j + |StampShape| <= |s| && IsStamp(s[j..j + |StampShape|])
  }

  /** The leftmost stamp at or after position `from`, as `re.search` finds it. */
  function SearchStamp(s: string, from: nat): (r: Option<nat>)
    ensures r.Some? ==> from <= r.value && StampAt(s, r.value)
    ensures r.Some? ==> forall j :: from <= j < r.value ==> !StampAt(s, j)
    ensures r.None? ==> forall j :: from <= j ==> !StampAt(s, j)
    decreases |s| - from
  {
    if from + |StampShape| > |s| then None
    else if IsStamp(s[from..from + |StampShape|]) then Some(from)
    else SearchStamp(s, from + 1)
  }

  /** The matched stamp text of a path, if any. */
  function FindStamp(s: string): (r: Option<string>)
    ensures r.Some? ==> IsStamp(r.value)
  {
    match SearchStamp(s, 0)
    case None => None
    case Some(k) => Some(s[k..k + |StampShape|])
  }

  // ---------------------------------------------------------------------------
  // Grouping by time (lines 34-51).

  /** A group of label files under its integer id. */
  datatype Group = Group(id: int, files: seq<string>)

  /** A matched file and its parsed timestamp, in seconds. */
  datatype Stamped = Stamped(file: string, time: int)

  function AbsReal(x: real): real { if x < 0.0 then -x else x }

  /** The first position of a key in an insertion-ordered dictionary. */
  function IndexOfKey(groups: seq<Group>, key: int): (r: Option<nat>)
    ensures r.Some? ==> r.value < |groups| && groups[r.value].id == key
    ensures r.None? ==> forall k :: 0 <= k < |groups| ==> groups[k].id != key
    decreases |groups|
  {
    if |groups| == 0 then None
    else if groups[0].id == key then Some(0)
    else match IndexOfKey(groups[1..], key)
      case None => None
      case Some(k) => Some(k + 1)
  }

  /** `groups.setdefault(key, []).append(file)` on an insertion-ordered dictionary. */
  function AppendToGroup(groups: seq<Group>, key: int, file: string): seq<Group>
  {
    match IndexOfKey(groups, key)
    case Some(k) => groups[k := Group(key, groups[k].files + [file])]
    case None => groups + [Group(key, [file])]
  }

  /** The loop variables `current_group`, `last_time` and `groups`. */
  datatype GroupingState = GroupingState(current: int, lastTime: real, groups: seq<Group>)

  /** One iteration for `file`; `now` seeds `last_time`, `parse` is `strptime`. */
  function GroupStep(st: GroupingState, file: string, parse: string -> Option<int>): Result<GroupingState>
  {
    match FindStamp(file)
    case None => Ok(st)
    case Some(stamp) =>
      match parse(stamp)
      case None => Err(UnparsableTime(stamp))
      case Some(t) =>
        var current := if AbsReal(t as real - st.lastTime) > TimeThreshold then st.current + 1 else st.current;
        Ok(GroupingState(current, t as real, AppendToGroup(st.groups, current, file)))
  }

  function GroupRun(files: seq<string>, now: real, parse: string -> Option<int>): Result<GroupingState>
    decreases |files|
  {
    if |files| == 0 then Ok(GroupingState(-1, now, []))
    else match GroupRun(files[..|files| - 1], now, parse)
      case Err(e) => Err(e)
      case Ok(st) => GroupStep(st, files[|files| - 1], parse)
  }

  /** `group_files_by_time`: the groups in insertion (and id) order. */
  function GroupFilesByTime(files: seq<string>, now: real, parse: string -> Option<int>): Result<seq<Group>>
  {
    match GroupRun(files, now, parse)
    case Err(e) => Err(e)
    case Ok(st) => Ok(st.groups)
  }

  /** Reference: the matched files with their times, in input order; the first
      unparsable stamp raises. */
  function StampedFiles(files: seq<string>, parse: string -> Option<int>): Result<seq<Stamped>>
    decreases |files|
  {
    if |files| == 0 then Ok([])
    else match StampedFiles(files[..|files| - 1], parse)
      case Err(e) => Err(e)
      case Ok(ss) =>
        match FindStamp(files[|files| - 1])
        case None => Ok(ss)
        case Some(stamp) =>
          match parse(stamp)
          case None => Err(UnparsableTime(stamp))
          case Some(t) => Ok(ss + [Stamped(files[|files| - 1], t)])
  }

  /** The groups flattened into (id, file) pairs, in order. */
  function GroupPairs(g: Group): seq<(int, string)>
  {
    seq(|g.files|, i requires 0 <= i < |g.files| => (g.id, g.files[i]))
  }

  function Pairs(gs: seq<Group>): seq<(int, string)>
    decreases |gs|
  {
    if |gs| == 0 then [] else Pairs(gs[..|gs| - 1]) + GroupPairs(gs[|gs| - 1])
  }

  /** The id of the group each matched file lands in: the first is 0 if it is
      more than two minutes from `now` and -1 otherwise, and each later file
      opens a new group exactly when it is more than two minutes from the
      previous matched file. */
  ghost predicate IdsFollowGaps(ps: seq<(int, string)>, ss: seq<Stamped>, now: real)
  {
    && |ps| == |ss|
    && (forall i :: 0 <= i < |ss| ==> ps[i].1 == ss[i].file)
    && (|ss| > 0 ==> ps[0].0 == (if AbsReal(ss[0].time as real - now) > TimeThreshold then 0 else -1))
    && (forall i :: 0 < i < |ss| ==>
          ps[i].0 == ps[i - 1].0 + (if AbsReal((ss[i].time - ss[i - 1].time) as real) > TimeThreshold then 1 else 0))
  }

  /** Ids are consecutive from the first group's, and no group is empty. */
  ghost predicate ConsecutiveNonEmpty(gs: seq<Group>)
  {
    forall k :: 0 <= k < |gs| ==> gs[k].id == gs[0].id + k && |gs[k].files| > 0
  }

  ghost predicate GroupingInvariant(st: GroupingState, ss: seq<Stamped>, now: real)
  {
    var ps := Pairs(st.groups);
    && (|ss| == 0 ==> st.groups == [] && st.current == -1 && st.lastTime == now)
    && ConsecutiveNonEmpty(st.groups)
    && IdsFollowGaps(ps, ss, now)
    && (|ss| > 0 ==>
          |st.groups| > 0 && st.groups[|st.groups| - 1].id == st.current
          && st.lastTime == ss[|ss| - 1].time as real
          && ps[|ps| - 1].0 == st.current)
  }

  lemma IndexOfConsecutive(gs: seq<Group>, key: int)
    requires |gs| > 0 && ConsecutiveNonEmpty(gs)
    ensures gs[0].id <= key < gs[0].id + |gs| ==> IndexOfKey(gs, key) == Some(key - gs[0].id)
    ensures key >= gs[0].id + |gs| ==> IndexOfKey(gs, key).None?
  {
    if gs[0].id <= key < gs[0].id + |gs| {
      assert gs[key - gs[0].id].id == key;
      var k := IndexOfKey(gs, key).value;
      assert gs[k].id == gs[0].id + k;
    } else if key >= gs[0].id + |gs| {
      assert forall k :: 0 <= k < |gs| ==> gs[k].id != key;
    }
  }

  lemma GroupPairsSnoc(g: Group, f: string)
    ensures GroupPairs(Group(g.id, g.files + [f])) == GroupPairs(g) + [(g.id, f)]
  {
  }

  lemma PairsAppendToLast(gs: seq<Group>, f: string)
    requires |gs| > 0
    ensures var n := |gs|;
      Pairs(gs[n - 1 := Group(gs[n - 1].id, gs[n - 1].files + [f])]) == Pairs(gs) + [(gs[n - 1].id, f)]
  {
    var n := |gs|;
    var gs' := gs[n - 1 := Group(gs[n - 1].id, gs[n - 1].files + [f])];
    assert gs'[..n - 1] == gs[..n - 1];
    GroupPairsSnoc(gs[n - 1], f);
  }

  lemma PairsAppendGroup(gs: seq<Group>, id: int, f: string)
    ensures Pairs(gs + [Group(id, [f])]) == Pairs(gs) + [(id, f)]
  {
    assert (gs + [Group(id, [f])])[..|gs|] == gs;
    assert GroupPairs(Group(id, [f])) == [(id, f)];
  }

  /** Appending one pair for one more matched file keeps the id rule. */
  lemma IdsSnoc(ps: seq<(int, string)>, ss: seq<Stamped>, now: real, file: string, t: int, c: int)
    requires IdsFollowGaps(ps, ss, now)
    requires |ss| == 0 ==> c == (if AbsReal(t as real - now) > TimeThreshold then 0 else -1)
    requires |ss| > 0 ==>
      c == ps[|ps| - 1].0 + (if AbsReal((t - ss[|ss| - 1].time) as real) > TimeThreshold then 1 else 0)
    ensures IdsFollowGaps(ps + [(c, file)], ss + [Stamped(file, t)], now)
  {
  }

  /** Adding a file to the last group or opening the next one keeps ids
      consecutive and groups non-empty. */
  lemma ConsecutiveSnoc(gs: seq<Group>, file: string)
    requires |gs| > 0 && ConsecutiveNonEmpty(gs)
    ensures var n := |gs|; ConsecutiveNonEmpty(gs[n - 1 := Group(gs[n - 1].id, gs[n - 1].files + [file])])
    ensures ConsecutiveNonEmpty(gs + [Group(gs[|gs| - 1].id + 1, [file])])
  {
  }

  /** One matched file keeps the invariant. */
  lemma StepKeepsInvariant(st: GroupingState, ss: seq<Stamped>, now: real, file: string, t: int)
    requires GroupingInvariant(st, ss, now)
    ensures var current := if AbsReal(t as real - st.lastTime) > TimeThreshold then st.current + 1 else st.current;
      GroupingInvariant(GroupingState(current, t as real, AppendToGroup(st.groups, current, file)), ss + [Stamped(file, t)], now)
  {
    var current := if AbsReal(t as real - st.lastTime) > TimeThreshold then st.current + 1 else st.current;
    if |ss| == 0 {
      FirstFileKeepsInvariant(st, now, file, t, current);
    } else {
      assert (t - ss[|ss| - 1].time) as real == t as real - st.lastTime;
      LaterFileKeepsInvariant(st, ss, now, file, t, current);
    }
  }

  lemma FirstFileKeepsInvariant(st: GroupingState, now: real, file: string, t: int, current: int)
    requires GroupingInvariant(st, [], now)
    requires current == (if AbsReal(t as real - now) > TimeThreshold then 0 else -1)
    ensures GroupingInvariant(GroupingState(current, t as real, AppendToGroup(st.groups, current, file)), [Stamped(file, t)], now)
  {
    assert AppendToGroup([], current, file) == [Group(current, [file])];
    PairsAppendGroup([], current, file);
    IdsSnoc([], [], now, file, t, current);
    assert [] + [Stamped(file, t)] == [Stamped(file, t)];
  }

  lemma LaterFileKeepsInvariant(st: GroupingState, ss: seq<Stamped>, now: real, file: string, t: int, current: int)
    requires |ss| > 0 && GroupingInvariant(st, ss, now)
    requires current == st.current + (if AbsReal((t - ss[|ss| - 1].time) as real) > TimeThreshold then 1 else 0)
    ensures GroupingInvariant(GroupingState(current, t as real, AppendToGroup(st.groups, current, file)), ss + [Stamped(file, t)], now)
  {
    var gs := st.groups;
    var gs' := AppendToGroup(gs, current, file);
    IdsSnoc(Pairs(gs), ss, now, file, t, current);
    IndexOfConsecutive(gs, current);
    ConsecutiveSnoc(gs, file);
    if current == st.current {
      assert gs' == gs[|gs| - 1 := Group(current, gs[|gs| - 1].files + [file])];
      PairsAppendToLast(gs, file);
    } else {
      assert gs' == gs + [Group(current, [file])];
      PairsAppendGroup(gs, current, file);
    }
  }

  /** The grouping against its reference: it raises exactly when some matched
      stamp does not parse, and otherwise its groups, flattened, are the matched
      files in input order, with ids that start at -1 or 0, step up by one
      exactly at gaps of more than two minutes, and name non-empty groups. */
  lemma {:induction false} GroupRunMeetsReference(files: seq<string>, now: real, parse: string -> Option<int>)
    ensures GroupRun(files, now, parse).Ok? <==> StampedFiles(files, parse).Ok?
    ensures GroupRun(files, now, parse).Ok? ==>
      GroupingInvariant(GroupRun(files, now, parse).value, StampedFiles(files, parse).value, now)
    decreases |files|
  {
    if |files| > 0 {
      var init := files[..|files| - 1];
      var f := files[|files| - 1];
      GroupRunMeetsReference(init, now, parse);
      if GroupRun(init, now, parse).Ok? {
        var st := GroupRun(init, now, parse).value;
        var ss := StampedFiles(init, parse).value;
        match FindStamp(f) {
          case None =>
          case Some(stamp) =>
            match parse(stamp) {
              case None =>
              case Some(t) =>
                StepKeepsInvariant(st, ss, now, f, t);
            }
        }
      }
    }
  }

  /** The consequences for `group_files_by_time`, stated without the invariant. */
  lemma GroupFilesByTimeSpec(files: seq<string>, now: real, parse: string -> Option<int>)
    requires GroupFilesByTime(files, now, parse).Ok?
    ensures StampedFiles(files, parse).Ok?
    ensures var gs := GroupFilesByTime(files, now, parse).value;
      var ss := StampedFiles(files, parse).value;
      (|gs| == 0 <==> |ss| == 0)
      && (|gs| > 0 ==> gs[0].id == -1 || gs[0].id == 0)
      && (forall k :: 0 <= k < |gs| ==> gs[k].id == gs[0].id + k && |gs[k].files| > 0)
      && IdsFollowGaps(Pairs(gs), ss, now)
  {
    GroupRunMeetsReference(files, now, parse);
    var gs := GroupFilesByTime(files, now, parse).value;
    var ss := StampedFiles(files, parse).value;
    if |gs| > 0 {
      assert |ss| > 0;
      PairsHead(gs);
    }
  }

  lemma {:induction false} PairsHead(gs: seq<Group>)
    requires |gs| > 0 && |gs[0].files| > 0
    ensures |Pairs(gs)| > 0 && Pairs(gs)[0].0 == gs[0].id
    decreases |gs|
  {
    if |gs| > 1 {
      assert gs[..|gs| - 1][0] == gs[0];
      PairsHead(gs[..|gs| - 1]);
    } else {
      assert gs[..0] == [];
    }
  }

  // ---------------------------------------------------------------------------
  // Filtering (lines 54-64). `lineCount` stands for `len(open(f).readlines())`.

  /** The non-empty files of a group, in their original order. */
  function NonEmptyFiles(files: seq<string>, lineCount: string -> nat): (r: seq<string>)
    ensures |r| <= |files|
    ensures forall f :: f in r <==> f in files && lineCount(f) > 0
    decreases |files|
  {
    if |files| == 0 then []
    else
      var init := files[..|files| - 1];
      var f := files[|files| - 1];
      assert files == init + [f];
      NonEmptyFiles(init, lineCount) + (if lineCount(f) > 0 then [f] else [])
  }

  /** Filtering a concatenation filters each part; with the one-file case this
      determines the result: the non-empty files, each as often as it occurs,
      in their original order. */
  lemma {:induction false} NonEmptyFilesAppend(a: seq<string>, b: seq<string>, lineCount: string -> nat)
    ensures NonEmptyFiles(a + b, lineCount) == NonEmptyFiles(a, lineCount) + NonEmptyFiles(b, lineCount)
    ensures |a| == 1 ==> NonEmptyFiles(a, lineCount) == if lineCount(a[0]) > 0 then a else []
    decreases |b|
  {
    if |a| == 1 {
      assert a[..0] == [];
    }
    if |b| == 0 {
      assert a + b == a;
    } else {
      assert (a + b)[..|a + b| - 1] == a + b[..|b| - 1];
      NonEmptyFilesAppend(a, b[..|b| - 1], lineCount);
    }
  }

  lemma {:induction false} NonEmptyFilesDistinct(files: seq<string>, lineCount: string -> nat)
    requires Distinct(files)
    ensures Distinct(NonEmptyFiles(files, lineCount))
    decreases |files|
  {
    if |files| > 0 {
      var init := files[..|files| - 1];
      NonEmptyFilesDistinct(init, lineCount);
      assert files[|files| - 1] !in init;
    }
  }

  predicate KeepsGroup(g: Group, lineCount: string -> nat)
  {
    |g.files| >= GroupMinSize && |NonEmptyFiles(g.files, lineCount)| >= GroupMinSize
  }

  /** At least four files, none of them empty: what every kept group satisfies. */
  predicate Clean(g: Group, lineCount: string -> nat)
  {
    |g.files| >= GroupMinSize && forall f :: f in g.files ==> lineCount(f) > 0
  }

  /** `filter_groups`: kept groups, in order, reduced to their non-empty files. */
  function FilterGroups(groups: seq<Group>, lineCount: string -> nat): (valid: seq<Group>)
    ensures |valid| <= |groups|
    ensures forall k :: 0 <= k < |valid| ==> Clean(valid[k], lineCount)
    decreases |groups|
  {
    if |groups| == 0 then []
    else
      var g := groups[|groups| - 1];
      FilterGroups(groups[..|groups| - 1], lineCount)
        + (if KeepsGroup(g, lineCount) then [Group(g.id, NonEmptyFiles(g.files, lineCount))] else [])
  }

  /** The kept groups are exactly the groups with at least four files of which
      at least four are non-empty, each under its own id. */
  lemma {:induction false} FilterGroupsMembers(groups: seq<Group>, lineCount: string -> nat)
    ensures forall v :: v in FilterGroups(groups, lineCount) <==>
      exists g :: g in groups && KeepsGroup(g, lineCount) && v == Group(g.id, NonEmptyFiles(g.files, lineCount))
    decreases |groups|
  {
    if |groups| > 0 {
      var init, g := groups[..|groups| - 1], groups[|groups| - 1];
      FilterGroupsMembers(init, lineCount);
      assert groups == init + [g];
    }
  }

  lemma {:induction false} NonEmptyFilesKeepsAll(files: seq<string>, lineCount: string -> nat)
    requires forall f :: f in files ==> lineCount(f) > 0
    ensures NonEmptyFiles(files, lineCount) == files
    decreases |files|
  {
    if |files| > 0 {
      var init := files[..|files| - 1];
      assert forall f :: f in init ==> f in files;
      NonEmptyFilesKeepsAll(init, lineCount);
      assert init + [files[|files| - 1]] == files;
    }
  }

  /** Filtering is idempotent: a second pass keeps every group unchanged. */
  lemma {:induction false} FilterGroupsIdempotent(groups: seq<Group>, lineCount: string -> nat)
    ensures FilterGroups(FilterGroups(groups, lineCount), lineCount) == FilterGroups(groups, lineCount)
  {
    var valid := FilterGroups(groups, lineCount);
    FilterKeepsAll(valid, lineCount);
  }

  lemma {:induction false} FilterKeepsAll(gs: seq<Group>, lineCount: string -> nat)
    requires forall k :: 0 <= k < |gs| ==> Clean(gs[k], lineCount)
    ensures FilterGroups(gs, lineCount) == gs
    decreases |gs|
  {
    if |gs| > 0 {
      var init, g := gs[..|gs| - 1], gs[|gs| - 1];
      assert gs == init + [g];
      assert forall k :: 0 <= k < |init| ==> init[k] == gs[k];
      FilterKeepsAll(init, lineCount);
      NonEmptyFilesKeepsAll(g.files, lineCount);
      assert KeepsGroup(g, lineCount);
    }
  }

  // ---------------------------------------------------------------------------
  // Splitting (lines 67-79). `trainEnd` is `int(n * train_ratio)` and
  // `valCount` is `int(n * val_ratio)`.

  datatype Split = Split(train: seq<int>, val: seq<int>, test: seq<int>)

  /** The three slices `[:train_end]`, `[train_end:val_end]`, `[val_end:]`,
      with Python's clipping of indices past the end. */
  function SplitIds(ids: seq<int>, trainEnd: nat, valCount: nat): (s: Split)
    ensures s.train + s.val + s.test == ids
    ensures |s.train| == Min(trainEnd, |ids|)
    ensures |s.val| == Min(trainEnd + valCount, |ids|) - Min(trainEnd, |ids|)
    ensures forall i :: 0 <= i < |s.train| ==> s.train[i] == ids[i]
    ensures forall i :: 0 <= i < |s.val| ==> s.val[i] == ids[|s.train| + i]
    ensures forall i :: 0 <= i < |s.test| ==> s.test[i] == ids[|s.train| + |s.val| + i]
  {
    var a := Min(trainEnd, |ids|);
    var b := Min(trainEnd + valCount, |ids|);
    assert ids[..a] + ids[a..b] + ids[b..] == ids;
    Split(ids[..a], ids[a..b], ids[b..])
  }

  predicate Distinct<T(==)>(xs: seq<T>)
  {
    forall i, j :: 0 <= i < j < |xs| ==> xs[i] != xs[j]
  }

  /** With distinct ids no group lands in two subsets. */
  lemma SplitDisjoint(ids: seq<int>, trainEnd: nat, valCount: nat)
    requires Distinct(ids)
    ensures var s := SplitIds(ids, trainEnd, valCount);
      (forall x :: x in s.train ==> x !in s.val && x !in s.test) && (forall x :: x in s.val ==> x !in s.test)
  {
    var s := SplitIds(ids, trainEnd, valCount);
    forall x | x in s.train ensures x !in s.val && x !in s.test {
      var i :| 0 <= i < |s.train| && s.train[i] == x;
      assert s.train[i] == ids[i];
    }
    forall x | x in s.val ensures x !in s.test {
      var i :| 0 <= i < |s.val| && s.val[i] == x;
      assert s.val[i] == ids[|s.train| + i];
    }
  }

  // ---------------------------------------------------------------------------
  // Selecting files (lines 85-92).

  /** One copied label file. */
  datatype Copy = Copy(subset: string, groupId: int, file: string)

  /** `[f for f in files if f not in used_files]`. */
  function Unused(files: seq<string>, used: set<string>): (r: seq<string>)
    ensures |r| <= |files|
    ensures forall i :: 0 <= i < |r| ==> r[i] !in used && r[i] in files
    ensures forall f :: f in files && f !in used ==> f in r
    decreases |files|
  {
    if |files| == 0 then []
    else
      var init := files[..|files| - 1];
      assert forall i :: 0 <= i < |init| ==> init[i] in files;
      Unused(init, used) + (if files[|files| - 1] in used then [] else [files[|files| - 1]])
  }

  /** As for `NonEmptyFiles`: the unused files in their original order. */
  lemma {:induction false} UnusedAppend(a: seq<string>, b: seq<string>, used: set<string>)
    ensures Unused(a + b, used) == Unused(a, used) + Unused(b, used)
    ensures |a| == 1 ==> Unused(a, used) == if a[0] in used then [] else a
    decreases |b|
  {
    if |a| == 1 {
      assert a[..0] == [];
    }
    if |b| == 0 {
      assert a + b == a;
    } else {
      assert (a + b)[..|a + b| - 1] == a + b[..|b| - 1];
      UnusedAppend(a, b[..|b| - 1], used);
    }
  }

  predicate HasKey(groups: seq<Group>, gid: int)
  {
    IndexOfKey(groups, gid).Some?
  }

  /** `groups[gid]`. */
  function FilesOf(groups: seq<Group>, gid: int): seq<string>
    requires HasKey(groups, gid)
  {
    groups[IndexOfKey(groups, gid).value].files
  }

  /** What selecting for one group copies: its first four unused files, if it
      still has four. */
  function Selection(groups: seq<Group>, gid: int, used: set<string>): (sel: seq<string>)
    requires HasKey(groups, gid)
    ensures |sel| == 0 || |sel| == GroupMinSize
    ensures |sel| == GroupMinSize <==> |Unused(FilesOf(groups, gid), used)| >= GroupMinSize
    ensures sel == Unused(FilesOf(groups, gid), used)[..|sel|]
    ensures forall i :: 0 <= i < |sel| ==> sel[i] !in used && sel[i] in FilesOf(groups, gid)
  {
    var fs := Unused(FilesOf(groups, gid), used);
    if |fs| >= GroupMinSize then fs[..GroupMinSize] else []
  }

  datatype Saved = Saved(copies: seq<Copy>, used: set<string>)

  function CopiesOf(subset: string, gid: int, files: seq<string>): (cs: seq<Copy>)
    ensures |cs| == |files| && forall i :: 0 <= i < |files| ==> cs[i] == Copy(subset, gid, files[i])
  {
    seq(|files|, i requires 0 <= i < |files| => Copy(subset, gid, files[i]))
  }

  /** `save_subset`: the groups are visited in `ids` order and the used set is
      threaded through. */
  function SaveSubset(groups: seq<Group>, ids: seq<int>, subset: string, start: Saved): (r: Saved)
    requires forall i :: 0 <= i < |ids| ==> HasKey(groups, ids[i])
    ensures start.used <= r.used
    ensures |start.copies| <= |r.copies| && r.copies[..|start.copies|] == start.copies
    ensures forall i :: |start.copies| <= i < |r.copies| ==> r.copies[i].subset == subset && r.copies[i].groupId in ids
    decreases |ids|
  {
    if |ids| == 0 then start
    else
      var before := SaveSubset(groups, ids[..|ids| - 1], subset, start);
      var gid := ids[|ids| - 1];
      var sel := Selection(groups, gid, before.used);
      assert forall id :: id in ids[..|ids| - 1] ==> id in ids;
      Saved(before.copies + CopiesOf(subset, gid, sel), before.used + set f | f in sel)
  }

  /** Saving ids `a + b` is saving `a` and then `b` from where `a` left off; a
      single id appends that group's selection, tagged with the subset and the
      group id, and marks the selected files used. Together these determine
      `SaveSubset` on every id sequence. */
  lemma {:induction false} SaveSubsetAppend(groups: seq<Group>, a: seq<int>, b: seq<int>, subset: string, start: Saved)
    requires forall i :: 0 <= i < |a| ==> HasKey(groups, a[i])
    requires forall i :: 0 <= i < |b| ==> HasKey(groups, b[i])
    ensures forall i :: 0 <= i < |a + b| ==> HasKey(groups, (a + b)[i])
    ensures SaveSubset(groups, a + b, subset, start)
         == SaveSubset(groups, b, subset, SaveSubset(groups, a, subset, start))
    ensures |a| == 1 ==>
      var sel := Selection(groups, a[0], start.used);
      SaveSubset(groups, a, subset, start)
      == Saved(start.copies + CopiesOf(subset, a[0], sel), start.used + set f | f in sel)
    decreases |b|
  {
    assert forall i :: 0 <= i < |a + b| ==> (a + b)[i] == if i < |a| then a[i] else b[i - |a|];
    if |a| == 1 {
      assert a[..0] == [];
    }
    if |b| == 0 {
      assert a + b == a;
    } else {
      var b' := b[..|b| - 1];
      assert (a + b)[..|a + b| - 1] == a + b';
      SaveSubsetAppend(groups, a, b', subset, start);
    }
  }

  /** The copied file names, in copy order. */
  function CopiedNames(cs: seq<Copy>): (ns: seq<string>)
    ensures |ns| == |cs| && forall i :: 0 <= i < |cs| ==> ns[i] == cs[i].file
  {
    seq(|cs|, i requires 0 <= i < |cs| => cs[i].file)
  }

  function CopiedFiles(cs: seq<Copy>): set<string>
  {
    set i | 0 <= i < |cs| :: cs[i].file
  }

  ghost predicate NoDuplicateFiles(groups: seq<Group>)
  {
    forall k :: 0 <= k < |groups| ==> Distinct(groups[k].files)
  }

  lemma {:induction false} UnusedDistinct(files: seq<string>, used: set<string>)
    requires Distinct(files)
    ensures Distinct(Unused(files, used))
    decreases |files|
  {
    if |files| > 0 {
      var init := files[..|files| - 1];
      UnusedDistinct(init, used);
      assert forall i :: 0 <= i < |Unused(init, used)| ==> Unused(init, used)[i] in init;
    }
  }

  lemma CopiedFilesSnoc(before: seq<Copy>, subset: string, gid: int, sel: seq<string>)
    ensures CopiedFiles(before + CopiesOf(subset, gid, sel)) == CopiedFiles(before) + set f | f in sel
  {
    var cs := before + CopiesOf(subset, gid, sel);
    var lhs, rhs := CopiedFiles(cs), CopiedFiles(before) + set f | f in sel;
    forall x | x in lhs ensures x in rhs {
      var i :| 0 <= i < |cs| && cs[i].file == x;
      if i >= |before| {
        assert x == sel[i - |before|];
      } else {
        assert before[i].file == x;
      }
    }
    forall x | x in rhs ensures x in lhs {
      if x in CopiedFiles(before) {
        var i :| 0 <= i < |before| && before[i].file == x;
        assert cs[i].file == x;
      } else {
        var j :| 0 <= j < |sel| && sel[j] == x;
        assert cs[|before| + j].file == x;
      }
    }
    assert lhs == rhs;
  }

  lemma DistinctSnoc(before: seq<Copy>, used: set<string>, subset: string, gid: int, sel: seq<string>)
    requires Distinct(CopiedNames(before)) && CopiedFiles(before) <= used
    requires Distinct(sel) && forall i :: 0 <= i < |sel| ==> sel[i] !in used
    ensures Distinct(CopiedNames(before + CopiesOf(subset, gid, sel)))
  {
    var cs := before + CopiesOf(subset, gid, sel);
    var names := CopiedNames(cs);
    var n := |before|;
    forall i, j | 0 <= i < j < |cs| ensures names[i] != names[j] {
      if j >= n {
        assert names[j] == sel[j - n];
        if i >= n {
          assert names[i] == sel[i - n];
        } else {
          assert names[i] in CopiedFiles(before);
        }
      } else {
        assert names[i] == CopiedNames(before)[i] && names[j] == CopiedNames(before)[j];
      }
    }
  }

  /** The used set is the starting set plus every file copied so far, and no
      file is copied twice or copied when it was already used, provided no group
      lists a file twice. */
  lemma {:induction false} SaveSubsetNoFileTwice(groups: seq<Group>, ids: seq<int>, subset: string, start: Saved)
    requires forall i :: 0 <= i < |ids| ==> HasKey(groups, ids[i])
    requires NoDuplicateFiles(groups)
    requires CopiedFiles(start.copies) <= start.used
    requires Distinct(CopiedNames(start.copies))
    ensures var r := SaveSubset(groups, ids, subset, start);
      r.used == start.used + CopiedFiles(r.copies) && Distinct(CopiedNames(r.copies))
    decreases |ids|
  {
    if |ids| > 0 {
      var before := SaveSubset(groups, ids[..|ids| - 1], subset, start);
      SaveSubsetNoFileTwice(groups, ids[..|ids| - 1], subset, start);
      var gid := ids[|ids| - 1];
      var k := IndexOfKey(groups, gid).value;
      UnusedDistinct(groups[k].files, before.used);
      var sel := Selection(groups, gid, before.used);
      assert Distinct(sel);
      CopiedFilesSnoc(before.copies, subset, gid, sel);
      DistinctSnoc(before.copies, before.used, subset, gid, sel);
    }
  }

  lemma SplitKeys(groups: seq<Group>, order: seq<int>, s: Split)
    requires forall i :: 0 <= i < |order| ==> HasKey(groups, order[i])
    requires s.train + s.val + s.test == order
    ensures forall i :: 0 <= i < |s.train| ==> HasKey(groups, s.train[i])
    ensures forall i :: 0 <= i < |s.val| ==> HasKey(groups, s.val[i])
    ensures forall i :: 0 <= i < |s.test| ==> HasKey(groups, s.test[i])
  {
    assert forall i :: 0 <= i < |s.train| ==> s.train[i] == order[i];
    assert forall i :: 0 <= i < |s.val| ==> s.val[i] == order[|s.train| + i];
    assert forall i :: 0 <= i < |s.test| ==> s.test[i] == order[|s.train| + |s.val| + i];
  }

  /** `split_and_save_groups`: the id order (the shuffle) and the cut points are
      parameters; the used set is shared by the three subsets. */
  function SplitAndSaveGroups(groups: seq<Group>, order: seq<int>, trainEnd: nat, valCount: nat): (r: Saved)
    requires forall i :: 0 <= i < |order| ==> HasKey(groups, order[i])
    ensures var s := SplitIds(order, trainEnd, valCount);
      r == SaveSubset(groups, s.test, "test",
             SaveSubset(groups, s.val, "val",
               SaveSubset(groups, s.train, "train", Saved([], {}))))
    ensures forall i :: 0 <= i < |r.copies| ==> CopyInSplit(r.copies[i], SplitIds(order, trainEnd, valCount))
  {
    var s := SplitIds(order, trainEnd, valCount);
    SplitKeys(groups, order, s);
    var train := SaveSubset(groups, s.train, "train", Saved([], {}));
    var val := SaveSubset(groups, s.val, "val", train);
    var test := SaveSubset(groups, s.test, "test", val);
    forall i | 0 <= i < |test.copies| ensures CopyInSplit(test.copies[i], s) {
      if i < |val.copies| {
        assert test.copies[i] == test.copies[..|val.copies|][i];
        if i < |train.copies| {
          assert val.copies[i] == val.copies[..|train.copies|][i];
        }
      }
    }
    test
  }

  /** A copy made for a subset is of a group whose id lies in that subset's slice. */
  predicate CopyInSplit(c: Copy, s: Split)
  {
    || (c.subset == "train" && c.groupId in s.train)
    || (c.subset == "val" && c.groupId in s.val)
    || (c.subset == "test" && c.groupId in s.test)
  }

  /** Across the three subsets no label file is copied twice, and the used
      set is exactly the set of copied files. */
  lemma SplitAndSaveNoFileTwice(groups: seq<Group>, order: seq<int>, trainEnd: nat, valCount: nat)
    requires forall i :: 0 <= i < |order| ==> HasKey(groups, order[i])
    requires NoDuplicateFiles(groups)
    ensures var r := SplitAndSaveGroups(groups, order, trainEnd, valCount);
      r.used == CopiedFiles(r.copies) && Distinct(CopiedNames(r.copies))
  {
    var s := SplitIds(order, trainEnd, valCount);
    SplitKeys(groups, order, s);
    var train := SaveSubset(groups, s.train, "train", Saved([], {}));
    SaveSubsetNoFileTwice(groups, s.train, "train", Saved([], {}));
    var val := SaveSubset(groups, s.val, "val", train);
    SaveSubsetNoFileTwice(groups, s.val, "val", train);
    SaveSubsetNoFileTwice(groups, s.test, "test", val);
    var r := SaveSubset(groups, s.test, "test", val);
    CopiedFilesPrefix(train.copies, val.copies);
    CopiedFilesPrefix(val.copies, r.copies);
    assert SplitAndSaveGroups(groups, order, trainEnd, valCount) == r;
  }

  lemma CopiedFilesPrefix(a: seq<Copy>, b: seq<Copy>)
    requires |a| <= |b| && b[..|a|] == a
    ensures CopiedFiles(a) <= CopiedFiles(b)
  {
    forall x | x in CopiedFiles(a) ensures x in CopiedFiles(b) {
      var i :| 0 <= i < |a| && a[i].file == x;
      assert b[i] == a[i];
    }
  }

  // ---------------------------------------------------------------------------
  // From the label files to the copies.

  /** Every file of every group is one of `files`. */
  ghost predicate FilesFrom(gs: seq<Group>, files: seq<string>)
  {
    forall k, f :: 0 <= k < |gs| && f in gs[k].files ==> f in files
  }

  /** `glob` lists each path once, so no group lists a file twice. */
  lemma {:induction false} GroupRunFilesDistinct(files: seq<string>, now: real, parse: string -> Option<int>)
    requires Distinct(files)
    ensures GroupRun(files, now, parse).Ok? ==>
      NoDuplicateFiles(GroupRun(files, now, parse).value.groups)
      && FilesFrom(GroupRun(files, now, parse).value.groups, files)
    decreases |files|
  {
    if |files| > 0 {
      var init, f := files[..|files| - 1], files[|files| - 1];
      GroupRunFilesDistinct(init, now, parse);
      if GroupRun(init, now, parse).Ok? && GroupRun(files, now, parse).Ok? {
        var st := GroupRun(init, now, parse).value;
        var st' := GroupRun(files, now, parse).value;
        assert files == init + [f];
        assert GroupStep(st, f, parse) == Ok(st');
        assert f !in init;
        if st'.groups != st.groups {
          assert st'.groups == AppendToGroup(st.groups, st'.current, f);
        }
        AppendKeepsDistinct(st.groups, init, f, st'.groups);
      }
    }
  }

  lemma AppendKeepsDistinct(gs: seq<Group>, init: seq<string>, f: string, gs': seq<Group>)
    requires NoDuplicateFiles(gs) && FilesFrom(gs, init) && f !in init
    requires gs' == gs || exists key :: gs' == AppendToGroup(gs, key, f)
    ensures NoDuplicateFiles(gs') && FilesFrom(gs', init + [f])
  {
    if gs' != gs {
      var key :| gs' == AppendToGroup(gs, key, f);
      match IndexOfKey(gs, key) {
        case Some(k) =>
          assert f !in gs[k].files;
          assert gs'[k].files == gs[k].files + [f];
        case None =>
          assert gs' == gs + [Group(key, [f])];
      }
    }
  }

  lemma {:induction false} FilterGroupsNoDuplicates(groups: seq<Group>, lineCount: string -> nat)
    requires NoDuplicateFiles(groups)
    ensures NoDuplicateFiles(FilterGroups(groups, lineCount))
    decreases |groups|
  {
    if |groups| > 0 {
      var init, g := groups[..|groups| - 1], groups[|groups| - 1];
      FilterGroupsNoDuplicates(init, lineCount);
      NonEmptyFilesDistinct(g.files, lineCount);
    }
  }

  /** The whole pipeline on the sorted `glob` output: grouping, filtering, and
      saving the three subsets copies no label file twice. */
  lemma PipelineNoFileTwice(files: seq<string>, now: real, parse: string -> Option<int>, lineCount: string -> nat,
                            order: seq<int>, trainEnd: nat, valCount: nat)
    requires Distinct(files)
    requires GroupFilesByTime(files, now, parse).Ok?
    requires forall i :: 0 <= i < |order| ==> HasKey(FilterGroups(GroupFilesByTime(files, now, parse).value, lineCount), order[i])
    ensures var r := SplitAndSaveGroups(FilterGroups(GroupFilesByTime(files, now, parse).value, lineCount), order, trainEnd, valCount);
      r.used == CopiedFiles(r.copies) && Distinct(CopiedNames(r.copies))
  {
    GroupRunFilesDistinct(files, now, parse);
    var valid := FilterGroups(GroupFilesByTime(files, now, parse).value, lineCount);
    FilterGroupsNoDuplicates(GroupFilesByTime(files, now, parse).value, lineCount);
    SplitAndSaveNoFileTwice(valid, order, trainEnd, valCount);
  }
}
