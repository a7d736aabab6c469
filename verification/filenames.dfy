/** How the frame processor turns a folder listing into its frame list
    (src/videos/eval/utils/file_processor.py, lines 10 and 49-52): only names
    ending in `.jpg` are frames, a frame's timestamp text is the fixed-width
    slice `name[-(DATE_TIME_LEN+4):-4]`, every key is parsed before sorting
    (the first unparsable one raises), and `sorted` is stable. The parser of
    `%Y_%m_%dT%H_%M_%S` is a parameter. */
module FileNames {
  import opened Base

  /** `DATE_TIME_LEN`: the width of a `YYYY_MM_DDTHH_MM_SS` stamp. */
  const DateTimeLen: nat := 19

  /** The width of the `.jpg` extension the slice skips. */
  const ExtensionLen: nat := 4

  /** `f.endswith('.jpg')`, case-sensitive. */
  predicate IsJpg(name: string)
  {
    |name| >= 4 && name[|name| - 4..] == ".jpg"
  }

  /** The frame list before sorting: the `.jpg` names of a listing, in listing order. */
  function JpgFiles(names: seq<string>): (r: seq<string>)
    ensures forall i :: 0 <= i < |r| ==> IsJpg(r[i]) && r[i] in names
    ensures forall i :: 0 <= i < |names| && IsJpg(names[i]) ==> names[i] in r
    ensures |r| <= |names|
    decreases |names|
  {
    if |names| == 0 then []
    else JpgFiles(names[..|names| - 1]) + (if IsJpg(names[|names| - 1]) then [names[|names| - 1]] else [])
  }

  /** `JpgFiles` is the filter `[f for f in names if f.endswith(".jpg")]`: it
      distributes over concatenation and keeps a single name exactly when it
      is a `.jpg`, so the listing's order and repetitions are kept. */
  lemma {:induction false} JpgFilesAppend(a: seq<string>, b: seq<string>)
    ensures JpgFiles(a + b) == JpgFiles(a) + JpgFiles(b)
    ensures |a| == 1 ==> JpgFiles(a) == if IsJpg(a[0]) then a else []
    decreases |b|
  {
    if |a| == 1 {
      assert a[..0] == [];
    }
    if |b| == 0 {
      assert a + b == a;
    } else {
      assert (a + b)[..|a + b| - 1] == a + b[..|b| - 1];
      JpgFilesAppend(a, b[..|b| - 1]);
    }
  }

  /** Python's `s[-a:-b]` for 0 < b <= a: both ends count from the back and are
      clipped at the front of the string. */
  function BackSlice(s: string, a: nat, b: nat): string
    requires b <= a
  {
    var lo := if |s| >= a then |s| - a else 0;
    var hi := if |s| >= b then |s| - b else 0;
    s[lo..hi]
  }

  /** The timestamp text of a frame name. */
  function StampText(name: string): (r: string)
    ensures |name| >= DateTimeLen + ExtensionLen ==>
      |r| == DateTimeLen
      && name == name[..|name| - DateTimeLen - ExtensionLen] + r + name[|name| - ExtensionLen..]
    ensures |name| < DateTimeLen + ExtensionLen ==> |r| < DateTimeLen
  {
    BackSlice(name, DateTimeLen + ExtensionLen, ExtensionLen)
  }

  /** Writing a 19-character stamp between any prefix and a 4-character
      extension and slicing it back out gives the stamp again. */
  lemma {:induction false} StampTextRoundTrip(prefix: string, stamp: string, ext: string)
    requires |stamp| == DateTimeLen && |ext| == ExtensionLen
    ensures StampText(prefix + stamp + ext) == stamp
  {
    var name := prefix + stamp + ext;
    assert name[|prefix|..|prefix| + DateTimeLen] == stamp;
  }

  /** A frame name with its parsed timestamp, in seconds: the sort key. */
  datatype Stamped = Stamped(name: string, time: int)

  /** The sort keys of `names`, computed in list order as `sorted` does before
      it compares anything; the first name whose stamp does not parse raises. */
  function StampAll(names: seq<string>, stampParse: string -> Option<int>): (r: Result<seq<Stamped>>)
    ensures r.Ok? <==> forall i :: 0 <= i < |names| ==> stampParse(StampText(names[i])).Some?
    ensures r.Ok? ==>
              && |r.value| == |names|
              && forall i :: 0 <= i < |names| ==> r.value[i] == Stamped(names[i], stampParse(StampText(names[i])).value)
    ensures r.Err? ==>
              exists k :: && 0 <= k < |names|
                          && r.error == UnparsableTime(StampText(names[k]))
                          && stampParse(StampText(names[k])).None?
                          && forall j :: 0 <= j < k ==> stampParse(StampText(names[j])).Some?
    decreases |names|
  {
    if |names| == 0 then Ok([])
    else
      match stampParse(StampText(names[0]))
      case None => Err(UnparsableTime(StampText(names[0])))
      case Some(t) =>
        match StampAll(names[1..], stampParse)
        case Err(e) =>
          assert forall j :: 1 <= j < |names| ==> names[1..][j - 1] == names[j];
          Err(e)
        case Ok(rest) => Ok([Stamped(names[0], t)] + rest)
  }

  /** Timestamps never decrease along `s`. */
  ghost predicate SortedByTime(s: seq<Stamped>)
  {
    forall i, j :: 0 <= i < j < |s| ==> s[i].time <= s[j].time
  }

  /** The entries of `s` with timestamp `t`, in order: two frames with equal
      stamps are told apart only by this order. */
  function WithTime(s: seq<Stamped>, t: int): seq<Stamped>
    decreases |s|
  {
    if |s| == 0 then [] else (if s[0].time == t then [s[0]] else []) + WithTime(s[1..], t)
  }

  /** Puts `x` in front of the first entry of `s` that is not earlier than it,
      so that `x` precedes every entry with its own timestamp. */
  function Insert(x: Stamped, s: seq<Stamped>): (r: seq<Stamped>)
    ensures |r| == |s| + 1
    ensures multiset(r) == multiset{x} + multiset(s)
    decreases |s|
  {
    if |s| == 0 || x.time <= s[0].time then [x] + s
    else
      assert s == [s[0]] + s[1..];
      [s[0]] + Insert(x, s[1..])
  }

  /** Inserting into a time-ordered list keeps it time-ordered. */
  lemma {:induction false} InsertSorted(x: Stamped, s: seq<Stamped>)
    requires SortedByTime(s)
    ensures SortedByTime(Insert(x, s))
    decreases |s|
  {
    if |s| > 0 && x.time > s[0].time {
      var rest := Insert(x, s[1..]);
      InsertSorted(x, s[1..]);
      forall i | 0 <= i < |rest|
        ensures s[0].time <= rest[i].time
      {
        assert rest[i] in multiset(rest);
        if rest[i] != x {
          assert rest[i] in multiset(s[1..]);
          var k :| 0 <= k < |s[1..]| && s[1..][k] == rest[i];
          assert s[k + 1] == rest[i];
        }
      }
      assert Insert(x, s) == [s[0]] + rest;
    }
  }

  /** `sorted(..., key=...)`: a stable sort by timestamp. */
  function SortByTime(xs: seq<Stamped>): (r: seq<Stamped>)
    ensures |r| == |xs|
    ensures multiset(r) == multiset(xs)
    ensures SortedByTime(r)
    decreases |xs|
  {
    if |xs| == 0 then []
    else
      assert xs == [xs[0]] + xs[1..];
      var rest := SortByTime(xs[1..]);
      InsertSorted(xs[0], rest);
      Insert(xs[0], rest)
  }

  /** Inserting `x` adds it at the front of its own timestamp's entries and
      leaves every other timestamp's entries as they were. */
  lemma {:induction false} InsertWithTime(x: Stamped, s: seq<Stamped>, t: int)
    ensures WithTime(Insert(x, s), t) == (if x.time == t then [x] else []) + WithTime(s, t)
    decreases |s|
  {
    if |s| == 0 || x.time <= s[0].time {
      assert ([x] + s)[1..] == s;
    } else {
      var rest := Insert(x, s[1..]);
      var head := if s[0].time == t then [s[0]] else [];
      assert ([s[0]] + rest)[1..] == rest;
      assert WithTime(Insert(x, s), t) == head + WithTime(rest, t);
      assert WithTime(s, t) == head + WithTime(s[1..], t);
      InsertWithTime(x, s[1..], t);
    }
  }

  /** Stability: for every timestamp, the sort keeps the entries with that
      timestamp in their listing order. */
  lemma {:induction false} SortIsStable(xs: seq<Stamped>, t: int)
    ensures WithTime(SortByTime(xs), t) == WithTime(xs, t)
    decreases |xs|
  {
    if |xs| > 0 {
      SortIsStable(xs[1..], t);
      InsertWithTime(xs[0], SortByTime(xs[1..]), t);
    }
  }

  /** A list already in time order is left exactly as it is. */
  lemma {:induction false} SortKeepsSorted(xs: seq<Stamped>)
    requires SortedByTime(xs)
    ensures SortByTime(xs) == xs
    decreases |xs|
  {
    if |xs| > 0 {
      assert SortedByTime(xs[1..]);
      SortKeepsSorted(xs[1..]);
      if |xs| > 1 {
        assert xs[0].time <= xs[1].time;
      }
    }
  }
}
