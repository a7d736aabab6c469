/** The ignition table lookup, `get_ignition_time`
    (src/videos/eval/utils/ignition_time.py, lines 9-13): the first entry for the
    folder decides, its text is parsed with `%Y-%m-%d %H:%M:%S`, and a folder
    without an entry has no ignition. A record missing one of the two keys
    raises `KeyError` when the scan reaches it. The parser is a parameter (calendar
    arithmetic is not modelled): it yields seconds, or None where `strptime`
    raises. */
module IgnitionTime {
  import opened Base

  /** One record of the ignition JSON: `{"folder": ..., "ignition_time": ...}`,
      each key possibly absent. */
  datatype Entry = Entry(folder: Option<string>, ignitionTime: Option<string>)

  /** The scan stops at this entry: it is for the folder, or its `folder` key
      is missing and the comparison raises. */
  predicate Stops(e: Entry, folderName: string)
  {
    e.folder.None? || e.folder.value == folderName
  }

  /** `k` is the position of the first entry the scan stops at. */
  ghost predicate IsFirstStop(entries: seq<Entry>, folderName: string, k: int)
  {
    0 <= k < |entries| && Stops(entries[k], folderName)
    && forall j :: 0 <= j < k ==> !Stops(entries[j], folderName)
  }

  /** What the entry the scan stops at yields: `KeyError` for a missing key,
      otherwise its parsed time or the parser's error. */
  function ParseEntry(e: Entry, parse: string -> Option<int>): (r: Result<Option<int>>)
    ensures e.folder.None? ==> r == Err(MissingKey("folder"))
    ensures e.folder.Some? && e.ignitionTime.None? ==> r == Err(MissingKey("ignition_time"))
    ensures r.Ok? <==> e.folder.Some? && e.ignitionTime.Some? && parse(e.ignitionTime.value).Some?
    ensures r.Ok? ==> r == Ok(parse(e.ignitionTime.value))
    ensures e.folder.Some? && e.ignitionTime.Some? && r.Err? ==> r == Err(UnparsableTime(e.ignitionTime.value))
  {
    match (e.folder, e.ignitionTime)
    case (None, _) => Err(MissingKey("folder"))
    case (Some(_), None) => Err(MissingKey("ignition_time"))
    case (Some(_), Some(text)) =>
      match parse(text)
      case Some(t) => Ok(Some(t))
      case None => Err(UnparsableTime(text))
  }

  /** `get_ignition_time`: scan in order and stop at the first entry for the
      folder, or at the first entry without a `folder` key. */
  function GetIgnitionTime(folderName: string, entries: seq<Entry>, parse: string -> Option<int>): (r: Result<Option<int>>)
    ensures (forall i :: 0 <= i < |entries| ==> !Stops(entries[i], folderName)) ==> r == Ok(None)
    ensures forall k :: IsFirstStop(entries, folderName, k) ==> r == ParseEntry(entries[k], parse)
    ensures r == Ok(None) ==> forall i :: 0 <= i < |entries| ==> !Stops(entries[i], folderName)
    decreases |entries|
  {
    if |entries| == 0 then Ok(None)
    else if Stops(entries[0], folderName) then ParseEntry(entries[0], parse)
    else
      var rest := GetIgnitionTime(folderName, entries[1..], parse);
      assert forall k :: IsFirstStop(entries, folderName, k) ==> IsFirstStop(entries[1..], folderName, k - 1);
      rest
  }

  /** Entries after the one the scan stops at never matter: a later duplicate
      for the same folder cannot change the answer. */
  lemma {:induction false} LaterEntriesIgnored(folderName: string, entries: seq<Entry>, more: seq<Entry>, parse: string -> Option<int>)
    requires exists i :: 0 <= i < |entries| && Stops(entries[i], folderName)
    ensures GetIgnitionTime(folderName, entries + more, parse) == GetIgnitionTime(folderName, entries, parse)
    decreases |entries|
  {
    if !Stops(entries[0], folderName) {
      assert (entries + more)[1..] == entries[1..] + more;
      var i :| 0 <= i < |entries| && Stops(entries[i], folderName);
      assert Stops(entries[1..][i - 1], folderName);
      LaterEntriesIgnored(folderName, entries[1..], more, parse);
    }
  }

  /** Entries for other folders never matter, wherever they stand. */
  lemma {:induction false} OtherFoldersIgnored(folderName: string, front: seq<Entry>, e: Entry, back: seq<Entry>, parse: string -> Option<int>)
    requires e.folder.Some? && e.folder.value != folderName
    ensures GetIgnitionTime(folderName, front + [e] + back, parse) == GetIgnitionTime(folderName, front + back, parse)
    decreases |front|
  {
    if |front| == 0 {
      assert (front + [e] + back)[1..] == back;
      assert front + back == back;
    } else {
      assert (front + [e] + back)[1..] == front[1..] + [e] + back;
      assert (front + back)[1..] == front[1..] + back;
      OtherFoldersIgnored(folderName, front[1..], e, back, parse);
    }
  }
}
