/** images_to_gpx.py: the GPS fix and capture time of each image file, a
    dictionary from capture time to track point per directory, and one GPX
    track holding a segment per directory with its points in time order. */
module ImagesToGpx {
  import opened Results
  import opened Strings
  import opened Collections
  import opened Exif
  import opened Gpx

  /** `time.mktime(time.strptime(s, '%Y:%m:%d %H:%M:%S'))`: the epoch second of
      a date stamp, or None where strptime raises ValueError. The calendar and
      the local time zone stay outside the model. The clock is applied at each
      date tag, where strptime runs; `mktime`, which the source calls later
      for a file with a full fix, is taken to be total. */
  type Clock = string -> Option<int>

  const DateTimeTag := "Image DateTime"

  lemma DateTimeTagIsNotGps()
    ensures !StartsWith(DateTimeTag, "GPS")
  {
    assert DateTimeTag[0] == 'I';
  }

  /** What one tag does in the loop over a file's tags. */
  datatype TagEffect = GpsField(key: string, value: TagValue) | DateStamp(time: int) | NoEffect

  function GpsWrite(e: TagEffect): Option<(string, TagValue)> {
    if e.GpsField? then Some((e.key, e.value)) else None
  }

  function DateWrite(e: TagEffect): Option<int> {
    if e.DateStamp? then Some(e.time) else None
  }

  /** One pass of the tag loop: the GPS branch, then the date branch, where
      strptime raises TypeError on values that are not text and ValueError
      on text it cannot parse. */
  function TagEffectOf(tag: Tag, clock: Clock): (r: Result<TagEffect>)
    ensures r.Ok? ==> GpsEntry(tag) == Ok(GpsWrite(r.value))
    ensures r.Ok? ==> (r.value.DateStamp? <==> tag.name == DateTimeTag)
    ensures r.Ok? && r.value.DateStamp? ==> tag.value.Text? && clock(tag.value.text) == Some(r.value.time)
    ensures r.Err? <==> GpsEntry(tag).Err? || (tag.name == DateTimeTag && (!tag.value.Text? || clock(tag.value.text).None?))
    ensures r.Err? && tag.name == DateTimeTag ==> r.error == (if tag.value.Text? then ValueError else TypeError)
  {
    DateTimeTagIsNotGps();
    match GpsEntry(tag)
    case Err(e) => Err(e)
    case Ok(Some(kv)) => Ok(GpsField(kv.0, kv.1))
    case Ok(None) =>
      if tag.name != DateTimeTag then Ok(NoEffect)
      else if !tag.value.Text? then Err(TypeError)
      else match clock(tag.value.text)
        case None => Err(ValueError)
        case Some(t) => Ok(DateStamp(t))
  }

  /** What the tag loop leaves for one file: `gps_info` and the parsed date. */
  datatype FileTags = FileTags(gps: map<string, TagValue>, date: Option<int>)

  /** The tag loop of `process_directory`: the tags in dictionary order, the
      first raise aborting the file (and the run). Its GPS dictionary is the
      one `CollectGps` describes; its date is that of the last
      "Image DateTime" tag. */
  function ReadTags(tags: seq<Tag>, clock: Clock): (r: Result<FileTags>)
    ensures r.Ok? <==> forall i :: 0 <= i < |tags| ==> TagEffectOf(tags[i], clock).Ok?
    ensures r.Err? ==> exists i :: 0 <= i < |tags| && TagEffectOf(tags[i], clock) == Err(r.error)
                                 && forall j :: 0 <= j < i ==> TagEffectOf(tags[j], clock).Ok?
    ensures r.Ok? ==> CollectGps(tags) == Ok(r.value.gps)
    ensures r.Ok? ==> (r.value.date.None? <==> forall i :: 0 <= i < |tags| ==> tags[i].name != DateTimeTag)
    ensures r.Ok? && r.value.date.Some? ==>
              exists i :: 0 <= i < |tags| && tags[i].name == DateTimeTag && tags[i].value.Text?
                          && clock(tags[i].value.text) == r.value.date
                          && forall j :: i < j < |tags| ==> tags[j].name != DateTimeTag
  {
    match AllOk(Effects(tags, clock))
    case Err(e) => Err(e)
    case Ok(es) =>
      var gps := GpsWrites(es);
      var dates := DateWrites(es);
      GpsAgrees(tags, clock, es, gps);
      DatesAgree(tags, clock, es, dates);
      LastDate(tags, clock, dates);
      Ok(FileTags(LastWins(gps), LastSome(dates)))
  }

  /** The effect of every tag, in dictionary order. */
  function Effects(tags: seq<Tag>, clock: Clock): (rs: seq<Result<TagEffect>>)
    ensures |rs| == |tags| && forall i :: 0 <= i < |tags| ==> rs[i] == TagEffectOf(tags[i], clock)
  {
    seq(|tags|, i requires 0 <= i < |tags| => TagEffectOf(tags[i], clock))
  }

  function GpsWrites(es: seq<TagEffect>): (gps: seq<Option<(string, TagValue)>>)
    ensures |gps| == |es| && forall i :: 0 <= i < |es| ==> gps[i] == GpsWrite(es[i])
  {
    seq(|es|, i requires 0 <= i < |es| => GpsWrite(es[i]))
  }

  function DateWrites(es: seq<TagEffect>): (dates: seq<Option<int>>)
    ensures |dates| == |es| && forall i :: 0 <= i < |es| ==> dates[i] == DateWrite(es[i])
  {
    seq(|es|, i requires 0 <= i < |es| => DateWrite(es[i]))
  }

  lemma GpsAgrees(tags: seq<Tag>, clock: Clock, es: seq<TagEffect>, gps: seq<Option<(string, TagValue)>>)
    requires |es| == |gps| == |tags|
    requires forall i :: 0 <= i < |tags| ==> TagEffectOf(tags[i], clock) == Ok(es[i])
    requires forall i :: 0 <= i < |es| ==> gps[i] == GpsWrite(es[i])
    ensures CollectGps(tags) == Ok(LastWins(gps))
  {
    AllOkOfOks(Steps(tags, GpsEntry), gps);
  }

  lemma DatesAgree(tags: seq<Tag>, clock: Clock, es: seq<TagEffect>, dates: seq<Option<int>>)
    requires |es| == |dates| == |tags|
    requires forall i :: 0 <= i < |tags| ==> TagEffectOf(tags[i], clock) == Ok(es[i])
    requires forall i :: 0 <= i < |es| ==> dates[i] == DateWrite(es[i])
    ensures forall i :: 0 <= i < |tags| ==> (dates[i].Some? <==> tags[i].name == DateTimeTag)
    ensures forall i :: 0 <= i < |tags| && dates[i].Some? ==>
              tags[i].value.Text? && clock(tags[i].value.text) == dates[i]
  {
    forall i | 0 <= i < |tags|
      ensures dates[i].Some? <==> tags[i].name == DateTimeTag
    {
      DateTimeTagIsNotGps();
    }
  }

  /** The date the tag loop ends with is that of the last date tag. */
  lemma LastDate(tags: seq<Tag>, clock: Clock, dates: seq<Option<int>>)
    requires |dates| == |tags|
    requires forall i :: 0 <= i < |tags| ==> (dates[i].Some? <==> tags[i].name == DateTimeTag)
    requires forall i :: 0 <= i < |tags| && dates[i].Some? ==>
               tags[i].value.Text? && clock(tags[i].value.text) == dates[i]
    ensures LastSome(dates).None? <==> forall i :: 0 <= i < |tags| ==> tags[i].name != DateTimeTag
    ensures LastSome(dates).Some? ==>
              exists i :: 0 <= i < |tags| && tags[i].name == DateTimeTag && tags[i].value.Text?
                          && clock(tags[i].value.text) == LastSome(dates)
                          && forall j :: i < j < |tags| ==> tags[j].name != DateTimeTag
  {
    if LastSome(dates).Some? {
      var i :| 0 <= i < |dates| && dates[i] == LastSome(dates) && forall j :: i < j < |dates| ==> dates[j].None?;
      assert tags[i].name == DateTimeTag;
    }
  }

  /** The gate of `get_lat_lon_ele`: each of the five values it reads is
      present in `gps_info` and truthy. */
  function Complete(gps: map<string, TagValue>): (b: bool)
    ensures b <==> forall i :: 0 <= i < |FixKeys| ==> FixKeys[i] in gps && IsTruthy(gps[FixKeys[i]])
  {
    FixKeysAre();
    && "GPSLatitude" in gps && IsTruthy(gps["GPSLatitude"])
    && "GPSLatitudeRef" in gps && IsTruthy(gps["GPSLatitudeRef"])
    && "GPSLongitude" in gps && IsTruthy(gps["GPSLongitude"])
    && "GPSLongitudeRef" in gps && IsTruthy(gps["GPSLongitudeRef"])
    && "GPSAltitude" in gps && IsTruthy(gps["GPSAltitude"])
  }

  /** `get_lat_lon_ele(gps_info)`: nothing unless all five values are truthy;
      otherwise the fix `Locate` computes, or its exception. */
  function LatLonEle(gps: map<string, TagValue>): (r: Result<Option<Fix>>)
    ensures !Complete(gps) ==> r == Ok(None)
    ensures Complete(gps) ==>
      var fix := Locate(gps["GPSLatitude"], gps["GPSLatitudeRef"], gps["GPSLongitude"],
                        gps["GPSLongitudeRef"], gps["GPSAltitude"]);
      && (r.Ok? <==> fix.Ok?)
      && (r.Ok? ==> r.value == Some(fix.value))
      && (r.Err? ==> r.error == fix.error)
  {
    if !Complete(gps) then Ok(None)
    else
      match Locate(gps["GPSLatitude"], gps["GPSLatitudeRef"], gps["GPSLongitude"],
                   gps["GPSLongitudeRef"], gps["GPSAltitude"])
      case Err(e) => Err(e)
      case Ok(fix) => Ok(Some(fix))
  }

  /** One name of the directory listing: nothing for a non-file; the raise of
      the tag loop or of `get_lat_lon_ele`; nothing without a full fix; a
      TypeError from `mktime(None)` for a full fix without a date; otherwise
      the point keyed by its capture time. */
  function FileOutcome(e: Entry, clock: Clock): (r: Result<Option<(int, Point)>>)
    ensures !e.isFile ==> r == Ok(None)
    ensures e.isFile && ReadTags(e.tags, clock).Err? ==> r == Err(ReadTags(e.tags, clock).error)
    ensures r.Ok? && r.value.Some? ==>
      && e.isFile && ReadTags(e.tags, clock).Ok?
      && ReadTags(e.tags, clock).value.date == Some(r.value.value.0)
      && r.value.value.1.ele.Some?
      && LatLonEle(ReadTags(e.tags, clock).value.gps)
         == Ok(Some(Fix(r.value.value.1.lat, r.value.value.1.lon, r.value.value.1.ele)))
    ensures e.isFile && ReadTags(e.tags, clock).Ok? ==>
      var ft := ReadTags(e.tags, clock).value;
      && (LatLonEle(ft.gps).Err? ==> r == Err(LatLonEle(ft.gps).error))
      && (LatLonEle(ft.gps).Ok? && LatLonEle(ft.gps).value.Some? && LatLonEle(ft.gps).value.value.ele.Some? ==>
            (ft.date.None? ==> r == Err(TypeError)) && (ft.date.Some? ==> r.Ok? && r.value.Some?))
      && (LatLonEle(ft.gps) == Ok(None) ==> r == Ok(None))
      && (LatLonEle(ft.gps).Ok? && LatLonEle(ft.gps).value.Some? && LatLonEle(ft.gps).value.value.ele.None? ==>
            r == Ok(None))
  {
    if !e.isFile then Ok(None)
    else match ReadTags(e.tags, clock)
      case Err(err) => Err(err)
      case Ok(ft) =>
        match LatLonEle(ft.gps)
        case Err(err) => Err(err)
        case Ok(None) => Ok(None)
        case Ok(Some(fix)) =>
          if fix.ele.None? then Ok(None)
          else if ft.date.None? then Err(TypeError)
          else Ok(Some((ft.date.value, Point(fix.lat, fix.lon, fix.ele))))
  }

  /** `process_directory(directory)`: an empty dictionary for None; otherwise
      every file's point under its capture time, a later file overwriting an
      earlier one with the same time; the first raise aborts. */
  function ProcessDirectory(directory: Option<seq<Entry>>, clock: Clock): (r: Result<map<int, Point>>)
    ensures directory.None? ==> r == Ok(map[])
    ensures directory.Some? ==>
      var files := directory.value;
      && (r.Ok? <==> forall i :: 0 <= i < |files| ==> FileOutcome(files[i], clock).Ok?)
      && (r.Err? ==> exists i :: 0 <= i < |files| && FileOutcome(files[i], clock) == Err(r.error)
                                 && forall j :: 0 <= j < i ==> FileOutcome(files[j], clock).Ok?)
      && (r.Ok? ==> forall t :: t in r.value <==> exists i :: 0 <= i < |files| && Stamped(files[i], clock, t))
  {
    match directory
    case None => Ok(map[])
    case Some(files) => KeyedRun(files, Outcome(clock))
  }

  /** `FileOutcome` for a fixed clock, as the step of the directory loop. */
  function Outcome(clock: Clock): Entry -> Result<Option<(int, Point)>> {
    e => FileOutcome(e, clock)
  }

  /** Of all the files, `files[i]` is the last one whose point has capture
      time `t`. */
  ghost predicate LastStamped(files: seq<Entry>, clock: Clock, i: int, t: int) {
    LastWriter(files, Outcome(clock), i, t)
  }

  /** The dictionary holds, for each capture time, the point of the last file
      listed with that time. */
  lemma LastFileWins(files: seq<Entry>, clock: Clock, i: int, t: int)
    requires ProcessDirectory(Some(files), clock).Ok?
    requires LastStamped(files, clock, i, t)
    ensures t in ProcessDirectory(Some(files), clock).value
    ensures ProcessDirectory(Some(files), clock).value[t] == FileOutcome(files[i], clock).value.value.1
  {
    assert ProcessDirectory(Some(files), clock) == KeyedRun(files, Outcome(clock));
  }

  /** The file yields a point with capture time `t`. */
  predicate Stamped(e: Entry, clock: Clock, t: int) {
    Writes(Outcome(clock)(e), t)
  }

  /** Two files with the same capture time: the one listed later wins. */
  lemma LaterFileWins(a: Entry, b: Entry, clock: Clock, t: int)
    requires Stamped(a, clock, t) && Stamped(b, clock, t)
    ensures ProcessDirectory(Some([a, b]), clock) == Ok(map[t := FileOutcome(b, clock).value.value.1])
  {
    assert ProcessDirectory(Some([a, b]), clock) == KeyedRun([a, b], Outcome(clock));
    KeyedRunLaterWins(a, b, Outcome(clock), t);
  }

  /** `sorted(track)` and the appends in `main`: every point of the dictionary
      once, in increasing order of capture time. */
  function InTimeOrder(track: map<int, Point>): (points: seq<Point>)
    ensures |points| == |track|
    ensures exists times: seq<int> ::
      && |times| == |points|
      && Increasing(times)
      && (forall t :: t in times <==> t in track)
      && (forall i :: 0 <= i < |times| ==> times[i] in track && points[i] == track[times[i]])
  {
    var times := SortedKeys(track.Keys);
    assert |track.Keys| == |track|;
    PointsAt(track, times)
  }

  /** The points of the dictionary under the given times, in that order. */
  function PointsAt(track: map<int, Point>, times: seq<int>): (points: seq<Point>)
    requires forall i :: 0 <= i < |times| ==> times[i] in track
    ensures |points| == |times| && forall i :: 0 <= i < |times| ==> points[i] == track[times[i]]
  {
    seq(|times|, i requires 0 <= i < |times| => track[times[i]])
  }

  /** The dictionary of every directory, in the order given. */
  function Directories(directories: seq<seq<Entry>>, clock: Clock): (rs: seq<Result<map<int, Point>>>)
    ensures |rs| == |directories|
    ensures forall i :: 0 <= i < |directories| ==> rs[i] == ProcessDirectory(Some(directories[i]), clock)
  {
    seq(|directories|, i requires 0 <= i < |directories| => ProcessDirectory(Some(directories[i]), clock))
  }

  /** The GPX document `main` prints: one nameless track with a segment per
      directory argument, each holding that directory's points in time order;
      the first raise aborts the run before anything is printed. */
  function ImagesToTrack(directories: seq<seq<Entry>>, clock: Clock): (r: Result<Track>)
    ensures r.Ok? <==> forall i :: 0 <= i < |directories| ==> ProcessDirectory(Some(directories[i]), clock).Ok?
    ensures r.Err? ==> exists i :: 0 <= i < |directories| && ProcessDirectory(Some(directories[i]), clock) == Err(r.error)
                                 && forall j :: 0 <= j < i ==> ProcessDirectory(Some(directories[j]), clock).Ok?
    ensures r.Ok? ==>
      && r.value.name.None?
      && |r.value.segments| == |directories|
      && forall i :: 0 <= i < |directories| ==>
           r.value.segments[i] == InTimeOrder(ProcessDirectory(Some(directories[i]), clock).value)
  {
    match AllOk(Directories(directories, clock))
    case Err(e) => Err(e)
    case Ok(ms) => Ok(Track(None, Steps(ms, InTimeOrder)))
  }
}
