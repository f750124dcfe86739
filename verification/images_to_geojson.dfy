/** images_to_geojson.py: the same EXIF reading as images_to_gpx.py, but each
    photo with a fix becomes a GeoJSON position in directory-listing order,
    one LineString per directory, and several directories are gathered into
    a GeometryCollection. */
module ImagesToGeoJson {
  import opened Results
  import opened Collections
  import opened Exif
  import G = GeoJson
  import ImagesToGpx

  /** The gate of this script's `get_lat_lon_ele`: the five values are
      present in `gps_info`, whatever they hold. */
  function Present(gps: map<string, TagValue>): (b: bool)
    ensures b <==> forall i :: 0 <= i < |FixKeys| ==> FixKeys[i] in gps
  {
    FixKeysAre();
    && "GPSLatitude" in gps && "GPSLatitudeRef" in gps
    && "GPSLongitude" in gps && "GPSLongitudeRef" in gps
    && "GPSAltitude" in gps
  }

  /** `get_lat_lon_ele(gps_info)`: nothing unless all five values are present;
      otherwise the fix `Locate` computes, or its exception. */
  function LatLonEle(gps: map<string, TagValue>): (r: Result<Option<Fix>>)
    ensures !Present(gps) ==> r == Ok(None)
    ensures Present(gps) ==>
      var fix := Locate(gps["GPSLatitude"], gps["GPSLatitudeRef"], gps["GPSLongitude"],
                        gps["GPSLongitudeRef"], gps["GPSAltitude"]);
      && (r.Ok? <==> fix.Ok?)
      && (r.Ok? ==> r.value == Some(fix.value))
      && (r.Err? ==> r.error == fix.error)
  {
    if !Present(gps) then Ok(None)
    else
      match Locate(gps["GPSLatitude"], gps["GPSLatitudeRef"], gps["GPSLongitude"],
                   gps["GPSLongitudeRef"], gps["GPSAltitude"])
      case Err(e) => Err(e)
      case Ok(fix) => Ok(Some(fix))
  }

  /** One name of the directory listing: nothing for a non-file; the raise of
      the tag loop or of `get_lat_lon_ele`; a position `(lon, lat)` when both
      coordinates are truthy, that is non-zero; nothing otherwise. The
      elevation plays no part. */
  function FilePosition(e: Entry): (r: Result<Option<G.Position>>)
    ensures !e.isFile ==> r == Ok(None)
    ensures e.isFile && CollectGps(e.tags).Err? ==> r == Err(IndexError)
    ensures e.isFile && CollectGps(e.tags).Ok? ==>
      var fix := LatLonEle(CollectGps(e.tags).value);
      && (fix.Err? ==> r == Err(fix.error))
      && (fix == Ok(None) ==> r == Ok(None))
      && (fix.Ok? && fix.value.Some? ==>
            r.Ok? && (r.value.Some? <==> fix.value.value.lat != 0.0 && fix.value.value.lon != 0.0))
    ensures r.Ok? && r.value.Some? ==>
      && e.isFile && CollectGps(e.tags).Ok?
      && LatLonEle(CollectGps(e.tags).value).Ok?
      && LatLonEle(CollectGps(e.tags).value).value.Some?
      && r.value.value.lat == LatLonEle(CollectGps(e.tags).value).value.value.lat
      && r.value.value.lon == LatLonEle(CollectGps(e.tags).value).value.value.lon
  {
    if !e.isFile then Ok(None)
    else match CollectGps(e.tags)
      case Err(err) => Err(err)
      case Ok(gps) =>
        match LatLonEle(gps)
        case Err(err) => Err(err)
        case Ok(None) => Ok(None)
        case Ok(Some(fix)) =>
          if fix.lat != 0.0 && fix.lon != 0.0 then Ok(Some(G.Position(fix.lon, fix.lat))) else Ok(None)
  }

  /** The positions of the files whose outcome is a position, in listing
      order. */
  function Track(outcomes: seq<Option<G.Position>>): seq<G.Position> {
    Somes(outcomes)
  }

  /** The outcome of every name of the listing, in order. */
  function Outcomes(files: seq<Entry>): (rs: seq<Result<Option<G.Position>>>)
    ensures |rs| == |files| && forall i :: 0 <= i < |files| ==> rs[i] == FilePosition(files[i])
  {
    seq(|files|, i requires 0 <= i < |files| => FilePosition(files[i]))
  }

  /** `process_directory(directory)`: an empty LineString for None; otherwise
      the LineString of every file's position in listing order; the first
      raise aborts. */
  function ProcessDirectory(directory: Option<seq<Entry>>): (r: Result<G.Geometry>)
    ensures directory.None? ==> r == Ok(G.LineString([]))
    ensures r.Ok? ==> r.value.LineString?
    ensures directory.Some? ==>
      var files := directory.value;
      && (r.Ok? <==> forall i :: 0 <= i < |files| ==> FilePosition(files[i]).Ok?)
      && (r.Err? ==> exists i :: 0 <= i < |files| && FilePosition(files[i]) == Err(r.error)
                                 && forall j :: 0 <= j < i ==> FilePosition(files[j]).Ok?)
  {
    match directory
    case None => Ok(G.LineString([]))
    case Some(files) =>
      match AllOk(Outcomes(files))
      case Err(e) => Err(e)
      case Ok(outcomes) => Ok(G.LineString(Track(outcomes)))
  }

  /** Every point of a directory's LineString is the position of one of its
      files. */
  lemma PositionsComeFromFiles(files: seq<Entry>, j: nat)
    requires ProcessDirectory(Some(files)).Ok?
    requires j < |ProcessDirectory(Some(files)).value.positions|
    ensures exists i :: 0 <= i < |files|
                        && FilePosition(files[i]) == Ok(Some(ProcessDirectory(Some(files)).value.positions[j]))
  {
    var outcomes := AllOk(Outcomes(files)).value;
    SomesFrom(outcomes, j);
  }

  /** One more file in the listing: it either aborts the run, adds its
      position at the end of the LineString, or adds nothing. */
  lemma AppendFile(files: seq<Entry>, f: Entry)
    requires ProcessDirectory(Some(files)).Ok?
    ensures FilePosition(f).Err? ==> ProcessDirectory(Some(files + [f])) == Err(FilePosition(f).error)
    ensures FilePosition(f).Ok? ==>
      ProcessDirectory(Some(files + [f]))
      == Ok(G.LineString(ProcessDirectory(Some(files)).value.positions
                         + (if FilePosition(f).value.Some? then [FilePosition(f).value.value] else [])))
  {
    var rs := Outcomes(files);
    assert Outcomes(files + [f]) == rs + [FilePosition(f)];
    AllOkSnoc(rs, FilePosition(f));
    if FilePosition(f).Ok? {
      SomesSnoc(AllOk(rs).value, FilePosition(f).value);
    }
  }

  /** The last line of `main`: a GeometryCollection of several tracks, the
      track itself when there is one, an IndexError from `tracks[0]` when
      there is none. */
  function Assemble(tracks: seq<G.Geometry>): (r: Result<G.Geometry>)
    ensures r.Err? <==> tracks == []
    ensures r.Err? ==> r.error == IndexError
    ensures |tracks| == 1 ==> r == Ok(tracks[0])
    ensures |tracks| > 1 ==> r == Ok(G.GeometryCollection(tracks))
  {
    if |tracks| > 1 then Ok(G.GeometryCollection(tracks))
    else if |tracks| == 1 then Ok(tracks[0])
    else Err(IndexError)
  }

  /** The LineString of every directory, in the order given. */
  function Lines(directories: seq<seq<Entry>>): (rs: seq<Result<G.Geometry>>)
    ensures |rs| == |directories|
    ensures forall i :: 0 <= i < |directories| ==> rs[i] == ProcessDirectory(Some(directories[i]))
  {
    seq(|directories|, i requires 0 <= i < |directories| => ProcessDirectory(Some(directories[i])))
  }

  /** `main` after argument parsing: one LineString per directory, in the
      order given, assembled into the document printed. */
  function ImagesToGeometry(directories: seq<seq<Entry>>): (r: Result<G.Geometry>)
    ensures r.Err? <==> directories == [] || exists i :: 0 <= i < |directories| && ProcessDirectory(Some(directories[i])).Err?
    ensures directories == [] ==> r == Err(IndexError)
    ensures directories != [] && r.Err? ==>
      exists i :: 0 <= i < |directories| && ProcessDirectory(Some(directories[i])) == Err(r.error)
                  && forall j :: 0 <= j < i ==> ProcessDirectory(Some(directories[j])).Ok?
    ensures |directories| == 1 && r.Ok? ==> r == ProcessDirectory(Some(directories[0]))
    ensures |directories| > 1 && r.Ok? ==>
      && r.value.GeometryCollection?
      && |r.value.geometries| == |directories|
      && forall i :: 0 <= i < |directories| ==> Ok(r.value.geometries[i]) == ProcessDirectory(Some(directories[i]))
  {
    match AllOk(Lines(directories))
    case Err(e) => Err(e)
    case Ok(tracks) => Assemble(tracks)
  }

  // The two image scripts side by side.

  /** When the five values are truthy, both gates let them in and both
      scripts compute the same fix. */
  lemma GatesAgreeWhenTruthy(gps: map<string, TagValue>)
    requires ImagesToGpx.Complete(gps)
    ensures LatLonEle(gps) == ImagesToGpx.LatLonEle(gps)
  {
  }

  /** The truthiness gate of images_to_gpx.py is the stricter one: whatever
      it lets through, this script's presence gate lets through too. */
  lemma TruthyGateIsStricter(gps: map<string, TagValue>)
    requires ImagesToGpx.Complete(gps)
    ensures Present(gps)
  {
  }

  /** A present but empty latitude: this script's gate lets it through and
      `value[0]` raises, where images_to_gpx.py's truthiness gate yields no
      fix. */
  lemma EmptyLatitudeRaises(gps: map<string, TagValue>)
    requires Present(gps) && gps["GPSLatitude"] == Ratios([])
    ensures LatLonEle(gps) == Err(IndexError)
    ensures ImagesToGpx.LatLonEle(gps) == Ok(None)
  {
    assert !IsTruthy(gps["GPSLatitude"]);
    assert Component(gps["GPSLatitude"], 0) == Err(IndexError);
  }

  /** A photo on the equator or the prime meridian has a falsy coordinate and
      is left out of the track. */
  lemma ZeroCoordinateDropped(e: Entry)
    requires e.isFile && CollectGps(e.tags).Ok?
    requires LatLonEle(CollectGps(e.tags).value).Ok? && LatLonEle(CollectGps(e.tags).value).value.Some?
    requires LatLonEle(CollectGps(e.tags).value).value.value.lat == 0.0
             || LatLonEle(CollectGps(e.tags).value).value.value.lon == 0.0
    ensures FilePosition(e) == Ok(None)
  {
  }

  /** An altitude with a zero denominator gives no elevation: images_to_gpx.py
      then leaves the photo out, this script still places it. */
  lemma NoElevationStillPlaced(e: Entry, clock: ImagesToGpx.Clock, lat: real, lon: real)
    requires e.isFile
    requires ImagesToGpx.ReadTags(e.tags, clock).Ok?
    requires ImagesToGpx.Complete(CollectGps(e.tags).value)
    requires LatLonEle(CollectGps(e.tags).value) == Ok(Some(Fix(lat, lon, None)))
    requires lat != 0.0 && lon != 0.0
    ensures FilePosition(e) == Ok(Some(G.Position(lon, lat)))
    ensures ImagesToGpx.FileOutcome(e, clock) == Ok(None)
  {
    var gps := CollectGps(e.tags).value;
    assert ImagesToGpx.ReadTags(e.tags, clock).value.gps == gps;
    GatesAgreeWhenTruthy(gps);
  }
}
