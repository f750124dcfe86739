/** gpx_to_geojson.py: every GPX file becomes a FeatureCollection with one
    MultiLineString Feature per track, written to the input's dirname joined
    to `<stem>.geojson` by a separator. */
module GpxToGeoJson {
  import opened Results
  import opened Gpx
  import opened Paths
  import G = GeoJson

  /** `Point((point.longitude, point.latitude))`: the elevation is dropped. */
  function PositionOf(p: Point): G.Position {
    G.Position(p.lon, p.lat)
  }

  /** `LineString(points)` of one segment. */
  function SegmentLine(s: Segment): (line: seq<G.Position>)
    ensures |line| == |s|
    ensures forall j :: 0 <= j < |s| ==> line[j] == PositionOf(s[j])
  {
    seq(|s|, j requires 0 <= j < |s| => PositionOf(s[j]))
  }

  /** `Feature(geometry=MultiLineString(segments), properties={"name": track.name})`. */
  function TrackFeature(t: Track): (f: G.Feature)
    ensures f.name == t.name
    ensures f.geometry.MultiLineString? && |f.geometry.lines| == |t.segments|
    ensures forall i :: 0 <= i < |t.segments| ==> f.geometry.lines[i] == SegmentLine(t.segments[i])
  {
    G.Feature(G.MultiLineString(seq(|t.segments|, i requires 0 <= i < |t.segments| => SegmentLine(t.segments[i]))), t.name)
  }

  /** Reading a position back as latitude and longitude. */
  function LatLonOf(p: G.Position): LatLon {
    LatLon(p.lat, p.lon)
  }

  /** The Feature keeps the track's name, its segment structure and every
      point's coordinates, so they can be read back from it. */
  lemma TrackFeatureRoundTrip(t: Track)
    ensures var f := TrackFeature(t);
      && f.name == t.name
      && |f.geometry.lines| == |t.segments|
      && (forall i :: 0 <= i < |t.segments| ==> |f.geometry.lines[i]| == |t.segments[i]|)
      && forall i, j :: 0 <= i < |t.segments| && 0 <= j < |t.segments[i]| ==>
           LatLonOf(f.geometry.lines[i][j]) == Coordinates(t.segments[i][j])
  {
  }

  /** Tracks that differ only in elevations give the same Feature. */
  lemma ElevationIgnored(t: Track, u: Track)
    requires t.name == u.name && |t.segments| == |u.segments|
    requires forall i :: 0 <= i < |t.segments| ==> |t.segments[i]| == |u.segments[i]|
    requires forall i, j :: 0 <= i < |t.segments| && 0 <= j < |t.segments[i]| ==>
               Coordinates(t.segments[i][j]) == Coordinates(u.segments[i][j])
    ensures TrackFeature(t) == TrackFeature(u)
  {
    forall i | 0 <= i < |t.segments| ensures SegmentLine(t.segments[i]) == SegmentLine(u.segments[i]) {
      assert forall j :: 0 <= j < |t.segments[i]| ==> PositionOf(t.segments[i][j]) == PositionOf(u.segments[i][j]);
    }
    assert TrackFeature(t).geometry.lines == TrackFeature(u).geometry.lines;
  }

  /** One file of `process_files`: a FeatureCollection of its tracks in order,
      written to the input's dirname, a separator and `<stem>.geojson`, the
      `os.path.sep.join` of the two. */
  function ConvertFile(f: GpxFile): (w: G.Written<G.FeatureCollection>)
    ensures w.path == OutputPath(f.path)
    ensures w.path == Dirname(f.path) + [Sep] + Stem(Basename(f.path)) + ".geojson"
    ensures Basename(w.path) == Stem(Basename(f.path)) + ".geojson"
    ensures |w.content.features| == |f.tracks|
    ensures forall i :: 0 <= i < |f.tracks| ==> w.content.features[i] == TrackFeature(f.tracks[i])
  {
    OutputPathParts(f.path);
    G.Written(OutputPath(f.path), G.FeatureCollection(seq(|f.tracks|, i requires 0 <= i < |f.tracks| => TrackFeature(f.tracks[i]))))
  }

  /** The converter as evidently intended: the same document, written to
      `<stem>.geojson` in the input's own directory. */
  function ConvertFileBeside(f: GpxFile): (w: G.Written<G.FeatureCollection>)
    ensures w.content == ConvertFile(f).content
    ensures Dirname(w.path) == Dirname(f.path)
    ensures Basename(w.path) == Stem(Basename(f.path)) + ".geojson"
  {
    G.Written(SiblingPath(f.path), ConvertFile(f).content)
  }

  /** The two converters agree on every input inside a directory other than
      the root. */
  lemma BesideAgreesInDirectory(f: GpxFile)
    requires !AllSep(Dirname(f.path))
    ensures ConvertFileBeside(f) == ConvertFile(f)
  {
    SiblingPathMatchesOutputPath(f.path);
  }

  /** A bare `<stem>.gpx` is written to `/<stem>.geojson` in the root
      directory; the intended converter writes `<stem>.geojson`. */
  lemma TopLevelFileWrittenAtRoot(stem: string, tracks: seq<Track>)
    requires '.' !in stem && Sep !in stem
    ensures ConvertFile(GpxFile(stem + ".gpx", tracks)).path == [Sep] + stem + ".geojson"
    ensures ConvertFileBeside(GpxFile(stem + ".gpx", tracks)).path == stem + ".geojson"
  {
    GpxNameAtTopLevel(stem);
    SiblingPathAtTopLevel(stem);
  }

  /** `process_files(files)`: nothing for None, otherwise one written document
      per file, in order. */
  function ProcessFiles(files: Option<seq<GpxFile>>): (out: seq<G.Written<G.FeatureCollection>>)
    ensures files.None? ==> out == []
    ensures files.Some? ==> |out| == |files.value| && forall i :: 0 <= i < |out| ==> out[i] == ConvertFile(files.value[i])
  {
    match files
    case None => []
    case Some(fs) => seq(|fs|, i requires 0 <= i < |fs| => ConvertFile(fs[i]))
  }
}
