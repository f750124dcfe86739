/** points_to_geojson.py: a JSON document `{"points": [[lat, lon], ...]}`
    becomes one LineString Feature named after the input file, written to
    the input's dirname joined to `<stem>.geojson` by a separator. */
module PointsToGeoJson {
  import opened Results
  import opened Paths
  import opened Collections
  import G = GeoJson

  /** A points file: its name and the `points` member of its JSON object,
      None when the member is missing. */
  datatype PointsFile = PointsFile(path: string, points: Option<seq<seq<real>>>)

  /** `Point((point[1], point[0]))`: an IndexError for an entry with fewer
      than two numbers; the entry is latitude first, the position longitude
      first. */
  function EntryPosition(entry: seq<real>): (r: Result<G.Position>)
    ensures r.Err? <==> |entry| < 2
    ensures r.Err? ==> r.error == IndexError
    ensures r.Ok? ==> r.value.lat == entry[0] && r.value.lon == entry[1]
  {
    if |entry| < 2 then Err(IndexError) else Ok(G.Position(entry[1], entry[0]))
  }

  /** The loop over the `points` entries: the first failing entry's
      IndexError, or one position per entry. */
  function Positions(entries: seq<seq<real>>): (r: Result<seq<G.Position>>)
    ensures r.Ok? <==> forall i :: 0 <= i < |entries| ==> |entries[i]| >= 2
    ensures r.Err? ==> r.error == IndexError
    ensures r.Ok? ==> |r.value| == |entries|
    ensures r.Ok? ==> forall i :: 0 <= i < |entries| ==> r.value[i].lat == entries[i][0] && r.value[i].lon == entries[i][1]
  {
    AllOk(Steps(entries, EntryPosition))
  }

  /** One file of `process_files`: a TypeError when there is no `points`
      member to iterate, the first failing entry's IndexError, or the
      Feature written to the input's dirname, a separator and
      `<stem>.geojson`. */
  function ConvertFile(f: PointsFile): (r: Result<G.Written<G.Feature>>)
    ensures f.points.None? ==> r == Err(TypeError)
    ensures f.points.Some? ==>
      (r.Ok? <==> forall i :: 0 <= i < |f.points.value| ==> |f.points.value[i]| >= 2)
    ensures f.points.Some? && r.Err? ==> r.error == IndexError
    ensures r.Ok? ==>
      && f.points.Some?
      && r.value.path == OutputPath(f.path)
      && r.value.path == Dirname(f.path) + [Sep] + Stem(Basename(f.path)) + ".geojson"
      && Basename(r.value.path) == Stem(Basename(f.path)) + ".geojson"
      && r.value.content.name == Some(Basename(f.path))
      && r.value.content.geometry.LineString?
      && |r.value.content.geometry.positions| == |f.points.value|
      && forall i :: 0 <= i < |f.points.value| ==>
           var p := r.value.content.geometry.positions[i];
           p.lat == f.points.value[i][0] && p.lon == f.points.value[i][1]
  {
    match f.points
    case None => Err(TypeError)
    case Some(entries) =>
      match Positions(entries)
      case Err(e) => Err(e)
      case Ok(ps) =>
        OutputPathParts(f.path);
        Ok(G.Written(OutputPath(f.path), G.Feature(G.LineString(ps), Some(Basename(f.path)))))
  }

  /** The converter as evidently intended: the same outcome, with the Feature
      written to `<stem>.geojson` in the input's own directory. */
  function ConvertFileBeside(f: PointsFile): (r: Result<G.Written<G.Feature>>)
    ensures r.Ok? <==> ConvertFile(f).Ok?
    ensures r.Err? ==> r.error == ConvertFile(f).error
    ensures r.Ok? ==>
      && r.value.content == ConvertFile(f).value.content
      && Dirname(r.value.path) == Dirname(f.path)
      && Basename(r.value.path) == Stem(Basename(f.path)) + ".geojson"
  {
    match ConvertFile(f)
    case Err(e) => Err(e)
    case Ok(w) => Ok(G.Written(SiblingPath(f.path), w.content))
  }

  /** The two converters agree on every input inside a directory other than
      the root. */
  lemma BesideAgreesInDirectory(f: PointsFile)
    requires !AllSep(Dirname(f.path))
    ensures ConvertFileBeside(f) == ConvertFile(f)
  {
    SiblingPathMatchesOutputPath(f.path);
  }

  lemma FirstTwo(e: seq<real>)
    requires |e| >= 2
    ensures e[..2] == [e[0], e[1]]
  {
  }

  /** Reading the positions back gives the `[lat, lon]` entries, whatever
      else an entry held after its first two numbers. */
  lemma ConvertFileRoundTrip(f: PointsFile)
    requires ConvertFile(f).Ok?
    ensures |ConvertFile(f).value.content.geometry.positions| == |f.points.value|
    ensures forall i :: 0 <= i < |f.points.value| ==>
      var p := ConvertFile(f).value.content.geometry.positions[i];
      [p.lat, p.lon] == f.points.value[i][..2]
  {
    var ps := ConvertFile(f).value.content.geometry.positions;
    var entries := f.points.value;
    forall i | 0 <= i < |entries| ensures [ps[i].lat, ps[i].lon] == entries[i][..2] {
      FirstTwo(entries[i]);
    }
  }

  /** `process_files(files)`: the files in order, each written before the
      next is read; a raise stops the run with the documents written so far. */
  function ProcessFiles(files: Option<seq<PointsFile>>): (run: Run<G.Written<G.Feature>>)
    ensures files.None? ==> run == Run([], None)
    ensures files.Some? ==>
      && |run.done| <= |files.value|
      && (forall i :: 0 <= i < |run.done| ==> ConvertFile(files.value[i]) == Ok(run.done[i]))
      && (run.failure.None? <==> |run.done| == |files.value|)
      && (run.failure.Some? ==> ConvertFile(files.value[|run.done|]) == Err(run.failure.value))
  {
    match files
    case None => Run([], None)
    case Some(fs) =>
      RunAll(Steps(fs, ConvertFile))
  }
}
