# python_geo_utils in Dafny

A model of the logic inside the python_geo_utils command-line scripts, with
proofs of what that logic does. The scripts are:

- **filter_gpx_points.py**, `process_track`. It thins every segment of a GPX
  track greedily, in one pass. The first point is kept. A later point is kept
  when it is at least `spacing` from the last kept point, and it then becomes
  the new reference. A missing or zero spacing means the default, 0.08. The
  new track's name gets a `(filtered to …)` suffix. The function counts the
  points it read and the points it kept.
- **images_to_gpx.py**. For each image file it builds the `gps_info`
  dictionary from the EXIF tags (`GPS <key>` tags, a later tag overwriting an
  earlier one) and parses the `Image DateTime` stamp. The fix is taken only
  when all five GPS values are truthy. Degrees/minutes/seconds become decimal
  degrees, signed by the hemisphere reference. The elevation is taken unless
  the altitude denominator is zero. Each directory gives a dictionary from
  capture time to point, in which a later file overwrites an earlier one.
  `main` makes one GPX segment per directory, in argument order, with its
  points in ascending time order.
- **images_to_geojson.py**. Its tag loop has only the GPS branch, with no
  date. The gate only asks that the five values be present, and there is no
  elevation test. A photo
  is placed when both coordinates are non-zero. Each directory becomes a
  LineString of `(lon, lat)` positions in listing order. `main` prints the
  LineString itself when there is one directory, and a GeometryCollection
  when there are several.
- **gpx_to_geojson.py** and **points_to_geojson.py**, `process_files`.
  - gpx_to_geojson.py turns each GPX track into a Feature whose
    MultiLineString has one LineString per segment and one `(lon, lat)`
    position per point.
  - points_to_geojson.py turns a JSON list of `[lat, lon]` entries into one
    LineString Feature named after the input file.
  - Both write their output to the input's dirname, a separator, then
    `<stem>.geojson`, where the stem is the base name up to its first dot.
    For a name without a directory that path is in the root directory (see
    "## Findings").

Modules follow the scripts: `FilterGpxPoints`, `ImagesToGpx`,
`ImagesToGeoJson`, `GpxToGeoJson` and `PointsToGeoJson`. They share these
modules:

| module | what it holds |
|---|---|
| `Results` | Python's None-or-value, the built-in exceptions the scripts raise, and runs of raising steps |
| `Collections` | dict building with last-write-wins, `sorted` of integer keys, filtering out Nones |
| `Strings` | `str.split` and `join` |
| `Paths` | POSIX `dirname` and `basename`, and the output path |
| `Exif` | tag values, the degree conversion, the hemisphere sign, the altitude, `gps_info` |
| `Gpx` | gpxpy's points, segments and tracks |
| `GeoJson` | the geometry objects |

An exception the Python code raises on malformed data is an `Err` value of
the model: an `IndexError` for `split(' ')[1]` on a name without a space, a
`ZeroDivisionError` for a zero denominator, a `TypeError` for `mktime(None)`,
and so on. Inputs that come from the outside world are parameters or values:

- the directory listing is a sequence of `Entry` values;
- the geodesic distance `LatLon.distance` is a function parameter;
- `time.mktime(time.strptime(…))` is a `Clock` parameter.

Two behaviours of the code are easy to misread:

- A spacing of 0 does not keep every point. `spacing if spacing else
  DEFAULT_DISTANCE` treats 0 as falsy and uses 0.08, see
  `FilterGpxPoints.ZeroSpacingDropsNearPoint`.
- A photo with a full GPS fix but no `Image DateTime` tag is not skipped
  silently. `date` stays None and `time.mktime(None)` raises a TypeError,
  see `ImagesToGpx.FileOutcome`.

## Model

| member | source | states |
|---|---|---|
| FilterGpxPoints.EffectiveSpacing | filter_gpx_points.py:46 | None and 0 both give the default 0.08; any other spacing is used as given; the result is never 0 |
| FilterGpxPoints.Scan | filter_gpx_points.py:69-75 | the indices kept after a reference point are in bounds, strictly increasing and after the start |
| FilterGpxPoints.KeptIndices | filter_gpx_points.py:59-75 | the indices the loop keeps are in bounds and strictly increasing, so the output is a subsequence in input order |
| FilterGpxPoints.Decimate | filter_gpx_points.py:57-77 | the new segment is no longer than the input, empty exactly when the input is, and starts with the input's first point |
| FilterGpxPoints.KeptIndicesAreGreedy | filter_gpx_points.py:59-75 | the kept indices start at 0 and increase; each kept point is at least `spacing` from the previous kept one; each dropped point is closer than `spacing` to the last kept point before it |
| FilterGpxPoints.DecimateIsGreedy | filter_gpx_points.py:59-75 | the output consists of the very input points at some greedy selection of indices |
| FilterGpxPoints.ScanGreedy | filter_gpx_points.py:69-75 | from any reference point, the scan keeps points that are far enough apart and drops only points that are too near |
| FilterGpxPoints.GreedySelectionIsKept | filter_gpx_points.py:59-75 | the greedy conditions determine the selection: any index sequence meeting them is the loop's |
| FilterGpxPoints.GreedyFollowsScan | filter_gpx_points.py:70-75 | after each kept point of a greedy selection, the scan produces exactly the rest of that selection |
| FilterGpxPoints.SkipNear | filter_gpx_points.py:70-72 | points closer than `spacing` to the reference are passed over without changing the reference |
| FilterGpxPoints.ScanKeeps | filter_gpx_points.py:72-75 | a point at least `spacing` from the reference is kept and becomes the reference |
| FilterGpxPoints.WellSpacedIsFixed | filter_gpx_points.py:64-75 | a segment whose neighbouring points are all at least `spacing` apart comes out unchanged |
| FilterGpxPoints.DecimateIsWellSpaced | filter_gpx_points.py:70-75 | in the output, every two neighbouring points are at least `spacing` apart |
| FilterGpxPoints.DecimateIdempotent | filter_gpx_points.py:64-75 | decimating the output again with the same spacing changes nothing |
| FilterGpxPoints.NonPositiveSpacingKeepsAll | filter_gpx_points.py:72 | with a spacing of at most 0 and non-negative distances every point is kept; only a negative spacing reaches the loop, since 0 means the default |
| FilterGpxPoints.FilterTrack | filter_gpx_points.py:39-81 | None gives None; a nameless track raises TypeError; otherwise the renamed track has one segment per input segment, each the greedy decimation of its input with the effective spacing, no longer than it, empty exactly when it is, and starting with the same point |
| FilterGpxPoints.FilteredName | filter_gpx_points.py:51 | the new name is the track's name followed by " (filtered to " and ends with ")" |
| FilterGpxPoints.RefilterKeepsSegments | filter_gpx_points.py:53-77 | filtering a filtered track again with the same spacing leaves its segments as they are |
| FilterGpxPoints.ZeroSpacingDropsNearPoint | filter_gpx_points.py:46 | with spacing 0, two points closer than 0.08 come out as the first one alone |
| FilterGpxPoints.ScanStep | filter_gpx_points.py:69-75 | a far point is added to the kept indices and a near point is not, and the rest of the scan accounts for the remaining indices |
| FilterGpxPoints.VisitPoint | filter_gpx_points.py:63-75 | one pass of the loop body: the first point is always kept, a later one exactly when it is at least `spacing` from the reference; the kept list grows by that point and the counter by one, or neither changes |
| FilterGpxPoints.FilterSegment | filter_gpx_points.py:57-77 | the loop over one segment builds the decimated segment; the read counter grows by the segment's length and the kept counter by the output's length |
| FilterGpxPoints.SegmentDone | filter_gpx_points.py:59-77 | once every point has been visited, the kept points are the decimated segment |
| FilterGpxPoints.FilterSegments | filter_gpx_points.py:53-77 | the segment loop decimates each segment, in order; the read counter is the input's point total and the kept counter the output's |
| FilterGpxPoints.ProcessTrack | filter_gpx_points.py:39-81 | the method agrees with `FilterTrack`; for a filtered track, the counters are the input's and the output's point totals, and new ≤ original |
| Gpx.TotalPointsShrinks | filter_gpx_points.py:60-79 | segment-wise shorter segments have a smaller point total, so the kept count cannot exceed the read count |
| Exif.Component | images_to_gpx.py:45-52 | `value[i].num / value[i].den` is the ratio; IndexError past the end, AttributeError on a non-ratio, ZeroDivisionError for a zero denominator |
| Exif.ConvertToDegrees | images_to_gpx.py:40-54 | the result is degrees + minutes/60 + seconds/3600; it raises the error of the first component that fails |
| Exif.WholeUnitsConvert | images_to_gpx.py:40-54 | whole degrees, minutes and seconds give their arc seconds over 3600 |
| Exif.WholeUnitsDetermined | images_to_gpx.py:54 | readings with minutes and seconds in [0, 60) that give the same decimal value are the same reading |
| Exif.TenAndAHalfDegrees | images_to_gpx.py:40-54 | 10/1, 30/1, 0/1 converts to 10.5 |
| Exif.Hemisphere | images_to_gpx.py:94-99 | the value keeps its sign exactly when the reference is the positive letter (or the value is 0); otherwise it is negated |
| Exif.SouthAndWestNegate | images_to_gpx.py:94-99 | "S" negates a latitude and "W" a longitude |
| Exif.Altitude | images_to_gpx.py:101-102 | a zero denominator gives no elevation without dividing; otherwise num/den; IndexError for an empty value, AttributeError for a non-ratio |
| Exif.Locate | images_to_gpx.py:92-102 | latitude and longitude are converted and signed by their references, the altitude is never negated; the raise of the latitude, else of the longitude, else of the altitude comes back |
| Exif.GpsEntry | images_to_gpx.py:141-146 | a tag whose name starts with "GPS" is stored under the second space-separated field of its name, with its values; IndexError when the name has no space; other tags store nothing |
| Exif.GpsTagStoresUnderKey | images_to_gpx.py:141-146 | a tag named `GPS <key>`, as exifread names GPS fields, is stored under `<key>` with its values |
| Exif.CollectGps | images_to_gpx.py:140-146 | `gps_info` holds exactly the keys some GPS tag sets, each with the value of the last tag that sets it; an IndexError exactly when some GPS tag name has no space |
| Collections.LastWins | images_to_gpx.py:146 | the dict holds exactly the keys written, each with the value of its last write |
| Collections.KeyedRun | images_to_gpx.py:123-156 | steps run in order and the first raise aborts; otherwise the dict holds exactly the keys some step writes, each with the value of the last step that writes it |
| Collections.KeyedRunLaterWins | images_to_gpx.py:156 | of two writes of the same key, the second one's value stays |
| Collections.LastSome | images_to_gpx.py:148-151 | the last present value, or None exactly when there is none |
| Collections.SortedKeys | images_to_gpx.py:225 | `sorted` of the keys: every key once, strictly ascending |
| Strings.Split | images_to_gpx.py:143 | `split(sep)` gives at least one field, exactly one when the separator does not occur; no field holds the separator; the first field is the prefix before the first separator |
| Strings.JoinSplit | images_to_gpx.py:143 | joining the fields of a split gives the string back |
| Strings.SplitJoin | gpx_to_geojson.py:55 | splitting a join of separator-free fields gives the fields back |
| ImagesToGpx.TagEffectOf | images_to_gpx.py:140-151 | one pass of the tag loop: the GPS entry of the tag, or the parsed date of an "Image DateTime" tag; TypeError when the date is not text, ValueError when strptime rejects it |
| ImagesToGpx.ReadTags | images_to_gpx.py:137-151 | the tag loop aborts at the first raising tag; its `gps_info` is `CollectGps`'s; its date is None exactly when there is no date tag, and otherwise the parse of the last one |
| ImagesToGpx.LastDate | images_to_gpx.py:148-151 | the date left after the loop comes from the last "Image DateTime" tag |
| ImagesToGpx.Complete | images_to_gpx.py:85-91 | the gate holds exactly when each of the five keys is present and its value truthy |
| ImagesToGpx.LatLonEle | images_to_gpx.py:78-104 | no fix unless all five values are present and truthy; otherwise the fix `Locate` computes, or its exception |
| ImagesToGpx.FileOutcome | images_to_gpx.py:127-156 | non-files and incomplete fixes give nothing, and so does a zero altitude denominator; a full fix without a date raises TypeError; otherwise the point is keyed by its capture time |
| ImagesToGpx.ProcessDirectory | images_to_gpx.py:110-157 | None gives an empty dict; the first raising file aborts; otherwise the dict's keys are exactly the capture times of the files that give a point |
| ImagesToGpx.LastFileWins | images_to_gpx.py:156 | each capture time holds the point of the last file listed with that time |
| ImagesToGpx.LaterFileWins | images_to_gpx.py:156 | of two files with the same capture time, the later one's point replaces the earlier one's |
| ImagesToGpx.InTimeOrder | images_to_gpx.py:225-227 | every point of the dict once, in strictly ascending order of capture time |
| ImagesToGpx.ImagesToTrack | images_to_gpx.py:213-227 | one nameless track with one segment per directory, in argument order, each in time order; any raising directory aborts the run, with the error of the first directory in argument order that raises |
| ImagesToGeoJson.Present | images_to_geojson.py:77-84 | the gate holds exactly when each of the five keys is present, whatever its value |
| ImagesToGeoJson.TruthyGateIsStricter | images_to_geojson.py:83-84 | whatever the truthiness gate of images_to_gpx.py lets through, this presence gate lets through too |
| ImagesToGeoJson.LatLonEle | images_to_geojson.py:69-97 | no fix unless all five keys are present, whatever their values; otherwise the fix `Locate` computes, or its exception |
| ImagesToGeoJson.FilePosition | images_to_geojson.py:117-142 | a file with a fix gives the position (lon, lat) exactly when both coordinates are non-zero; raises propagate; the elevation plays no part |
| ImagesToGeoJson.ProcessDirectory | images_to_geojson.py:103-144 | None gives an empty LineString; otherwise a LineString, which succeeds exactly when every file does, or else the first file's raise |
| Collections.Somes | images_to_geojson.py:141-142 | no more values than inputs; when every value is present, exactly those values in order |
| Collections.SomesSnoc | images_to_geojson.py:141-142 | one more outcome appends its value at the end when present and nothing otherwise, so the kept values stay in listing order |
| Collections.SomesFrom | images_to_geojson.py:141-142 | every kept value comes from some input position |
| ImagesToGeoJson.PositionsComeFromFiles | images_to_geojson.py:139-142 | every position of the LineString is the position of some file in the listing |
| ImagesToGeoJson.AppendFile | images_to_geojson.py:113-142 | one more file in the listing either aborts with its raise or appends its position, if any, at the end: listing order, no sorting |
| Results.AllOkSnoc | images_to_geojson.py:113-142 | after steps that all succeeded, one more step either aborts with its raise or appends its value |
| ImagesToGeoJson.Assemble | images_to_geojson.py:207-210 | several tracks give a GeometryCollection of them, one gives itself, none raises IndexError |
| ImagesToGeoJson.ImagesToGeometry | images_to_geojson.py:200-210 | a raise exactly when the directory list is empty or some directory raises: IndexError for an empty list, otherwise the error of the first directory that raises; one directory gives its LineString; several give a collection of the directories' LineStrings in argument order |
| ImagesToGeoJson.GatesAgreeWhenTruthy | images_to_geojson.py:83-95 | when the five values are truthy, both scripts compute the same fix |
| ImagesToGeoJson.EmptyLatitudeRaises | images_to_geojson.py:83-85 | a present but empty latitude raises IndexError here, where images_to_gpx.py gives no fix |
| ImagesToGeoJson.ZeroCoordinateDropped | images_to_geojson.py:141-142 | a fix with latitude or longitude exactly 0 places no point |
| ImagesToGeoJson.NoElevationStillPlaced | images_to_geojson.py:94-95 | a zero altitude denominator still places the photo here, while images_to_gpx.py leaves it out |
| Results.AllOk | images_to_gpx.py:123-156 | runs steps in order: all values when every step succeeds, else the error of the first step that raised |
| Results.RunAll | points_to_geojson.py:50-70 | the documents done before the first raise, in order, and that raise |
| Paths.Basename | gpx_to_geojson.py:55 | what follows the last separator; it contains no separator |
| Paths.Dirname | gpx_to_geojson.py:54 | the prefix before the base name with its trailing separators dropped, unless only separators remain, when the head is returned whole with all its separators; empty exactly when there is no separator |
| Paths.Stem | gpx_to_geojson.py:55 | `split('.')[0]`: the prefix of the name up to its first dot, which contains no dot |
| Paths.OutputName | gpx_to_geojson.py:55 | the output file name is the stem plus ".geojson" and has no separator |
| Paths.OutputPath | gpx_to_geojson.py:54-56 | the as-written path is the input's dirname, a separator, then stem + ".geojson" |
| Paths.OutputPathWithoutDirectory | gpx_to_geojson.py:54-56 | for a name without a directory, the as-written path starts with the separator |
| Paths.OutputPathInDirectory | gpx_to_geojson.py:54-56 | for `dir/base`, the as-written path keeps `dir` and replaces everything from the first dot of `base` on |
| Paths.OutputPathIdempotent | gpx_to_geojson.py:54-56 | when the directory is more than separators, deriving the path again changes nothing |
| Paths.StemBeforeDot | gpx_to_geojson.py:55 | the stem of `stem.ext` is `stem` |
| Paths.GpxNameAtTopLevel | gpx_to_geojson.py:54-56 | `track.gpx` gives `/track.geojson` |
| Paths.OutputPathAtTopLevelGrows | gpx_to_geojson.py:54-56 | for a bare name, deriving the path twice gives `//track.geojson`: the as-written derivation is not idempotent |
| Paths.OutputPathLeavesDirectory | gpx_to_geojson.py:54-56 | a bare name in the current directory gets its output in the root directory |
| Paths.JoinLocates | gpx_to_geojson.py:54-56 | `os.path.join` of a dirname and a plain file name gives that directory and that file back |
| Paths.SiblingPath | gpx_to_geojson.py:54-56 | the corrected output path: the same directory as the input, with base name stem + ".geojson" |
| Paths.JoinPath | gpx_to_geojson.py:54-56 | `os.path.join(dir, file)`, the join the corrected path uses in place of `os.path.sep.join`: the path starts with the directory and ends with the file, with one separator put between exactly when the directory is non-empty and does not end in one |
| Paths.SiblingPathMatchesOutputPath | gpx_to_geojson.py:54-56 | wherever the input's directory is more than separators, the corrected and the as-written path are the same |
| Paths.SiblingPathAtTopLevel | gpx_to_geojson.py:54-56 | `track.gpx` gives `track.geojson` |
| Paths.SiblingPathIdempotent | gpx_to_geojson.py:54-56 | deriving the corrected path of an output path changes nothing, for every name |
| GpxToGeoJson.SegmentLine | gpx_to_geojson.py:72-78 | one position per point of the segment, in order, each `(longitude, latitude)` |
| GpxToGeoJson.TrackFeature | gpx_to_geojson.py:65-80 | the Feature has the track's name and one LineString per segment, in order |
| GpxToGeoJson.TrackFeatureRoundTrip | gpx_to_geojson.py:65-80 | the track's name, segment lengths and every point's latitude and longitude can be read back from the Feature |
| GpxToGeoJson.ElevationIgnored | gpx_to_geojson.py:76 | tracks that differ only in elevations give the same Feature |
| GpxToGeoJson.ConvertFile | gpx_to_geojson.py:52-83 | a FeatureCollection with one Feature per track, in order, written to the as-written path: the input's dirname, a separator, then stem + ".geojson" |
| GpxToGeoJson.ConvertFileBeside | gpx_to_geojson.py:54-56 | the corrected converter: the same document, written in the input's own directory under stem + ".geojson" |
| GpxToGeoJson.BesideAgreesInDirectory | gpx_to_geojson.py:54-56 | the as-written and the corrected converter agree on every input inside a directory other than the root |
| GpxToGeoJson.TopLevelFileWrittenAtRoot | gpx_to_geojson.py:54-56 | a bare `stem.gpx` is written to `/stem.geojson`; the corrected converter writes `stem.geojson` |
| GpxToGeoJson.ProcessFiles | gpx_to_geojson.py:46-83 | None produces nothing; otherwise one document per file, in order |
| PointsToGeoJson.EntryPosition | points_to_geojson.py:65 | `[lat, lon, …]` becomes the position (lon, lat); IndexError for fewer than two numbers |
| PointsToGeoJson.Positions | points_to_geojson.py:61-65 | one position per entry, in order, or IndexError when some entry is too short |
| PointsToGeoJson.ConvertFile | points_to_geojson.py:50-70 | TypeError without a `points` member; IndexError for a short entry; otherwise a LineString Feature named after the input's base name, with one position per entry, written to the as-written path: the input's dirname, a separator, then stem + ".geojson" |
| PointsToGeoJson.ConvertFileBeside | points_to_geojson.py:52-54 | the corrected converter: the same outcome, with the Feature written in the input's own directory under stem + ".geojson" |
| PointsToGeoJson.BesideAgreesInDirectory | points_to_geojson.py:52-54 | the as-written and the corrected converter agree on every input inside a directory other than the root |
| PointsToGeoJson.ConvertFileRoundTrip | points_to_geojson.py:63-65 | reading the positions back gives each entry's first two numbers, and ignores the rest |
| PointsToGeoJson.ProcessFiles | points_to_geojson.py:44-70 | None produces nothing; otherwise the files are converted in order and the first raise stops the run after the documents already written |

## Left out

- Command-line parsing, logging, `is_directory`, `print`, and file opening
  and writing are left out. They are I/O around the logic.
- The directory listing is an input sequence of `Entry` values, in the order
  `os.listdir` gives. `os.path.isfile` is a field of each entry.
- `exifread.process_file` is left out. It is a foreign decoder, and the re-raise
  of its exceptions (images_to_gpx.py:132-135) goes with it. The tags are
  given as a sequence in the order of the tag dictionary.
- The model allows two tags with the same name, which a Python dict cannot
  hold. This makes it more general than the source, not less.
- `gpxpy.parse` and `json.load` are left out. Parsed files are given as
  values. JSON that is not an object, and entries that are not lists of
  numbers, are not modelled.
- Serialisation with `to_xml`, `dumps` and `clean_output` is left out. It is
  formatting of library output.
- `LatLon.distance` is a function parameter. The geodesic arithmetic is a
  foreign floating-point routine.
- `time.strptime` followed by `time.mktime` is a `Clock` parameter from text
  to epoch seconds. It depends on the local time zone and calendar rules.
  The clock is applied at each date tag. `mktime`, which the source calls
  only later, for a file with a full fix, is taken to be total. So the model
  raises only strptime's ValueError, at the tag.
- Python floats are modelled as exact reals, so rounding is not modelled. The
  scripts print the values without comparing them, apart from `>= spacing`
  and the truthiness of a coordinate.
- GpxToGeoJson.TrackFeatureRoundTrip and PointsToGeoJson.ConvertFileRoundTrip
  hold for the model's Feature, which keeps coordinates exactly. The geojson
  library can round each coordinate when it builds a geometry (to 6 decimal
  places by default in recent versions). The program's object then keeps
  only the rounded values, and that rounding is not modelled.
- `str.format` of the spacing in the filtered track's name is a function
  parameter.
- filter_gpx_points.py imports `latlon` but calls `LatLon.LatLon`
  (lines 18 and 63), a NameError as shipped. The model builds the
  coordinate pair as intended.
- filter_gpx_points.py `process_files` and `main` are not modelled. The loop
  calls `append` with keyword arguments (line 106), a TypeError on the first
  track.
- images_to_geojson.py:21 uses `sys` without importing it. This is an
  import-time NameError unrelated to the logic.
- The None guards of images_to_geojson.py (lines 49 and 75) are not modelled
  separately. The only callers always pass a value past the gate and a
  dictionary, so the guards cannot fire. A missing key is modelled: it gives
  no fix.
- Paths are POSIX only: the separator is '/'.
- The `main` of images_to_gpx.py and images_to_geojson.py receive directory
  names that are never None. The None case of `process_directory` is
  modelled for its own sake.

## Findings

| source | as written | input that shows it | evidently intended | confidence | as-written member | corrected member |
|---|---|---|---|---|---|---|
| gpx_to_geojson.py:54-56 | `os.path.sep.join([dirname, stem + '.geojson'])` | `track.gpx`, whose dirname is empty, gives `/track.geojson` in the root directory | `track.geojson` next to the input, as `os.path.join` builds it | not executed | GpxToGeoJson.TopLevelFileWrittenAtRoot | GpxToGeoJson.ConvertFileBeside |
| points_to_geojson.py:52-54 | the same join as gpx_to_geojson.py | `points.json` gives `/points.geojson` | `points.geojson` next to the input | not executed | Paths.OutputPathWithoutDirectory | PointsToGeoJson.ConvertFileBeside |

`GpxToGeoJson.ConvertFile` and `PointsToGeoJson.ConvertFile` model the code as
written and write to `Paths.OutputPath`. `Paths.OutputPathLeavesDirectory`
shows that a bare name's output lands in the root directory. The corrected
converters `ConvertFileBeside` write to `Paths.SiblingPath`, which keeps the
input's dirname. By `BesideAgreesInDirectory`, the two can differ only
for inputs at the top level or in the root directory.
`Paths.OutputPathAtTopLevelGrows` shows the same defect a second way. Applied
to its own output, the as-written derivation gives `//track.geojson`.
`Paths.SiblingPathIdempotent` proves the corrected derivation is stable for
every name.
