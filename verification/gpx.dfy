/** The parts of gpxpy's object model the scripts read and build. */
module Gpx {
  import opened Results

  /** A `GPXTrackPoint`: latitude and longitude in degrees, elevation if known. */
  datatype Point = Point(lat: real, lon: real, ele: Option<real>)

  /** A `LatLon.LatLon` built from a point's latitude and longitude. */
  datatype LatLon = LatLon(lat: real, lon: real)

  function Coordinates(p: Point): LatLon {
    LatLon(p.lat, p.lon)
  }

  type Segment = seq<Point>

  /** A `GPXTrack`: its name (None when the file gave none) and its segments. */
  datatype Track = Track(name: Option<string>, segments: seq<Segment>)

  /** A parsed GPX file, with the name of the file it was read from. */
  datatype GpxFile = GpxFile(path: string, tracks: seq<Track>)

  /** The number of points in all segments together. */
  function TotalPoints(segments: seq<Segment>): nat
    decreases |segments|
  {
    if segments == [] then 0
    else TotalPoints(segments[..|segments| - 1]) + |segments[|segments| - 1]|
  }

  /** One more segment at the end adds its points. */
  lemma TotalPointsSnoc(segments: seq<Segment>, s: Segment)
    ensures TotalPoints(segments + [s]) == TotalPoints(segments) + |s|
  {
    assert (segments + [s])[..|segments|] == segments;
  }

  /** One more segment of the same list counted. */
  lemma TotalPointsPrefix(segments: seq<Segment>, i: nat)
    requires i < |segments|
    ensures TotalPoints(segments[..i + 1]) == TotalPoints(segments[..i]) + |segments[i]|
  {
    assert segments[..i + 1][..i] == segments[..i];
  }

  /** Segment-wise shortening shortens the total. */
  lemma {:induction false} TotalPointsShrinks(shorter: seq<Segment>, longer: seq<Segment>)
    requires |shorter| == |longer|
    requires forall k :: 0 <= k < |shorter| ==> |shorter[k]| <= |longer[k]|
    ensures TotalPoints(shorter) <= TotalPoints(longer)
    decreases |shorter|
  {
    if shorter != [] {
      var n := |shorter| - 1;
      TotalPointsShrinks(shorter[..n], longer[..n]);
    }
  }
}
