/** The GeoJSON objects the converters hand to `geojson.dumps`, as values. */
module GeoJson {
  import opened Results

  /** A position: longitude first, then latitude, the order section 3.1.1 of
      RFC 7946 prescribes. */
  datatype Position = Position(lon: real, lat: real)

  /** The geometry types the converters build (section 3.1 of RFC 7946). */
  datatype Geometry =
    | Point(coordinates: Position)
    | LineString(positions: seq<Position>)
    | MultiLineString(lines: seq<seq<Position>>)
    | GeometryCollection(geometries: seq<Geometry>)

  /** A Feature whose only property is `name` (null when absent). */
  datatype Feature = Feature(geometry: Geometry, name: Option<string>)

  datatype FeatureCollection = FeatureCollection(features: seq<Feature>)

  /** A document written to a file at `path`. */
  datatype Written<T> = Written(path: string, content: T)
}
