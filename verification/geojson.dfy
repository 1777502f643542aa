/**
 * Plain records standing in for the Mapbox GeoJSON classes: a feature is a
 * geometry plus a map of named properties.
 */
module GeoJson {
  import opened Planar

  /** A polygon is a list of linear rings; each ring repeats its first position at the end. */
  datatype Geometry =
    | PointGeometry(position: Point)
    | PolygonGeometry(rings: seq<seq<Point>>)

  /** addStringProperty / addNumberProperty values. */
  datatype Property = StringProperty(text: string) | NumberProperty(number: real)

  datatype Feature = Feature(geometry: Geometry, properties: map<string, Property>)

  /** A linear ring in the sense of section 3.1.6 of RFC 7946: at least four positions, first equals last. */
  predicate IsLinearRing(ring: seq<Point>)
  {
    |ring| >= 4 && ring[0] == ring[|ring| - 1]
  }
}
