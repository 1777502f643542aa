/**
 * Sensor.java: an air-quality sensor and the GeoJSON marker it is drawn as.
 * The marker symbol is optional (null in the source); the other strings are
 * always present.
 */
module Sensors {
  import opened Planar
  import opened Wrappers
  import opened GeoJson

  datatype Sensor = Sensor(
    longitude: real,
    latitude: real,
    batteryLife: real,
    reading: string,
    what3words: string,
    markerSymbol: Option<string>,
    markerColor: string,
    markerSize: string)

  const DefaultColor: string := "#aaaaaa"
  const DefaultSize: string := "medium"

  /** The simplified constructor: no symbol, grey colour, medium size. */
  function NewSensor(longitude: real, latitude: real, what3words: string, batteryLife: real, reading: string): (s: Sensor)
    ensures s.longitude == longitude && s.latitude == latitude && s.what3words == what3words
    ensures s.batteryLife == batteryLife && s.reading == reading
    ensures s.markerSymbol == None && s.markerColor == DefaultColor && s.markerSize == DefaultSize
  {
    Sensor(longitude, latitude, batteryLife, reading, what3words, None, DefaultColor, DefaultSize)
  }

  /** The position the drone flies to. */
  function Position(s: Sensor): Point
  {
    Point(s.longitude, s.latitude)
  }

  function SetMarkerColor(s: Sensor, markerColor: string): (r: Sensor)
    ensures r.markerColor == markerColor
    ensures r.(markerColor := s.markerColor) == s
  {
    s.(markerColor := markerColor)
  }

  function SetMarkerSymbol(s: Sensor, markerSymbol: Option<string>): (r: Sensor)
    ensures r.markerSymbol == markerSymbol
    ensures r.(markerSymbol := s.markerSymbol) == s
  {
    s.(markerSymbol := markerSymbol)
  }

  /** The property keys of a marker. */
  const MarkerSize: string := "marker-size"
  const Location: string := "location"
  const RgbString: string := "rgb-string"
  const MarkerColor: string := "marker-color"
  const MarkerSymbol: string := "marker-symbol"

  /**
   * toGeojsonFeature: a point feature at the sensor's position with its
   * size, location, colour (twice) and, when set, its symbol.
   */
  function ToGeojsonFeature(s: Sensor): (f: Feature)
    ensures f.geometry == PointGeometry(Position(s))
    ensures f.properties.Keys == {MarkerSize, Location, RgbString, MarkerColor}
                                 + (if s.markerSymbol.Some? then {MarkerSymbol} else {})
    ensures MarkerSymbol in f.properties <==> s.markerSymbol.Some?
    ensures f.properties[RgbString] == f.properties[MarkerColor] == StringProperty(s.markerColor)
    ensures f.properties[MarkerSize] == StringProperty(s.markerSize)
    ensures f.properties[Location] == StringProperty(s.what3words)
  {
    var base := map[MarkerSize := StringProperty(s.markerSize),
                    Location := StringProperty(s.what3words),
                    RgbString := StringProperty(s.markerColor),
                    MarkerColor := StringProperty(s.markerColor)];
    var props := if s.markerSymbol.Some? then base[MarkerSymbol := StringProperty(s.markerSymbol.value)] else base;
    Feature(PointGeometry(Point(s.longitude, s.latitude)), props)
  }

  /** What a reader of the map can recover from a marker feature. */
  datatype Marker = Marker(position: Point, location: string, color: string, symbol: Option<string>, size: string)

  function TextOf(props: map<string, Property>, key: string): Option<string>
  {
    if key in props && props[key].StringProperty? then Some(props[key].text) else None
  }

  /**
   * Reads a marker back from a feature: a point geometry with string
   * size, location and colour properties, agreeing rgb-string and
   * marker-color, and an optional symbol.
   */
  function ReadMarker(f: Feature): (r: Option<Marker>)
    ensures r.Some? ==> f.geometry.PointGeometry? && r.value.position == f.geometry.position
    ensures r.Some? ==> TextOf(f.properties, RgbString) == TextOf(f.properties, MarkerColor) == Some(r.value.color)
  {
    match f.geometry
    case PolygonGeometry(_) => None
    case PointGeometry(position) =>
      var size := TextOf(f.properties, MarkerSize);
      var location := TextOf(f.properties, Location);
      var rgb := TextOf(f.properties, RgbString);
      var color := TextOf(f.properties, MarkerColor);
      if size.None? || location.None? || color.None? || rgb != color then None
      else Some(Marker(position, location.value, color.value, TextOf(f.properties, MarkerSymbol), size.value))
  }

  /** The marker fields of a sensor. */
  function MarkerOf(s: Sensor): Marker
  {
    Marker(Position(s), s.what3words, s.markerColor, s.markerSymbol, s.markerSize)
  }

  /** Reading a sensor's feature back recovers every marker field: nothing is lost or mixed up. */
  lemma ReadMarkerRoundTrip(s: Sensor)
    ensures ReadMarker(ToGeojsonFeature(s)) == Some(MarkerOf(s))
  {
  }

  /** A sensor made with the simplified constructor is drawn grey, medium, without a symbol. */
  lemma NewSensorFeature(longitude: real, latitude: real, what3words: string, batteryLife: real, reading: string)
    ensures var f := ToGeojsonFeature(NewSensor(longitude, latitude, what3words, batteryLife, reading));
            && MarkerSymbol !in f.properties
            && f.properties[MarkerColor] == StringProperty(DefaultColor)
            && f.properties[MarkerSize] == StringProperty(DefaultSize)
            && f.geometry == PointGeometry(Point(longitude, latitude))
  {
  }

  /** Recolouring changes exactly the two colour properties of the feature. */
  lemma RecolorChangesOnlyColor(s: Sensor, markerColor: string)
    ensures ToGeojsonFeature(SetMarkerColor(s, markerColor))
         == ToGeojsonFeature(s).(properties := ToGeojsonFeature(s).properties[RgbString := StringProperty(markerColor)]
                                                                            [MarkerColor := StringProperty(markerColor)])
  {
  }

  /** Setting a symbol adds or replaces that one property; clearing it removes only that property. */
  lemma SymbolChangesOnlySymbol(s: Sensor, symbol: Option<string>)
    ensures symbol.Some? ==>
              ToGeojsonFeature(SetMarkerSymbol(s, symbol)).properties
              == ToGeojsonFeature(s).properties[MarkerSymbol := StringProperty(symbol.value)]
    ensures symbol.None? ==>
              ToGeojsonFeature(SetMarkerSymbol(s, symbol)).properties
              == ToGeojsonFeature(s).properties - {MarkerSymbol}
    ensures ToGeojsonFeature(SetMarkerSymbol(s, symbol)).geometry == ToGeojsonFeature(s).geometry
  {
  }
}
