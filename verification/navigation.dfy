/** The "Go to Location" button: the map is re-centred on the typed
    coordinates at zoom level 19, or a warning is printed when either box
    does not parse as a number. Parsing itself is left to the caller: a box
    is `None` when its text parses to NaN. */
module Navigation {
  import opened Wrappers

  /** The zoom level the map is centred at. */
  const LocationZoom: nat := 19

  /** A point as the platform builds it, longitude first. */
  datatype Point = Point(lon: real, lat: real)

  datatype LocationResult =
    | CenterOn(center: Point, zoom: nat)
    | InvalidCoordinates

  function GoToLocation(lat: Option<real>, lon: Option<real>): (r: LocationResult)
    ensures r.CenterOn? <==> lat.Some? && lon.Some?
    ensures r.InvalidCoordinates? <==> lat.None? || lon.None?
    ensures r.CenterOn? ==>
      r.center.lat == lat.value && r.center.lon == lon.value && r.zoom == LocationZoom
  {
    match (lat, lon)
    case (Some(y), Some(x)) => CenterOn(Point(x, y), LocationZoom)
    case _ => InvalidCoordinates
  }
}
