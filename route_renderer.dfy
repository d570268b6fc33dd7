/**
 * The path choice in `NikromeMap.drawRouteAlongRoads`: draw the road route
 * the OSRM routing service returns, with its `[longitude, latitude]` pairs
 * turned into `[latitude, longitude]`, or, when no usable route comes back
 * or anything throws, a dashed straight line through the checkpoints in
 * their given order.
 */
module RouteRenderer {
  import opened Wrappers

  /** A checkpoint's position. */
  datatype Point = Point(lat: real, lng: real)

  /** A coordinate pair as OSRM returns it: `[longitude, latitude]`. */
  type LngLat = (real, real)
  /** A coordinate pair as the map draws it: `[latitude, longitude]`. */
  type LatLng = (real, real)

  /**
   * One element of `data.routes`. `None` stands for a route without
   * `geometry.coordinates`: reading through the missing property throws a
   * TypeError inside the `try`.
   */
  datatype Route = Route(coordinates: Option<seq<LngLat>>)

  /**
   * How the lookup settled: the parsed JSON body (its `code` and its
   * `routes`, `None` when absent or null), or an exception from `fetch`
   * or `response.json()`.
   */
  datatype Response = Parsed(code: string, routes: Option<seq<Route>>) | Threw

  /** The polyline handed to the map; `dashed` is the fallback's dash pattern. */
  datatype Polyline = Polyline(path: seq<LatLng>, dashed: bool)

  /** `coordinates.map(coord => [coord[1], coord[0]])`. */
  function SwapAxes(coords: seq<(real, real)>): (path: seq<(real, real)>)
    ensures |path| == |coords|
    ensures forall i :: 0 <= i < |path| ==> path[i].0 == coords[i].1 && path[i].1 == coords[i].0
    decreases |coords|
  {
    if coords == [] then [] else [(coords[0].1, coords[0].0)] + SwapAxes(coords[1..])
  }

  /** `points.map(p => [p.lat, p.lng])`. */
  function StraightLine(points: seq<Point>): (path: seq<LatLng>)
    ensures |path| == |points|
    ensures forall i :: 0 <= i < |path| ==> path[i] == (points[i].lat, points[i].lng)
    decreases |points|
  {
    if points == [] then [] else [(points[0].lat, points[0].lng)] + StraightLine(points[1..])
  }

  /** `data.code === 'Ok' && data.routes && data.routes.length > 0`. */
  predicate RouteFound(r: Response)
  {
    r.Parsed? && r.code == "Ok" && r.routes.Some? && |r.routes.value| > 0
  }

  /** A first route that can be drawn: it was found and carries coordinates. */
  predicate RouteUsable(r: Response)
  {
    RouteFound(r) && r.routes.value[0].coordinates.Some?
  }

  /** The polyline drawn for `points` once the lookup settled with `r`. */
  function RoutePath(points: seq<Point>, r: Response): Polyline
  {
    match r
    case Threw => Polyline(StraightLine(points), true)
    case Parsed(_, routes) =>
      if RouteFound(r) then
        match routes.value[0].coordinates
        case Some(coords) => Polyline(SwapAxes(coords), false)
        case None => Polyline(StraightLine(points), true)
      else
        Polyline(StraightLine(points), true)
  }

  /**
   * The road route is drawn solid exactly when the first route is usable,
   * with one point per returned pair and each pair's axes swapped.
   */
  lemma RoutedPath(points: seq<Point>, r: Response)
    requires RouteUsable(r)
    ensures var line := RoutePath(points, r);
      var coords := r.routes.value[0].coordinates.value;
      && !line.dashed
      && |line.path| == |coords|
      && forall i :: 0 <= i < |coords| ==> line.path[i] == (coords[i].1, coords[i].0)
  {
  }

  /**
   * In every other case (an exception, a non-Ok code, no routes, a route
   * without coordinates) the line is dashed and runs straight through the
   * checkpoints, one vertex per checkpoint, in their order.
   */
  lemma FallbackPath(points: seq<Point>, r: Response)
    requires !RouteUsable(r)
    ensures var line := RoutePath(points, r);
      && line.dashed
      && |line.path| == |points|
      && forall i :: 0 <= i < |points| ==> line.path[i] == (points[i].lat, points[i].lng)
  {
  }

  /** Swapping the axes twice gives the pairs back. */
  lemma {:induction false} SwapAxesInvolution(coords: seq<(real, real)>)
    ensures SwapAxes(SwapAxes(coords)) == coords
    decreases |coords|
  {
    if coords != [] {
      SwapAxesInvolution(coords[1..]);
      assert SwapAxes(coords)[1..] == SwapAxes(coords[1..]);
    }
  }

  /** A solid line gives back, axes swapped once more, what OSRM returned. */
  lemma RoutedPathRecoversResponse(points: seq<Point>, r: Response)
    requires RouteUsable(r)
    ensures SwapAxes(RoutePath(points, r).path) == r.routes.value[0].coordinates.value
  {
    SwapAxesInvolution(r.routes.value[0].coordinates.value);
  }

  /** On a two-pair route the vertices come out latitude first. */
  lemma SwapExample(points: seq<Point>)
    ensures RoutePath(points, Parsed("Ok", Some([Route(Some([(5.0, 44.0), (5.1, 44.1)]))]))).path
         == [(44.0, 5.0), (44.1, 5.1)]
  {
    var coords: seq<LngLat> := [(5.0, 44.0), (5.1, 44.1)];
    assert coords[1..] == [(5.1, 44.1)];
  }
}
