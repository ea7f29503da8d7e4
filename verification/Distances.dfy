/**
 Geocoding, routing and the one `_distanceCache` of `LoadProvider`, which holds results
 keyed by load id next to results keyed by a pair of addresses.
 */
module Distances {
  import opened Text
  import opened LoadPosts

  datatype Route = Found(text: Option<string>, isEstimate: bool) | Missing | Failed

  // The outside world: both services are deterministic; `fallback` prints the haversine estimate.
  datatype World = World(
    locate: string -> Option<Point>,
    route: (Point, Point) -> Route,
    fallback: (Point, Point) -> string)

  type Cache = map<string, string>

  function Geocode(world: World, address: string): Option<Point> {
    var clean := Trim(address);
    if clean == "" then None
    else
      var found := world.locate(clean);
      if found.Some? && -90.0 <= found.value.lat <= 90.0 && -180.0 <= found.value.lng <= 180.0 then found else None
  }

  /** An address is located where the service finds its trimmed text, if that is not blank and on the globe. */
  lemma GeocodeExact(world: World, address: string, p: Point)
    ensures Geocode(world, address) == Some(p) <==>
      && Trim(address) != "" && world.locate(Trim(address)) == Some(p)
      && -90.0 <= p.lat && p.lat <= 90.0 && -180.0 <= p.lng && p.lng <= 180.0
  {
    hide Trim;
  }

  // ----- the distance of one load (calculateDistance) -----

  datatype Measured = Measured(load: Load, cache: Cache, writeBack: bool)

  function Measure(world: World, cache: Cache, l: Load): Measured {
    if l.id in cache || (l.pickup.None? && Trim(l.posting.origin) == "") then Measured(l, cache, false)
    else
      var from := l.pickup.Or(Geocode(world, l.posting.origin));
      var l1 := l.(pickup := from);
      if l.drop.None? && Trim(l.posting.destination) == "" then Measured(l1, cache, false)
      else
        var to := l.drop.Or(Geocode(world, l.posting.destination));
        var l2 := l1.(drop := to);
        if from.None? || to.None? then Measured(l2, cache[l.id := "Location not found"], false)
        else
          match world.route(from.value, to.value)
          case Found(text, isEstimate) =>
            var shown := text.GetOr("Unknown distance") + if isEstimate then " (est.)" else "";
            Measured(l2.(distance := Some(shown)), cache[l.id := shown], true)
          case Missing => Measured(l2, cache[l.id := "Calculation failed"], false)
          case Failed => Measured(l2, cache[l.id := world.fallback(from.value, to.value)], false)
  }

  // ----- the distance between two addresses (calculateDistanceBetweenPickups) -----

  function PairKey(a: string, b: string): string {
    a + "_to_" + b
  }

  // What a computation without any cache answers.
  function PairText(world: World, a: string, b: string): Option<string> {
    var from, to := Geocode(world, a), Geocode(world, b);
    if from.None? || to.None? then None
    else
      var route := world.route(from.value, to.value);
      if route.Found? then route.text else None
  }

  /** A pair has the text of the route between its two places, if both are located and the route has one. */
  lemma PairTextExact(world: World, a: string, b: string, text: string)
    ensures PairText(world, a, b) == Some(text) <==>
      exists p, q, estimate :: Geocode(world, a) == Some(p) && Geocode(world, b) == Some(q)
        && world.route(p, q) == Found(Some(text), estimate)
  {
    hide Geocode;
    var from, to := Geocode(world, a), Geocode(world, b);
    if PairText(world, a, b) == Some(text) {
      assert world.route(from.value, to.value) == Found(Some(text), world.route(from.value, to.value).isEstimate);
    }
  }

  function PairDistance(world: World, cache: Cache, a: string, b: string): (Option<string>, Cache) {
    var key := PairKey(a, b);
    if key in cache then (Some(cache[key]), cache)
    else
      var text := PairText(world, a, b);
      (text, if text.Some? then cache[key := text.value] else cache)
  }

  // `calculateDestinationDifference`: nothing to compare when a destination is empty.
  function DestinationDifference(world: World, cache: Cache, a: string, b: string): (Option<string>, Cache) {
    if a == "" || b == "" then (None, cache) else PairDistance(world, cache, a, b)
  }

  datatype CacheEvent =
    | AskPair(a: string, b: string)
    | RecordLoad(id: string, text: string)
    | ForgetLoad(id: string)

  function Apply(world: World, cache: Cache, e: CacheEvent): Cache {
    match e
    case AskPair(a, b) => PairDistance(world, cache, a, b).1
    case RecordLoad(id, text) => cache[id := text]
    case ForgetLoad(id) => cache - {id}
  }

  function ApplyAll(world: World, cache: Cache, events: seq<CacheEvent>): Cache
    decreases |events|
  {
    if events == [] then cache else ApplyAll(world, Apply(world, cache, events[0]), events[1..])
  }
}
