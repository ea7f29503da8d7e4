/**
 The haversine distances. The trigonometric functions are parameters that satisfy the
 identities listed in `Lawful`; everything below is derived from those.
 */
module Haversine {
  import opened LoadPosts
  import opened Matching

  datatype Trig = Trig(
    sin: real -> real, cos: real -> real, pi: real,
    sqrt: real -> real, atan2: (real, real) -> real)

  ghost predicate CosineLaw(t: Trig) {
    forall x, y :: t.cos(x + y) == t.cos(x) * t.cos(y) - t.sin(x) * t.sin(y)
  }

  ghost predicate SineLaw(t: Trig) {
    forall x, y :: t.sin(x + y) == t.sin(x) * t.cos(y) + t.cos(x) * t.sin(y)
  }

  ghost predicate CircleLaws(t: Trig) {
    && (forall x :: t.sin(-x) == -t.sin(x) && t.cos(-x) == t.cos(x))
    && (forall x :: t.sin(x) * t.sin(x) + t.cos(x) * t.cos(x) == 1.0)
    && t.pi > 0.0 && t.sin(t.pi) == 0.0 && t.cos(t.pi) == -1.0 && t.sin(0.0) == 0.0
  }

  ghost predicate InverseLaws(t: Trig) {
    && t.sqrt(0.0) == 0.0 && t.sqrt(1.0) == 1.0 && (forall x :: x >= 0.0 ==> t.sqrt(x) >= 0.0)
    && (forall y, x :: y >= 0.0 && x >= 0.0 ==> 0.0 <= t.atan2(y, x) <= t.pi / 2.0)
    && (forall x :: x > 0.0 ==> t.atan2(0.0, x) == 0.0) && t.atan2(1.0, 0.0) == t.pi / 2.0
  }

  ghost predicate RootLaw(t: Trig) {
    forall x :: x >= 0.0 ==> t.sqrt(x) * t.sqrt(x) == x
  }

  ghost predicate AngleLaw(t: Trig) {
    forall y, x :: y >= 0.0 && x >= 0.0 && y * y + x * x == 1.0 ==>
      t.sin(t.atan2(y, x)) == y && t.cos(t.atan2(y, x)) == x
  }

  /** The identities used: addition formulas, parity, the circle, pi, and the two inverse functions. */
  ghost predicate Lawful(t: Trig) {
    CosineLaw(t) && SineLaw(t) && CircleLaws(t) && InverseLaws(t) && RootLaw(t) && AngleLaw(t)
  }

  const EARTH_RADIUS_MILES := 3958.8
  const EARTH_RADIUS_KM := 6371.0

  function Radians(t: Trig, degrees: real): real {
    degrees * (t.pi / 180.0)
  }

  // The intermediate `a` of the formula.
  function Chord(t: Trig, p: Point, q: Point): real {
    var dLat, dLng := Radians(t, q.lat - p.lat), Radians(t, q.lng - p.lng);
    t.sin(dLat / 2.0) * t.sin(dLat / 2.0)
    + t.cos(Radians(t, p.lat)) * t.cos(Radians(t, q.lat)) * t.sin(dLng / 2.0) * t.sin(dLng / 2.0)
  }

  function SquareRoot(t: Trig, x: real): real
    requires x >= 0.0
  {
    t.sqrt(x)
  }

  /** `_calculateDistance` and `_calculateHaversineDistance`; `ChordInRange` is what makes both square roots defined. */
  function Distance(t: Trig, radius: real, p: Point, q: Point): real
    requires Lawful(t)
  {
    ChordInRange(t, p, q);
    var a := Chord(t, p, q);
    radius * (2.0 * t.atan2(SquareRoot(t, a), SquareRoot(t, 1.0 - a)))
  }

  // ----- the identities, one at a time -----

  lemma CosSum(t: Trig, x: real, y: real)
    requires Lawful(t)
    ensures t.cos(x + y) == t.cos(x) * t.cos(y) - t.sin(x) * t.sin(y)
  {
    hide SineLaw, CircleLaws, InverseLaws;
  }

  lemma SinSum(t: Trig, x: real, y: real)
    requires Lawful(t)
    ensures t.sin(x + y) == t.sin(x) * t.cos(y) + t.cos(x) * t.sin(y)
  {
    hide CosineLaw, CircleLaws, InverseLaws;
  }

  lemma Parity(t: Trig, x: real)
    requires Lawful(t)
    ensures t.sin(-x) == -t.sin(x) && t.cos(-x) == t.cos(x)
  {
    hide CosineLaw, SineLaw, InverseLaws;
  }

  lemma Circle(t: Trig, x: real)
    requires Lawful(t)
    ensures t.sin(x) * t.sin(x) + t.cos(x) * t.cos(x) == 1.0
  {
    hide CosineLaw, SineLaw, InverseLaws;
  }

  lemma Landmarks(t: Trig)
    requires Lawful(t)
    ensures t.pi > 0.0 && t.sin(t.pi) == 0.0 && t.cos(t.pi) == -1.0 && t.sin(0.0) == 0.0
  {
    hide CosineLaw, SineLaw, InverseLaws;
  }

  lemma RootsAndAngle(t: Trig, a: real)
    requires Lawful(t) && 0.0 <= a <= 1.0
    ensures 0.0 <= t.atan2(t.sqrt(a), t.sqrt(1.0 - a)) <= t.pi / 2.0
  {
    hide CosineLaw, SineLaw;
  }

  lemma RootOfZero(t: Trig)
    requires Lawful(t)
    ensures t.atan2(t.sqrt(0.0), t.sqrt(1.0)) == 0.0
  {
    hide CosineLaw, SineLaw;
  }

  lemma RootSquared(t: Trig, x: real)
    requires Lawful(t) && x >= 0.0
    ensures t.sqrt(x) * t.sqrt(x) == x && t.sqrt(x) >= 0.0
  {
    hide CosineLaw, SineLaw, CircleLaws, AngleLaw;
  }

  lemma AngleOf(t: Trig, y: real, x: real)
    requires Lawful(t) && y >= 0.0 && x >= 0.0 && y * y + x * x == 1.0
    ensures t.sin(t.atan2(y, x)) == y && t.cos(t.atan2(y, x)) == x
  {
    hide CosineLaw, SineLaw, CircleLaws, InverseLaws, RootLaw;
  }

  lemma QuarterTurn(t: Trig)
    requires Lawful(t)
    ensures t.atan2(1.0, 0.0) == t.pi / 2.0 && t.sqrt(1.0) == 1.0 && t.sqrt(0.0) == 0.0
  {
    hide CosineLaw, SineLaw, CircleLaws, RootLaw, AngleLaw;
  }

  // ----- the bound -----

  lemma CosDouble(t: Trig, h: real)
    requires Lawful(t)
    ensures t.cos(2.0 * h) == 1.0 - 2.0 * (t.sin(h) * t.sin(h))
  {
    hide Lawful;
    CosSum(t, h, h);
    Circle(t, h);
    assert h + h == 2.0 * h;
  }

  lemma Products(t: Trig, u: real, v: real)
    requires Lawful(t)
    ensures t.cos(u - v) + t.cos(u + v) == 2.0 * (t.cos(u) * t.cos(v))
  {
    hide Lawful;
    CosSum(t, u, -v);
    CosSum(t, u, v);
    Parity(t, v);
    assert u - v == u + -v;
    TimesMinus(t.sin(u), t.sin(v));
  }

  lemma TimesMinus(a: real, b: real)
    ensures a * -b == -(a * b)
  {
  }

  lemma SquareRange(s: real, c: real)
    requires s * s + c * c == 1.0
    ensures 0.0 <= s * s <= 1.0 && -1.0 <= c <= 1.0
  {
    assert s * s >= 0.0 && c * c >= 0.0;
    assert c > 1.0 ==> c * c > 1.0;
    assert c < -1.0 ==> c * c > 1.0;
  }

  lemma CosRange(t: Trig, x: real)
    requires Lawful(t)
    ensures -1.0 <= t.cos(x) <= 1.0 && 0.0 <= t.sin(x) * t.sin(x) <= 1.0
  {
    hide Lawful;
    Circle(t, x);
    SquareRange(t.sin(x), t.cos(x));
  }

  lemma MixAlgebra(a: real, cu: real, cv: real, minus: real, plus: real, s: real)
    requires a == (1.0 - minus) / 2.0 + cu * cv * s && minus + plus == 2.0 * (cu * cv)
    ensures a == (1.0 - s) * ((1.0 - minus) / 2.0) + s * ((1.0 + plus) / 2.0)
  {
    assert cu * cv * s == (minus + plus) / 2.0 * s;
  }

  lemma MixRange(s: real, x: real, y: real)
    requires 0.0 <= s <= 1.0 && 0.0 <= x <= 1.0 && 0.0 <= y <= 1.0
    ensures 0.0 <= (1.0 - s) * x + s * y <= 1.0
  {
    assert 0.0 <= (1.0 - s) * x <= 1.0 - s;
    assert 0.0 <= s * y <= s;
  }

  lemma FourFactors(a: real, b: real, c: real)
    ensures a * b * c * c == b * a * (c * c)
  {
    assert a * b * c * c == (a * b) * (c * c);
  }

  lemma RadiansMinus(t: Trig, a: real, b: real)
    ensures Radians(t, a - b) == Radians(t, a) - Radians(t, b) == -Radians(t, b - a)
  {
    var k := t.pi / 180.0;
    assert (a - b) * k == a * k - b * k;
    assert (b - a) * k == b * k - a * k;
  }

  /** `a` is an affine mix, with weight sin^2(dLng/2), of (1-cos(u-v))/2 and (1+cos(u+v))/2. */
  lemma ChordIsMix(t: Trig, p: Point, q: Point)
    requires Lawful(t)
    ensures var u, v := Radians(t, q.lat), Radians(t, p.lat);
            var h := Radians(t, q.lng - p.lng) / 2.0;
            var s := t.sin(h) * t.sin(h);
            Chord(t, p, q) == (1.0 - s) * ((1.0 - t.cos(u - v)) / 2.0) + s * ((1.0 + t.cos(u + v)) / 2.0)
  {
    hide Lawful, Radians;
    var u, v := Radians(t, q.lat), Radians(t, p.lat);
    var half, h := Radians(t, q.lat - p.lat) / 2.0, Radians(t, q.lng - p.lng) / 2.0;
    var sh := t.sin(h);
    RadiansMinus(t, q.lat, p.lat);
    CosDouble(t, half);
    Products(t, u, v);
    assert 2.0 * half == u - v;
    FourFactors(t.cos(v), t.cos(u), sh);
    MixAlgebra(Chord(t, p, q), t.cos(u), t.cos(v), t.cos(u - v), t.cos(u + v), sh * sh);
  }

  /** For all coordinates, even out of range, `a` lies in [0, 1], so both square roots are defined. */
  lemma ChordInRange(t: Trig, p: Point, q: Point)
    requires Lawful(t)
    ensures 0.0 <= Chord(t, p, q) <= 1.0
  {
    hide Lawful, Radians, Chord;
    var u, v, h := Radians(t, q.lat), Radians(t, p.lat), Radians(t, q.lng - p.lng) / 2.0;
    ChordIsMix(t, p, q);
    CosRange(t, h);
    CosRange(t, u - v);
    CosRange(t, u + v);
    MixRange(t.sin(h) * t.sin(h), (1.0 - t.cos(u - v)) / 2.0, (1.0 + t.cos(u + v)) / 2.0);
  }

  // ----- the distance -----

  lemma SquareOfMinus(s: real)
    ensures -s * -s == s * s
  {
  }

  lemma SinSquareEven(t: Trig, x: real, y: real)
    requires Lawful(t) && x == -y
    ensures t.sin(x) * t.sin(x) == t.sin(y) * t.sin(y)
  {
    hide Lawful;
    Parity(t, y);
    SquareOfMinus(t.sin(y));
  }

  lemma ChordSymmetric(t: Trig, p: Point, q: Point)
    requires Lawful(t)
    ensures Chord(t, p, q) == Chord(t, q, p)
  {
    hide Lawful, Radians;
    RadiansMinus(t, q.lat, p.lat);
    RadiansMinus(t, q.lng, p.lng);
    var h, h' := Radians(t, q.lng - p.lng) / 2.0, Radians(t, p.lng - q.lng) / 2.0;
    var cp, cq := t.cos(Radians(t, p.lat)), t.cos(Radians(t, q.lat));
    SinSquareEven(t, Radians(t, q.lat - p.lat) / 2.0, Radians(t, p.lat - q.lat) / 2.0);
    SinSquareEven(t, h, h');
    FourFactors(cp, cq, t.sin(h));
    FourFactors(cq, cp, t.sin(h'));
    assert cp * cq == cq * cp;
  }

  lemma ScaleRange(k: real, x: real, y: real)
    requires k > 0.0 && 0.0 <= x <= y
    ensures 0.0 <= k * x <= k * y
  {
  }

  lemma ChordOfSamePoint(t: Trig, p: Point)
    requires Lawful(t)
    ensures Chord(t, p, p) == 0.0
  {
    hide Lawful;
    Landmarks(t);
    assert Radians(t, p.lat - p.lat) == 0.0 && Radians(t, p.lng - p.lng) == 0.0;
  }

  /** The distance is symmetric, zero between equal points, and never more than half the circumference. */
  lemma DistanceLaws(t: Trig, radius: real, p: Point, q: Point)
    requires Lawful(t) && radius > 0.0
    ensures Distance(t, radius, p, q) == Distance(t, radius, q, p)
    ensures Distance(t, radius, p, p) == 0.0
    ensures 0.0 <= Distance(t, radius, p, q) <= radius * t.pi
  {
    hide Lawful, Chord, Radians;
    ChordSymmetric(t, p, q);
    ChordInRange(t, p, q);
    var a := Chord(t, p, q);
    RootsAndAngle(t, a);
    RootOfZero(t);
    ChordOfSamePoint(t, p);
    ScaleRange(radius, 2.0 * t.atan2(t.sqrt(a), t.sqrt(1.0 - a)), t.pi);
  }

  // The angle of the formula has sine sqrt(a), so the cosine of its double is 1 - 2a.
  lemma CosOfAngle(t: Trig, a: real)
    requires Lawful(t) && 0.0 <= a <= 1.0
    ensures t.cos(2.0 * t.atan2(t.sqrt(a), t.sqrt(1.0 - a))) == 1.0 - 2.0 * a
  {
    hide Lawful;
    RootSquared(t, a);
    RootSquared(t, 1.0 - a);
    AngleOf(t, t.sqrt(a), t.sqrt(1.0 - a));
    CosDouble(t, t.atan2(t.sqrt(a), t.sqrt(1.0 - a)));
  }

  lemma CosDifference(t: Trig, u: real, v: real)
    requires Lawful(t)
    ensures t.cos(u - v) == t.cos(u) * t.cos(v) + t.sin(u) * t.sin(v)
  {
    hide Lawful;
    CosSum(t, u, -v);
    Parity(t, v);
    assert u - v == u + -v;
    TimesMinus(t.sin(u), t.sin(v));
  }

  lemma LawAlgebra(a: real, sl: real, cu: real, cv: real, sg: real, cosLat: real, cosLng: real)
    requires a == sl + cu * cv * sg && cosLat == 1.0 - 2.0 * sl && cosLng == 1.0 - 2.0 * sg
    ensures 1.0 - 2.0 * a == cosLat - cu * cv + cu * cv * cosLng
  {
    assert cu * cv * cosLng == cu * cv - 2.0 * (cu * cv * sg);
  }

  // 1 - 2a is the cosine of the angle between the two places, seen from the centre.
  lemma ChordLaw(t: Trig, p: Point, q: Point, v: real, u: real, w: real)
    requires Lawful(t)
    requires v == Radians(t, p.lat) && u == Radians(t, q.lat) && w == Radians(t, q.lng - p.lng)
    ensures 1.0 - 2.0 * Chord(t, p, q) == t.sin(v) * t.sin(u) + t.cos(v) * t.cos(u) * t.cos(w)
  {
    hide Lawful, Radians;
    var half, h := Radians(t, q.lat - p.lat) / 2.0, w / 2.0;
    RadiansMinus(t, q.lat, p.lat);
    CosDouble(t, half);
    CosDouble(t, h);
    CosDifference(t, u, v);
    assert 2.0 * half == u - v && 2.0 * h == w;
    FourFactors(t.cos(v), t.cos(u), t.sin(h));
    LawAlgebra(Chord(t, p, q), t.sin(half) * t.sin(half), t.cos(u), t.cos(v), t.sin(h) * t.sin(h),
               t.cos(u - v), t.cos(w));
    assert t.cos(u) * t.cos(v) == t.cos(v) * t.cos(u) && t.sin(u) * t.sin(v) == t.sin(v) * t.sin(u);
  }

  /**
   The spherical law of cosines: the distance is the arc, on a sphere of that radius, between the two
   places. With the bound of `DistanceLaws`, which puts the arc between 0 and pi, this fixes it.
   */
  lemma DistanceIsArc(t: Trig, radius: real, p: Point, q: Point, a: real, b: real, c: real)
    requires Lawful(t) && radius > 0.0
    requires a == p.lat * t.pi / 180.0 && b == q.lat * t.pi / 180.0 && c == (q.lng - p.lng) * t.pi / 180.0
    ensures t.cos(Distance(t, radius, p, q) / radius) == t.sin(a) * t.sin(b) + t.cos(a) * t.cos(b) * t.cos(c)
  {
    hide Lawful, Chord, Distance;
    ChordInRange(t, p, q);
    CosOfAngle(t, Chord(t, p, q));
    DistanceAngle(t, radius, p, q);
    ChordLaw(t, p, q, a, b, c);
  }

  lemma DistanceAngle(t: Trig, radius: real, p: Point, q: Point)
    requires Lawful(t) && radius > 0.0 && 0.0 <= Chord(t, p, q) <= 1.0
    ensures var a := Chord(t, p, q);
            Distance(t, radius, p, q) / radius == 2.0 * t.atan2(t.sqrt(a), t.sqrt(1.0 - a))
  {
    hide Lawful, Chord;
    var a := Chord(t, p, q);
    DivideOut(radius, 2.0 * t.atan2(t.sqrt(a), t.sqrt(1.0 - a)));
  }

  lemma DivideOut(k: real, x: real)
    requires k > 0.0
    ensures k * x / k == x
  {
  }

  // ----- the other side of the earth -----

  lemma HalfTurnSine(t: Trig)
    requires Lawful(t)
    ensures t.sin(t.pi / 2.0) * t.sin(t.pi / 2.0) == 1.0
  {
    hide Lawful;
    CosDouble(t, t.pi / 2.0);
    Landmarks(t);
    assert 2.0 * (t.pi / 2.0) == t.pi;
  }

  lemma OppositeRadians(t: Trig, p: Point)
    ensures Radians(t, -p.lat - p.lat) / 2.0 == -Radians(t, p.lat) && Radians(t, -p.lat) == -Radians(t, p.lat)
    ensures Radians(t, (p.lng + 180.0) - p.lng) / 2.0 == t.pi / 2.0
  {
    var k := t.pi / 180.0;
    assert (-p.lat - p.lat) * k == -2.0 * (p.lat * k);
    assert (p.lng + 180.0) - p.lng == 180.0;
  }

  lemma ChordOfOpposite(t: Trig, p: Point)
    requires Lawful(t)
    ensures Chord(t, p, Point(-p.lat, p.lng + 180.0)) == 1.0
  {
    hide Lawful, Radians;
    var v := Radians(t, p.lat);
    OppositeRadians(t, p);
    HalfTurnSine(t);
    Parity(t, v);
    Circle(t, v);
    SquareOfMinus(t.sin(v));
    var s := t.sin(t.pi / 2.0);
    assert t.cos(v) * t.cos(v) * s * s == t.cos(v) * t.cos(v) * (s * s);
  }

  /** Antipodes are exactly half the circumference apart. */
  lemma AntipodesFarApart(t: Trig, radius: real, p: Point)
    requires Lawful(t)
    ensures Distance(t, radius, p, Point(-p.lat, p.lng + 180.0)) == radius * t.pi
  {
    hide Lawful, Chord;
    ChordOfOpposite(t, p);
    QuarterTurn(t);
  }

  /** The two copies of the formula differ only by the ratio of the two radii. */
  lemma MilesAndKmProportional(t: Trig, p: Point, q: Point)
    requires Lawful(t)
    ensures Distance(t, EARTH_RADIUS_MILES, p, q) * 6371.0 == Distance(t, EARTH_RADIUS_KM, p, q) * 3958.8
  {
    hide Lawful, Chord, Radians;
  }

  lemma SinHalfTurn(t: Trig, x: real)
    requires Lawful(t)
    ensures t.sin(x + t.pi) == -t.sin(x)
  {
    hide Lawful;
    SinSum(t, x, t.pi);
    Landmarks(t);
  }

  lemma TurnRadians(t: Trig, degrees: real)
    ensures Radians(t, degrees + 360.0) == Radians(t, degrees) + 2.0 * t.pi
  {
    var k := t.pi / 180.0;
    assert (degrees + 360.0) * k == degrees * k + 360.0 * k;
  }

  lemma ChordFullTurn(t: Trig, p: Point, q: Point)
    requires Lawful(t)
    ensures Chord(t, p, Point(q.lat, q.lng + 360.0)) == Chord(t, p, q)
  {
    hide Lawful, Radians;
    var turned := Point(q.lat, q.lng + 360.0);
    var h, h' := Radians(t, q.lng - p.lng) / 2.0, Radians(t, turned.lng - p.lng) / 2.0;
    var cp, cq := t.cos(Radians(t, p.lat)), t.cos(Radians(t, q.lat));
    assert turned.lng - p.lng == (q.lng - p.lng) + 360.0;
    TurnRadians(t, q.lng - p.lng);
    SinHalfTurn(t, h);
    assert h' == h + t.pi;
    SquareOfMinus(t.sin(h));
    FourFactors(cp, cq, t.sin(h));
    FourFactors(cp, cq, t.sin(h'));
  }

  /** Crossing the date line does not matter: a full turn of a longitude leaves the distance alone. */
  lemma FullTurnIsNothing(t: Trig, radius: real, p: Point, q: Point)
    requires Lawful(t)
    ensures Distance(t, radius, p, Point(q.lat, q.lng + 360.0)) == Distance(t, radius, p, q)
  {
    hide Lawful, Chord;
    ChordFullTurn(t, p, q);
  }

  // ----- the provider's board -----

  function HaversineBoard(t: Trig, fold: char -> string): Board
    requires Lawful(t)
  {
    Board(fold, (p: Point, q: Point) => Distance(t, EARTH_RADIUS_MILES, p, q))
  }

  /** The provider measures in miles: on its board, antipodes are 3958.8 * pi apart. */
  lemma BoardInMiles(t: Trig, fold: char -> string, p: Point)
    requires Lawful(t)
    ensures HaversineBoard(t, fold).miles(p, Point(-p.lat, p.lng + 180.0)) == 3958.8 * t.pi
  {
    hide Lawful, Distance;
    AntipodesFarApart(t, EARTH_RADIUS_MILES, p);
  }

  /** With the haversine distance, posts whose radii ask the same match each other or not at all. */
  lemma HaversineMatchIsSymmetric(t: Trig, fold: char -> string, l: Load, m: Load)
    requires Lawful(t) && EvenRadii(l, m)
    ensures Matches(HaversineBoard(t, fold), l, m) == Matches(HaversineBoard(t, fold), m, l)
  {
    hide Lawful, Distance, Matches, EvenRadii;
    var board := HaversineBoard(t, fold);
    forall p, q ensures board.miles(p, q) == board.miles(q, p) {
      DistanceLaws(t, EARTH_RADIUS_MILES, p, q);
    }
    MatchIsSymmetric(board, l, m);
  }
}
