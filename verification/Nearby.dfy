/**
 `LoadPost.findMatchingLoads`, which compares distances after printing them with two
 decimals and reading them back.
 */
module Nearby {
  import opened Text
  import opened Amounts
  import opened LoadPosts

  // `HaversineDistanceService.calculateDistance`; never negative.
  type Kilometres = f: (Point, Point) -> real | forall p, q :: f(p, q) >= 0.0 witness ((p: Point, q: Point) => 0.0)

  // `pickupToPickupDistance` and `destinationToDestinationDistance`.
  function DistanceText(km: Kilometres, p: Option<Point>, q: Option<Point>): Option<string> {
    if p.None? || q.None? then None else Some(Fixed(km(p.value, q.value), 2) + " km")
  }

  // The number before the unit.
  function ReadKilometres(text: string): Option<Amount> {
    TryParse(Split(text, ' ')[0])
  }

  lemma PositionalNoSpace(units: nat, scale: nat)
    ensures ' ' !in Positional(units, scale)
  {
    if ' ' in Positional(units, scale) { PositionalChars(units, scale, ' '); }
  }

  lemma ReadDistanceText(d: real)
    requires d >= 0.0
    ensures ReadKilometres(Fixed(d, 2) + " km").Some?
    ensures ReadKilometres(Fixed(d, 2) + " km").value.Value() == Ratio(Rounded(d, 2), 2)
  {
    PositionalNoSpace(Rounded(d, 2), 2);
    assert Fixed(d, 2) + " km" == Fixed(d, 2) + [' '] + "km";
    SplitPrefix(Fixed(d, 2), "km", ' ');
    ParseFixed(d, 2);
  }

  /** Rounded half up to hundredths, a distance is within a radius exactly when it is less than 0.005 beyond. */
  lemma RoundedWithinExact(d: real, radius: int)
    requires d >= 0.0
    ensures Ratio(Rounded(d, 2), 2) <= radius as real <==> d < radius as real + 0.005
  {
    var u := Rounded(d, 2);
    assert Pow10(2) == 100;
    assert Ratio(u, 2) == u as real / 100.0;
    assert Ratio(u, 2) <= radius as real <==> u <= 100 * radius;
  }

  predicate CloseEnough(km: Kilometres, p: Option<Point>, q: Option<Point>, radius: int) {
    p.Some? && q.Some? && km(p.value, q.value) < radius as real + 0.005
  }

  predicate Nearby(km: Kilometres, self: Load, pickupRadiusKm: int, destinationRadiusKm: int, l: Load) {
    && l.id != self.id
    && CloseEnough(km, self.pickup, l.pickup, pickupRadiusKm)
    && CloseEnough(km, self.drop, l.drop, destinationRadiusKm)
  }

  // The comparison the loop makes on one distance text.
  predicate TextWithin(text: Option<string>, radius: int) {
    text.Some? && ReadKilometres(text.value).Some? && ReadKilometres(text.value).value.Value() <= radius as real
  }

  /** Deciding through text is exact to rounding. */
  lemma TextDecidesExactly(km: Kilometres, p: Option<Point>, q: Option<Point>, radius: int)
    ensures TextWithin(DistanceText(km, p, q), radius) <==> CloseEnough(km, p, q, radius)
  {
    if p.Some? && q.Some? {
      ReadDistanceText(km(p.value, q.value));
      RoundedWithinExact(km(p.value, q.value), radius);
    }
  }

  function NearbyLoads(km: Kilometres, self: Load, all: seq<Load>, pickupRadiusKm: int, destinationRadiusKm: int)
    : seq<Load>
  {
    Where(all, (l: Load) => Nearby(km, self, pickupRadiusKm, destinationRadiusKm, l))
  }

  /** Found are exactly the other loads with both ends known and each less than 0.005 km beyond its radius, in order. */
  lemma NearbyExact(km: Kilometres, self: Load, all: seq<Load>, pickupRadiusKm: int, destinationRadiusKm: int, l: Load)
    ensures Subsequence(NearbyLoads(km, self, all, pickupRadiusKm, destinationRadiusKm), all)
    ensures l in NearbyLoads(km, self, all, pickupRadiusKm, destinationRadiusKm) <==>
      && l in all && l.id != self.id
      && self.pickup.Some? && l.pickup.Some? && self.drop.Some? && l.drop.Some?
      && km(self.pickup.value, l.pickup.value) < pickupRadiusKm as real + 0.005
      && km(self.drop.value, l.drop.value) < destinationRadiusKm as real + 0.005
  {
    WhereExact(all, (l: Load) => Nearby(km, self, pickupRadiusKm, destinationRadiusKm, l));
  }

  lemma NearbySnoc(km: Kilometres, self: Load, all: seq<Load>, l: Load, pickupRadiusKm: int, destinationRadiusKm: int)
    ensures NearbyLoads(km, self, all + [l], pickupRadiusKm, destinationRadiusKm) ==
            NearbyLoads(km, self, all, pickupRadiusKm, destinationRadiusKm)
            + if Nearby(km, self, pickupRadiusKm, destinationRadiusKm, l) then [l] else []
  {
    WhereSnoc(all, l, (l: Load) => Nearby(km, self, pickupRadiusKm, destinationRadiusKm, l));
  }

  /**
   The loop over all loads returns, in order, exactly the other loads closer than half a
   hundredth beyond both radii: none within the radii is missed.
   */
  method FindMatchingLoads(km: Kilometres, self: Load, all: seq<Load>, pickupRadiusKm: int, destinationRadiusKm: int)
    returns (matching: seq<Load>)
    ensures matching == NearbyLoads(km, self, all, pickupRadiusKm, destinationRadiusKm)
  {
    matching := [];
    assert NearbyLoads(km, self, all[..0], pickupRadiusKm, destinationRadiusKm) == [];
    hide NearbyLoads, TextWithin, CloseEnough, DistanceText, ReadKilometres;
    for i := 0 to |all|
      invariant matching == NearbyLoads(km, self, all[..i], pickupRadiusKm, destinationRadiusKm)
    {
      var l := all[i];
      NearbySnoc(km, self, all[..i], l, pickupRadiusKm, destinationRadiusKm);
      assert all[..i + 1] == all[..i] + [l];
      TextDecidesExactly(km, self.pickup, l.pickup, pickupRadiusKm);
      TextDecidesExactly(km, self.drop, l.drop, destinationRadiusKm);
      if l.id == self.id {
        continue;
      }
      var pickupDist := DistanceText(km, self.pickup, l.pickup);
      var destDist := DistanceText(km, self.drop, l.drop);
      if TextWithin(pickupDist, pickupRadiusKm) && TextWithin(destDist, destinationRadiusKm) {
        matching := matching + [l];
      }
    }
    assert all[..|all|] == all;
  }
}
