/**
 Distances through whole runs: the one cache never confuses its two uses, each load is
 measured once, and what a reload computes does not survive the next one.
 */
module Refreshing {
  import opened Text
  import opened LoadPosts
  import opened Distances
  import opened SharedKeys
  import opened Negotiation
  import opened Reloading

  // ----- the pair entries of the distance cache -----

  ghost predicate NoIdIs(s: State, key: string) {
    forall i :: 0 <= i < |s.loads| ==> s.loads[i].id != key
  }

  lemma MeasureKeepsPair(world: World, cache: Cache, l: Load, a: string, b: string)
    requires PairSound(world, cache, a, b) && l.id != PairKey(a, b)
    ensures PairSound(world, Measure(world, cache, l).cache, a, b)
  {
    hide PairKey, PairText, Geocode, Trim;
  }

  lemma {:induction false} MeasureFromKeepsPair(world: World, s: State, i: nat, now: int, a: string, b: string)
    requires PairSound(world, s.cache, a, b) && NoIdIs(s, PairKey(a, b))
    ensures var t := MeasureFrom(world, s, i, now);
            PairSound(world, t.cache, a, b) && NoIdIs(t, PairKey(a, b))
    decreases |s.loads| - i
  {
    hide PairSound, PairKey, Measure, ReplaceRow, ToRow;
    if i < |s.loads| {
      MeasureKeepsPair(world, s.cache, s.loads[i], a, b);
      MeasureKeepsDeal(world, s.cache, s.loads[i]);
      MeasureFromKeepsPair(world, MeasureAt(world, s, i, now), i + 1, now, a, b);
    }
  }

  // What a step other than a reload leaves of the cache.
  lemma StepCache(world: World, s: State, a: Action)
    requires !a.FetchLoads?
    ensures var cache := Step(world, s, a).cache;
      && (a.DeleteLoad? ==> cache == s.cache - {a.id})
      && (a.AskDistance? ==> cache == PairDistance(world, s.cache, a.a, a.b).1)
      && (!a.DeleteLoad? && !a.AskDistance? && !a.MeasureOne? && !a.Compare? ==> cache == s.cache)
    ensures a.MeasureOne? || a.Compare? ==>
      var cache, i := Step(world, s, a).cache, IndexOf(s.loads, a.id);
      if i == |s.loads| then cache == s.cache
      else if a.MeasureOne? then cache == Measure(world, s.cache, s.loads[i]).cache
      else cache == DestinationDifference(world, s.cache, s.loads[i].posting.destination, a.destination).1
  {
    hide ReplaceRow, PatchBids, ToRow, EncodeBidsShort, PutBid, AcceptedAmount, IndexOf, BidIndex, Answered,
      Measure, PairDistance;
  }

  lemma QuestionKeepsPair(world: World, cache: Cache, x: string, y: string, a: string, b: string)
    requires PairSound(world, cache, a, b) && !Confusable(a, b)
    ensures PairSound(world, PairDistance(world, cache, x, y).1, a, b)
    ensures PairSound(world, DestinationDifference(world, cache, x, y).1, a, b)
  {
    hide PairSound, Confusable, PairDistance;
    ApplyKeepsSound(world, cache, AskPair(x, y), a, b);
  }

  lemma StepKeepsIds(world: World, s: State, act: Action, key: string)
    requires NoIdIs(s, key) && Aligned(s) && (act.AddLoad? ==> act.load.id != key)
    ensures NoIdIs(Step(world, s, act), key)
  {
    var t := Step(world, s, act);
    if act.FetchLoads? {
      FetchAligned(world, s, act.now);
      hide Step, Aligned, BidsAligned;
      forall i | 0 <= i < |t.loads| ensures t.loads[i].id != key { assert SameDeal(t.loads[i], s.loads[i]); }
    } else {
      hide Step, Aligned, Moved;
      forall i | 0 <= i < |t.loads| ensures t.loads[i].id != key {
        StepOrigin(world, s, act, t.loads[i]);
        if Target(act).Some? && IndexOf(s.loads, Target(act).value) < |s.loads| {
          MovedKeepsId(world, s.cache, s.loads[IndexOf(s.loads, Target(act).value)], act);
        }
      }
    }
  }

  lemma StepKeepsPair(world: World, s: State, act: Action, a: string, b: string)
    requires PairSound(world, s.cache, a, b) && !Confusable(a, b) && NoIdIs(s, PairKey(a, b)) && Aligned(s)
    ensures PairSound(world, Step(world, s, act).cache, a, b)
  {
    if act.FetchLoads? {
      hide PairSound, Confusable, PairKey, MeasureFrom;
      var r := s.(loads := FetchedLoads(s.rows));
      forall i | 0 <= i < |r.loads| ensures r.loads[i].id != PairKey(a, b) { assert Mirrors(s.loads[i], s.rows[i]); }
      MeasureFromKeepsPair(world, r, 0, act.now, a, b);
    } else {
      hide PairText, Confusable, PairKey, Step, Aligned, IndexOf, Measure, DestinationDifference, PairDistance;
      StepCache(world, s, act);
      if act.AskDistance? { QuestionKeepsPair(world, s.cache, act.a, act.b, a, b); }
      if act.MeasureOne? || act.Compare? {
        var i := IndexOf(s.loads, act.id);
        if i < |s.loads| {
          if act.MeasureOne? { MeasureKeepsPair(world, s.cache, s.loads[i], a, b); }
          else { QuestionKeepsPair(world, s.cache, s.loads[i].posting.destination, act.destination, a, b); }
        }
      }
    }
  }

  // No post is added under the id `key`.
  predicate NoPostIs(actions: seq<Action>, key: string) {
    forall i :: 0 <= i < |actions| && actions[i].AddLoad? ==> actions[i].load.id != key
  }

  lemma {:induction false} RunKeepsPair(world: World, s: State, actions: seq<Action>, a: string, b: string)
    requires PairSound(world, s.cache, a, b) && !Confusable(a, b) && NoIdIs(s, PairKey(a, b)) && Aligned(s)
    requires UniqueIds(world, s, actions) && NoPostIs(actions, PairKey(a, b))
    ensures PairSound(world, Run(world, s, actions).cache, a, b)
    decreases |actions|
  {
    hide Step, PairSound, PairKey, Confusable, NoIdIs, Aligned, FreshId;
    if actions != [] {
      StepKeepsPair(world, s, actions[0], a, b);
      StepKeepsIds(world, s, actions[0], PairKey(a, b));
      StepAligned(world, s, {}, actions[0]);
      RunKeepsPair(world, Step(world, s, actions[0]), actions[1..], a, b);
    }
  }

  /**
   The one cache serves both uses: after every run, whatever pairs were asked, compared or
   measured in it, the distance between two addresses that cannot be confused is answered as if
   nothing were cached, as long as no load has their very key for an id.
   */
  lemma RunsLeavePairsTransparent(world: World, actions: seq<Action>, a: string, b: string)
    requires UniqueIds(world, EMPTY, actions) && NoPostIs(actions, PairKey(a, b)) && !Confusable(a, b)
    ensures PairDistance(world, Run(world, EMPTY, actions).cache, a, b).0 == PairText(world, a, b)
  {
    hide Run, UniqueIds, PairKey, PairText, Confusable;
    EmptyAligned();
    RunKeepsPair(world, EMPTY, actions, a, b);
  }

  /** In particular addresses without "_to_", whole or in halves where they meet, are always answered right. */
  lemma UnmarkedPairsAnsweredRight(world: World, actions: seq<Action>, a: string, b: string)
    requires UniqueIds(world, EMPTY, actions) && NoPostIs(actions, PairKey(a, b)) && !Marked(a, b)
    ensures PairDistance(world, Run(world, EMPTY, actions).cache, a, b).0 == PairText(world, a, b)
  {
    hide *;
    UnmarkedIsPlain(a, b);
    RunsLeavePairsTransparent(world, actions, a, b);
  }

  // Every run, in every world, leaves the answer for (a, b) alone.
  ghost predicate AlwaysRight(a: string, b: string) {
    forall world: World, actions: seq<Action> ::
      UniqueIds(world, EMPTY, actions) && NoPostIs(actions, PairKey(a, b)) ==>
        PairDistance(world, Run(world, EMPTY, actions).cache, a, b).0 == PairText(world, a, b)
  }

  lemma OneQuestion(world: World, a: string, b: string)
    ensures var actions := [AskDistance(a, b)];
      && UniqueIds(world, EMPTY, actions)
      && Run(world, EMPTY, actions).cache == Apply(world, map[], AskPair(a, b))
  {
    var actions := [AskDistance(a, b)];
    assert actions[1..] == [];
    hide PairDistance;
  }

  /** Runs answer the question right, in every world, exactly for pairs that cannot be confused. */
  lemma RunsTransparencyExact(a: string, b: string)
    ensures AlwaysRight(a, b) <==> !Confusable(a, b)
  {
    hide Run, UniqueIds, PairKey, PairText, PairDistance, Confusable, Twin, Trim;
    if Confusable(a, b) {
      ConfusableIsTwin(a, b);
      var x, y :| Twin(x, y, a, b) && Trim(x) != "" && Trim(y) != "";
      var world := TwinMisleads(x, y, a, b);
      OneQuestion(world, x, y);
      assert NoPostIs([AskDistance(x, y)], PairKey(a, b));
    } else {
      forall world: World, actions: seq<Action> | UniqueIds(world, EMPTY, actions) && NoPostIs(actions, PairKey(a, b))
        ensures PairDistance(world, Run(world, EMPTY, actions).cache, a, b).0 == PairText(world, a, b)
      {
        RunsLeavePairsTransparent(world, actions, a, b);
      }
    }
  }

  // ----- the distance column -----

  // The coordinates at one end, geocoded where the load has none.
  function Place(world: World, known: Option<Point>, address: string): Option<Point> {
    known.Or(Geocode(world, address))
  }

  /** Both ends of the load are known or can be geocoded, and there is a route between them. */
  predicate Measurable(world: World, l: Load) {
    var from, to := Place(world, l.pickup, l.posting.origin), Place(world, l.drop, l.posting.destination);
    from.Some? && to.Some? && world.route(from.value, to.value).Found?
  }

  // The text of that route.
  function RouteText(world: World, l: Load): string
    requires Measurable(world, l)
  {
    var from, to := Place(world, l.pickup, l.posting.origin), Place(world, l.drop, l.posting.destination);
    var route := world.route(from.value, to.value);
    route.text.GetOr("Unknown distance") + if route.isEstimate then " (est.)" else ""
  }

  /**
   Measuring one load: nothing if its id is cached or its origin is missing; the pickup alone if its
   destination is; else both ends, and a cache entry that says what came of it. Only a route found
   gives the load a distance and is written back.
   */
  lemma MeasureEffect(world: World, cache: Cache, l: Load)
    ensures var m, l' := Measure(world, cache, l), l.(pickup := Place(world, l.pickup, l.posting.origin));
            var from, to := l'.pickup, Place(world, l.drop, l.posting.destination);
      if l.id in cache || (l.pickup == None && Trim(l.posting.origin) == "") then m == Measured(l, cache, false)
      else if l.drop == None && Trim(l.posting.destination) == "" then m == Measured(l', cache, false)
      else
        && m.load.(distance := l.distance) == l'.(drop := to) && l.id in m.cache && m.cache - {l.id} == cache - {l.id}
        && (Measurable(world, l) ==> m.cache[l.id] == RouteText(world, l))
        && (!Measurable(world, l) ==>
              m.cache[l.id] ==
                if from.None? || to.None? then "Location not found"
                else if world.route(from.value, to.value).Missing? then "Calculation failed"
                else world.fallback(from.value, to.value))
        && m.writeBack == Measurable(world, l)
        && m.load.distance == if Measurable(world, l) then Some(RouteText(world, l)) else l.distance
  {
    hide Geocode, Trim;
  }

  // A load is measured and written back exactly when it is measurable and its id is not cached.
  lemma MeasuredExact(world: World, cache: Cache, l: Load)
    ensures var m := Measure(world, cache, l);
      && (m.writeBack <==> l.id !in cache && Measurable(world, l))
      && m.load.distance == if m.writeBack then Some(RouteText(world, l)) else l.distance
  {
    assert l.pickup.None? && Trim(l.posting.origin) == "" ==> Geocode(world, l.posting.origin).None?;
    assert l.drop.None? && Trim(l.posting.destination) == "" ==> Geocode(world, l.posting.destination).None?;
    hide Geocode, Trim;
  }

  lemma MeasureNeedsOwnEntry(world: World, cache: Cache, cache': Cache, l: Load)
    requires l.id in cache <==> l.id in cache'
    ensures Measure(world, cache, l).load == Measure(world, cache', l).load
    ensures Measure(world, cache, l).writeBack == Measure(world, cache', l).writeBack
  {
    hide Geocode, Trim;
  }

  // Without an entry afterwards, an address was missing.
  lemma MissingAddress(world: World, cache: Cache, l: Load)
    requires l.id !in Measure(world, cache, l).cache
    ensures l.id !in cache
    ensures var origin, l1 := Trim(l.posting.origin), l.(pickup := l.pickup.Or(Geocode(world, l.posting.origin)));
      || (l.pickup.None? && origin == "" && Measure(world, cache, l) == Measured(l, cache, false))
      || (&& (l.pickup.Some? || origin != "") && l.drop.None? && Trim(l.posting.destination) == ""
          && Measure(world, cache, l) == Measured(l1, cache, false))
  {
    hide Geocode, Trim;
  }

  /** Measuring a load again changes nothing: not the load, not the cache, and nothing is written. */
  lemma MeasureOnce(world: World, cache: Cache, l: Load)
    ensures var m := Measure(world, cache, l); Measure(world, m.cache, m.load) == Measured(m.load, m.cache, false)
  {
    hide Geocode, Trim;
    var m := Measure(world, cache, l);
    MeasureKeepsDeal(world, cache, l);
    if l.id in m.cache {
      hide Measure;
      MeasureGrows(world, m.cache, m.load);
    } else {
      MissingAddress(world, cache, l);
    }
  }

  lemma MeasureGrows(world: World, cache: Cache, l: Load)
    ensures cache.Keys <= Measure(world, cache, l).cache.Keys <= cache.Keys + {l.id}
    ensures Measure(world, cache, l).writeBack ==> l.id in Measure(world, cache, l).cache
    ensures l.id in cache ==> Measure(world, cache, l) == Measured(l, cache, false)
    ensures Measure(world, cache, l).writeBack ==> Measure(world, cache, l).load.distance.Some?
  {
    hide Geocode, Trim;
  }

  // What the pass from `i` on leaves of place `j`: nothing happens before it is reached.
  lemma MeasureAtElsewhere(world: World, s: State, i: nat, j: nat, now: int)
    requires Aligned(s) && i < |s.loads| && j < |s.loads| && i != j
    ensures var t := MeasureAt(world, s, i, now);
      && t.loads[j] == s.loads[j] && |t.rows| == |s.rows| && t.rows[j] == s.rows[j]
      && (s.loads[j].id in t.cache <==> s.loads[j].id in s.cache)
  {
    AlignedIds(s, i, j);
    MeasureGrows(world, s.cache, s.loads[i]);
    MeasureKeepsDeal(world, s.cache, s.loads[i]);
    hide Aligned, Measure, EncodeBids, Join;
  }

  // Place `j` after the pass is place `j` measured once, with the cache entry it had.
  lemma {:induction false} MeasureFromAt(world: World, s: State, i: nat, j: nat, now: int)
    requires Aligned(s) && j < |s.loads|
    ensures var t, m := MeasureFrom(world, s, i, now), Measure(world, s.cache, s.loads[j]);
      && |t.loads| == |s.loads| && |t.rows| == |s.rows|
      && (j < i ==> t.loads[j] == s.loads[j] && t.rows[j] == s.rows[j])
      && (j >= i ==> t.loads[j] == m.load && (m.writeBack ==> t.rows[j].distance == None))
      && (j >= i && !m.writeBack ==> t.rows[j] == s.rows[j])
      && (s.loads[j].id in t.cache <==> s.loads[j].id in s.cache || (j >= i && s.loads[j].id in m.cache))
    decreases |s.loads| - i
  {
    hide Aligned, Measure, EncodeBids, Join, MeasureAt;
    if i < |s.loads| {
      var t := MeasureAt(world, s, i, now);
      MeasureAtAligned(world, s, i, now, {});
      MeasureAtShape(world, s, i, now);
      MeasureFromAt(world, t, i + 1, j, now);
      if j != i {
        MeasureAtElsewhere(world, s, i, j, now);
        MeasureNeedsOwnEntry(world, s.cache, t.cache, s.loads[j]);
        MeasureEntry(world, s.cache, t.cache, s.loads[j]);
      }
    }
  }

  lemma MeasureAtShape(world: World, s: State, i: nat, now: int)
    requires Aligned(s) && i < |s.loads|
    ensures var t, m := MeasureAt(world, s, i, now), Measure(world, s.cache, s.loads[i]);
      && |t.loads| == |s.loads| && |t.rows| == |s.rows| && t.loads[i] == m.load && t.loads[i].id == s.loads[i].id
      && (m.writeBack ==> t.rows[i].distance == None) && (!m.writeBack ==> t.rows == s.rows)
      && (s.loads[i].id in t.cache <==> s.loads[i].id in m.cache) && s.cache.Keys <= t.cache.Keys
  {
    assert Mirrors(s.loads[i], s.rows[i]);
    MeasureKeepsDeal(world, s.cache, s.loads[i]);
    MeasureGrows(world, s.cache, s.loads[i]);
    hide Aligned, Measure, EncodeBids, Join;
  }

  lemma MeasureEntry(world: World, cache: Cache, cache': Cache, l: Load)
    requires l.id in cache <==> l.id in cache'
    ensures l.id in Measure(world, cache, l).cache <==> l.id in Measure(world, cache', l).cache
  {
    hide Geocode, Trim;
  }

  lemma FetchAt(world: World, s: State, j: nat, now: int)
    requires Aligned(s) && j < |s.loads|
    ensures var t, m := Step(world, s, FetchLoads(now)), Measure(world, s.cache, FromRow(s.rows[j]));
      && |t.loads| == |s.loads| && |t.rows| == |s.rows| && t.loads[j] == m.load
      && (m.writeBack ==> t.rows[j].distance == None) && (!m.writeBack ==> t.rows[j] == s.rows[j])
      && (s.loads[j].id in t.cache <==> s.loads[j].id in s.cache || s.loads[j].id in m.cache)
  {
    hide Aligned, MeasureFrom, Measure, FromRow;
    var r := s.(loads := FetchedLoads(s.rows));
    FetchedAligned(s, j);
    MeasureFromAt(world, r, 0, j, now);
  }

  lemma FetchedAligned(s: State, j: nat)
    requires Aligned(s) && j < |s.loads|
    ensures var r := s.(loads := FetchedLoads(s.rows));
            Aligned(r) && |r.loads| == |s.loads| && r.loads[j].id == s.loads[j].id && r.loads[j] == FromRow(s.rows[j])
  {
    hide FromRow, Mirrors;
    var r := s.(loads := FetchedLoads(s.rows));
    forall i | 0 <= i < |s.loads| ensures Mirrors(r.loads[i], r.rows[i]) && r.loads[i].id == s.loads[i].id {
      FromRowAligned(s, r, i);
    }
  }

  /** After a reload a load shows a distance exactly when its row had one or it was measured now. */
  lemma ReloadShowsDistanceExact(world: World, s: State, j: nat, now: int)
    requires Aligned(s) && j < |s.loads|
    ensures var t, l := Step(world, s, FetchLoads(now)), FromRow(s.rows[j]);
      && j < |t.loads|
      && (t.loads[j].distance.Some? <==> s.rows[j].distance.Some? || (l.id !in s.cache && Measurable(world, l)))
  {
    hide Step, Mirrors, DistinctIds, Measurable;
    FetchAt(world, s, j, now);
    MeasuredExact(world, s.cache, FromRow(s.rows[j]));
  }

  // A load that was not written back is not written back the next time either.
  lemma NotWrittenTwice(world: World, cache: Cache, cache': Cache, l: Load)
    requires l.id in cache' <==> l.id in cache || l.id in Measure(world, cache, l).cache
    ensures !Measure(world, cache', l).writeBack
  {
    hide Geocode, Trim;
    if l.id !in cache' { MissingAddress(world, cache, l); }
  }

  /**
   Refreshing twice: the second reload shows the same distance as the first exactly when the
   first did not measure the load. One it measured has no distance after the second, because its
   row never got it and the cache keeps it from being measured again.
   */
  lemma RefreshTwiceExact(world: World, s: State, j: nat, now: int, later: int)
    requires Aligned(s) && j < |s.loads|
    ensures var t := Step(world, s, FetchLoads(now));
            var u, l := Step(world, t, FetchLoads(later)), FromRow(s.rows[j]);
            && |u.loads| == |t.loads| == |s.loads|
            && (u.loads[j].distance == t.loads[j].distance <==> l.id in s.cache || !Measurable(world, l))
            && (u.loads[j].distance != t.loads[j].distance ==> u.loads[j].distance.None?)
  {
    var t, l := Step(world, s, FetchLoads(now)), FromRow(s.rows[j]);
    FetchAt(world, s, j, now);
    FetchAligned(world, s, now);
    FetchAt(world, t, j, later);
    assert Mirrors(s.loads[j], s.rows[j]) && Mirrors(t.loads[j], t.rows[j]) && SameDeal(t.loads[j], s.loads[j]);
    hide Step, Measure, Aligned, Measurable;
    MeasuredExact(world, s.cache, l);
    MeasuredExact(world, t.cache, FromRow(t.rows[j]));
    if Measure(world, s.cache, l).writeBack {
      MeasureGrows(world, s.cache, l);
    } else {
      NotWrittenTwice(world, s.cache, t.cache, l);
    }
  }

  lemma ConfirmWritesRow(world: World, s: State, id: string, when: int)
    requires Aligned(s) && IndexOf(s.loads, id) < |s.loads|
    ensures var c, i := Step(world, s, ConfirmLoad(id, when)), IndexOf(s.loads, id);
      && |c.loads| == |c.rows| == |s.loads| && c.loads[i] == Confirmed(s.loads[i], when)
      && c.rows[i] == ToRow(Confirmed(s.loads[i], when)) && IndexOf(c.loads, id) == i
  {
    var i := IndexOf(s.loads, id);
    assert Mirrors(s.loads[i], s.rows[i]);
    IndexAfterUpdate(s.loads, i, Confirmed(s.loads[i], when), id);
    hide EncodeBids, Join, AcceptedAmount, IndexOf;
  }

  /**
   Confirming drops the distance, in memory and in the row. The next reload shows one exactly
   when it measures the load: both ends and a route can be found, and the id is not in the cache,
   be it the one of this session or the empty one after a restart.
   */
  lemma ConfirmedDistanceExact(world: World, s: State, id: string, when: int, cache: Cache, now: int)
    requires Aligned(s) && IndexOf(s.loads, id) < |s.loads|
    ensures var l, c := s.loads[IndexOf(s.loads, id)], Step(world, s, ConfirmLoad(id, when));
            var t := Step(world, c.(cache := cache), FetchLoads(now));
            var i := IndexOf(t.loads, id);
      && |t.loads| == |s.loads| && i == IndexOf(s.loads, id) && t.loads[i].status == Some(CONFIRMED)
      && t.loads[i].distance == if id !in cache && Measurable(world, l) then Some(RouteText(world, l)) else None
  {
    var i, c := IndexOf(s.loads, id), Step(world, s, ConfirmLoad(id, when));
    var l, u := s.loads[i], c.(cache := cache);
    hide *;
    ConfirmWritesRow(world, s, id, when);
    StepAligned(world, s, {}, ConfirmLoad(id, when));
    OtherCacheAligned(c, cache);
    ConfirmedRow(world, l, when);
    FetchAt(world, u, i, now);
    MeasuredExact(world, cache, FromRow(u.rows[i]));
    FetchKeepsPlace(world, u, id, now);
  }

  lemma OtherCacheAligned(s: State, cache: Cache)
    requires Aligned(s)
    ensures Aligned(s.(cache := cache))
  {
    hide Mirrors, DistinctIds;
  }

  lemma FetchKeepsPlace(world: World, s: State, id: string, now: int)
    requires Aligned(s) && IndexOf(s.loads, id) < |s.loads|
    ensures var t, i := Step(world, s, FetchLoads(now)), IndexOf(s.loads, id);
            |t.loads| == |s.loads| && IndexOf(t.loads, id) == i && t.loads[i].status == s.loads[i].status
  {
    hide Step, Aligned, IndexOf;
    FetchAligned(world, s, now);
    var t := Step(world, s, FetchLoads(now));
    forall k | 0 <= k < |s.loads| ensures t.loads[k].id == s.loads[k].id { assert SameDeal(t.loads[k], s.loads[k]); }
    IndexSameIds(s.loads, t.loads, id);
    assert SameDeal(t.loads[IndexOf(s.loads, id)], s.loads[IndexOf(s.loads, id)]);
  }

  // What comes back from the row of a confirmed load.
  lemma ConfirmedRow(world: World, l: Load, when: int)
    ensures var m := FromRow(ToRow(Confirmed(l, when)));
      && m.id == l.id && m.distance == None
      && Measurable(world, m) == Measurable(world, l)
      && (Measurable(world, l) ==> RouteText(world, m) == RouteText(world, l))
    ensures Confirmed(l, when).status == Some(CONFIRMED) && Confirmed(l, when).id == l.id
  {
    hide EncodeBids, DecodeBids, Join, Split, Geocode;
  }
}
