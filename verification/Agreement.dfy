/**
 The negotiation against the analytics: on reachable states the screen counts exactly the
 confirmed loads at exactly the agreed price, while the provider's analytics, which look for
 another status, never see a sale.
 */
module Agreement {
  import opened Text
  import opened LoadPosts
  import opened Distances
  import opened Negotiation
  import opened Reloading
  import opened Selections
  import opened SelectionRuns
  import opened Outcomes
  import opened Refreshing
  import opened Tallies
  import opened RateInsights
  import opened SalesAnalytics

  // ----- the screen -----

  function IsConfirmed(l: Load): bool { l.status == Some(CONFIRMED) }

  /** A load whose status tells its flags is sold exactly when it is confirmed and has bids. */
  lemma SoldExact(l: Load)
    requires Lifecycle(l)
    ensures Sold(l) <==> IsConfirmed(l) && l.bids != []
  {
  }

  // The price is that of a bid by the selected bidder: `orElse` is not reached.
  ghost predicate PricedByBidder(l: Load) {
    && l.bids != [] && l.selectedBidId.Some?
    && FirstPick(l.bids, l.selectedBidId) < |l.bids|
    && SelectedBid(l).bidder == l.selectedBidId.value
  }

  /** A sale is priced without the fallback exactly when its selection names a bidder. */
  lemma PricedExact(l: Load)
    requires Sold(l)
    ensures PricedByBidder(l) <==> Names(l)
  {
    var k, i := BidIndex(l.bids, l.selectedBidId.value), FirstPick(l.bids, l.selectedBidId);
    if k < |l.bids| { assert Picked(l.selectedBidId, l.bids[k]); }
    if i < |l.bids| { assert Picked(l.selectedBidId, l.bids[i]); }
  }

  // Besides, it is the only bid by that bidder.
  ghost predicate PricedBySelection(l: Load) {
    && PricedByBidder(l)
    && forall b :: b in l.bids && b.bidder == l.selectedBidId.value ==> b == SelectedBid(l)
  }

  lemma SoldIsPriced(l: Load)
    requires Sold(l) && Selection(l)
    ensures PricedBySelection(l)
  {
    var selected := l.selectedBidId.value;
    var k :| 0 <= k < |l.bids| && l.bids[k].bidder == selected
             && forall j :: 0 <= j < |l.bids| && l.bids[j].bidder == selected ==> j == k;
    var i := FirstPick(l.bids, l.selectedBidId);
    assert Picked(l.selectedBidId, l.bids[k]);
    assert i <= k;
    assert Picked(l.selectedBidId, l.bids[i]);
  }

  lemma PricedBySelectionExact(l: Load)
    requires Sold(l) && DistinctBidders(l.bids)
    ensures PricedBySelection(l) <==> Names(l)
  {
    hide PricedByBidder, DistinctBidders, Names;
    PricedExact(l);
    SelectionIsNames(l);
    if Selection(l) { SoldIsPriced(l); }
  }

  // The list of sales is the list of confirmed loads exactly when every confirmed load has bids.
  lemma SameListsExact(loads: seq<Load>)
    requires forall l :: l in loads ==> (Sold(l) <==> IsConfirmed(l) && l.bids != [])
    ensures Where(loads, Sold) == Where(loads, IsConfirmed) <==>
            forall l :: l in loads && IsConfirmed(l) ==> l.bids != []
  {
    hide Sold, IsConfirmed;
    if forall l :: l in loads && IsConfirmed(l) ==> l.bids != [] {
      WhereCongruent(loads, Sold, IsConfirmed);
    } else {
      var l :| l in loads && IsConfirmed(l) && l.bids == [];
      assert l in Where(loads, IsConfirmed);
    }
  }

  /**
   In every run in which carriers confirm and decline only what the awaiting list offers them,
   whatever the strings and the posts, return loads included: the loads sold are the confirmed
   loads exactly when every confirmed load has bids; a sale is priced without the fallback exactly
   when its selection names a bidder, which is so exactly as `NamedThrough` says; and the bid that
   prices it is then the only one by that name, if the load was posted with distinct bidders and
   nothing is reloaded or the actions that name it bring it no separator.
   */
  lemma ScreenAgreesExact(world: World, actions: seq<Action>)
    requires LivePosts(actions) && GuardedRun(world, EMPTY, actions)
    requires NoFetch(actions) || UniqueIds(world, EMPTY, actions)
    ensures var loads := Run(world, EMPTY, actions).loads;
      && (Where(loads, Sold) == Where(loads, IsConfirmed) <==>
            forall l :: l in loads && IsConfirmed(l) ==> l.bids != [])
      && |Entries(loads, Lane, SalePrice)| == |Where(loads, Sold)|
      && forall i :: 0 <= i < |loads| && Sold(loads[i]) ==>
           && (PricedByBidder(loads[i]) <==> Names(loads[i]))
           && (IndexOf(loads, loads[i].id) == i ==>
                 && (Names(loads[i]) <==> NamedThrough(world, EMPTY, {}, false, actions, loads[i].id))
                 && (DistinctPosts(actions, loads[i].id) && (NoFetch(actions) || CleanFor(actions, loads[i].id)) ==>
                       (PricedBySelection(loads[i]) <==> Names(loads[i]))))
  {
    hide Run, UniqueIds, GuardedRun, CleanFor, NoFetch, Selection, Lifecycle, Sold, IsConfirmed, NamedThrough,
      DistinctPosts, PricedBySelection, PricedByBidder, Where, Entries, Names, IndexOf, DistinctBidders;
    StatusTellsConfirmation(world, actions);
    var loads := Run(world, EMPTY, actions).loads;
    forall l | l in loads ensures Sold(l) <==> IsConfirmed(l) && l.bids != [] {
      var i :| 0 <= i < |loads| && loads[i] == l;
      SoldExact(l);
    }
    SameListsExact(loads);
    SalesCount(loads);
    forall i | 0 <= i < |loads| && Sold(loads[i])
      ensures PricedByBidder(loads[i]) <==> Names(loads[i])
      ensures IndexOf(loads, loads[i].id) == i ==>
                (Names(loads[i]) <==> NamedThrough(world, EMPTY, {}, false, actions, loads[i].id))
      ensures IndexOf(loads, loads[i].id) == i && DistinctPosts(actions, loads[i].id)
              && (NoFetch(actions) || CleanFor(actions, loads[i].id)) ==>
                (PricedBySelection(loads[i]) <==> Names(loads[i]))
    {
      PricedExact(loads[i]);
      NamesExact(world, actions, loads[i].id);
      if IndexOf(loads, loads[i].id) == i && DistinctPosts(actions, loads[i].id)
         && (NoFetch(actions) || CleanFor(actions, loads[i].id)) {
        SelectionExact(world, actions, loads[i].id);
        PricedBySelectionExact(loads[i]);
      }
    }
  }

  ghost predicate AllPostsSelect(actions: seq<Action>) {
    forall i :: 0 <= i < |actions| && actions[i].AddLoad? ==> Selection(actions[i].load)
  }

  /**
   In particular, from posts whose selection, if any, names one of their distinct bidders: every
   confirmed load is sold, a selected name without separators prices it without the fallback, and
   the bid that prices it is the only one by that name under the same proviso.
   */
  lemma ScreenAgreesWithNegotiation(world: World, actions: seq<Action>)
    requires AllPostsSelect(actions) && LivePosts(actions) && GuardedRun(world, EMPTY, actions)
    requires NoFetch(actions) || UniqueIds(world, EMPTY, actions)
    ensures var loads := Run(world, EMPTY, actions).loads;
      && Where(loads, Sold) == Where(loads, IsConfirmed)
      && |Entries(loads, Lane, SalePrice)| == |Where(loads, IsConfirmed)|
      && forall i :: 0 <= i < |loads| && IsConfirmed(loads[i]) ==>
           && loads[i].selectedBidId.Some?
           && (Clean(loads[i].selectedBidId.value) ==> PricedByBidder(loads[i]))
           && (NoFetch(actions) || CleanFor(actions, loads[i].id) ==> PricedBySelection(loads[i]))
  {
    hide Run, UniqueIds, GuardedRun, CleanFor, NoFetch, Selection, Lifecycle, IsConfirmed, Clean, Names,
      PricedBySelection, PricedByBidder, Where, Entries, PostsSelect, PostsAnchored;
    StatusTellsConfirmation(world, actions);
    var loads := Run(world, EMPTY, actions).loads;
    forall i | 0 <= i < |loads|
      ensures Sold(loads[i]) == IsConfirmed(loads[i])
      ensures IsConfirmed(loads[i]) ==> loads[i].selectedBidId.Some?
      ensures IsConfirmed(loads[i]) && Clean(loads[i].selectedBidId.value) ==> PricedByBidder(loads[i])
      ensures IsConfirmed(loads[i]) && (NoFetch(actions) || CleanFor(actions, loads[i].id)) ==>
                PricedBySelection(loads[i])
    {
      SelectedPosts(actions, loads[i].id);
      CleanSelectionIsFound(world, actions, loads[i].id);
      SoldExact(loads[i]);
      LiveSelection(loads[i]);
      if Sold(loads[i]) {
        PricedExact(loads[i]);
        if NoFetch(actions) || CleanFor(actions, loads[i].id) {
          SelectionAlwaysNamesOneBid(world, actions, loads[i].id);
          SoldIsPriced(loads[i]);
        }
      }
    }
    WhereCongruent(loads, Sold, IsConfirmed);
    SalesCount(loads);
  }

  lemma SelectedPosts(actions: seq<Action>, id: string)
    requires AllPostsSelect(actions)
    ensures PostsSelect(actions, id) && PostsAnchored(actions, id)
  {
    hide Selection, Anchored;
    forall i | 0 <= i < |actions| && actions[i].AddLoad? ensures Anchored(actions[i].load) {
      SelectionAnchors(actions[i].load);
    }
  }

  lemma SelectionAnchors(l: Load)
    requires Selection(l)
    ensures Anchored(l)
  {
    SelectionIsNames(l);
    hide DistinctBidders;
  }

  lemma LiveSelection(l: Load)
    requires Lifecycle(l)
    ensures IsConfirmed(l) ==> l.selectedBidId.Some?
  {
  }

  lemma SalesCount(loads: seq<Load>)
    ensures |Entries(loads, Lane, SalePrice)| == |Where(loads, Sold)|
  {
    hide Entries, Where, Lane, SelectedBid;
    EntriesOfWhere(loads, Sold, Lane, SalePrice, SalePrice);
    SoldHavePrices(loads);
    EntriesOfAll(Where(loads, Sold), Lane, SalePrice);
  }

  lemma SoldHavePrices(loads: seq<Load>)
    ensures forall l :: l in Where(loads, Sold) ==> SalePrice(l).Some?
  {
    hide SelectedBid;
  }

  // ----- miles -----

  ghost predicate ConfirmedWithoutDistance(l: Load) {
    l.carrierConfirmed ==> l.distance.None?
  }

  ghost predicate NoConfirmedDistance(s: State) {
    forall i :: 0 <= i < |s.loads| ==> ConfirmedWithoutDistance(s.loads[i])
  }

  // No single load is measured, as the details screen does.
  predicate NoMeasure(actions: seq<Action>) {
    forall i :: 0 <= i < |actions| ==> !actions[i].MeasureOne?
  }

  // Confirmed posts have no distance: new posts are not confirmed, and return loads are copies.
  ghost predicate PostsWithoutDistance(actions: seq<Action>) {
    forall i :: 0 <= i < |actions| && actions[i].AddLoad? ==> ConfirmedWithoutDistance(actions[i].load)
  }

  lemma {:induction false} RunLosesDistances(world: World, s: State, actions: seq<Action>)
    requires NoConfirmedDistance(s) && NoFetch(actions) && NoMeasure(actions) && PostsWithoutDistance(actions)
    ensures NoConfirmedDistance(Run(world, s, actions))
    decreases |actions|
  {
    hide Step, ConfirmedWithoutDistance;
    if actions != [] {
      var t := Step(world, s, actions[0]);
      forall i | 0 <= i < |t.loads| ensures ConfirmedWithoutDistance(t.loads[i]) {
        StepLosesDistances(world, s, actions[0], t.loads[i]);
      }
      RunLosesDistances(world, t, actions[1..]);
    }
  }

  lemma StepLosesDistances(world: World, s: State, a: Action, l: Load)
    requires NoConfirmedDistance(s)
    requires !a.FetchLoads? && !a.MeasureOne?
    requires (a.AddLoad? ==> ConfirmedWithoutDistance(a.load)) && l in Step(world, s, a).loads
    ensures ConfirmedWithoutDistance(l)
  {
    hide Step, PutBid, DestinationDifference;
    StepOrigin(world, s, a, l);
  }

  lemma {:induction false} ZeroMiles(loads: seq<Load>)
    requires forall l :: l in loads ==> ConfirmedWithoutDistance(l)
    ensures Total(Entries(loads, Lane, MilesSold)) == 0.0
  {
    if loads != [] {
      var front, l := loads[..|loads| - 1], loads[|loads| - 1];
      ZeroMiles(front);
      assert l in loads && loads == front + [l];
      hide Entries, Total, Tally, Counts;
      EntriesSnoc(front, l, Lane, MilesSold);
      if MilesSold(l).Some? { AfterEntry(front, l, Lane, MilesSold); }
    }
  }

  /**
   Confirming drops the distance, so as long as nothing is reloaded or measured the confirmed
   loads have no miles and the screen's average rate per mile is 0.
   */
  lemma SalesHaveNoMiles(world: World, actions: seq<Action>)
    requires NoFetch(actions) && NoMeasure(actions) && PostsWithoutDistance(actions)
    ensures Total(Entries(Run(world, EMPTY, actions).loads, Lane, MilesSold)) == 0.0
  {
    hide Run, Entries, Total;
    RunLosesDistances(world, EMPTY, actions);
    var loads := Run(world, EMPTY, actions).loads;
    forall l | l in loads ensures ConfirmedWithoutDistance(l) {
      var i :| 0 <= i < |loads| && loads[i] == l;
    }
    ZeroMiles(loads);
  }

  lemma EndsMatter(world: World, l: Load, m: Load)
    requires l.posting == m.posting && l.pickup == m.pickup && l.drop == m.drop
    ensures Measurable(world, l) == Measurable(world, m)
    ensures Measurable(world, l) ==> RouteText(world, l) == RouteText(world, m)
  {
  }

  // A post, one bid for it, and the acceptance of that bid.
  function FirstDeal(world: World, post: Load, a: Quote, now: int): State {
    Run(world, EMPTY, [AddLoad(post), AddBid(post.id, a), UpdateBidStatus(post.id, a.bidder, "accepted", None, now)])
  }

  lemma FirstDealIs(world: World, post: Load, a: Quote, now: int)
    ensures var s := FirstDeal(world, post, a, now);
      && Aligned(s) && |s.loads| == 1 && s.loads[0].id == post.id && s.loads[0].posting == post.posting
      && s.loads[0].pickup == post.pickup && s.loads[0].drop == post.drop
      && s.loads[0].brokerConfirmed && s.loads[0].selectedBidId == Some(a.bidder)
  {
    var add, bid := AddLoad(post), AddBid(post.id, a);
    var accept := UpdateBidStatus(post.id, a.bidder, "accepted", None, now);
    RunThree(world, EMPTY, add, bid, accept);
    assert Step(world, EMPTY, add).loads == [post] && FreshId(EMPTY, post.id);
    EmptyAligned();
    hide Step, Run, PutBid, BidIndex, Aligned, FreshId, Moved;
    var s1 := Step(world, EMPTY, add);
    var s2 := Step(world, s1, bid);
    StepAligned(world, EMPTY, {}, add);
    StepAligned(world, s1, {}, bid);
    StepAligned(world, s2, {}, accept);
    OnlyLoadMoves(world, s1, bid);
    OnlyLoadMoves(world, s2, accept);
    AcceptedPost(world, s1.cache, post, bid, s2.cache, accept);
  }

  lemma OnlyLoadMoves(world: World, s: State, a: Action)
    requires |s.loads| == 1 && Target(a) == Some(s.loads[0].id) && !a.DeleteLoad?
    ensures Step(world, s, a).loads == [Moved(world, s.cache, s.loads[0], a)]
    ensures Moved(world, s.cache, s.loads[0], a).id == s.loads[0].id
  {
    assert IndexOf(s.loads, s.loads[0].id) == 0;
    hide Step, Moved, IndexOf;
    StepMovesTarget(world, s, a);
    MovedKeepsId(world, s.cache, s.loads[0], a);
  }

  lemma AcceptedPost(world: World, cache: Cache, post: Load, bid: Action, cache': Cache, accept: Action)
    requires bid.AddBid? && accept.UpdateBidStatus? && accept.status == "accepted" && accept.bidder == bid.quote.bidder
    ensures var l := Moved(world, cache', Moved(world, cache, post, bid), accept);
      && l.posting == post.posting && l.pickup == post.pickup && l.drop == post.drop
      && l.brokerConfirmed && l.selectedBidId == Some(accept.bidder)
  {
    var bids := PutBid(post.bids, bid.quote);
    assert bids[|bids| - 1].bidder == accept.bidder;
    assert BidIndex(bids, accept.bidder) < |bids|;
    hide PutBid, BidIndex;
  }

  lemma OneEntry(l: Load)
    requires Sold(l)
    ensures Total(Entries([l], Lane, MilesSold)) == Miles(l.distance)
  {
    hide Miles, Lane;
    assert [l][..0] == [] && Entries([], Lane, MilesSold) == [];
    var entries := Entries([l], Lane, MilesSold);
    assert entries == [Entry(Lane(l), Miles(l.distance))];
    assert entries[..0] == [];
  }

  /** The details screen gives a sale the miles of its route by measuring it, unless its id is cached. */
  lemma MeasuredSaleHasMiles(world: World, post: Load, a: Quote, now: int)
    ensures var c := Step(world, FirstDeal(world, post, a, now), ConfirmLoad(post.id, now));
            Total(Entries(Step(world, c, MeasureOne(post.id, now)).loads, Lane, MilesSold)) ==
              if Measurable(world, post) then Miles(Some(RouteText(world, post))) else 0.0
  {
    var s := FirstDeal(world, post, a, now);
    FirstDealIs(world, post, a, now);
    FirstDealCaches(world, post, a, now);
    hide FirstDeal, Step, Measurable, RouteText, Miles, Entries, Total, Measure, Moved;
    var confirm, measure := ConfirmLoad(post.id, now), MeasureOne(post.id, now);
    var c := Step(world, s, confirm);
    OnlyLoadMoves(world, s, confirm);
    OnlyLoadMoves(world, c, measure);
    StepCache(world, s, confirm);
    SaleMoves(world, s.cache, s.loads[0], confirm, c.cache, measure);
    EndsMatter(world, c.loads[0], post);
    var l := Moved(world, c.cache, c.loads[0], measure);
    OneEntry(l);
    NoMiles();
  }

  lemma SaleMoves(world: World, cache: Cache, l: Load, confirm: Action, cache': Cache, measure: Action)
    requires confirm.ConfirmLoad? && measure.MeasureOne? && l.id !in cache'
    requires l.brokerConfirmed && l.selectedBidId.Some? && l.bids != []
    ensures var c := Moved(world, cache, l, confirm); var m := Moved(world, cache', c, measure);
      && c.posting == l.posting && c.pickup == l.pickup && c.drop == l.drop && c.id == l.id
      && Sold(m) && m.distance == if Measurable(world, c) then Some(RouteText(world, c)) else None
  {
    var c := Moved(world, cache, l, confirm);
    hide Measure, Measurable, RouteText;
    MeasureKeepsDeal(world, cache', c);
    MeasuredExact(world, cache', c);
  }

  lemma FirstDealCaches(world: World, post: Load, a: Quote, now: int)
    ensures var s := FirstDeal(world, post, a, now);
            s.cache == map[] && |s.loads| == 1 && s.loads[0].bids != []
  {
    var add, bid := AddLoad(post), AddBid(post.id, a);
    var accept := UpdateBidStatus(post.id, a.bidder, "accepted", None, now);
    FirstDealIs(world, post, a, now);
    RunThree(world, EMPTY, add, bid, accept);
    assert Step(world, EMPTY, add).loads == [post];
    AnswerKeepsBids(world, map[], post, bid, map[], accept);
    hide Step, Run, Moved;
    var s1 := Step(world, EMPTY, add);
    var s2 := Step(world, s1, bid);
    StepCache(world, EMPTY, add);
    StepCache(world, s1, bid);
    StepCache(world, s2, accept);
    OnlyLoadMoves(world, s1, bid);
    OnlyLoadMoves(world, s2, accept);
  }

  lemma AnswerKeepsBids(world: World, cache: Cache, post: Load, bid: Action, cache': Cache, accept: Action)
    requires bid.AddBid? && accept.UpdateBidStatus?
    ensures Moved(world, cache', Moved(world, cache, post, bid), accept).bids != []
  {
    hide Without, BidIndex;
  }

  /**
   Through a reload sales can have miles: after a post, a bid, its acceptance and confirmation,
   a reload gives the sale the miles of its route exactly when it measures the load, which it
   does unless the id is cached. A restart empties the cache.
   */
  lemma ReloadedSaleHasMiles(world: World, post: Load, a: Quote, now: int, cache: Cache)
    ensures var c := Step(world, FirstDeal(world, post, a, now), ConfirmLoad(post.id, now));
            var t := Step(world, c.(cache := cache), FetchLoads(now));
            Total(Entries(t.loads, Lane, MilesSold)) ==
              if post.id !in cache && Measurable(world, post) then Miles(Some(RouteText(world, post))) else 0.0
  {
    var s := FirstDeal(world, post, a, now);
    FirstDealIs(world, post, a, now);
    hide FirstDeal;
    assert IndexOf(s.loads, post.id) == 0;
    EndsMatter(world, s.loads[0], post);
    hide Step, Mirrors, DistinctIds, Measurable, RouteText, Miles, Entries, Total, DecodeBids;
    var c := Step(world, s, ConfirmLoad(post.id, now));
    ConfirmedDistanceExact(world, s, post.id, now, cache, now);
    ConfirmWritesRow(world, s, post.id, now);
    StepAligned(world, s, {}, ConfirmLoad(post.id, now));
    var u := c.(cache := cache);
    assert Aligned(u);
    var t := Step(world, u, FetchLoads(now));
    FetchAligned(world, u, now);
    DecodedClean(u.rows[0].bids);
    assert SameDeal(t.loads[0], u.loads[0]);
    assert t.loads == [t.loads[0]];
    OneEntry(t.loads[0]);
    assert Miles(None) == 0.0 by { NoMiles(); }
  }

  lemma NoMiles()
    ensures Miles(None) == 0.0
  {
  }

  // ----- the provider -----

  const COMPLETED := "completed"

  // The ids of the loads posted as 'completed' and neither moved nor deleted since.
  function StillCompleted(s: State, ids: set<string>, a: Action): set<string> {
    match a
    case AddLoad(load) => if load.status == Some(COMPLETED) then ids + {load.id} else ids - {load.id}
    case UpdateBidStatus(id, bidder, status, _, _) =>
      var i := IndexOf(s.loads, id);
      if status == "accepted" && i < |s.loads| && BidIndex(s.loads[i].bids, bidder) < |s.loads[i].bids| then ids - {id}
      else ids
    case ConfirmLoad(id, _) => ids - {id}
    case DeclineLoad(id, _) => ids - {id}
    case DeleteLoad(id) => ids - {id}
    case _ => ids
  }

  function CompletedIds(world: World, s: State, ids: set<string>, actions: seq<Action>): set<string>
    decreases |actions|
  {
    if actions == [] then ids
    else CompletedIds(world, Step(world, s, actions[0]), StillCompleted(s, ids, actions[0]), actions[1..])
  }

  // The loads in memory with status 'completed' are those under `ids`.
  ghost predicate Completes(s: State, ids: set<string>) {
    forall i :: 0 <= i < |s.loads| ==> (s.loads[i].status == Some(COMPLETED) <==> s.loads[i].id in ids)
  }

  // The step takes the load it finds out of its status.
  predicate Leaves(l: Load, a: Action) {
    || a.ConfirmLoad? || a.DeclineLoad?
    || (a.UpdateBidStatus? && a.status == "accepted" && BidIndex(l.bids, a.bidder) < |l.bids|)
  }

  lemma MovedCompletes(world: World, cache: Cache, l: Load, a: Action)
    ensures Moved(world, cache, l, a).status == Some(COMPLETED) <==> l.status == Some(COMPLETED) && !Leaves(l, a)
  {
    hide PutBid, BidIndex, Measure, DestinationDifference;
    MeasureKeepsDeal(world, cache, l);
  }

  lemma StaysCompleted(s: State, ids: set<string>, a: Action, id: string)
    requires IndexOf(s.loads, id) < |s.loads| && a != DeleteLoad(id) && (a.AddLoad? ==> a.load.id != id)
    ensures id in StillCompleted(s, ids, a) <==>
            id in ids && !(Target(a) == Some(id) && Leaves(s.loads[IndexOf(s.loads, id)], a))
  {
    hide IndexOf, BidIndex;
  }

  // A load that was there before.
  lemma OldCompletes(world: World, s: State, ids: set<string>, a: Action, j: nat)
    requires Completes(s, ids) && Aligned(s) && !a.FetchLoads? && j < |s.loads|
    requires a != DeleteLoad(s.loads[j].id) && (a.AddLoad? ==> FreshId(s, a.load.id))
    ensures var t, id := Step(world, s, a), s.loads[j].id;
      && IndexOf(t.loads, id) < |t.loads|
      && (t.loads[IndexOf(t.loads, id)].status == Some(COMPLETED) <==> id in StillCompleted(s, ids, a))
  {
    IndexOfOwn(s.loads, j);
    hide Step, Aligned, StillCompleted, IndexOf, Moved, Leaves;
    StepAtId(world, s, a, s.loads[j].id);
    StaysCompleted(s, ids, a, s.loads[j].id);
    MovedCompletes(world, s.cache, s.loads[j], a);
  }

  lemma StepCompletesAt(world: World, s: State, ids: set<string>, a: Action, i: nat)
    requires Completes(s, ids) && Aligned(s) && !a.FetchLoads? && (a.AddLoad? ==> FreshId(s, a.load.id))
    requires i < |Step(world, s, a).loads|
    ensures var l := Step(world, s, a).loads[i];
            l.status == Some(COMPLETED) <==> l.id in StillCompleted(s, ids, a)
  {
    var t := Step(world, s, a);
    var l := t.loads[i];
    assert l in t.loads;
    if a.DeleteLoad? { DroppedIsGone(s.loads, a.id); StepOtherwise(world, s, a); }
    StepOrigin(world, s, a, l);
    hide Step, Aligned, Completes, Moved, FreshId, IndexOf;
    StepAligned(world, s, {}, a);
    IndexOfOwn(t.loads, i);
    if l in s.loads {
      var j :| 0 <= j < |s.loads| && s.loads[j] == l;
      OldCompletes(world, s, ids, a, j);
    } else if !a.AddLoad? {
      var j := IndexOf(s.loads, Target(a).value);
      MovedKeepsId(world, s.cache, s.loads[j], a);
      OldCompletes(world, s, ids, a, j);
    }
  }

  lemma StepCompletes(world: World, s: State, ids: set<string>, a: Action)
    requires Completes(s, ids) && Aligned(s) && (a.AddLoad? ==> FreshId(s, a.load.id))
    ensures Completes(Step(world, s, a), StillCompleted(s, ids, a))
  {
    var t := Step(world, s, a);
    if a.FetchLoads? {
      FetchAligned(world, s, a.now);
      hide Step, Aligned;
      forall i | 0 <= i < |t.loads| ensures t.loads[i].status == Some(COMPLETED) <==> t.loads[i].id in ids {
        assert SameDeal(t.loads[i], s.loads[i]);
      }
    } else {
      hide Step, Aligned, StillCompleted, FreshId;
      forall i | 0 <= i < |t.loads|
        ensures t.loads[i].status == Some(COMPLETED) <==> t.loads[i].id in StillCompleted(s, ids, a)
      {
        StepCompletesAt(world, s, ids, a, i);
      }
    }
  }

  lemma {:induction false} RunCompletes(world: World, s: State, ids: set<string>, actions: seq<Action>)
    requires Completes(s, ids) && Aligned(s) && UniqueIds(world, s, actions)
    ensures Completes(Run(world, s, actions), CompletedIds(world, s, ids, actions))
    decreases |actions|
  {
    hide Step, Aligned, Completes, FreshId, StillCompleted;
    if actions != [] {
      StepCompletes(world, s, ids, actions[0]);
      StepAligned(world, s, {}, actions[0]);
      RunCompletes(world, Step(world, s, actions[0]), StillCompleted(s, ids, actions[0]), actions[1..]);
    }
  }

  lemma RestrictedSales(loads: seq<Load>, visible: seq<Load>, p: Load -> bool, q: Load -> bool)
    requires visible == Where(loads, q) && forall l :: l in loads && p(l) ==> q(l)
    ensures SummaryOf(loads, p) == SummaryOf(visible, p)
    ensures SalesBy(loads, p, Broker) == SalesBy(visible, p, Broker)
    ensures SalesBy(loads, p, WinningBidder) == SalesBy(visible, p, WinningBidder)
  {
    hide Where, Entries, Total, Tally;
    FilterStep(loads, visible, q, p, p);
  }

  /**
   No operation ever sets the status 'completed': after every run, the loads the provider's
   analytics see are those posted with it and neither accepted, answered by the carrier nor
   deleted since, and every aggregation over all loads is the one over those.
   */
  lemma ProviderSeesOnlyPosted(world: World, actions: seq<Action>, region: Option<string>,
                               equipmentType: Option<string>, id: Option<string>, range: Range)
    requires UniqueIds(world, EMPTY, actions)
    ensures var loads, ids := Run(world, EMPTY, actions).loads, CompletedIds(world, EMPTY, {}, actions);
            var visible := Where(loads, (l: Load) => l.id in ids);
      && (forall i :: 0 <= i < |loads| ==> (ShownStatus(loads[i]) == COMPLETED <==> loads[i].id in ids))
      && SummaryOf(loads, OfMarket(region, equipmentType, range)) ==
           SummaryOf(visible, OfMarket(region, equipmentType, range))
      && SalesBy(loads, OfBroker(id, range), Broker) == SalesBy(visible, OfBroker(id, range), Broker)
      && SalesBy(loads, OfCarrier(id, range), WinningBidder) == SalesBy(visible, OfCarrier(id, range), WinningBidder)
  {
    hide Run, UniqueIds, CompletedIds, Where, BidOn, Broker, WinningBidder, SummaryOf, SalesBy;
    EmptyAligned();
    RunCompletes(world, EMPTY, {}, actions);
    var loads, ids := Run(world, EMPTY, actions).loads, CompletedIds(world, EMPTY, {}, actions);
    var q := (l: Load) => l.id in ids;
    forall l | l in loads ensures ShownStatus(l) == COMPLETED <==> q(l) {
      var i :| 0 <= i < |loads| && loads[i] == l;
    }
    RestrictedSales(loads, Where(loads, q), OfMarket(region, equipmentType, range), q);
    RestrictedSales(loads, Where(loads, q), OfBroker(id, range), q);
    RestrictedSales(loads, Where(loads, q), OfCarrier(id, range), q);
  }

  lemma {:induction false} NothingPostedCompleted(world: World, s: State, actions: seq<Action>)
    requires PostsNotCompleted(actions)
    ensures CompletedIds(world, s, {}, actions) == {}
    decreases |actions|
  {
    hide Step;
    if actions != [] {
      assert StillCompleted(s, {}, actions[0]) == {};
      NothingPostedCompleted(world, Step(world, s, actions[0]), actions[1..]);
    }
  }

  ghost predicate PostsNotCompleted(actions: seq<Action>) {
    forall i :: 0 <= i < |actions| && actions[i].AddLoad? ==> actions[i].load.status != Some(COMPLETED)
  }

  /** In particular, from posts that do not carry it, whatever was confirmed, the provider never sees a sale. */
  lemma ProviderNeverSeesASale(world: World, actions: seq<Action>, region: Option<string>,
                               equipmentType: Option<string>, id: Option<string>, range: Range)
    requires UniqueIds(world, EMPTY, actions) && PostsNotCompleted(actions)
    ensures var loads := Run(world, EMPTY, actions).loads;
      && SummaryOf(loads, OfMarket(region, equipmentType, range)) == Summary(0, 0.0, 0.0)
      && SalesBy(loads, OfBroker(id, range), Broker) == map[] == SalesBy(loads, OfCarrier(id, range), WinningBidder)
  {
    hide Run, UniqueIds, CompletedIds;
    ProviderSeesOnlyPosted(world, actions, region, equipmentType, id, range);
    NothingPostedCompleted(world, EMPTY, actions);
    WhereNone(Run(world, EMPTY, actions).loads, (l: Load) => l.id in CompletedIds(world, EMPTY, {}, actions));
  }
}
