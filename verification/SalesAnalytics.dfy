/**
 `AnalyticsProvider`: user analytics, lane rates, market trends, broker sales and carrier
 sales, each computed from the completed loads by a loop of its own.
 */
module SalesAnalytics {
  import opened Text
  import opened LoadPosts
  import opened Tallies
  import opened RateInsights

  // ----- the winning bid -----

  // `bids.reduce((a, b) => a.amount > b.amount ? a : b)`
  function Winner(bids: seq<Quote>): Quote
    requires bids != []
  {
    if |bids| == 1 then bids[0]
    else
      var a, b := Winner(bids[..|bids| - 1]), bids[|bids| - 1];
      if a.amount.Value() > b.amount.Value() then a else b
  }

  /** The winner is one of the bids, none is higher, and of equal ones it is the last. */
  lemma {:induction false} WinnerIsHighest(bids: seq<Quote>) returns (w: nat)
    requires bids != []
    ensures w < |bids| && Winner(bids) == bids[w]
    ensures forall i :: 0 <= i < |bids| ==> bids[i].amount.Value() <= bids[w].amount.Value()
    ensures forall i :: w < i < |bids| ==> bids[i].amount.Value() < bids[w].amount.Value()
  {
    if |bids| == 1 {
      w := 0;
    } else {
      w := WinnerIsHighest(bids[..|bids| - 1]);
      if bids[w].amount.Value() <= bids[|bids| - 1].amount.Value() {
        w := |bids| - 1;
      }
    }
  }

  // ----- which loads count, and for how much -----

  datatype Range = Range(dateFrom: Option<int>, dateTo: Option<int>)

  const ALWAYS := Range(None, None)

  predicate Completed(range: Range, l: Load) {
    && ShownStatus(l) == "completed"
    && (range.dateFrom.Some? ==> l.marks.createdAt > range.dateFrom.value)
    && (range.dateTo.Some? ==> l.marks.createdAt < range.dateTo.value)
  }

  function WinningAmount(l: Load): Option<real> {
    if l.bids == [] then None else Some(Winner(l.bids).amount.Value())
  }

  function WinningBidder(l: Load): string {
    if l.bids == [] then "" else Winner(l.bids).bidder
  }

  function WinningMiles(l: Load): Option<real> {
    if l.bids == [] then None else Some(Miles(l.distance))
  }

  // The amounts of the loads that pass a test.
  function If(p: Load -> bool, amount: Load -> Option<real>): Load -> Option<real> {
    (l: Load) => if p(l) then amount(l) else None
  }

  function BidOn(l: Load, carrierId: string): bool {
    exists i :: 0 <= i < |l.bids| && l.bids[i].bidder == carrierId
  }

  // The filters of the five calculations.
  function OfUser(userId: string): Load -> bool {
    (l: Load) => Broker(l) == userId && ShownStatus(l) == "completed"
  }

  function OfLane(origin: string, destination: string, range: Range): Load -> bool {
    (l: Load) => l.posting.origin == origin && l.posting.destination == destination && Completed(range, l)
  }

  function OfMarket(region: Option<string>, equipmentType: Option<string>, range: Range): Load -> bool {
    (l: Load) =>
      && (region.Some? ==> Contains(l.posting.origin, region.value) || Contains(l.posting.destination, region.value))
      && (equipmentType.Some? ==> l.equipment != [] && l.equipment[0] == equipmentType.value)
      && Completed(range, l)
  }

  function OfBroker(brokerId: Option<string>, range: Range): Load -> bool {
    (l: Load) => (brokerId.Some? ==> Broker(l) == brokerId.value) && Completed(range, l)
  }

  function OfCarrier(carrierId: Option<string>, range: Range): Load -> bool {
    (l: Load) => (carrierId.Some? ==> BidOn(l, carrierId.value)) && Completed(range, l)
  }

  // What the loops over a filtered list add up to.
  function Revenue(loads: seq<Load>, p: Load -> bool): real {
    Total(Entries(Where(loads, p), Broker, WinningAmount))
  }

  function Mileage(loads: seq<Load>, p: Load -> bool): real {
    Total(Entries(Where(loads, p), Broker, WinningMiles))
  }

  function SalesBy(loads: seq<Load>, p: Load -> bool, key: Load -> string): map<string, real> {
    Tally(Entries(Where(loads, p), key, WinningAmount))
  }

  // ----- the aggregations agree -----

  lemma FilterInside(loads: seq<Load>, p: Load -> bool, key: Load -> string)
    ensures Entries(Where(loads, p), key, WinningAmount) == Entries(loads, key, If(p, WinningAmount))
  {
    hide Entries, Where;
    EntriesOfWhere(loads, p, key, WinningAmount, If(p, WinningAmount));
  }

  lemma SameLoads(loads: seq<Load>, p: Load -> bool, q: Load -> bool)
    requires forall l :: l in loads ==> p(l) == q(l)
    ensures Where(loads, p) == Where(loads, q)
  {
    WhereCongruent(loads, p, q);
  }

  /** For one date range and no other filter, market revenue, broker sales and carrier sales add up to the same. */
  lemma TotalsAgree(loads: seq<Load>, range: Range)
    ensures Sum(SalesBy(loads, OfBroker(None, range), Broker)) == Revenue(loads, OfMarket(None, None, range))
    ensures Sum(SalesBy(loads, OfCarrier(None, range), WinningBidder)) == Revenue(loads, OfMarket(None, None, range))
  {
    hide Sum, Tally, Total, Entries, Where, Completed, WinningAmount, WinningBidder, Broker;
    SameLoads(loads, OfBroker(None, range), OfMarket(None, None, range));
    SameLoads(loads, OfCarrier(None, range), OfMarket(None, None, range));
    var relevant := Where(loads, OfMarket(None, None, range));
    TallyConserves(Entries(relevant, Broker, WinningAmount));
    TallyConserves(Entries(relevant, WinningBidder, WinningAmount));
    TotalIgnoresKey(relevant, Broker, WinningBidder, WinningAmount, WinningAmount);
  }

  /** A user's own revenue is that user's entry in the undated broker sales, 0 if there is none. */
  lemma UserRevenueIsBrokerEntry(loads: seq<Load>, userId: string)
    ensures Revenue(loads, OfUser(userId)) == At(SalesBy(loads, OfBroker(None, ALWAYS), Broker), userId)
  {
    hide Tally, Total, Entries, Where, WinningAmount, Broker, ShownStatus;
    var p, q := OfBroker(None, ALWAYS), OfUser(userId);
    FilterInside(loads, p, Broker);
    FilterInside(loads, q, Broker);
    TallyAt(loads, Broker, If(p, WinningAmount), userId);
    TotalIgnoresKey(loads, Broker, Broker, If(q, WinningAmount), OnlyKey(Broker, If(p, WinningAmount), userId));
  }

  lemma WinnerBid(l: Load, carrierId: string)
    requires l.bids != [] && WinningBidder(l) == carrierId
    ensures BidOn(l, carrierId)
  {
    var w := WinnerIsHighest(l.bids);
  }

  /** Filtering carrier sales by a carrier leaves that carrier's own total alone: a winner is among the bidders. */
  lemma CarrierFilterKeepsOwnTotal(loads: seq<Load>, carrierId: string, range: Range)
    ensures At(SalesBy(loads, OfCarrier(Some(carrierId), range), WinningBidder), carrierId)
         == At(SalesBy(loads, OfCarrier(None, range), WinningBidder), carrierId)
  {
    hide Tally, Total, Entries, Where, Completed, BidOn;
    var p, q := OfCarrier(Some(carrierId), range), OfCarrier(None, range);
    FilterInside(loads, p, WinningBidder);
    FilterInside(loads, q, WinningBidder);
    TallyAt(loads, WinningBidder, If(p, WinningAmount), carrierId);
    TallyAt(loads, WinningBidder, If(q, WinningAmount), carrierId);
    var own := OnlyKey(WinningBidder, If(p, WinningAmount), carrierId);
    var own' := OnlyKey(WinningBidder, If(q, WinningAmount), carrierId);
    forall l | l in loads ensures own(l) == own'(l) {
      if l.bids != [] && WinningBidder(l) == carrierId { WinnerBid(l, carrierId); }
    }
    TotalIgnoresKey(loads, WinningBidder, WinningBidder, own, own');
  }

  /** The same for brokers. */
  lemma BrokerFilterKeepsOwnTotal(loads: seq<Load>, brokerId: string, range: Range)
    ensures At(SalesBy(loads, OfBroker(Some(brokerId), range), Broker), brokerId)
         == At(SalesBy(loads, OfBroker(None, range), Broker), brokerId)
  {
    hide Tally, Total, Entries, Where, Completed, Broker, WinningAmount;
    var p, q := OfBroker(Some(brokerId), range), OfBroker(None, range);
    FilterInside(loads, p, Broker);
    FilterInside(loads, q, Broker);
    TallyAt(loads, Broker, If(p, WinningAmount), brokerId);
    TallyAt(loads, Broker, If(q, WinningAmount), brokerId);
    TotalIgnoresKey(loads, Broker, Broker, OnlyKey(Broker, If(p, WinningAmount), brokerId),
                    OnlyKey(Broker, If(q, WinningAmount), brokerId));
  }

  // ----- the provider -----

  datatype Summary = Summary(totalLoads: nat, totalRevenue: real, avgRate: real)

  datatype LaneRate = LaneRate(lane: string, avgRate: real, count: nat)

  function SummaryOf(loads: seq<Load>, p: Load -> bool): Summary {
    var miles := Mileage(loads, p);
    Summary(|Where(loads, p)|, Revenue(loads, p), if miles > 0.0 then Revenue(loads, p) / miles else 0.0)
  }

  function AmountsOf(entries: seq<Entry>): seq<real> {
    seq(|entries|, i requires 0 <= i < |entries| => entries[i].amount)
  }

  // `rates.reduce((a, b) => a + b)`
  function SumOf(rates: seq<real>): real
    requires rates != []
  {
    if |rates| == 1 then rates[0] else SumOf(rates[..|rates| - 1]) + rates[|rates| - 1]
  }

  function Average(lane: string, rates: seq<real>): LaneRate
    requires rates != []
  {
    LaneRate(lane, SumOf(rates) / |rates| as real, |rates|)
  }

  lemma AmountsSnoc(entries: seq<Entry>, e: Entry)
    ensures AmountsOf(entries + [e]) == AmountsOf(entries) + [e.amount]
  {
  }

  lemma {:induction false} AmountsAddUp(entries: seq<Entry>)
    ensures entries != [] ==> SumOf(AmountsOf(entries)) == Total(entries)
    ensures entries != [] ==> SumOf(AmountsOf(entries)) / |entries| as real * |entries| as real == Total(entries)
  {
    if entries != [] {
      var front, e := entries[..|entries| - 1], entries[|entries| - 1];
      assert entries == front + [e];
      AmountsAddUp(front);
      AmountsSnoc(front, e);
      DivideMultiply(Total(entries), |entries| as real);
    }
  }

  // ----- what the filters let through -----

  /** Which loads each calculation takes: completed ones, strictly between the dates, and of whom or where it asks. */
  lemma FiltersExact(l: Load, range: Range, a: Option<string>, b: Option<string>, x: string, y: string)
    ensures OfUser(x)(l) <==> l.posting.postedBy == x && l.status == Some("completed")
    ensures var counts :=
        && l.status == Some("completed")
        && (range.dateFrom.Some? ==> range.dateFrom.value < l.marks.createdAt)
        && (range.dateTo.Some? ==> l.marks.createdAt < range.dateTo.value);
      && (OfLane(x, y, range)(l) <==> counts && l.posting.origin == x && l.posting.destination == y)
      && (OfMarket(a, b, range)(l) <==>
            && counts
            && (a == None || Contains(l.posting.origin, a.value) || Contains(l.posting.destination, a.value))
            && (b == None || (l.equipment != [] && b == Some(l.equipment[0]))))
      && (OfBroker(a, range)(l) <==> counts && (a == None || a == Some(l.posting.postedBy)))
      && (OfCarrier(a, range)(l) <==> counts && (a == None || exists q :: q in l.bids && a == Some(q.bidder)))
  {
    hide Contains;
    if a.Some? && exists q :: q in l.bids && a == Some(q.bidder) {
      var q :| q in l.bids && a == Some(q.bidder);
      var i :| 0 <= i < |l.bids| && l.bids[i] == q;
    }
  }

  // The last of the highest bids.
  ghost predicate Wins(bids: seq<Quote>, w: nat) {
    && w < |bids|
    && (forall i :: 0 <= i < |bids| ==> bids[i].amount.Value() <= bids[w].amount.Value())
    && (forall i :: w < i < |bids| ==> bids[i].amount.Value() < bids[w].amount.Value())
  }

  lemma OneWins(bids: seq<Quote>, w: nat, w': nat)
    requires Wins(bids, w) && Wins(bids, w')
    ensures w == w'
  {
    assert bids[w].amount.Value() <= bids[w'].amount.Value() <= bids[w].amount.Value();
  }

  /** A load without bids counts for nothing, any other for its last highest bid, to that bidder, over its distance. */
  lemma WinningExact(l: Load)
    ensures l.bids == [] ==> WinningAmount(l) == None && WinningMiles(l) == None
    ensures l.bids != [] ==> WinningMiles(l) == Some(Miles(l.distance))
    ensures forall w: nat :: Wins(l.bids, w) ==>
              WinningAmount(l) == Some(l.bids[w].amount.Value()) && WinningBidder(l) == l.bids[w].bidder
  {
    hide Miles;
    forall w: nat | Wins(l.bids, w)
      ensures WinningAmount(l) == Some(l.bids[w].amount.Value()) && WinningBidder(l) == l.bids[w].bidder
    {
      var w' := WinnerIsHighest(l.bids);
      OneWins(l.bids, w, w');
    }
  }

  /** Revenue and miles are sums over the loads that pass; the rate times the miles is the revenue, 0 without miles. */
  lemma SummaryExact(loads: seq<Load>, p: Load -> bool)
    ensures var r, miles := SummaryOf(loads, p), Total(Entries(loads, Lane, If(p, WinningMiles)));
      && r.totalLoads == |Where(loads, p)|
      && r.totalRevenue == Total(Entries(loads, Lane, If(p, WinningAmount)))
      && (miles > 0.0 ==> r.avgRate * miles == r.totalRevenue) && (miles <= 0.0 ==> r.avgRate == 0.0)
  {
    hide Entries, Where, Total, WinningAmount, WinningMiles, Broker;
    EntriesOfWhere(loads, p, Broker, WinningAmount, If(p, WinningAmount));
    EntriesOfWhere(loads, p, Broker, WinningMiles, If(p, WinningMiles));
    TotalIgnoresKey(loads, Broker, Lane, If(p, WinningAmount), If(p, WinningAmount));
    TotalIgnoresKey(loads, Broker, Lane, If(p, WinningMiles), If(p, WinningMiles));
    if Mileage(loads, p) > 0.0 { DivideMultiply(Revenue(loads, p), Mileage(loads, p)); }
  }

  /** The entry of a key in a grouping is the revenue of the loads that pass and have that key. */
  lemma SalesByExact(loads: seq<Load>, p: Load -> bool, key: Load -> string, k: string)
    ensures At(SalesBy(loads, p, key), k) ==
            Total(Entries(loads, Lane, If((l: Load) => p(l) && key(l) == k, WinningAmount)))
  {
    hide Entries, Where, Total, Tally, WinningAmount;
    var both := If((l: Load) => p(l) && key(l) == k, WinningAmount);
    FilterInside(loads, p, key);
    TallyAt(loads, key, If(p, WinningAmount), k);
    TotalIgnoresKey(loads, key, Lane, OnlyKey(key, If(p, WinningAmount), k), both);
  }

  class AnalyticsProvider {
    var allLoads: seq<Load>
    var userAnalytics: Summary
    var laneRates: seq<LaneRate>
    var marketTrends: Summary
    var brokerSales: map<string, real>
    var carrierSales: map<string, real>

    constructor (allLoads: seq<Load>)
      ensures this.allLoads == allLoads
    {
      this.allLoads := allLoads;
      userAnalytics, marketTrends := Summary(0, 0.0, 0.0), Summary(0, 0.0, 0.0);
      laneRates, brokerSales, carrierSales := [], map[], map[];
    }

    // The loop of the user analytics and of the market trends.
    static method Summarise(relevantLoads: seq<Load>) returns (summary: Summary)
      ensures summary.totalLoads == |relevantLoads|
      ensures summary.totalRevenue == Total(Entries(relevantLoads, Broker, WinningAmount))
      ensures var miles := Total(Entries(relevantLoads, Broker, WinningMiles));
              summary.avgRate == if miles > 0.0 then summary.totalRevenue / miles else 0.0
    {
      hide *;
      var totalRevenue, totalMiles := 0.0, 0.0;
      assert relevantLoads[..0] == [];
      NothingTotalled();
      for i := 0 to |relevantLoads|
        invariant totalRevenue == Total(Entries(relevantLoads[..i], Broker, WinningAmount))
        invariant totalMiles == Total(Entries(relevantLoads[..i], Broker, WinningMiles))
      {
        var load := relevantLoads[i];
        assert relevantLoads[..i + 1] == relevantLoads[..i] + [load];
        OneMoreTotalled(relevantLoads[..i], load);
        if load.bids != [] {
          totalRevenue := totalRevenue + Winner(load.bids).amount.Value();
          totalMiles := totalMiles + Miles(load.distance);
        }
      }
      assert relevantLoads[..|relevantLoads|] == relevantLoads;
      summary := Summary(|relevantLoads|, totalRevenue, if totalMiles > 0.0 then totalRevenue / totalMiles else 0.0);
    }

    static lemma OneMoreTotalled(loads: seq<Load>, load: Load)
      ensures Total(Entries(loads + [load], Broker, WinningAmount)) ==
                Total(Entries(loads, Broker, WinningAmount))
                + if load.bids != [] then Winner(load.bids).amount.Value() else 0.0
      ensures Total(Entries(loads + [load], Broker, WinningMiles)) ==
                Total(Entries(loads, Broker, WinningMiles)) + if load.bids != [] then Miles(load.distance) else 0.0
    {
      hide Entries, Total, Broker, Winner, Miles, Tally, Counts;
      EntriesSnoc(loads, load, Broker, WinningAmount);
      EntriesSnoc(loads, load, Broker, WinningMiles);
      if load.bids != [] {
        AfterEntry(loads, load, Broker, WinningAmount);
        AfterEntry(loads, load, Broker, WinningMiles);
      }
    }

    static lemma NothingTotalled()
      ensures Total(Entries([], Broker, WinningAmount)) == 0.0 && Total(Entries([], Broker, WinningMiles)) == 0.0
      ensures Tally(Entries([], Broker, WinningAmount)) == map[] == Tally(Entries([], WinningBidder, WinningAmount))
    {
    }

    method CalculateUserAnalytics(userId: string)
      modifies this`userAnalytics
      ensures userAnalytics == SummaryOf(allLoads, OfUser(userId))
    {
      userAnalytics := Summarise(Where(allLoads, OfUser(userId)));
    }

    method LoadMarketTrends(region: Option<string>, equipmentType: Option<string>, range: Range)
      modifies this`marketTrends
      ensures marketTrends == SummaryOf(allLoads, OfMarket(region, equipmentType, range))
    {
      marketTrends := Summarise(Where(allLoads, OfMarket(region, equipmentType, range)));
    }

    method LoadBrokerSales(brokerId: Option<string>, range: Range)
      modifies this`brokerSales
      ensures brokerSales == SalesBy(allLoads, OfBroker(brokerId, range), Broker)
    {
      hide Entries, Tally, Broker, Add;
      var brokerLoads := Where(allLoads, OfBroker(brokerId, range));
      var brokerSalesMap := map[];
      assert brokerLoads[..0] == [];
      NothingTotalled();
      for i := 0 to |brokerLoads|
        invariant brokerSalesMap == Tally(Entries(brokerLoads[..i], Broker, WinningAmount))
      {
        var load := brokerLoads[i];
        assert brokerLoads[..i + 1] == brokerLoads[..i] + [load];
        MaybeEntry(brokerLoads[..i], load, Broker, WinningAmount);
        if load.bids != [] {
          brokerSalesMap := Add(brokerSalesMap, Broker(load), Winner(load.bids).amount.Value());
        }
      }
      assert brokerLoads[..|brokerLoads|] == brokerLoads;
      brokerSales := brokerSalesMap;
    }

    method LoadCarrierSales(carrierId: Option<string>, range: Range)
      modifies this`carrierSales
      ensures carrierSales == SalesBy(allLoads, OfCarrier(carrierId, range), WinningBidder)
    {
      hide Entries, Tally, Add;
      var carrierLoads := Where(allLoads, OfCarrier(carrierId, range));
      var carrierSalesMap := map[];
      assert carrierLoads[..0] == [];
      NothingTotalled();
      for i := 0 to |carrierLoads|
        invariant carrierSalesMap == Tally(Entries(carrierLoads[..i], WinningBidder, WinningAmount))
      {
        var load := carrierLoads[i];
        assert carrierLoads[..i + 1] == carrierLoads[..i] + [load];
        MaybeEntry(carrierLoads[..i], load, WinningBidder, WinningAmount);
        if load.bids != [] {
          carrierSalesMap := Add(carrierSalesMap, Winner(load.bids).bidder, Winner(load.bids).amount.Value());
        }
      }
      assert carrierLoads[..|carrierLoads|] == carrierLoads;
      carrierSales := carrierSalesMap;
    }

    /** The loads of a lane share one key: there is at most one rate, and average times count is the lane's revenue. */
    method LoadLaneRates(origin: string, destination: string, range: Range)
      modifies this`laneRates
      ensures var bidOn := Entries(Where(allLoads, OfLane(origin, destination, range)), Lane, WinningAmount);
        && (bidOn == [] ==> laneRates == [])
        && (bidOn != [] ==>
              && |laneRates| == 1 && laneRates[0].lane == origin + " → " + destination
              && laneRates[0].count == |bidOn|
              && laneRates[0].avgRate * laneRates[0].count as real == Total(bidOn))
    {
      var laneLoads := Where(allLoads, OfLane(origin, destination, range));
      hide Entries, Where, Total, SumOf;
      forall l | l in laneLoads ensures Lane(l) == origin + " → " + destination { }
      AmountsAddUp(Entries(laneLoads, Lane, WinningAmount));
      var laneRatesMap := CollectRates(laneLoads, origin + " → " + destination);
      laneRates := ListRates(laneRatesMap);
    }

    // `laneRatesMap.entries.map(...).toList()`
    static method ListRates(laneRatesMap: map<string, seq<real>>) returns (listed: seq<LaneRate>)
      requires forall k :: k in laneRatesMap ==> laneRatesMap[k] != []
      ensures |listed| == |laneRatesMap|
      ensures forall i :: 0 <= i < |listed| ==>
                listed[i].lane in laneRatesMap && listed[i] == Average(listed[i].lane, laneRatesMap[listed[i].lane])
    {
      listed := [];
      var lanes := laneRatesMap.Keys;
      while lanes != {}
        invariant lanes <= laneRatesMap.Keys && |listed| + |lanes| == |laneRatesMap.Keys|
        invariant forall i :: 0 <= i < |listed| ==>
                    listed[i].lane in laneRatesMap && listed[i] == Average(listed[i].lane, laneRatesMap[listed[i].lane])
        decreases |lanes|
      {
        var k :| k in lanes;
        listed := listed + [Average(k, laneRatesMap[k])];
        lanes := lanes - {k};
      }
    }

    // The rates of each lane; the filter leaves one lane.
    static method CollectRates(laneLoads: seq<Load>, ghost lane: string) returns (laneRatesMap: map<string, seq<real>>)
      requires forall l :: l in laneLoads ==> Lane(l) == lane
      ensures var rates := AmountsOf(Entries(laneLoads, Lane, WinningAmount));
              laneRatesMap == if rates == [] then map[] else map[lane := rates]
    {
      laneRatesMap := map[];
      assert laneLoads[..0] == [] && Entries(laneLoads[..0], Lane, WinningAmount) == [];
      hide Entries, Lane;
      for i := 0 to |laneLoads|
        invariant var rates := AmountsOf(Entries(laneLoads[..i], Lane, WinningAmount));
                  laneRatesMap == if rates == [] then map[] else map[lane := rates]
      {
        var load := laneLoads[i];
        assert load in laneLoads;
        assert laneLoads[..i + 1] == laneLoads[..i] + [load];
        EntriesSnoc(laneLoads[..i], load, Lane, WinningAmount);
        if load.bids != [] {
          var winning := Winner(load.bids).amount.Value();
          AmountsSnoc(Entries(laneLoads[..i], Lane, WinningAmount), Entry(Lane(load), winning));
          if Lane(load) !in laneRatesMap {
            laneRatesMap := laneRatesMap[Lane(load) := []];
          }
          laneRatesMap := laneRatesMap[Lane(load) := laneRatesMap[Lane(load)] + [winning]];
        }
      }
      assert laneLoads[..|laneLoads|] == laneLoads;
    }
  }
}
