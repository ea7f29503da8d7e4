/**
 Return loads: the load board posts a copy of a load with the ends swapped and no bids, and
 `copyWith` hands over its status, selection and confirmations. What that does to the carrier's
 list and to the analytics screen.
 */
module Returns {
  import opened Text
  import opened Amounts
  import opened LoadPosts
  import opened Distances
  import opened Negotiation
  import opened Reloading
  import opened Selections
  import opened SelectionRuns
  import opened Tallies
  import opened RateInsights
  import opened Agreement

  /** A return load of a load with a selection selects somebody who has not bid. */
  lemma ReturnNamesNobody(l: Load, now: int)
    ensures Names(ReturnOf(l, now)) <==> l.selectedBidId.None?
    ensures DistinctBidders(ReturnOf(l, now).bids)
  {
  }

  // The state after posting the return load of the load at `i`, and after the reload that follows.
  function Returned(world: World, s: State, i: nat, now: int): State
    requires i < |s.loads|
  {
    Step(world, s, AddLoad(ReturnOf(s.loads[i], now)))
  }

  lemma ReturnIsLast(world: World, s: State, i: nat, now: int)
    requires Aligned(s) && FreshId(s, "") && i < |s.loads|
    ensures var t := Returned(world, s, i, now);
      && Aligned(t) && BidsAlignedAt(t, |s.loads|) && t.loads == s.loads + [ReturnOf(s.loads[i], now)]
  {
    var post := ReturnOf(s.loads[i], now);
    hide Step, Mirrors, DistinctIds, ToRow, FreshId;
    StepOtherwise(world, s, AddLoad(post));
    StepAligned(world, s, {}, AddLoad(post));
    OtherRows(world, s, AddLoad(post));
    ToRowMirrors(post);
  }

  // The bids column of one load, written whole.
  ghost predicate BidsAlignedAt(s: State, i: nat) {
    i < |s.loads| && i < |s.rows| && BidsMirror(s.loads[i], s.rows[i], false)
  }

  lemma ReloadedReturn(world: World, s: State, i: nat, now: int, later: int)
    requires Aligned(s) && FreshId(s, "") && i < |s.loads|
    ensures var n, u := |s.loads|, Step(world, Returned(world, s, i, now), FetchLoads(later));
      && |u.loads| == n + 1 && SameDeal(u.loads[n], ReturnOf(s.loads[i], now)) && u.loads[n].bids == [UNKNOWN]
  {
    hide Step, Aligned, BidsAligned, SameDeal, DecodeBids, AfterReload, FreshId, Returned;
    var t := Returned(world, s, i, now);
    ReturnIsLast(world, s, i, now);
    FetchAligned(world, t, later);
    UnknownOnly(false, "");
  }

  /**
   The return load of a confirmed load, selected by anyone but 'Unknown', whatever run led there:
   at once it is confirmed and not sold. After the reload it is sold as well, at 0 through the
   fallback, to the 'Unknown' bid that no bids read back as; its selection names nobody.
   */
  lemma ConfirmedReturnIsSoldForNothing(world: World, s: State, i: nat, now: int, later: int)
    requires Aligned(s) && FreshId(s, "") && i < |s.loads|
    requires Lifecycle(s.loads[i]) && IsConfirmed(s.loads[i]) && s.loads[i].selectedBidId != Some(UNKNOWN.bidder)
    ensures var n, t := |s.loads|, Returned(world, s, i, now);
            var u := Step(world, t, FetchLoads(later));
      && |t.loads| == |u.loads| == n + 1
      && IsConfirmed(t.loads[n]) && !Sold(t.loads[n])
      && IsConfirmed(u.loads[n]) && Sold(u.loads[n]) && !Selection(u.loads[n]) && !PricedByBidder(u.loads[n])
      && SelectedBid(u.loads[n]) == UNKNOWN && SalePrice(u.loads[n]) == Some(0.0)
  {
    var n, t := |s.loads|, Returned(world, s, i, now);
    var u := Step(world, t, FetchLoads(later));
    PostsLive(s.loads[i], now);
    ReturnIsLast(world, s, i, now);
    ReloadedReturn(world, s, i, now, later);
    hide Step, Aligned, FreshId, Returned;
    UnknownSale(u.loads[n]);
  }

  lemma UnknownSale(l: Load)
    requires l.bids == [UNKNOWN] && l.selectedBidId.Some? && l.selectedBidId != Some(UNKNOWN.bidder)
    requires l.brokerConfirmed && l.carrierConfirmed
    ensures Sold(l) && !Selection(l) && !PricedByBidder(l)
    ensures SelectedBid(l) == UNKNOWN && SalePrice(l) == Some(0.0)
  {
    UnknownNamesNobody(l);
    ZeroValue();
    hide Names, DistinctBidders, PricedByBidder, FirstPick, AcceptedBids;
    SelectionIsNames(l);
    PricedExact(l);
    UnknownIsPicked(l.selectedBidId);
  }

  lemma UnknownNamesNobody(l: Load)
    requires l.bids == [UNKNOWN] && l.selectedBidId.Some? && l.selectedBidId != Some(UNKNOWN.bidder)
    ensures !Names(l)
  {
    hide BidIndex;
  }

  lemma UnknownIsPicked(selected: Option<string>)
    requires selected.Some? && selected != Some(UNKNOWN.bidder)
    ensures FirstPick([UNKNOWN], selected) == 1 && AcceptedBids([UNKNOWN]) == []
  {
    WhereNone([UNKNOWN], (b: Quote) => b.status == "accepted");
    hide Where, FirstPick;
    assert !Picked(selected, UNKNOWN);
  }

  lemma ZeroValue()
    ensures ZERO.Value() == 0.0
  {
    assert Pow10(1) == 10;
  }

  /**
   The return load of a load that awaits its carrier stays on that carrier's list, before and after
   the reload, and confirming it notifies an accepted amount of 0.
   */
  lemma AwaitingReturnStaysListed(world: World, s: State, i: nat, carrier: string, now: int, later: int)
    requires Aligned(s) && FreshId(s, "") && i < |s.loads| && ListedFor(s.loads[i], carrier)
    ensures var n, t := |s.loads|, Returned(world, s, i, now);
            var u := Step(world, t, FetchLoads(later));
      && |t.loads| == |u.loads| == n + 1
      && ListedFor(t.loads[n], carrier) && AcceptedAmount(t.loads[n].bids, t.loads[n].selectedBidId) == ZERO
      && ListedFor(u.loads[n], carrier) && AcceptedAmount(u.loads[n].bids, u.loads[n].selectedBidId) == ZERO
  {
    ReturnIsLast(world, s, i, now);
    ReloadedReturn(world, s, i, now, later);
    hide Step, Aligned, FreshId, Returned;
    assert [UNKNOWN][1..] == [];
  }
}
