/**
 What each operation does, said outright: which load and which bid change, into what, and what
 stays as it was. And how long that lasts: the last answer to a bidder is the one the bid shows,
 and a declined load stays off every list until one of its bids is accepted.
 */
module Effects {
  import opened Text
  import opened Amounts
  import opened LoadPosts
  import opened Distances
  import opened Negotiation
  import opened Reloading
  import opened Selections
  import opened Outcomes
  import opened RateInsights

  // ----- finding -----

  // The load at `i` is the first one under `id`.
  ghost predicate FirstUnder(loads: seq<Load>, id: string, i: nat) {
    i < |loads| && loads[i].id == id && forall j :: 0 <= j < i ==> loads[j].id != id
  }

  // The bid at `k` is the first one by `bidder`.
  ghost predicate FirstBy(bids: seq<Quote>, bidder: string, k: nat) {
    k < |bids| && bids[k].bidder == bidder && forall j :: 0 <= j < k ==> bids[j].bidder != bidder
  }

  lemma FoundUnder(loads: seq<Load>, id: string, i: nat)
    ensures FirstUnder(loads, id, i) <==> i < |loads| && IndexOf(loads, id) == i
  {
  }

  lemma FoundBy(bids: seq<Quote>, bidder: string, k: nat)
    ensures FirstBy(bids, bidder, k) <==> k < |bids| && BidIndex(bids, bidder) == k
  {
  }

  // Of all loads, at most the one at `i` changed.
  ghost predicate OnlyLoadAt(loads: seq<Load>, loads': seq<Load>, i: nat) {
    |loads'| == |loads| && forall j :: 0 <= j < |loads| && j != i ==> loads'[j] == loads[j]
  }

  // `m` is `l` with other bids, status, selection and flags, and with everything `copyWith` drops dropped.
  ghost predicate CopyOf(m: Load, l: Load, now: int) {
    && m.id == l.id && m.posting == l.posting && m.equipment == l.equipment
    && m.pickup == l.pickup && m.drop == l.drop && m.contact == l.contact
    && m.distance == None && m.difference == None
    && m.marks.isActive && m.marks.volume == 0 && !m.marks.isBroken && !m.marks.isBooked && !m.marks.appointment
    && m.marks.createdAt == now && m.marks.pickupTime == None && m.marks.deliveryTime == None
    && m.marks.origin == m.marks.destination == Address(None, None, None, None, None)
  }

  // ----- bids -----

  /**
   A bid goes to the first load under the id: it takes the place of every earlier bid by that
   bidder, at the end of the list, and nothing else changes.
   */
  lemma AddBidEffect(world: World, s: State, id: string, quote: Quote, i: nat)
    requires FirstUnder(s.loads, id, i)
    ensures var t := Step(world, s, AddBid(id, quote));
      && OnlyLoadAt(s.loads, t.loads, i) && t.cache == s.cache && t.notices == s.notices
      && t.loads[i] == s.loads[i].(bids := Where(s.loads[i].bids, (b: Quote) => b.bidder != quote.bidder) + [quote])
  {
    FoundUnder(s.loads, id, i);
    hide IndexOf, PatchBids, EncodeBidsShort;
  }

  /**
   An answer goes to the first bid by that bidder: it gets the status answered, keeps its bidder and
   amount, and gets the counter offer if there is one, else keeps its own. No other bid changes, and
   no other load. Only 'accepted' moves the load, to that bidder and to awaiting the carrier.
   */
  lemma AnswerEffect(world: World, s: State, id: string, bidder: string, status: string, counter: Option<Amount>,
                     now: int, i: nat, k: nat)
    requires FirstUnder(s.loads, id, i) && FirstBy(s.loads[i].bids, bidder, k)
    ensures var t := Step(world, s, UpdateBidStatus(id, bidder, status, counter, now));
      && OnlyLoadAt(s.loads, t.loads, i) && t.cache == s.cache && t.notices == s.notices
      && var l, m := s.loads[i], t.loads[i];
      && |m.bids| == |l.bids| && (forall j :: 0 <= j < |l.bids| && j != k ==> m.bids[j] == l.bids[j])
      && m.bids[k].bidder == bidder && m.bids[k].amount == l.bids[k].amount && m.bids[k].status == status
      && m.bids[k].counter == (if counter.Some? then counter else l.bids[k].counter)
      && (status != "accepted" ==> m == l.(bids := m.bids))
      && (status == "accepted" ==>
            && CopyOf(m, l, now) && m.status == Some("awaiting_carrier_confirmation")
            && m.selectedBidId == Some(bidder) && m.brokerConfirmed && !m.carrierConfirmed)
  {
    FoundUnder(s.loads, id, i);
    FoundBy(s.loads[i].bids, bidder, k);
    hide IndexOf, BidIndex, ReplaceRow, PatchBids, EncodeBidsShort, ToRow, Answered, CopyOf;
    AnsweredMeans(s.loads[i], k, status, counter, now);
  }

  lemma AnsweredMeans(l: Load, k: nat, status: string, counter: Option<Amount>, now: int)
    requires k < |l.bids|
    ensures var m := Answered(l, k, status, counter, now);
      && |m.bids| == |l.bids| && (forall j :: 0 <= j < |l.bids| && j != k ==> m.bids[j] == l.bids[j])
      && m.bids[k].bidder == l.bids[k].bidder && m.bids[k].amount == l.bids[k].amount && m.bids[k].status == status
      && m.bids[k].counter == (if counter.Some? then counter else l.bids[k].counter)
      && (status != "accepted" ==> m == l.(bids := m.bids))
      && (status == "accepted" ==>
            && CopyOf(m, l, now) && m.status == Some("awaiting_carrier_confirmation")
            && m.selectedBidId == Some(l.bids[k].bidder) && m.brokerConfirmed && !m.carrierConfirmed)
  {
  }

  // ----- the carrier's answer -----

  // The amount of the first bid by `selected` that is accepted, 0 if there is none.
  ghost predicate NotifiedAmount(bids: seq<Quote>, selected: Option<string>, amount: Amount) {
    if exists k :: 0 <= k < |bids| && Some(bids[k].bidder) == selected && bids[k].status == "accepted"
    then exists k :: 0 <= k < |bids| && Some(bids[k].bidder) == selected && bids[k].status == "accepted"
           && bids[k].amount == amount
           && forall j :: 0 <= j < k ==> !(Some(bids[j].bidder) == selected && bids[j].status == "accepted")
    else amount == Decimal(false, 0, 1)
  }

  lemma {:induction false} AmountIsNotified(bids: seq<Quote>, selected: Option<string>)
    ensures NotifiedAmount(bids, selected, AcceptedAmount(bids, selected))
  {
    if bids != [] && !(Some(bids[0].bidder) == selected && bids[0].status == "accepted") {
      AmountIsNotified(bids[1..], selected);
      assert forall k :: 0 < k < |bids| ==> bids[k] == bids[1..][k - 1];
      assert forall k :: 0 <= k < |bids| - 1 ==> bids[1..][k] == bids[k + 1];
    }
  }

  /** Confirming confirms for the carrier, keeps the broker's flag, selection and bids, and tells the broker. */
  lemma ConfirmEffect(world: World, s: State, id: string, now: int, i: nat)
    requires FirstUnder(s.loads, id, i)
    ensures var t := Step(world, s, ConfirmLoad(id, now));
      && OnlyLoadAt(s.loads, t.loads, i) && t.cache == s.cache
      && var l, m := s.loads[i], t.loads[i];
      && CopyOf(m, l, now) && m.status == Some("confirmed") && m.carrierConfirmed
      && m.brokerConfirmed == l.brokerConfirmed && m.selectedBidId == l.selectedBidId && m.bids == l.bids
      && exists amount ::
           && NotifiedAmount(l.bids, l.selectedBidId, amount)
           && t.notices == s.notices + [LoadConfirmed(id, l.posting.postedBy,
                if l.selectedBidId.Some? then l.selectedBidId.value else "Carrier", amount)]
  {
    FoundUnder(s.loads, id, i);
    AmountIsNotified(s.loads[i].bids, s.loads[i].selectedBidId);
    hide IndexOf, ReplaceRow, ToRow, AcceptedAmount, NotifiedAmount;
  }

  /** Declining takes both confirmations back, keeps selection and bids, and tells the broker. */
  lemma DeclineEffect(world: World, s: State, id: string, now: int, i: nat)
    requires FirstUnder(s.loads, id, i)
    ensures var t := Step(world, s, DeclineLoad(id, now));
      && OnlyLoadAt(s.loads, t.loads, i) && t.cache == s.cache
      && var l, m := s.loads[i], t.loads[i];
      && CopyOf(m, l, now) && m.status == Some("declined_by_carrier") && !m.carrierConfirmed && !m.brokerConfirmed
      && m.selectedBidId == l.selectedBidId && m.bids == l.bids
      && exists amount ::
           && NotifiedAmount(l.bids, l.selectedBidId, amount)
           && t.notices == s.notices + [LoadDeclined(id, l.posting.postedBy,
                if l.selectedBidId.Some? then l.selectedBidId.value else "Carrier", amount)]
  {
    FoundUnder(s.loads, id, i);
    AmountIsNotified(s.loads[i].bids, s.loads[i].selectedBidId);
    hide IndexOf, ReplaceRow, ToRow, AcceptedAmount, NotifiedAmount;
  }

  // ----- the rest -----

  /** What finds no load under its id, or no bid by its bidder, changes nothing at all. */
  lemma NothingFound(world: World, s: State, a: Action)
    requires Target(a).Some? && !a.DeleteLoad?
    requires || (forall l :: l in s.loads ==> l.id != Target(a).value)
             || (&& a.UpdateBidStatus?
                 && forall i: nat, b :: FirstUnder(s.loads, a.id, i) && b in s.loads[i].bids ==> b.bidder != a.bidder)
    ensures Step(world, s, a) == s
  {
    var i := IndexOf(s.loads, Target(a).value);
    FoundUnder(s.loads, Target(a).value, i);
    hide IndexOf, BidIndex, PutBid, ReplaceRow, PatchBids, EncodeBidsShort, ToRow, MeasureAt, PairDistance,
      AcceptedAmount;
    if i < |s.loads| {
      assert s.loads[i] in s.loads;
      assert a.UpdateBidStatus?;
    }
  }

  /** A deletion removes every load under the id and its cache entry; the others stay, in order. */
  lemma DeleteEffect(world: World, s: State, id: string)
    ensures var t := Step(world, s, DeleteLoad(id));
      && t.loads == Where(s.loads, (l: Load) => l.id != id) && t.rows == Where(s.rows, (r: Row) => r.id != id)
      && t.notices == s.notices && id !in t.cache
      && forall key :: key != id ==>
           (key in t.cache <==> key in s.cache) && (key in t.cache ==> t.cache[key] == s.cache[key])
  {
  }

  // ----- how long an answer lasts -----

  // The load found under `id` shows `quote` as the first bid by its bidder.
  ghost predicate ShowsBid(s: State, id: string, quote: Quote) {
    exists i: nat, k: nat ::
      FirstUnder(s.loads, id, i) && FirstBy(s.loads[i].bids, quote.bidder, k) && s.loads[i].bids[k] == quote
  }

  // No bid and no answer by that name on that load, which is not deleted; a reload when the row was written whole.
  predicate LeavesBid(a: Action, partial: set<string>, id: string, bidder: string) {
    match a
    case AddBid(i, quote) => i != id || quote.bidder != bidder
    case UpdateBidStatus(i, b, _, _, _) => i != id || b != bidder
    case DeleteLoad(i) => i != id
    case FetchLoads(_) => id !in partial
    case _ => true
  }

  predicate LeavesBidThrough(world: World, s: State, partial: set<string>, actions: seq<Action>,
                             id: string, bidder: string)
    decreases |actions|
  {
    actions != [] ==>
      && LeavesBid(actions[0], partial, id, bidder)
      && LeavesBidThrough(world, Step(world, s, actions[0]), Track(world, s, partial, actions[0]), actions[1..],
                          id, bidder)
  }

  // The same with the functions that search.
  ghost predicate BidIs(l: Load, quote: Quote) {
    var k := BidIndex(l.bids, quote.bidder); k < |l.bids| && l.bids[k] == quote
  }

  lemma ShowsBidIs(s: State, id: string, quote: Quote)
    ensures ShowsBid(s, id, quote) <==>
            IndexOf(s.loads, id) < |s.loads| && BidIs(s.loads[IndexOf(s.loads, id)], quote)
  {
    var i := IndexOf(s.loads, id);
    FoundUnder(s.loads, id, i);
    hide IndexOf, BidIndex, FirstUnder;
    if i < |s.loads| && BidIs(s.loads[i], quote) {
      FoundBy(s.loads[i].bids, quote.bidder, BidIndex(s.loads[i].bids, quote.bidder));
    }
    if i': nat, k: nat :|
      FirstUnder(s.loads, id, i') && FirstBy(s.loads[i'].bids, quote.bidder, k) && s.loads[i'].bids[k] == quote
    {
      FoundUnder(s.loads, id, i');
      FoundBy(s.loads[i'].bids, quote.bidder, k);
    }
  }

  lemma AnsweredLeavesBid(l: Load, k: nat, status: string, counter: Option<Amount>, now: int, quote: Quote)
    requires BidIs(l, quote) && k < |l.bids| && l.bids[k].bidder != quote.bidder
    ensures BidIs(Answered(l, k, status, counter, now), quote)
  {
    hide Answered, BidIndex, CopyOf;
    AnsweredMeans(l, k, status, counter, now);
    var m := Answered(l, k, status, counter, now);
    assert forall j :: 0 <= j < |l.bids| ==> m.bids[j].bidder == l.bids[j].bidder;
    SameBiddersSelection(l.bids, m.bids, quote.bidder);
  }

  lemma MovedLeavesBid(world: World, cache: Cache, l: Load, a: Action, quote: Quote)
    requires BidIs(l, quote) && Target(a) == Some(l.id) && LeavesBid(a, {}, l.id, quote.bidder)
    ensures BidIs(Moved(world, cache, l, a), quote)
  {
    hide PutBid, Measure, DestinationDifference, Answered, BidIndex;
    MeasureKeepsDeal(world, cache, l);
    match a
    case AddBid(_, other) => FirstBidStays(l.bids, other, quote.bidder);
    case UpdateBidStatus(_, b, status, counter, now) =>
      var k := BidIndex(l.bids, b);
      if k < |l.bids| { AnsweredLeavesBid(l, k, status, counter, now, quote); }
    case _ =>
  }

  lemma StepLeavesBid(world: World, s: State, partial: set<string>, a: Action, id: string, quote: Quote)
    requires ShowsBid(s, id, quote) && LeavesBid(a, partial, id, quote.bidder)
    requires a.FetchLoads? ==> Aligned(s) && BidsAligned(s, partial) && CleanUnder(s, id)
    ensures ShowsBid(Step(world, s, a), id, quote)
  {
    ShowsBidIs(s, id, quote);
    ShowsBidIs(Step(world, s, a), id, quote);
    hide Step, IndexOf, Moved, BidIs, ShowsBid, Aligned, BidsAligned, AfterReload, CleanBids;
    if a.FetchLoads? {
      FetchAtId(world, s, partial, a.now, id);
      AfterReloadClean(s.loads[IndexOf(s.loads, id)].bids, false);
      SameBidIs(s.loads[IndexOf(s.loads, id)], Step(world, s, a).loads[IndexOf(s.loads, id)], quote);
    } else {
      StepAtId(world, s, a, id);
      if Target(a) == Some(id) { MovedLeavesBid(world, s.cache, s.loads[IndexOf(s.loads, id)], a, quote); }
    }
  }

  lemma SameBidIs(l: Load, m: Load, quote: Quote)
    requires BidIs(l, quote) && m.bids == if l.bids == [] then [UNKNOWN] else l.bids
    ensures BidIs(m, quote)
  {
  }

  lemma {:induction false} RunLeavesBid(world: World, s: State, partial: set<string>, actions: seq<Action>,
                                        id: string, quote: Quote)
    requires ShowsBid(s, id, quote) && LeavesBidThrough(world, s, partial, actions, id, quote.bidder)
    requires NoFetch(actions) ||
             (&& Aligned(s) && BidsAligned(s, partial) && UniqueIds(world, s, actions)
              && CleanUnder(s, id) && CleanFor(actions, id))
    ensures ShowsBid(Run(world, s, actions), id, quote)
    decreases |actions|
  {
    hide Step, Aligned, BidsAligned, CleanUnder, FreshId, CleanAction, Track, ShowsBid;
    if actions != [] {
      var a := actions[0];
      StepLeavesBid(world, s, partial, a, id, quote);
      if !NoFetch(actions) {
        StepAligned(world, s, partial, a);
        StepCleanUnder(world, s, a, id);
      }
      RunLeavesBid(world, Step(world, s, a), Track(world, s, partial, a), actions[1..], id, quote);
    }
  }

  /**
   The last answer to a bidder is the one the bid shows: through every run after it, until the next
   bid or answer by that name on that load, its deletion, or a reload of a row that `updateLoadBids`
   wrote last. The answer itself writes the row whole, so reloading at once is among those runs.
   Reloads ask that the strings of this load hold no separator.
   */
  lemma LastAnswerShows(world: World, s: State, partial: set<string>, id: string, bidder: string, status: string,
                        counter: Option<Amount>, now: int, i: nat, k: nat, later: seq<Action>)
    requires FirstUnder(s.loads, id, i) && FirstBy(s.loads[i].bids, bidder, k)
    requires var a := UpdateBidStatus(id, bidder, status, counter, now);
      && LeavesBidThrough(world, Step(world, s, a), Track(world, s, partial, a), later, id, bidder)
      && (NoFetch(later) || (&& Aligned(s) && BidsAligned(s, partial) && UniqueIds(world, Step(world, s, a), later)
                             && CleanUnder(s, id) && CleanAction(a, id) && CleanFor(later, id)))
    ensures var t := Run(world, Step(world, s, UpdateBidStatus(id, bidder, status, counter, now)), later);
            ShowsBid(t, id, Quote(bidder, s.loads[i].bids[k].amount, status,
                                  if counter.Some? then counter else s.loads[i].bids[k].counter))
  {
    var a := UpdateBidStatus(id, bidder, status, counter, now);
    var quote := Quote(bidder, s.loads[i].bids[k].amount, status,
                       if counter.Some? then counter else s.loads[i].bids[k].counter);
    AnswerShows(world, s, id, bidder, status, counter, now, i, k, quote);
    hide Step, Aligned, BidsAligned, CleanUnder, CleanAction, Track, ShowsBid, LeavesBidThrough, UniqueIds, Run;
    if !NoFetch(later) {
      StepAligned(world, s, partial, a);
      StepCleanUnder(world, s, a, id);
    }
    RunLeavesBid(world, Step(world, s, a), Track(world, s, partial, a), later, id, quote);
  }

  lemma AnswerShows(world: World, s: State, id: string, bidder: string, status: string, counter: Option<Amount>,
                    now: int, i: nat, k: nat, quote: Quote)
    requires FirstUnder(s.loads, id, i) && FirstBy(s.loads[i].bids, bidder, k)
    requires quote == Quote(bidder, s.loads[i].bids[k].amount, status,
                            if counter.Some? then counter else s.loads[i].bids[k].counter)
    ensures ShowsBid(Step(world, s, UpdateBidStatus(id, bidder, status, counter, now)), id, quote)
  {
    hide Step;
    AnswerEffect(world, s, id, bidder, status, counter, now, i, k);
    var t := Step(world, s, UpdateBidStatus(id, bidder, status, counter, now));
    assert FirstUnder(t.loads, id, i) && FirstBy(t.loads[i].bids, bidder, k) by {
      assert status != "accepted" ==> t.loads[i].id == s.loads[i].id;
    }
    assert t.loads[i].bids[k] == quote;
  }

  // ----- how long an acceptance or a refusal lasts -----

  /**
   The awaiting list of a carrier holds, in order, exactly the loads with that status, confirmed by
   the broker and not by the carrier, that select that carrier.
   */
  lemma AwaitingListExact(loads: seq<Load>, carrier: string)
    ensures Subsequence(AwaitingLoads(loads, carrier), loads)
    ensures forall l :: l in AwaitingLoads(loads, carrier) <==>
              && l in loads && l.status == Some("awaiting_carrier_confirmation") && l.selectedBidId == Some(carrier)
              && l.brokerConfirmed && !l.carrierConfirmed
  {
    WhereNarrows(loads, (l: Load) => ListedFor(l, carrier), (l: Load) => true);
    WhereAll(loads, (l: Load) => true);
  }

  // Neither a bid on `id` is accepted, nor does the carrier answer, nor is it deleted.
  predicate Unsettled(a: Action, id: string) {
    match a
    case UpdateBidStatus(i, _, status, _, _) => i != id || status != "accepted"
    case ConfirmLoad(i, _) => i != id
    case DeclineLoad(i, _) => i != id
    case DeleteLoad(i) => i != id
    case _ => true
  }

  // Status, selection and flags of the load found under `id` are these.
  ghost predicate Stands(s: State, id: string, status: Option<string>, selected: Option<string>,
                         broker: bool, carrier: bool)
  {
    var i := IndexOf(s.loads, id);
    && i < |s.loads| && s.loads[i].status == status && s.loads[i].selectedBidId == selected
    && s.loads[i].brokerConfirmed == broker && s.loads[i].carrierConfirmed == carrier
  }

  lemma StepStands(world: World, s: State, a: Action, id: string, status: Option<string>, selected: Option<string>,
                   broker: bool, carrier: bool)
    requires Stands(s, id, status, selected, broker, carrier) && Unsettled(a, id) && (a.FetchLoads? ==> Aligned(s))
    ensures Stands(Step(world, s, a), id, status, selected, broker, carrier)
  {
    hide Step, IndexOf, Aligned, PutBid, Measure, DestinationDifference, BidIndex;
    if a.FetchLoads? {
      FetchKeepsIndex(world, s, a.now, id);
      FetchAligned(world, s, a.now);
      assert SameDeal(Step(world, s, a).loads[IndexOf(s.loads, id)], s.loads[IndexOf(s.loads, id)]);
    } else {
      StepAtId(world, s, a, id);
      MeasureKeepsDeal(world, s.cache, s.loads[IndexOf(s.loads, id)]);
    }
  }

  lemma StandsUnder(s: State, id: string, i: nat)
    requires FirstUnder(s.loads, id, i)
    ensures var l := s.loads[i]; Stands(s, id, l.status, l.selectedBidId, l.brokerConfirmed, l.carrierConfirmed)
  {
    FoundUnder(s.loads, id, i);
  }

  // No bid on `id` is accepted and it is not deleted; whether the carrier answers is left to the guard.
  predicate NotAccepted(a: Action, id: string) {
    !(a.UpdateBidStatus? && a.id == id && a.status == "accepted") && a != DeleteLoad(id)
  }

  const DECLINED := Some("declined_by_carrier")

  lemma {:induction false} RunStaysDeclined(world: World, s: State, actions: seq<Action>, id: string,
                                            selected: Option<string>)
    requires Stands(s, id, DECLINED, selected, false, false) && GuardedRun(world, s, actions)
    requires forall j :: 0 <= j < |actions| ==> NotAccepted(actions[j], id)
    requires NoFetch(actions) || (Aligned(s) && UniqueIds(world, s, actions))
    ensures Stands(Run(world, s, actions), id, DECLINED, selected, false, false)
    decreases |actions|
  {
    hide Step, Aligned, FreshId, IndexOf;
    if actions != [] {
      var a := actions[0];
      assert NotAccepted(a, id) && Unsettled(a, id);
      hide Stands;
      StepStands(world, s, a, id, DECLINED, selected, false, false);
      if !NoFetch(actions) { StepAligned(world, s, {}, a); }
      RunStaysDeclined(world, Step(world, s, a), actions[1..], id, selected);
    }
  }

  /**
   A declined load is on nobody's awaiting list and is not sold, keeps the selection it had, and
   stays so through every guarded run until a bid on it is accepted or it is deleted.
   */
  lemma DeclinedStays(world: World, s: State, id: string, now: int, i: nat, later: seq<Action>)
    requires FirstUnder(s.loads, id, i) && forall j :: 0 <= j < |later| ==> NotAccepted(later[j], id)
    requires GuardedRun(world, Step(world, s, DeclineLoad(id, now)), later)
    requires NoFetch(later) || (Aligned(s) && UniqueIds(world, Step(world, s, DeclineLoad(id, now)), later))
    ensures var t := Run(world, Step(world, s, DeclineLoad(id, now)), later);
      exists k: nat ::
        && FirstUnder(t.loads, id, k) && t.loads[k].status == Some("declined_by_carrier")
        && !t.loads[k].brokerConfirmed && !t.loads[k].carrierConfirmed
        && t.loads[k].selectedBidId == s.loads[i].selectedBidId
        && !Sold(t.loads[k]) && forall carrier :: t.loads[k] !in AwaitingLoads(t.loads, carrier)
  {
    var a, selected := DeclineLoad(id, now), s.loads[i].selectedBidId;
    var u := Step(world, s, a);
    var t := Run(world, u, later);
    hide Step, Run, Aligned, UniqueIds, GuardedRun, AwaitingLoads, IndexOf;
    DeclineEffect(world, s, id, now, i);
    assert FirstUnder(u.loads, id, i);
    StandsUnder(u, id, i);
    if !NoFetch(later) { StepAligned(world, s, {}, a); }
    RunStaysDeclined(world, u, later, id, selected);
    var k := IndexOf(t.loads, id);
    FoundUnder(t.loads, id, k);
    forall carrier ensures t.loads[k] !in AwaitingLoads(t.loads, carrier) { AwaitingListExact(t.loads, carrier); }
  }

  lemma {:induction false} RunStands(world: World, s: State, actions: seq<Action>, id: string, status: Option<string>,
                                     selected: Option<string>, broker: bool, carrier: bool)
    requires Stands(s, id, status, selected, broker, carrier)
    requires forall j :: 0 <= j < |actions| ==> Unsettled(actions[j], id)
    requires NoFetch(actions) || (Aligned(s) && UniqueIds(world, s, actions))
    ensures Stands(Run(world, s, actions), id, status, selected, broker, carrier)
    decreases |actions|
  {
    hide Step, Aligned, FreshId, Stands;
    if actions != [] {
      var a := actions[0];
      assert Unsettled(a, id);
      StepStands(world, s, a, id, status, selected, broker, carrier);
      if !NoFetch(actions) { StepAligned(world, s, {}, a); }
      RunStands(world, Step(world, s, a), actions[1..], id, status, selected, broker, carrier);
    }
  }

  /**
   An accepted load is on the awaiting list of the accepted bidder and on nobody else's, through
   every run until another bid on it is accepted, the carrier answers, or it is deleted.
   */
  lemma AcceptedStaysListed(world: World, s: State, id: string, bidder: string, counter: Option<Amount>, now: int,
                            i: nat, k: nat, later: seq<Action>)
    requires FirstUnder(s.loads, id, i) && FirstBy(s.loads[i].bids, bidder, k)
    requires forall j :: 0 <= j < |later| ==> Unsettled(later[j], id)
    requires var u := Step(world, s, UpdateBidStatus(id, bidder, "accepted", counter, now));
             NoFetch(later) || (Aligned(s) && UniqueIds(world, u, later))
    ensures var t := Run(world, Step(world, s, UpdateBidStatus(id, bidder, "accepted", counter, now)), later);
      exists j: nat :: FirstUnder(t.loads, id, j)
        && forall carrier :: t.loads[j] in AwaitingLoads(t.loads, carrier) <==> carrier == bidder
  {
    var a := UpdateBidStatus(id, bidder, "accepted", counter, now);
    var u := Step(world, s, a);
    var t := Run(world, u, later);
    hide Step, Run, Aligned, UniqueIds, AwaitingLoads, IndexOf;
    AnswerEffect(world, s, id, bidder, "accepted", counter, now, i, k);
    assert FirstUnder(u.loads, id, i);
    StandsUnder(u, id, i);
    if !NoFetch(later) { StepAligned(world, s, {}, a); }
    RunStands(world, u, later, id, u.loads[i].status, Some(bidder), true, false);
    var j := IndexOf(t.loads, id);
    FoundUnder(t.loads, id, j);
    forall carrier ensures t.loads[j] in AwaitingLoads(t.loads, carrier) <==> carrier == bidder {
      AwaitingListExact(t.loads, carrier);
    }
  }
}
