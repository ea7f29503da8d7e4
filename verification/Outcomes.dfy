/**
 What holds of the negotiation over whole runs: the status column tells the confirmation
 flags, and carriers are shown the accepted amount.
 */
module Outcomes {
  import opened Text
  import opened Amounts
  import opened LoadPosts
  import opened Distances
  import opened Negotiation
  import opened Reloading
  import opened Selections

  // ----- lifecycle -----

  lemma StepLives(world: World, s: State, a: Action)
    requires AllLifecycle(s) && Guarded(s, a) && !a.FetchLoads? && (a.AddLoad? ==> Lifecycle(a.load))
    ensures AllLifecycle(Step(world, s, a))
  {
    hide Step, Moved, Selection;
    var t := Step(world, s, a);
    forall i | 0 <= i < |t.loads| ensures Lifecycle(t.loads[i]) {
      StepOrigin(world, s, a, t.loads[i]);
      if Target(a).Some? && IndexOf(s.loads, Target(a).value) < |s.loads| {
        MovedLifecycle(world, s.cache, s.loads[IndexOf(s.loads, Target(a).value)], a);
      }
    }
  }

  lemma FetchLives(world: World, s: State, now: int)
    requires AllLifecycle(s) && Aligned(s)
    ensures AllLifecycle(Step(world, s, FetchLoads(now)))
  {
    FetchAligned(world, s, now);
    hide Step, Aligned, DecodeBids;
    var t := Step(world, s, FetchLoads(now));
    forall i | 0 <= i < |t.loads| ensures Lifecycle(t.loads[i]) {
      assert SameDeal(t.loads[i], s.loads[i]) && Lifecycle(s.loads[i]);
    }
  }

  lemma {:induction false} RunLives(world: World, s: State, actions: seq<Action>)
    requires AllLifecycle(s) && LivePosts(actions) && GuardedRun(world, s, actions)
    requires NoFetch(actions) || (Aligned(s) && UniqueIds(world, s, actions))
    ensures AllLifecycle(Run(world, s, actions))
    decreases |actions|
  {
    hide Step, Aligned, AllLifecycle, FreshId, Guarded, Lifecycle;
    if actions != [] {
      var a := actions[0];
      if a.FetchLoads? { FetchLives(world, s, a.now); } else { StepLives(world, s, a); }
      if !NoFetch(actions) { StepAligned(world, s, {}, a); }
      RunLives(world, Step(world, s, a), actions[1..]);
    }
  }

  /**
   In every guarded run from posts whose status tells their flags, so from new posts and return
   loads, whatever the strings: awaiting iff the broker alone confirmed, confirmed iff both did,
   and the carrier never without the broker. Reloads are allowed when ids are unique.
   */
  lemma StatusTellsConfirmation(world: World, actions: seq<Action>)
    requires LivePosts(actions) && GuardedRun(world, EMPTY, actions)
    requires NoFetch(actions) || UniqueIds(world, EMPTY, actions)
    ensures AllLifecycle(Run(world, EMPTY, actions))
  {
    RunLives(world, EMPTY, actions);
  }

  // ----- the amount in the notification -----

  // The load was last accepted for the bid of `bidder`, at `amount`, and that bid still says so.
  ghost predicate Deal(l: Load, bidder: string, amount: Amount) {
    var k := BidIndex(l.bids, bidder);
    && l.selectedBidId == Some(bidder)
    && k < |l.bids| && l.bids[k].status == "accepted" && l.bids[k].amount == amount
  }

  lemma {:induction false} DealAmount(bids: seq<Quote>, bidder: string)
    requires BidIndex(bids, bidder) < |bids| && bids[BidIndex(bids, bidder)].status == "accepted"
    ensures AcceptedAmount(bids, Some(bidder)) == bids[BidIndex(bids, bidder)].amount
  {
    if bids[0].bidder != bidder {
      DealAmount(bids[1..], bidder);
    }
  }

  lemma {:induction false} PlainAmount(bids: seq<Quote>, selected: Option<string>)
    requires forall i :: 0 <= i < |bids| ==> bids[i].status == "pending"
    ensures AcceptedAmount(bids, selected) == ZERO
  {
    if bids != [] {
      PlainAmount(bids[1..], selected);
    }
  }

  // `a` leaves the deal on load `id` with `bidder` alone; a reload does when the row was written whole.
  predicate Quiet(a: Action, partial: set<string>, id: string, bidder: string) {
    match a
    case AddBid(i, quote) => i != id || quote.bidder != bidder
    case UpdateBidStatus(i, b, status, _, _) => i != id || (b != bidder && status != "accepted")
    case DeleteLoad(i) => i != id
    case FetchLoads(_) => id !in partial
    case _ => true
  }

  predicate QuietRun(world: World, s: State, partial: set<string>, actions: seq<Action>, id: string, bidder: string)
    decreases |actions|
  {
    actions != [] ==>
      && Quiet(actions[0], partial, id, bidder)
      && QuietRun(world, Step(world, s, actions[0]), Track(world, s, partial, actions[0]), actions[1..], id, bidder)
  }

  ghost predicate DealAt(s: State, id: string, bidder: string, amount: Amount) {
    var i := IndexOf(s.loads, id);
    i < |s.loads| && Deal(s.loads[i], bidder, amount)
  }

  lemma PutBidCons(bids: seq<Quote>, quote: Quote)
    requires bids != []
    ensures var rest := PutBid(bids[1..], quote);
            PutBid(bids, quote) == if bids[0].bidder == quote.bidder then rest else [bids[0]] + rest
  {
  }

  lemma BidIndexCons(b: Quote, bids: seq<Quote>, bidder: string)
    ensures BidIndex([b] + bids, bidder) == if b.bidder == bidder then 0 else 1 + BidIndex(bids, bidder)
  {
    assert ([b] + bids)[1..] == bids;
  }

  lemma {:induction false} FirstBidStays(bids: seq<Quote>, quote: Quote, bidder: string)
    requires quote.bidder != bidder && BidIndex(bids, bidder) < |bids|
    ensures var all := PutBid(bids, quote);
            BidIndex(all, bidder) < |all| && all[BidIndex(all, bidder)] == bids[BidIndex(bids, bidder)]
  {
    hide PutBid, BidIndex;
    assert bids == [bids[0]] + bids[1..];
    PutBidCons(bids, quote);
    BidIndexCons(bids[0], bids[1..], bidder);
    BidIndexCons(bids[0], PutBid(bids[1..], quote), bidder);
    if bids[0].bidder != bidder {
      FirstBidStays(bids[1..], quote, bidder);
    }
  }

  lemma AnsweredDeal(l: Load, k: nat, status: string, counter: Option<Amount>, now: int, bidder: string, amount: Amount)
    requires Deal(l, bidder, amount) && k < |l.bids| && l.bids[k].bidder != bidder && status != "accepted"
    ensures Deal(Answered(l, k, status, counter, now), bidder, amount)
  {
    SameBiddersSelection(l.bids, Answered(l, k, status, counter, now).bids, bidder);
  }

  lemma MovedDeal(world: World, cache: Cache, l: Load, a: Action, bidder: string, amount: Amount)
    requires Deal(l, bidder, amount) && Target(a) == Some(l.id) && Quiet(a, {}, l.id, bidder)
    ensures Deal(Moved(world, cache, l, a), bidder, amount)
  {
    hide PutBid, Measure, DestinationDifference;
    MeasureKeepsDeal(world, cache, l);
    match a
    case AddBid(_, quote) => FirstBidStays(l.bids, quote, bidder);
    case UpdateBidStatus(_, b, status, counter, now) =>
      var k := BidIndex(l.bids, b);
      if k < |l.bids| { AnsweredDeal(l, k, status, counter, now, bidder, amount); }
    case _ =>
  }

  lemma StepDeal(world: World, s: State, partial: set<string>, a: Action, id: string, bidder: string, amount: Amount)
    requires DealAt(s, id, bidder, amount) && Quiet(a, partial, id, bidder) && !a.FetchLoads?
    ensures DealAt(Step(world, s, a), id, bidder, amount)
  {
    hide Step, Deal, Moved, IndexOf;
    StepAtId(world, s, a, id);
    if Target(a) == Some(id) {
      MovedDeal(world, s.cache, s.loads[IndexOf(s.loads, id)], a, bidder, amount);
    }
  }

  lemma FetchDeal(world: World, s: State, partial: set<string>, now: int, id: string, bidder: string, amount: Amount)
    requires Aligned(s) && BidsAligned(s, partial) && CleanUnder(s, id)
    requires DealAt(s, id, bidder, amount) && id !in partial
    ensures DealAt(Step(world, s, FetchLoads(now)), id, bidder, amount)
  {
    hide Step, Aligned, BidsAligned, AfterReload, CleanBids;
    FetchAtId(world, s, partial, now, id);
    AfterReloadClean(s.loads[IndexOf(s.loads, id)].bids, false);
  }

  /** The deal stands through every run that leaves it alone, whatever happens to other bidders and loads. */
  lemma {:induction false} RunDeal(world: World, s: State, partial: set<string>, actions: seq<Action>,
                                   id: string, bidder: string, amount: Amount)
    requires DealAt(s, id, bidder, amount) && QuietRun(world, s, partial, actions, id, bidder)
    requires NoFetch(actions) ||
             (&& Aligned(s) && BidsAligned(s, partial) && UniqueIds(world, s, actions)
              && CleanUnder(s, id) && CleanFor(actions, id))
    ensures DealAt(Run(world, s, actions), id, bidder, amount)
    decreases |actions|
  {
    hide Step, Aligned, BidsAligned, CleanUnder, FreshId, CleanAction, Track, DealAt;
    if actions != [] {
      var a := actions[0];
      if a.FetchLoads? {
        FetchDeal(world, s, partial, a.now, id, bidder, amount);
      } else {
        StepDeal(world, s, partial, a, id, bidder, amount);
      }
      if !NoFetch(actions) {
        StepAligned(world, s, partial, a);
        StepCleanUnder(world, s, a, id);
      }
      RunDeal(world, Step(world, s, a), Track(world, s, partial, a), actions[1..], id, bidder, amount);
    }
  }

  // `bidder` has a bid on the load found under `id`, and the first one is for `amount`.
  ghost predicate BidAt(s: State, id: string, bidder: string, amount: Amount) {
    var i := IndexOf(s.loads, id);
    && i < |s.loads|
    && var k := BidIndex(s.loads[i].bids, bidder); k < |s.loads[i].bids| && s.loads[i].bids[k].amount == amount
  }

  lemma AcceptedDeal(l: Load, k: nat, counter: Option<Amount>, now: int)
    requires k < |l.bids| && BidIndex(l.bids, l.bids[k].bidder) == k
    ensures Deal(Answered(l, k, "accepted", counter, now), l.bids[k].bidder, l.bids[k].amount)
  {
    SameBiddersSelection(l.bids, Answered(l, k, "accepted", counter, now).bids, l.bids[k].bidder);
    hide BidIndex;
  }

  /** Accepting a bidder who has bid makes the deal for the amount of that bid. */
  lemma AcceptMakesDeal(world: World, s: State, id: string, bidder: string, amount: Amount,
                        counter: Option<Amount>, now: int)
    requires BidAt(s, id, bidder, amount)
    ensures DealAt(Step(world, s, UpdateBidStatus(id, bidder, "accepted", counter, now)), id, bidder, amount)
  {
    var l := s.loads[IndexOf(s.loads, id)];
    hide Step, IndexOf, BidIndex, Answered, Deal;
    StepAtId(world, s, UpdateBidStatus(id, bidder, "accepted", counter, now), id);
    AcceptedDeal(l, BidIndex(l.bids, bidder), counter, now);
  }

  lemma DealIsNotified(world: World, s: State, id: string, bidder: string, amount: Amount, now: int)
    requires DealAt(s, id, bidder, amount)
    ensures var postedBy := s.loads[IndexOf(s.loads, id)].posting.postedBy;
      && Step(world, s, ConfirmLoad(id, now)).notices == s.notices + [LoadConfirmed(id, postedBy, bidder, amount)]
      && Step(world, s, DeclineLoad(id, now)).notices == s.notices + [LoadDeclined(id, postedBy, bidder, amount)]
  {
    DealAmount(s.loads[IndexOf(s.loads, id)].bids, bidder);
  }

  /**
   Once `bidder` is accepted for `amount`, and as long as nothing names that bidder on that load
   again, accepts someone else, deletes the load, or reloads it from a bids-only row, confirming
   or declining notifies the broker of that bidder and of the amount accepted. Reloads ask that
   this load's own strings hold no separator; other loads may hold any.
   */
  lemma NotifiedAmountIsAccepted(world: World, s: State, partial: set<string>, later: seq<Action>,
                                 id: string, bidder: string, amount: Amount, when: int)
    requires DealAt(s, id, bidder, amount) && QuietRun(world, s, partial, later, id, bidder)
    requires NoFetch(later) ||
             (Reached(world, s, partial) && UniqueIds(world, s, later) && CleanUnder(s, id) && CleanFor(later, id))
    ensures var u := Run(world, s, later);
      && IndexOf(u.loads, id) < |u.loads|
      && var postedBy := u.loads[IndexOf(u.loads, id)].posting.postedBy;
      && Step(world, u, ConfirmLoad(id, when)).notices == u.notices + [LoadConfirmed(id, postedBy, bidder, amount)]
      && Step(world, u, DeclineLoad(id, when)).notices == u.notices + [LoadDeclined(id, postedBy, bidder, amount)]
  {
    hide Step, Run, UniqueIds, CleanUnder, CleanFor, QuietRun, Aligned, BidsAligned, Reached, Deal;
    if !NoFetch(later) { ReachedAligned(world, s, partial); }
    RunDeal(world, s, partial, later, id, bidder, amount);
    DealIsNotified(world, Run(world, s, later), id, bidder, amount, when);
  }

  /**
   A reload decides the amount: after it, the confirmation notifies the accepted amount if the
   row was written whole, and 0 if `updateLoadBids` wrote it last.
   */
  lemma AmountAfterReloadExact(world: World, s: State, partial: set<string>, id: string, bidder: string,
                               amount: Amount, now: int, when: int)
    requires Aligned(s) && BidsAligned(s, partial) && CleanUnder(s, id) && DealAt(s, id, bidder, amount)
    ensures var t := Step(world, s, FetchLoads(now));
      && IndexOf(t.loads, id) < |t.loads|
      && Step(world, t, ConfirmLoad(id, when)).notices
         == t.notices + [LoadConfirmed(id, t.loads[IndexOf(t.loads, id)].posting.postedBy, bidder,
                                       if id in partial then ZERO else amount)]
  {
    hide MeasureFrom, Aligned, BidsAligned, AfterReload, CleanBids;
    FetchAtId(world, s, partial, now, id);
    var t := Step(world, s, FetchLoads(now));
    if id in partial {
      AfterReloadClean(s.loads[IndexOf(s.loads, id)].bids, true);
      PlainAmount(t.loads[IndexOf(t.loads, id)].bids, Some(bidder));
    } else {
      hide Step;
      FetchDeal(world, s, partial, now, id, bidder, amount);
      DealIsNotified(world, t, id, bidder, amount, when);
    }
  }

  // ----- the amount after a reload, whatever the strings -----

  // The amount `firstWhere` finds, if any.
  function FirstAccepted(bids: seq<Quote>, selected: Option<string>): Option<Amount> {
    if bids == [] then None
    else if Some(bids[0].bidder) == selected && bids[0].status == "accepted" then Some(bids[0].amount)
    else FirstAccepted(bids[1..], selected)
  }

  lemma {:induction false} AcceptedIsFirst(bids: seq<Quote>, selected: Option<string>)
    ensures AcceptedAmount(bids, selected) == FirstAccepted(bids, selected).GetOr(ZERO)
  {
    if bids != [] { AcceptedIsFirst(bids[1..], selected); }
  }

  lemma {:induction false} FirstAcceptedConcat(bids: seq<Quote>, more: seq<Quote>, selected: Option<string>)
    ensures FirstAccepted(bids + more, selected) ==
            if FirstAccepted(bids, selected).Some? then FirstAccepted(bids, selected) else FirstAccepted(more, selected)
  {
    if bids == [] {
      assert bids + more == more;
    } else {
      FirstAcceptedConcat(bids[1..], more, selected);
      assert (bids + more)[0] == bids[0] && (bids + more)[1..] == bids[1..] + more;
    }
  }

  // The first amount that the text of some bid reads as accepted from the selected bidder.
  function ReadAmount(bids: seq<Quote>, short: bool, selected: Option<string>): Option<Amount> {
    if bids == [] then None
    else
      var first := FirstAccepted(Readings(bids[0], short), selected);
      if first.Some? then first else ReadAmount(bids[1..], short, selected)
  }

  lemma {:induction false} ReadAmountExact(bids: seq<Quote>, short: bool, selected: Option<string>)
    ensures FirstAccepted(AfterReload(bids, short), selected) == ReadAmount(bids, short, selected)
  {
    if bids == [] {
      UnknownOnly(short, "");
      assert [UNKNOWN][1..] == [];
      hide AfterReload;
    } else {
      hide AfterReload, Readings;
      AfterReloadCons(bids, short);
      if |bids| == 1 {
        assert Readings(bids[0], short) + [] == Readings(bids[0], short);
        assert bids[1..] == [];
      } else {
        FirstAcceptedConcat(Readings(bids[0], short), AfterReload(bids[1..], short), selected);
        ReadAmountExact(bids[1..], short, selected);
      }
    }
  }

  /**
   Whatever the strings, a confirmation after a reload notifies the first amount that the text of
   some bid, as last written, reads as accepted from the selected bidder, and 0 if there is none.
   */
  lemma NoticeAfterReloadExact(world: World, s: State, partial: set<string>, id: string, now: int, when: int)
    requires Aligned(s) && BidsAligned(s, partial) && IndexOf(s.loads, id) < |s.loads|
    ensures var t, l := Step(world, s, FetchLoads(now)), s.loads[IndexOf(s.loads, id)];
      Step(world, t, ConfirmLoad(id, when)).notices
         == t.notices + [LoadConfirmed(id, l.posting.postedBy, l.selectedBidId.GetOr("Carrier"),
                                       ReadAmount(l.bids, id in partial, l.selectedBidId).GetOr(ZERO))]
  {
    hide MeasureFrom, Aligned, BidsAligned, AfterReload, ReadAmount, FirstAccepted, IndexOf, AcceptedAmount;
    FetchAtId(world, s, partial, now, id);
    var t, l := Step(world, s, FetchLoads(now)), s.loads[IndexOf(s.loads, id)];
    AcceptedIsFirst(t.loads[IndexOf(t.loads, id)].bids, l.selectedBidId);
    ReadAmountExact(l.bids, id in partial, l.selectedBidId);
  }

  /** A name can forge an amount: "A:5.0:accepted" is read from a bids-only row as a bid by "A", accepted, for 5. */
  lemma ForgedAmount(q: Quote, bidder: string, amount: Amount)
    requires q.bidder == bidder + ":" + Print(amount) + ":accepted" && Clean(bidder)
    ensures Readings(q, true) == [Quote(bidder, amount, "accepted", Some(q.amount))]
  {
    var read := Quote(bidder, amount, "accepted", Some(q.amount));
    SameText(q, read);
    hide EncodeQuote, EncodeShort, DecodeBids, Print;
    assert CleanBids([read]);
    BidsRoundTripExact([read]);
    OneText(read);
  }

  lemma SameText(q: Quote, read: Quote)
    requires q.bidder == read.bidder + ":" + Print(read.amount) + ":accepted"
    requires read.status == "accepted" && read.counter == Some(q.amount)
    ensures EncodeShort(q) == EncodeQuote(read)
  {
    hide Print;
    var a, b, c, d := read.bidder, Print(read.amount), "accepted", Print(q.amount);
    assert Fields(q)[..2] == [q.bidder, d] && [q.bidder, d][1..] == [d];
    TwoFields(q.bidder, d);
    FourFields(a, b, c, d);
    assert Fields(read) == [a, b, c, d];
    assert a + (":" + (b + (":" + (c + (":" + d))))) == (a + ":" + b + ":accepted") + ":" + d;
  }

  lemma TwoFields(a: string, b: string)
    ensures Join([a, b], ':') == a + ":" + b
  {
    assert [a, b][1..] == [b];
  }

  lemma FourFields(a: string, b: string, c: string, d: string)
    ensures Join([a, b, c, d], ':') == a + (":" + (b + (":" + (c + (":" + d)))))
  {
    assert [a, b, c, d][1..] == [b, c, d] && [b, c, d][1..] == [c, d] && [c, d][1..] == [d];
    assert Join([c, d], ':') == c + ":" + d == c + (":" + d);
    assert Join([b, c, d], ':') == b + ":" + Join([c, d], ':');
    assert Join([a, b, c, d], ':') == a + ":" + Join([b, c, d], ':');
  }

  lemma OneText(q: Quote)
    ensures EncodeBids([q]) == EncodeQuote(q)
  {
    hide EncodeQuote;
    assert seq(1, i requires 0 <= i < 1 => EncodeQuote([q][i])) == [EncodeQuote(q)];
  }

  /** One later bid by someone else, followed by the reload the bid screens do, turns the notified amount into 0. */
  lemma LateBidZeroesNotice(world: World, s: State, partial: set<string>, id: string, bidder: string,
                            amount: Amount, quote: Quote, now: int, when: int)
    requires Aligned(s) && BidsAligned(s, partial) && CleanUnder(s, id) && DealAt(s, id, bidder, amount)
    requires CleanQuote(quote) && quote.bidder != bidder
    ensures var u := Step(world, Step(world, s, AddBid(id, quote)), FetchLoads(now));
      && IndexOf(u.loads, id) < |u.loads|
      && Step(world, u, ConfirmLoad(id, when)).notices
         == u.notices + [LoadConfirmed(id, u.loads[IndexOf(u.loads, id)].posting.postedBy, bidder, ZERO)]
  {
    hide Step, Aligned, BidsAligned, CleanUnder, Deal;
    var a := AddBid(id, quote);
    StepAligned(world, s, partial, a);
    StepCleanUnder(world, s, a, id);
    StepDeal(world, s, partial, a, id, bidder, amount);
    AmountAfterReloadExact(world, Step(world, s, a), Track(world, s, partial, a), id, bidder, amount, now, when);
  }

  lemma {:induction false} MeasureFromNotifiesNobody(world: World, s: State, i: nat, now: int)
    ensures MeasureFrom(world, s, i, now).notices == s.notices
    decreases |s.loads| - i
  {
    hide Measure, ReplaceRow, ToRow;
    if i < |s.loads| {
      MeasureFromNotifiesNobody(world, MeasureAt(world, s, i, now), i + 1, now);
    }
  }

  lemma NotifiesNobody(world: World, s: State, a: Action)
    requires !a.ConfirmLoad? && !a.DeclineLoad?
    ensures Step(world, s, a).notices == s.notices
  {
    hide MeasureFrom, PutBid, PatchBids, ReplaceRow, ToRow, EncodeBidsShort, IndexOf, BidIndex, Answered, InsertRow;
    if a.FetchLoads? {
      MeasureFromNotifiesNobody(world, s.(loads := FetchedLoads(s.rows)), 0, a.now);
    }
  }

  // ----- the whole story of a late bid -----

  // Nobody was notified yet, and the load under `id` is there with its posting and clean strings.
  ghost predicate Open(s: State, partial: set<string>, id: string, posting: Posting) {
    && Aligned(s) && BidsAligned(s, partial) && CleanUnder(s, id) && s.notices == []
    && IndexOf(s.loads, id) < |s.loads| && s.loads[IndexOf(s.loads, id)].posting == posting
  }

  lemma StaysOpen(world: World, s: State, partial: set<string>, a: Action, id: string, posting: Posting)
    requires Open(s, partial, id, posting) && CleanAction(a, id)
    requires a.AddBid? || a.UpdateBidStatus? || a.FetchLoads?
    ensures Open(Step(world, s, a), Track(world, s, partial, a), id, posting)
  {
    hide Step, Aligned, BidsAligned, CleanUnder, CleanAction, IndexOf, Moved, AfterReload;
    StepAligned(world, s, partial, a);
    StepCleanUnder(world, s, a, id);
    NotifiesNobody(world, s, a);
    if a.FetchLoads? {
      FetchAtId(world, s, partial, a.now, id);
    } else {
      StepAtId(world, s, a, id);
      MovedKeepsId(world, s.cache, s.loads[IndexOf(s.loads, id)], a);
    }
  }

  lemma PostOpens(world: World, post: Load)
    requires CleanBids(post.bids)
    ensures Open(Step(world, EMPTY, AddLoad(post)), {}, post.id, post.posting)
  {
    var a := AddLoad(post);
    assert Step(world, EMPTY, a).loads == [post] && IndexOf([post], post.id) == 0;
    assert FreshId(EMPTY, post.id) && CleanUnder(EMPTY, post.id) && Track(world, EMPTY, {}, a) == {};
    hide Step, Aligned, BidsAligned, CleanUnder, CleanBids, FreshId, Track;
    EmptyAligned();
    StepAligned(world, EMPTY, {}, a);
    StepCleanUnder(world, EMPTY, a, post.id);
    NotifiesNobody(world, EMPTY, a);
  }

  lemma NewBidIsThere(world: World, s: State, id: string, quote: Quote)
    requires IndexOf(s.loads, id) < |s.loads|
    ensures BidAt(Step(world, s, AddBid(id, quote)), id, quote.bidder, quote.amount)
  {
    var bids := s.loads[IndexOf(s.loads, id)].bids;
    var all := PutBid(bids, quote);
    assert forall i :: 0 <= i < |all| - 1 ==> all[i].bidder != quote.bidder by {
      assert forall i :: 0 <= i < |all| - 1 ==> all[i] == Without(bids, quote.bidder)[i];
    }
    assert all[|all| - 1].bidder == quote.bidder;
    hide Step, IndexOf, PutBid, Without;
    StepAtId(world, s, AddBid(id, quote), id);
  }

  lemma BidIsReloaded(world: World, s: State, partial: set<string>, now: int,
                      id: string, bidder: string, amount: Amount)
    requires Aligned(s) && BidsAligned(s, partial) && CleanUnder(s, id) && BidAt(s, id, bidder, amount)
    ensures BidAt(Step(world, s, FetchLoads(now)), id, bidder, amount)
  {
    hide Step, Aligned, BidsAligned, AfterReload, CleanBids;
    FetchAtId(world, s, partial, now, id);
    var l, t := s.loads[IndexOf(s.loads, id)], Step(world, s, FetchLoads(now));
    AfterReloadClean(l.bids, id in partial);
    SameBiddersSelection(l.bids, t.loads[IndexOf(t.loads, id)].bids, bidder);
  }

  // A post, the reload that follows, a bid, the reload that follows, and the acceptance of that bid.
  function DealActions(post: Load, a: Quote, now: int): seq<Action> {
    [AddLoad(post), FetchLoads(now), AddBid(post.id, a), FetchLoads(now),
     UpdateBidStatus(post.id, a.bidder, "accepted", None, now)]
  }

  lemma RunFive(world: World, s: State, a: Action, b: Action, c: Action, d: Action, e: Action)
    ensures Run(world, s, [a, b, c, d, e]) ==
            Step(world, Step(world, Step(world, Step(world, Step(world, s, a), b), c), d), e)
  {
    hide Step;
    assert [] + [a] == [a] && [a] + [b] == [a, b] && [a, b] + [c] == [a, b, c];
    assert [a, b, c] + [d] == [a, b, c, d] && [a, b, c, d] + [e] == [a, b, c, d, e];
    assert Run(world, s, []) == s;
    hide Run;
    RunOne(world, s, [], a);
    RunOne(world, s, [a], b);
    RunOne(world, s, [a, b], c);
    RunOne(world, s, [a, b, c], d);
    RunOne(world, s, [a, b, c, d], e);
  }

  lemma DealHolds(world: World, post: Load, a: Quote, now: int) returns (partial: set<string>)
    requires CleanBids(post.bids) && CleanQuote(a)
    ensures var s := Run(world, EMPTY, DealActions(post, a, now));
            Open(s, partial, post.id, post.posting) && DealAt(s, post.id, a.bidder, a.amount)
  {
    var id, posting, fetch, bid := post.id, post.posting, FetchLoads(now), AddBid(post.id, a);
    var accept := UpdateBidStatus(id, a.bidder, "accepted", None, now);
    assert CleanAction(accept, id) && CleanAction(bid, id) && CleanAction(fetch, id);
    RunFive(world, EMPTY, AddLoad(post), fetch, bid, fetch, accept);
    hide Step, Run, Track, CleanBids, CleanQuote, CleanAction, Aligned, BidsAligned, CleanUnder, BidAt, DealAt;
    var s1, p1 := Step(world, EMPTY, AddLoad(post)), {};
    PostOpens(world, post);
    var s2, p2 := Step(world, s1, fetch), Track(world, s1, p1, fetch);
    StaysOpen(world, s1, p1, fetch, id, posting);
    var s3, p3 := Step(world, s2, bid), Track(world, s2, p2, bid);
    StaysOpen(world, s2, p2, bid, id, posting);
    NewBidIsThere(world, s2, id, a);
    var s4, p4 := Step(world, s3, fetch), Track(world, s3, p3, fetch);
    StaysOpen(world, s3, p3, fetch, id, posting);
    BidIsReloaded(world, s3, p3, now, id, a.bidder, a.amount);
    StaysOpen(world, s4, p4, accept, id, posting);
    AcceptMakesDeal(world, s4, id, a.bidder, a.amount, None, now);
    partial := Track(world, s4, p4, accept);
  }

  lemma RunThree(world: World, s: State, a: Action, b: Action, c: Action)
    ensures Run(world, s, [a, b, c]) == Step(world, Step(world, Step(world, s, a), b), c)
  {
    hide Step;
    assert [] + [a] == [a] && [a] + [b] == [a, b] && [a, b] + [c] == [a, b, c];
    assert Run(world, s, []) == s;
    hide Run;
    RunOne(world, s, [], a);
    RunOne(world, s, [a], b);
    RunOne(world, s, [a, b], c);
  }

  /**
   The whole story, for any post and any two bids without separators, each post and bid followed
   by the reload its screen does: post, bid, acceptance, a late bid by someone else, and a
   confirmation that notifies 0.
   */
  lemma LateBidStory(world: World, post: Load, a: Quote, b: Quote, now: int)
    requires CleanBids(post.bids) && CleanQuote(a) && CleanQuote(b) && a.bidder != b.bidder
    ensures Run(world, EMPTY, DealActions(post, a, now) +
                              [AddBid(post.id, b), FetchLoads(now), ConfirmLoad(post.id, now)]).notices
         == [LoadConfirmed(post.id, post.posting.postedBy, a.bidder, ZERO)]
  {
    hide *;
    var id, bid, fetch := post.id, AddBid(post.id, b), FetchLoads(now);
    CleanBidAction(id, b, now);
    var partial := DealHolds(world, post, a, now);
    var s := Run(world, EMPTY, DealActions(post, a, now));
    OpenIsAligned(s, partial, id, post.posting);
    RunConcat(world, EMPTY, DealActions(post, a, now), [bid, fetch, ConfirmLoad(id, now)]);
    RunThree(world, s, bid, fetch, ConfirmLoad(id, now));
    LateBidZeroesNotice(world, s, partial, id, a.bidder, a.amount, b, now, now);
    StaysOpen(world, s, partial, bid, id, post.posting);
    var t, u := Step(world, s, bid), Step(world, Step(world, s, bid), fetch);
    StaysOpen(world, t, Track(world, s, partial, bid), fetch, id, post.posting);
    OpenIsAligned(u, Track(world, t, Track(world, s, partial, bid), fetch), id, post.posting);
  }

  lemma CleanBidAction(id: string, b: Quote, now: int)
    requires CleanQuote(b)
    ensures CleanAction(AddBid(id, b), id) && CleanAction(FetchLoads(now), id)
  {
  }

  lemma OpenIsAligned(s: State, partial: set<string>, id: string, posting: Posting)
    requires Open(s, partial, id, posting)
    ensures Aligned(s) && BidsAligned(s, partial) && CleanUnder(s, id) && s.notices == []
    ensures IndexOf(s.loads, id) < |s.loads| && s.loads[IndexOf(s.loads, id)].posting == posting
  {
  }
}
