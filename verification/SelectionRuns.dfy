/**
 Whether a selection names a bidder at the end of any run, reloads included: an exact account for
 every load, however it was posted, and so for return loads, which start out naming nobody.
 */
module SelectionRuns {
  import opened Text
  import opened LoadPosts
  import opened Distances
  import opened Negotiation
  import opened Reloading
  import opened Selections

  // Whether the selection of the load under `id` names a bidder after a step, from whether it did before.
  predicate NamedNext(s: State, partial: set<string>, named: bool, a: Action, id: string) {
    var i := IndexOf(s.loads, id);
    if i == |s.loads| then a.AddLoad? && a.load.id == id && Names(a.load)
    else if a.FetchLoads? then NamedAfterReload(s.loads[i], named, id in partial)
    else named || (Target(a) == Some(id) && Renames(s.loads[i], a))
  }

  predicate NamedThrough(world: World, s: State, partial: set<string>, named: bool, actions: seq<Action>, id: string)
    decreases |actions|
  {
    if actions == [] then named
    else NamedThrough(world, Step(world, s, actions[0]), Track(world, s, partial, actions[0]),
                      NamedNext(s, partial, named, actions[0], id), actions[1..], id)
  }

  ghost predicate NamedAs(s: State, named: bool, id: string) {
    var i := IndexOf(s.loads, id);
    i < |s.loads| ==> (Names(s.loads[i]) <==> named)
  }

  lemma FetchNamed(world: World, s: State, partial: set<string>, named: bool, now: int, id: string)
    requires Aligned(s) && BidsAligned(s, partial) && NamedAs(s, named, id)
    ensures NamedAs(Step(world, s, FetchLoads(now)), NamedNext(s, partial, named, FetchLoads(now), id), id)
  {
    hide Step, Aligned, BidsAligned, IndexOf, Names, NamedAfterReload, AfterReload;
    var i, t := IndexOf(s.loads, id), Step(world, s, FetchLoads(now));
    FetchKeepsIndex(world, s, now, id);
    if i < |s.loads| {
      FetchAtId(world, s, partial, now, id);
      ReloadNamesExact(s.loads[i], t.loads[i], id in partial);
    }
  }

  lemma StepNamed(world: World, s: State, partial: set<string>, named: bool, a: Action, id: string)
    requires NamedAs(s, named, id) && (a.FetchLoads? ==> Aligned(s) && BidsAligned(s, partial))
    ensures NamedAs(Step(world, s, a), NamedNext(s, partial, named, a, id), id)
  {
    hide Step, Aligned, BidsAligned, IndexOf, Names, NamedAfterReload, Moved, Renames;
    var i := IndexOf(s.loads, id);
    if a.FetchLoads? {
      FetchNamed(world, s, partial, named, a.now, id);
    } else if i < |s.loads| && a != DeleteLoad(id) {
      StepAtId(world, s, a, id);
      MovedNames(world, s.cache, s.loads[i], a);
    } else {
      StepFinds(world, s, a, id);
    }
  }

  lemma {:induction false} RunNamed(world: World, s: State, partial: set<string>, named: bool,
                                    actions: seq<Action>, id: string)
    requires NamedAs(s, named, id)
    requires NoFetch(actions) || (Aligned(s) && BidsAligned(s, partial) && UniqueIds(world, s, actions))
    ensures NamedAs(Run(world, s, actions), NamedThrough(world, s, partial, named, actions, id), id)
    decreases |actions|
  {
    hide Step, Aligned, BidsAligned, NamedAs, NamedNext, FreshId, Track;
    if actions != [] {
      var a := actions[0];
      StepNamed(world, s, partial, named, a, id);
      if !NoFetch(actions) { StepAligned(world, s, partial, a); }
      RunNamed(world, Step(world, s, a), Track(world, s, partial, a), NamedNext(s, partial, named, a, id),
               actions[1..], id);
    }
  }

  /** At the end of every run, whatever the posts and strings, a selection names a bidder as `NamedThrough` says. */
  lemma NamesExact(world: World, actions: seq<Action>, id: string)
    requires NoFetch(actions) || UniqueIds(world, EMPTY, actions)
    ensures NamedAs(Run(world, EMPTY, actions), NamedThrough(world, EMPTY, {}, false, actions, id), id)
  {
    hide Run, NamedThrough, UniqueIds;
    EmptyAligned();
    RunNamed(world, EMPTY, {}, false, actions, id);
  }

  // ----- distinct bidders -----

  ghost predicate DistinctUnder(s: State, id: string) {
    var i := IndexOf(s.loads, id);
    i < |s.loads| ==> DistinctBidders(s.loads[i].bids)
  }

  ghost predicate DistinctPosts(actions: seq<Action>, id: string) {
    forall i :: 0 <= i < |actions| && actions[i].AddLoad? && actions[i].load.id == id ==>
      DistinctBidders(actions[i].load.bids)
  }

  lemma ReloadKeepsDistinct(bids: seq<Quote>, short: bool)
    requires CleanBids(bids) && DistinctBidders(bids)
    ensures DistinctBidders(AfterReload(bids, short))
  {
    hide AfterReload;
    AfterReloadClean(bids, short);
    if bids != [] { SameBiddersSelection(bids, AfterReload(bids, short), ""); }
  }

  lemma StepKeepsDistinct(world: World, s: State, partial: set<string>, a: Action, id: string)
    requires DistinctUnder(s, id) && (a.AddLoad? && a.load.id == id ==> DistinctBidders(a.load.bids))
    requires a.FetchLoads? ==> Aligned(s) && BidsAligned(s, partial) && CleanUnder(s, id)
    ensures DistinctUnder(Step(world, s, a), id)
  {
    hide Step, Aligned, BidsAligned, IndexOf, DistinctBidders, Moved, AfterReload, CleanBids;
    var i := IndexOf(s.loads, id);
    if a.FetchLoads? {
      FetchKeepsIndex(world, s, a.now, id);
      if i < |s.loads| {
        FetchAtId(world, s, partial, a.now, id);
        ReloadKeepsDistinct(s.loads[i].bids, id in partial);
      }
    } else if i < |s.loads| && a != DeleteLoad(id) {
      StepAtId(world, s, a, id);
      MovedNames(world, s.cache, s.loads[i], a);
    } else {
      StepFinds(world, s, a, id);
    }
  }

  lemma {:induction false} RunKeepsDistinct(world: World, s: State, partial: set<string>, actions: seq<Action>,
                                            id: string)
    requires DistinctUnder(s, id) && DistinctPosts(actions, id)
    requires NoFetch(actions) ||
             (&& Aligned(s) && BidsAligned(s, partial) && UniqueIds(world, s, actions)
              && CleanUnder(s, id) && CleanFor(actions, id))
    ensures DistinctUnder(Run(world, s, actions), id)
    decreases |actions|
  {
    hide Step, Aligned, BidsAligned, DistinctUnder, DistinctBidders, CleanUnder, FreshId, CleanAction, Track;
    if actions != [] {
      var a := actions[0];
      StepKeepsDistinct(world, s, partial, a, id);
      if !NoFetch(actions) {
        StepAligned(world, s, partial, a);
        StepCleanUnder(world, s, a, id);
      }
      RunKeepsDistinct(world, Step(world, s, a), Track(world, s, partial, a), actions[1..], id);
    }
  }

  /**
   In every run, guarded or not, from posts with distinct bidders, selected or not: the bidders of a
   load stay distinct, and its selection names exactly one bid exactly when `NamedThrough` says that
   it names a bidder; for any strings as long as nothing is reloaded, and through reloads too when
   the actions that name the load bring it no separator.
   */
  lemma SelectionExact(world: World, actions: seq<Action>, id: string)
    requires DistinctPosts(actions, id)
    requires NoFetch(actions) || (UniqueIds(world, EMPTY, actions) && CleanFor(actions, id))
    ensures var s := Run(world, EMPTY, actions);
            var i := IndexOf(s.loads, id);
      i < |s.loads| ==>
        && DistinctBidders(s.loads[i].bids)
        && (Selection(s.loads[i]) <==> NamedThrough(world, EMPTY, {}, false, actions, id))
  {
    hide Run, NamedThrough, UniqueIds, CleanFor, DistinctPosts, IndexOf, Selection, Names, DistinctBidders;
    EmptyAligned();
    NothingUnder(id);
    NamesExact(world, actions, id);
    RunKeepsDistinct(world, EMPTY, {}, actions, id);
    var s := Run(world, EMPTY, actions);
    var i := IndexOf(s.loads, id);
    if i < |s.loads| { SelectionIsNames(s.loads[i]); }
  }

  lemma NothingUnder(id: string)
    ensures DistinctUnder(EMPTY, id) && CleanUnder(EMPTY, id) && IndexOf(EMPTY.loads, id) == |EMPTY.loads|
  {
  }

  // ----- bids or none -----

  // Some step reloads, or places a bid on the load under `id`.
  predicate GetsBids(actions: seq<Action>, id: string) {
    exists i :: 0 <= i < |actions| && (actions[i].FetchLoads? || (actions[i].AddBid? && actions[i].id == id))
  }

  lemma MovedHasBids(world: World, cache: Cache, l: Load, a: Action)
    ensures Moved(world, cache, l, a).bids == [] <==> l.bids == [] && !a.AddBid?
  {
    hide Measure, DestinationDifference, Without, BidIndex;
    MeasureKeepsDeal(world, cache, l);
  }

  lemma GetsBidsCons(actions: seq<Action>, id: string)
    requires actions != []
    ensures GetsBids(actions, id) <==>
            || actions[0].FetchLoads? || (actions[0].AddBid? && actions[0].id == id)
            || GetsBids(actions[1..], id)
  {
    assert forall i :: 0 < i < |actions| ==> actions[i] == actions[1..][i - 1];
    if i :| 0 <= i < |actions[1..]| &&
            (actions[1..][i].FetchLoads? || (actions[1..][i].AddBid? && actions[1..][i].id == id)) {
      assert actions[i + 1] == actions[1..][i];
    }
  }

  /** A load has no bids exactly as long as it had none, nobody bids and nothing is reloaded. */
  lemma {:induction false} HasBidsExact(world: World, s: State, partial: set<string>, actions: seq<Action>, id: string)
    requires IndexOf(s.loads, id) < |s.loads| && Undeleted(actions, id)
    requires NoFetch(actions) || (Aligned(s) && BidsAligned(s, partial) && UniqueIds(world, s, actions))
    ensures var u := Run(world, s, actions);
      && IndexOf(u.loads, id) < |u.loads|
      && (u.loads[IndexOf(u.loads, id)].bids == [] <==>
            s.loads[IndexOf(s.loads, id)].bids == [] && !GetsBids(actions, id))
    decreases |actions|
  {
    hide Step, Aligned, BidsAligned, IndexOf, Moved, FreshId, Track, GetsBids, AfterReload;
    if actions == [] {
      assert !GetsBids([], id) by { NobodyBids(id); }
    } else {
      var a := actions[0];
      GetsBidsCons(actions, id);
      if a.FetchLoads? {
        FetchAtId(world, s, partial, a.now, id);
        AfterReloadHasBids(s.loads[IndexOf(s.loads, id)].bids, id in partial);
      } else {
        StepAtId(world, s, a, id);
        MovedHasBids(world, s.cache, s.loads[IndexOf(s.loads, id)], a);
      }
      if !NoFetch(actions) { StepAligned(world, s, partial, a); }
      HasBidsExact(world, Step(world, s, a), Track(world, s, partial, a), actions[1..], id);
    }
  }

  lemma NobodyBids(id: string)
    ensures !GetsBids([], id)
  {
  }

  lemma AfterReloadHasBids(bids: seq<Quote>, short: bool)
    ensures AfterReload(bids, short) != []
  {
    DecodedClean(if short then EncodeBidsShort(bids) else EncodeBids(bids));
  }
}
