/**
 Which loads show a distance, in memory and in their rows, after any run of any operations.
 */
module Displays {
  import opened Text
  import opened LoadPosts
  import opened Distances
  import opened Negotiation
  import opened Reloading
  import opened Selections
  import opened Refreshing

  // ----- what a step does to the distance of one load -----

  // The step copies the load, which drops its distance.
  predicate Drops(l: Load, a: Action) {
    || a.ConfirmLoad? || a.DeclineLoad?
    || (a.UpdateBidStatus? && a.status == "accepted" && BidIndex(l.bids, a.bidder) < |l.bids|)
  }

  // The step measures the load.
  predicate Measures(world: World, cache: Cache, l: Load, a: Action) {
    a.MeasureOne? && l.id !in cache && Measurable(world, l)
  }

  lemma MovedDistance(world: World, cache: Cache, l: Load, a: Action)
    ensures Moved(world, cache, l, a).distance.Some? <==>
            !Drops(l, a) && (l.distance.Some? || Measures(world, cache, l, a))
  {
    hide Measure, Measurable, PutBid, BidIndex, DestinationDifference;
    MeasuredExact(world, cache, l);
  }

  lemma RowMovedDistance(world: World, cache: Cache, r: Row, l: Load, a: Action)
    ensures RowMoved(world, cache, r, l, a).distance.Some? <==>
            && !Drops(l, a) && !Measures(world, cache, l, a)
            && if a.UpdateBidStatus? && BidIndex(l.bids, a.bidder) < |l.bids| then l.distance.Some?
               else r.distance.Some?
  {
    hide Measure, Measurable, PutBid, BidIndex, DestinationDifference, EncodeBids, EncodeBidsShort, Join;
    MeasuredExact(world, cache, l);
  }

  // ----- through whole runs -----

  // Whether the load under an id shows a distance, in memory and in its row.
  datatype Display = Display(memory: bool, row: bool)

  const NOWHERE := Display(false, false)

  // Nothing but the load under `id` and its row counts.
  function Displayed(world: World, s: State, d: Display, a: Action, id: string): Display {
    var i := IndexOf(s.loads, id);
    if a.AddLoad? then
      if a.load.id == id then Display(a.load.distance.Some?, a.load.distance.Some?) else d
    else if i == |s.loads| then d
    else if a.FetchLoads? then
      var measured := id !in s.cache && i < |s.rows| && Measurable(world, FromRow(s.rows[i]));
      Display(d.row || measured, d.row && !measured)
    else if Target(a) != Some(id) then d
    else if Drops(s.loads[i], a) then NOWHERE
    else if Measures(world, s.cache, s.loads[i], a) then Display(true, false)
    else if a.UpdateBidStatus? && BidIndex(s.loads[i].bids, a.bidder) < |s.loads[i].bids| then
      // An answer that is no acceptance writes the whole row.
      Display(d.memory, d.memory)
    else d
  }

  function RunDisplayed(world: World, s: State, d: Display, actions: seq<Action>, id: string): Display
    decreases |actions|
  {
    if actions == [] then d
    else RunDisplayed(world, Step(world, s, actions[0]), Displayed(world, s, d, actions[0], id), actions[1..], id)
  }

  ghost predicate ShowsAs(s: State, d: Display, id: string) {
    var i := IndexOf(s.loads, id);
    i < |s.loads| ==>
      && (s.loads[i].distance.Some? <==> d.memory)
      && (i < |s.rows| && s.rows[i].distance.Some? <==> d.row)
  }

  lemma FetchDisplays(world: World, s: State, d: Display, now: int, id: string)
    requires Aligned(s) && ShowsAs(s, d, id)
    ensures ShowsAs(Step(world, s, FetchLoads(now)), Displayed(world, s, d, FetchLoads(now), id), id)
  {
    var i := IndexOf(s.loads, id);
    var t := Step(world, s, FetchLoads(now));
    FetchAligned(world, s, now);
    hide Step, Mirrors, DistinctIds, IndexOf, Measure, Measurable, FromRow, BidsAligned;
    forall k | 0 <= k < |s.loads| ensures t.loads[k].id == s.loads[k].id { assert SameDeal(t.loads[k], s.loads[k]); }
    IndexSameIds(s.loads, t.loads, id);
    if i < |s.loads| {
      var l := FromRow(s.rows[i]);
      RowKeepsId(s, i);
      FetchAt(world, s, i, now);
      MeasuredExact(world, s.cache, l);
    }
  }

  lemma RowKeepsId(s: State, i: nat)
    requires Aligned(s) && i < |s.loads|
    ensures FromRow(s.rows[i]).id == s.loads[i].id && FromRow(s.rows[i]).distance == s.rows[i].distance
  {
    assert Mirrors(s.loads[i], s.rows[i]);
    hide DecodeBids, Split;
  }

  // The load was there before.
  lemma OldDisplays(world: World, s: State, d: Display, a: Action, id: string)
    requires Aligned(s) && ShowsAs(s, d, id) && !a.FetchLoads? && a != DeleteLoad(id)
    requires IndexOf(s.loads, id) < |s.loads| && (a.AddLoad? ==> FreshId(s, a.load.id))
    ensures ShowsAs(Step(world, s, a), Displayed(world, s, d, a, id), id)
  {
    var i := IndexOf(s.loads, id);
    StepAtId(world, s, a, id);
    StepRowAtId(world, s, a, id);
    hide Step, Mirrors, DistinctIds, IndexOf, Measurable, Moved, RowMoved, BidIndex;
    MovedDistance(world, s.cache, s.loads[i], a);
    RowMovedDistance(world, s.cache, s.rows[i], s.loads[i], a);
  }

  // The load was not there before.
  lemma NewDisplays(world: World, s: State, d: Display, a: Action, id: string)
    requires Aligned(s) && !a.FetchLoads? && (a.AddLoad? ==> FreshId(s, a.load.id))
    requires IndexOf(s.loads, id) == |s.loads| || a == DeleteLoad(id)
    ensures ShowsAs(Step(world, s, a), Displayed(world, s, d, a, id), id)
  {
    hide Step, Mirrors, DistinctIds, IndexOf, ToRow, FreshId;
    StepFinds(world, s, a, id);
    if a.AddLoad? && a.load.id == id {
      OtherRows(world, s, a);
      RowDistance(a.load);
    }
  }

  lemma RowDistance(l: Load)
    ensures ToRow(l).distance == l.distance
  {
  }

  lemma StepDisplays(world: World, s: State, d: Display, a: Action, id: string)
    requires Aligned(s) && ShowsAs(s, d, id) && (a.AddLoad? ==> FreshId(s, a.load.id))
    ensures ShowsAs(Step(world, s, a), Displayed(world, s, d, a, id), id)
  {
    hide *;
    if a.FetchLoads? {
      FetchDisplays(world, s, d, a.now, id);
    } else if IndexOf(s.loads, id) < |s.loads| && a != DeleteLoad(id) {
      OldDisplays(world, s, d, a, id);
    } else {
      NewDisplays(world, s, d, a, id);
    }
  }

  lemma {:induction false} RunDisplays(world: World, s: State, d: Display, actions: seq<Action>, id: string)
    requires Aligned(s) && ShowsAs(s, d, id) && UniqueIds(world, s, actions)
    ensures ShowsAs(Run(world, s, actions), RunDisplayed(world, s, d, actions, id), id)
    decreases |actions|
  {
    hide Step, Aligned, ShowsAs, Displayed, FreshId;
    if actions != [] {
      StepDisplays(world, s, d, actions[0], id);
      StepAligned(world, s, {}, actions[0]);
      RunDisplays(world, Step(world, s, actions[0]), Displayed(world, s, d, actions[0], id), actions[1..], id);
    }
  }

  /** After every run, a load shows a distance, in memory and in its row, exactly as `RunDisplayed` says. */
  lemma DisplayExact(world: World, actions: seq<Action>, id: string)
    requires UniqueIds(world, EMPTY, actions)
    ensures ShowsAs(Run(world, EMPTY, actions), RunDisplayed(world, EMPTY, NOWHERE, actions, id), id)
  {
    hide Step, Run, RunDisplayed, UniqueIds;
    EmptyAligned();
    RunDisplays(world, EMPTY, NOWHERE, actions, id);
  }

  // ----- between reloads -----

  // No step copies or deletes the load under `id`.
  predicate Undropped(world: World, s: State, actions: seq<Action>, id: string)
    decreases |actions|
  {
    actions != [] ==>
      && actions[0] != DeleteLoad(id)
      && (var i := IndexOf(s.loads, id);
          i < |s.loads| && Target(actions[0]) == Some(id) ==> !Drops(s.loads[i], actions[0]))
      && Undropped(world, Step(world, s, actions[0]), actions[1..], id)
  }

  // Some step measures the load under `id`.
  predicate MeasuredIn(world: World, s: State, actions: seq<Action>, id: string)
    decreases |actions|
  {
    actions != [] &&
    (|| (var i := IndexOf(s.loads, id);
         i < |s.loads| && Target(actions[0]) == Some(id) && Measures(world, s.cache, s.loads[i], actions[0]))
     || MeasuredIn(world, Step(world, s, actions[0]), actions[1..], id))
  }

  lemma {:induction false} RunShows(world: World, s: State, actions: seq<Action>, id: string)
    requires IndexOf(s.loads, id) < |s.loads| && NoFetch(actions) && Undropped(world, s, actions, id)
    ensures var u := Run(world, s, actions);
      && IndexOf(u.loads, id) < |u.loads|
      && (u.loads[IndexOf(u.loads, id)].distance.Some? <==>
            s.loads[IndexOf(s.loads, id)].distance.Some? || MeasuredIn(world, s, actions, id))
    decreases |actions|
  {
    hide Step, IndexOf, Moved, Measures, Drops;
    if actions != [] {
      StepAtId(world, s, actions[0], id);
      MovedDistance(world, s.cache, s.loads[IndexOf(s.loads, id)], actions[0]);
      RunShows(world, Step(world, s, actions[0]), actions[1..], id);
    }
  }

  lemma ConfirmDrops(world: World, s: State, id: string, when: int)
    requires IndexOf(s.loads, id) < |s.loads|
    ensures var c := Step(world, s, ConfirmLoad(id, when));
      IndexOf(c.loads, id) < |c.loads| && c.loads[IndexOf(c.loads, id)].distance.None?
  {
    var l := s.loads[IndexOf(s.loads, id)];
    assert Drops(l, ConfirmLoad(id, when));
    hide Step, IndexOf, Moved;
    StepAtId(world, s, ConfirmLoad(id, when), id);
    MovedDistance(world, s.cache, l, ConfirmLoad(id, when));
  }

  /**
   Until the next reload, a confirmed load shows a distance exactly when it was measured since it
   was confirmed: from any state, whatever else happens to it and to other loads.
   */
  lemma MeasuredSinceConfirmed(world: World, s: State, id: string, when: int, later: seq<Action>)
    requires IndexOf(s.loads, id) < |s.loads| && NoFetch(later)
    requires Undropped(world, Step(world, s, ConfirmLoad(id, when)), later, id)
    ensures var c := Step(world, s, ConfirmLoad(id, when));
            var u := Run(world, c, later);
      && IndexOf(u.loads, id) < |u.loads|
      && (u.loads[IndexOf(u.loads, id)].distance.Some? <==> MeasuredIn(world, c, later, id))
  {
    hide *;
    ConfirmDrops(world, s, id, when);
    RunShows(world, Step(world, s, ConfirmLoad(id, when)), later, id);
  }
}
