/**
 What a selection means: whom it names after each step and each reload, and what keeps it naming
 exactly one bid.
 */
module Selections {
  import opened Text
  import opened Amounts
  import opened LoadPosts
  import opened Distances
  import opened Negotiation
  import opened Reloading

  predicate NoFetch(actions: seq<Action>) {
    forall i :: 0 <= i < |actions| ==> !actions[i].FetchLoads?
  }

  // ----- whom a selection names -----

  /** The selection, if there is one, is that of somebody who has bid. */
  predicate Names(l: Load) {
    l.selectedBidId.Some? ==> BidIndex(l.bids, l.selectedBidId.value) < |l.bids|
  }

  /** The step brings the selected bidder a bid, or selects a bidder who has one. */
  predicate Renames(l: Load, a: Action) {
    || (a.AddBid? && l.selectedBidId == Some(a.quote.bidder))
    || (a.UpdateBidStatus? && a.status == "accepted" && BidIndex(l.bids, a.bidder) < |l.bids|)
  }

  lemma SelectionIsNames(l: Load)
    ensures Selection(l) <==> DistinctBidders(l.bids) && Names(l)
  {
    if DistinctBidders(l.bids) && l.selectedBidId.Some? { NamesOneExact(l.bids, l.selectedBidId.value); }
  }

  lemma PutBidFinds(bids: seq<Quote>, quote: Quote, bidder: string)
    ensures var all := PutBid(bids, quote);
            BidIndex(all, bidder) < |all| <==> BidIndex(bids, bidder) < |bids| || quote.bidder == bidder
  {
    hide Without, BidIndex;
    var kept, all := Without(bids, quote.bidder), PutBid(bids, quote);
    if BidIndex(bids, bidder) < |bids| { PutBidKeepsBidder(bids, quote, bidder); }
    if quote.bidder == bidder { assert all[|kept|].bidder == bidder; }
    if BidIndex(all, bidder) < |all| && quote.bidder != bidder {
      assert all[BidIndex(all, bidder)] == kept[BidIndex(all, bidder)];
      var j :| 0 <= j < |bids| && bids[j] == kept[BidIndex(all, bidder)];
      assert bids[j].bidder == bidder;
    }
  }

  lemma AnsweredNames(l: Load, k: nat, status: string, counter: Option<Amount>, now: int)
    requires k < |l.bids|
    ensures Names(Answered(l, k, status, counter, now)) <==> Names(l) || status == "accepted"
    ensures DistinctBidders(l.bids) ==> DistinctBidders(Answered(l, k, status, counter, now).bids)
  {
    var m := Answered(l, k, status, counter, now);
    SameBiddersSelection(l.bids, m.bids, l.selectedBidId.GetOr(""));
    SameBiddersSelection(l.bids, m.bids, l.bids[k].bidder);
    assert BidIndex(l.bids, l.bids[k].bidder) <= k;
    hide BidIndex, DistinctBidders;
  }

  /** For any strings, after a step a selection names a bidder exactly when it did before or the step renames it. */
  lemma MovedNames(world: World, cache: Cache, l: Load, a: Action)
    ensures Names(Moved(world, cache, l, a)) <==> Names(l) || Renames(l, a)
    ensures DistinctBidders(l.bids) ==> DistinctBidders(Moved(world, cache, l, a).bids)
  {
    hide PutBid, Answered, BidIndex, DistinctBidders, Measure, DestinationDifference;
    MeasureKeepsDeal(world, cache, l);
    if a.AddBid? {
      PutBidDistinctOnly(l.bids, a.quote);
      PutBidFinds(l.bids, a.quote, l.selectedBidId.GetOr(""));
    } else if a.UpdateBidStatus? && BidIndex(l.bids, a.bidder) < |l.bids| {
      AnsweredNames(l, BidIndex(l.bids, a.bidder), a.status, a.counter, a.now);
    }
  }

  lemma PutBidDistinctOnly(bids: seq<Quote>, quote: Quote)
    ensures DistinctBidders(bids) ==> DistinctBidders(PutBid(bids, quote))
  {
    if DistinctBidders(bids) { PutBidDistinct(bids, quote); }
  }

  // No step deletes the load under `id`.
  predicate Undeleted(actions: seq<Action>, id: string) {
    forall i :: 0 <= i < |actions| ==> actions[i] != DeleteLoad(id)
  }

  // Some step renames the selection of the load under `id`.
  predicate RenamedIn(world: World, s: State, actions: seq<Action>, id: string)
    decreases |actions|
  {
    actions != [] &&
    (|| (var i := IndexOf(s.loads, id);
         i < |s.loads| && Target(actions[0]) == Some(id) && Renames(s.loads[i], actions[0]))
     || RenamedIn(world, Step(world, s, actions[0]), actions[1..], id))
  }

  /**
   Until the next reload, from any state and whatever the strings: a selection names a bidder
   exactly when it did at first or was renamed since, and distinct bidders stay distinct. A return
   load starts with a selection that names nobody.
   */
  lemma {:induction false} RenamedExact(world: World, s: State, actions: seq<Action>, id: string)
    requires IndexOf(s.loads, id) < |s.loads| && NoFetch(actions) && Undeleted(actions, id)
    ensures var u := Run(world, s, actions);
      && IndexOf(u.loads, id) < |u.loads|
      && var l, m := s.loads[IndexOf(s.loads, id)], u.loads[IndexOf(u.loads, id)];
      && (Names(m) <==> Names(l) || RenamedIn(world, s, actions, id))
      && (DistinctBidders(l.bids) ==> DistinctBidders(m.bids))
      && (DistinctBidders(l.bids) ==> (Selection(m) <==> Selection(l) || RenamedIn(world, s, actions, id)))
    decreases |actions|
  {
    hide Step, IndexOf, Moved, Names, Renames, Selection, DistinctBidders;
    var l := s.loads[IndexOf(s.loads, id)];
    SelectionIsNames(l);
    if actions != [] {
      StepAtId(world, s, actions[0], id);
      MovedNames(world, s.cache, l, actions[0]);
      var t := Step(world, s, actions[0]);
      RenamedExact(world, t, actions[1..], id);
      SelectionIsNames(t.loads[IndexOf(t.loads, id)]);
    }
    var u := Run(world, s, actions);
    SelectionIsNames(u.loads[IndexOf(u.loads, id)]);
  }

  // ----- how a bid list is read back -----

  // The number of bids by one bidder.
  function By(bids: seq<Quote>, bidder: string): nat {
    if bids == [] then 0 else (if bids[0].bidder == bidder then 1 else 0) + By(bids[1..], bidder)
  }

  lemma {:induction false} ByFound(bids: seq<Quote>, bidder: string)
    ensures BidIndex(bids, bidder) < |bids| <==> By(bids, bidder) > 0
  {
    if bids != [] { ByFound(bids[1..], bidder); }
  }

  lemma {:induction false} ByFirst(bids: seq<Quote>, bidder: string)
    ensures var k := BidIndex(bids, bidder);
            By(bids, bidder) == if k == |bids| then 0 else 1 + By(bids[k + 1..], bidder)
  {
    if bids != [] && bids[0].bidder != bidder {
      ByFirst(bids[1..], bidder);
      var k := BidIndex(bids[1..], bidder);
      assert k < |bids[1..]| ==> bids[1..][k + 1..] == bids[k + 2..];
    }
  }

  lemma NamesFirstOnly(bids: seq<Quote>, bidder: string)
    ensures var k := BidIndex(bids, bidder);
            NamesOne(bids, bidder) <==> k < |bids| && forall j :: k < j < |bids| ==> bids[j].bidder != bidder
  {
    var k := BidIndex(bids, bidder);
    if k < |bids| && forall j :: k < j < |bids| ==> bids[j].bidder != bidder {
      assert bids[k].bidder == bidder;
    }
  }

  lemma ByOne(bids: seq<Quote>, bidder: string)
    ensures NamesOne(bids, bidder) <==> By(bids, bidder) == 1
  {
    hide By, NamesOne;
    var k := BidIndex(bids, bidder);
    NamesFirstOnly(bids, bidder);
    ByFirst(bids, bidder);
    if k < |bids| {
      var rest := bids[k + 1..];
      ByFound(rest, bidder);
      assert forall j :: k < j < |bids| ==> bids[j] == rest[j - k - 1];
      if BidIndex(rest, bidder) < |rest| { assert bids[k + 1 + BidIndex(rest, bidder)].bidder == bidder; }
    }
  }

  lemma {:induction false} ByConcat(bids: seq<Quote>, more: seq<Quote>, bidder: string)
    ensures By(bids + more, bidder) == By(bids, bidder) + By(more, bidder)
  {
    if bids == [] {
      assert bids + more == more;
    } else {
      ByConcat(bids[1..], more, bidder);
      assert (bids + more)[0] == bids[0] && (bids + more)[1..] == bids[1..] + more;
    }
  }

  lemma ByReload(bids: seq<Quote>, short: bool, bidder: string)
    requires bids != []
    ensures By(AfterReload(bids, short), bidder) ==
            By(Readings(bids[0], short), bidder)
            + if |bids| == 1 then 0 else By(AfterReload(bids[1..], short), bidder)
  {
    hide AfterReload, Readings;
    AfterReloadCons(bids, short);
    ByConcat(Readings(bids[0], short), if |bids| == 1 then [] else AfterReload(bids[1..], short), bidder);
  }

  lemma {:induction false} UnreadExact(bids: seq<Quote>, short: bool, bidder: string)
    requires bids != []
    ensures By(AfterReload(bids, short), bidder) == 0 <==>
            forall i :: 0 <= i < |bids| ==> By(Readings(bids[i], short), bidder) == 0
  {
    hide AfterReload, Readings, By;
    ByReload(bids, short, bidder);
    if |bids| > 1 {
      var rest := bids[1..];
      UnreadExact(rest, short, bidder);
      assert forall i :: 0 < i < |bids| ==> bids[i] == rest[i - 1];
      assert forall i :: 0 <= i < |rest| ==> rest[i] == bids[i + 1];
    }
  }

  // The text of the bid at `k` reads back as one bid by `bidder`, that of any other bid as none.
  ghost predicate OnlyReading(bids: seq<Quote>, short: bool, bidder: string, k: nat) {
    forall i :: 0 <= i < |bids| ==> By(Readings(bids[i], short), bidder) == if i == k then 1 else 0
  }

  lemma OnlyReadingCons(bids: seq<Quote>, short: bool, bidder: string, k: nat)
    requires |bids| > 1
    ensures k > 0 ==> (OnlyReading(bids, short, bidder, k) <==>
              By(Readings(bids[0], short), bidder) == 0 && OnlyReading(bids[1..], short, bidder, k - 1))
    ensures k == 0 ==> (OnlyReading(bids, short, bidder, k) <==>
              && By(Readings(bids[0], short), bidder) == 1
              && forall i :: 0 <= i < |bids[1..]| ==> By(Readings(bids[1..][i], short), bidder) == 0)
  {
    hide Readings, By;
    var rest := bids[1..];
    assert forall i :: 0 < i < |bids| ==> bids[i] == rest[i - 1];
    assert forall i :: 0 <= i < |rest| ==> rest[i] == bids[i + 1];
  }

  lemma FirstReading(q: Quote, short: bool)
    requires Clean(q.bidder)
    ensures By(Readings(q, short), q.bidder) >= 1
  {
    DecodedClean(QuoteText(q, short));
    CleanBidderIsRead(q, short);
    hide DecodeBids, QuoteText;
  }

  /** A bidder without separators is read back once exactly when no other piece of text reads as a bid by the same. */
  lemma {:induction false} ReadOnceExact(bids: seq<Quote>, short: bool, k: nat)
    requires k < |bids| && Clean(bids[k].bidder)
    ensures By(AfterReload(bids, short), bids[k].bidder) >= 1
    ensures By(AfterReload(bids, short), bids[k].bidder) == 1 <==> OnlyReading(bids, short, bids[k].bidder, k)
  {
    hide AfterReload, Readings, By, OnlyReading;
    var bidder := bids[k].bidder;
    ByReload(bids, short, bidder);
    if k == 0 { FirstReading(bids[0], short); }
    if |bids| == 1 {
      assert OnlyReading(bids, short, bidder, 0) <==> By(Readings(bids[0], short), bidder) == 1 by {
        OnlyReadingSingle(bids, short, bidder);
      }
    } else {
      OnlyReadingCons(bids, short, bidder, k);
      if k == 0 { UnreadExact(bids[1..], short, bidder); } else { ReadOnceExact(bids[1..], short, k - 1); }
    }
  }

  lemma OnlyReadingSingle(bids: seq<Quote>, short: bool, bidder: string)
    requires |bids| == 1
    ensures OnlyReading(bids, short, bidder, 0) <==> By(Readings(bids[0], short), bidder) == 1
  {
    hide Readings, By;
  }

  lemma ReloadedFound(bids: seq<Quote>, short: bool, bidder: string)
    requires BidIndex(bids, bidder) < |bids|
    ensures BidIndex(AfterReload(bids, short), bidder) < |AfterReload(bids, short)| <==> Clean(bidder)
    ensures NamesOne(AfterReload(bids, short), bidder) <==>
            Clean(bidder) && OnlyReading(bids, short, bidder, BidIndex(bids, bidder))
  {
    DecodedClean(if short then EncodeBidsShort(bids) else EncodeBids(bids));
    hide By, OnlyReading, DecodeBids, EncodeBids, EncodeBidsShort, BidIndex, NamesOne;
    ByFound(AfterReload(bids, short), bidder);
    ByOne(AfterReload(bids, short), bidder);
    if Clean(bidder) { ReadOnceExact(bids, short, BidIndex(bids, bidder)); }
  }

  /**
   The selection after any run and a reload: a selected bidder who has a bid is found again
   exactly when the name holds no separator, whatever the other names and statuses hold; and it
   names exactly one bid exactly when, besides, no other text reads as a bid by that name.
   */
  lemma SelectionAfterReloadExact(world: World, s: State, partial: set<string>, now: int, i: nat, bidder: string)
    requires Reached(world, s, partial) && i < |s.loads|
    requires s.loads[i].selectedBidId == Some(bidder) && BidIndex(s.loads[i].bids, bidder) < |s.loads[i].bids|
    ensures var t, l := Step(world, s, FetchLoads(now)), s.loads[i];
      && i < |t.loads| && t.loads[i].selectedBidId == Some(bidder)
      && (BidIndex(t.loads[i].bids, bidder) < |t.loads[i].bids| <==> Clean(bidder))
      && (NamesOne(t.loads[i].bids, bidder) <==>
            Clean(bidder) && OnlyReading(l.bids, l.id in partial, bidder, BidIndex(l.bids, bidder)))
  {
    hide Step, Reached, AfterReload, OnlyReading, NamesOne, BidIndex, CleanBids, PlainBids, AllFree, Clean;
    ReloadExact(world, s, partial, now);
    assert SameDeal(Step(world, s, FetchLoads(now)).loads[i], s.loads[i]);
    ReloadedFound(s.loads[i].bids, s.loads[i].id in partial, bidder);
  }

  // No other bidder has a name that is read back as `bidder`.
  ghost predicate OnlyNamed(bids: seq<Quote>, bidder: string, k: nat) {
    forall i :: 0 <= i < |bids| && i != k ==> bidder !in ReadNames(bids[i].bidder)
  }

  lemma ReadByName(q: Quote, short: bool, bidder: string)
    requires short || ';' !in q.status
    ensures By(Readings(q, short), bidder) > 0 <==> bidder in ReadNames(q.bidder)
  {
    hide Readings, ReadNames, By;
    ReadingsByName(q, short);
    ByFound(Readings(q, short), bidder);
    if bidder in ReadNames(q.bidder) {
      var i :| 0 <= i < |ReadNames(q.bidder)| && ReadNames(q.bidder)[i] == bidder;
      assert Readings(q, short)[i].bidder == bidder;
    }
  }

  lemma CleanNameReadsItself(q: Quote, short: bool)
    requires Clean(q.bidder) && (short || ';' !in q.status)
    ensures By(Readings(q, short), q.bidder) == 1
  {
    SplitWhole(q.bidder, ':');
    hide Readings;
    ColonBidderIsCut(q, short);
  }

  lemma OnlyReadingByNames(bids: seq<Quote>, short: bool, k: nat)
    requires k < |bids| && Clean(bids[k].bidder)
    requires short || forall i :: 0 <= i < |bids| ==> ';' !in bids[i].status
    ensures OnlyReading(bids, short, bids[k].bidder, k) <==> OnlyNamed(bids, bids[k].bidder, k)
  {
    hide Readings, ReadNames, By;
    CleanNameReadsItself(bids[k], short);
    forall i | 0 <= i < |bids|
      ensures By(Readings(bids[i], short), bids[k].bidder) > 0 <==> bids[k].bidder in ReadNames(bids[i].bidder)
    {
      ReadByName(bids[i], short, bids[k].bidder);
    }
  }

  /**
   The same on names alone, for a load whose statuses hold no ';' or were cut off anyway: the
   selection names one bid after a reload exactly when its name holds no separator and no other
   bidder's name is read back as it.
   */
  lemma SelectionByNamesExact(world: World, s: State, partial: set<string>, now: int, i: nat, bidder: string)
    requires Reached(world, s, partial) && i < |s.loads|
    requires s.loads[i].selectedBidId == Some(bidder) && BidIndex(s.loads[i].bids, bidder) < |s.loads[i].bids|
    requires s.loads[i].id in partial || forall j :: 0 <= j < |s.loads[i].bids| ==> ';' !in s.loads[i].bids[j].status
    ensures var t, l := Step(world, s, FetchLoads(now)), s.loads[i];
      && i < |t.loads|
      && (NamesOne(t.loads[i].bids, bidder) <==> Clean(bidder) && OnlyNamed(l.bids, bidder, BidIndex(l.bids, bidder)))
  {
    hide *;
    SelectionAfterReloadExact(world, s, partial, now, i, bidder);
    var bids := s.loads[i].bids;
    if Clean(bidder) { OnlyReadingByNames(bids, s.loads[i].id in partial, BidIndex(bids, bidder)); }
  }

  /** A name that goes on after a colon doubles the selected one: next to "A", a bid by "A:x" reads as one by "A". */
  lemma NamesakeDoublesSelection(bids: seq<Quote>, short: bool, k: nat, j: nat, x: string)
    requires k < |bids| && j < |bids| && Clean(bids[k].bidder) && BidIndex(bids, bids[k].bidder) == k
    requires bids[j].bidder == bids[k].bidder + ":" + x && ';' !in x && Clean(bids[j].status)
    ensures !NamesOne(AfterReload(bids, short), bids[k].bidder)
  {
    var bidder := bids[k].bidder;
    assert |bids[j].bidder| > |bidder|;
    hide AfterReload, Readings, NamesOne, BidIndex, By;
    NamesakeIsRead(bids[j], short, bidder, x);
    ReloadedFound(bids, short, bidder);
  }

  lemma NamesakeIsRead(q: Quote, short: bool, bidder: string, x: string)
    requires q.bidder == bidder + ":" + x && Clean(bidder) && ';' !in x && Clean(q.status)
    ensures By(Readings(q, short), bidder) == 1
  {
    hide Readings;
    assert q.bidder == bidder + [':'] + x;
    SplitPrefix(bidder, x, ':');
    ColonBidderIsCut(q, short);
  }

  /** Whom the selection names after a reload, whatever the strings. */
  predicate NamedAfterReload(l: Load, named: bool, short: bool) {
    l.selectedBidId.Some? ==>
      var selected := l.selectedBidId.value;
      if named then Clean(selected)
      else if l.bids == [] then selected == UNKNOWN.bidder
      else exists i :: 0 <= i < |l.bids| && By(Readings(l.bids[i], short), selected) > 0
  }

  /**
   A selection that named a bidder does after a reload exactly when its name holds no separator.
   One that named nobody does exactly when there was no bid and it selects 'Unknown', or some text
   reads as a bid by it.
   */
  lemma ReloadNamesExact(l: Load, m: Load, short: bool)
    requires m.selectedBidId == l.selectedBidId && m.bids == AfterReload(l.bids, short)
    ensures Names(m) <==> NamedAfterReload(l, Names(l), short)
  {
    hide AfterReload, Readings, BidIndex, By;
    if l.selectedBidId.Some? {
      var selected := l.selectedBidId.value;
      ByFound(m.bids, selected);
      if Names(l) {
        ReloadedFound(l.bids, short, selected);
      } else if l.bids == [] {
        UnknownOnly(short, selected);
      } else {
        UnreadExact(l.bids, short, selected);
      }
    }
  }

  lemma UnknownOnly(short: bool, bidder: string)
    ensures AfterReload([], short) == [UNKNOWN] && (By([UNKNOWN], bidder) > 0 <==> bidder == UNKNOWN.bidder)
  {
    EmptyBidsDecode();
    hide DecodeBids, EncodeBids, EncodeBidsShort;
    assert [UNKNOWN][1..] == [];
  }

  // Bids without separators are read back under the names they have.
  lemma CleanReadsNobodyElse(l: Load, short: bool)
    requires CleanBids(l.bids) && !Names(l)
    ensures NamedAfterReload(l, false, short) <==> l.bids == [] && l.selectedBidId.value == UNKNOWN.bidder
  {
    hide AfterReload, Readings, BidIndex, By, DistinctBidders;
    var selected := l.selectedBidId.value;
    if l.bids != [] {
      AfterReloadClean(l.bids, short);
      SameBiddersSelection(l.bids, AfterReload(l.bids, short), selected);
      ByFound(AfterReload(l.bids, short), selected);
      UnreadExact(l.bids, short, selected);
    }
  }

  // ----- a selection that names somebody, whatever the strings -----

  // A selection comes with bids, and a selected name without separators is that of a bidder.
  ghost predicate Anchored(l: Load) {
    l.selectedBidId.Some? ==> l.bids != [] && (Clean(l.selectedBidId.value) ==> Names(l))
  }

  ghost predicate AnchoredUnder(s: State, id: string) {
    forall i :: 0 <= i < |s.loads| && s.loads[i].id == id ==> Anchored(s.loads[i])
  }

  ghost predicate PostsAnchored(actions: seq<Action>, id: string) {
    forall i :: 0 <= i < |actions| && actions[i].AddLoad? && actions[i].load.id == id ==> Anchored(actions[i].load)
  }

  lemma MovedAnchored(world: World, cache: Cache, l: Load, a: Action)
    requires Anchored(l)
    ensures Anchored(Moved(world, cache, l, a))
  {
    hide Without, BidIndex, Measure, DestinationDifference, Names;
    MeasureKeepsDeal(world, cache, l);
    MovedNames(world, cache, l, a);
  }

  lemma StepAnchors(world: World, s: State, partial: set<string>, a: Action, id: string)
    requires AnchoredUnder(s, id) && (a.AddLoad? && a.load.id == id ==> Anchored(a.load))
    requires a.FetchLoads? ==> Aligned(s) && BidsAligned(s, partial)
    ensures AnchoredUnder(Step(world, s, a), id)
  {
    var t := Step(world, s, a);
    if a.FetchLoads? {
      FetchAligned(world, s, a.now);
      hide Step, Aligned, BidIndex;
      forall i | 0 <= i < |t.loads| && t.loads[i].id == id ensures Anchored(t.loads[i]) {
        assert BidsMirror(s.loads[i], s.rows[i], s.loads[i].id in partial);
        assert SameDeal(t.loads[i], s.loads[i]) && Anchored(s.loads[i]);
        AnchoredReload(s.loads[i], t.loads[i], s.loads[i].id in partial);
      }
    } else {
      hide Step, Moved, Anchored;
      forall i | 0 <= i < |t.loads| && t.loads[i].id == id ensures Anchored(t.loads[i]) {
        StepOrigin(world, s, a, t.loads[i]);
        if Target(a).Some? && IndexOf(s.loads, Target(a).value) < |s.loads| {
          MovedKeepsId(world, s.cache, s.loads[IndexOf(s.loads, Target(a).value)], a);
          if Target(a).value == id { MovedAnchored(world, s.cache, s.loads[IndexOf(s.loads, id)], a); }
        }
      }
    }
  }

  lemma AnchoredReload(l: Load, m: Load, short: bool)
    requires Anchored(l) && m.selectedBidId == l.selectedBidId && m.bids == AfterReload(l.bids, short)
    ensures Anchored(m)
  {
    DecodedClean(if short then EncodeBidsShort(l.bids) else EncodeBids(l.bids));
    hide BidIndex, DecodeBids, EncodeBids, EncodeBidsShort, CleanBids;
    if l.selectedBidId.Some? && Clean(l.selectedBidId.value) {
      ReloadedFound(l.bids, short, l.selectedBidId.value);
    }
  }

  lemma {:induction false} RunAnchors(world: World, s: State, partial: set<string>, actions: seq<Action>, id: string)
    requires AnchoredUnder(s, id) && PostsAnchored(actions, id)
    requires NoFetch(actions) || (Aligned(s) && BidsAligned(s, partial) && UniqueIds(world, s, actions))
    ensures AnchoredUnder(Run(world, s, actions), id)
    decreases |actions|
  {
    hide Step, Anchored, Aligned, BidsAligned, AnchoredUnder, FreshId, Track;
    if actions != [] {
      var a := actions[0];
      StepAnchors(world, s, partial, a, id);
      if !NoFetch(actions) { StepAligned(world, s, partial, a); }
      RunAnchors(world, Step(world, s, a), Track(world, s, partial, a), actions[1..], id);
    }
  }

  /**
   In every run, guarded or not and whatever the strings, for a load posted with a selection that
   names a bidder, or with none: its selection comes with bids, and a selected name without
   separators is that of a bidder.
   */
  lemma CleanSelectionIsFound(world: World, actions: seq<Action>, id: string)
    requires PostsAnchored(actions, id) && (NoFetch(actions) || UniqueIds(world, EMPTY, actions))
    ensures AnchoredUnder(Run(world, EMPTY, actions), id)
  {
    hide UniqueIds, Run;
    EmptyAligned();
    RunAnchors(world, EMPTY, {}, actions, id);
  }

  // ----- selection of a load whose strings hold no separator -----

  ghost predicate SelectsUnder(s: State, id: string) {
    forall i :: 0 <= i < |s.loads| && s.loads[i].id == id ==> Selection(s.loads[i])
  }

  // The loads posted under `id` have distinct bidders and a selection, if any, that names one.
  ghost predicate PostsSelect(actions: seq<Action>, id: string) {
    forall i :: 0 <= i < |actions| && actions[i].AddLoad? && actions[i].load.id == id ==> Selection(actions[i].load)
  }

  lemma ReloadedSelection(l: Load, m: Load, short: bool)
    requires Selection(l) && CleanBids(l.bids)
    requires m.selectedBidId == l.selectedBidId && m.bids == AfterReload(l.bids, short)
    ensures Selection(m)
  {
    hide AfterReload;
    AfterReloadClean(l.bids, short);
    if l.bids != [] {
      var selected := l.selectedBidId.GetOr("");
      SameBiddersSelection(l.bids, m.bids, selected);
      NamesOneExact(l.bids, selected);
      NamesOneExact(m.bids, selected);
    }
  }

  lemma StepSelects(world: World, s: State, partial: set<string>, a: Action, id: string)
    requires SelectsUnder(s, id) && (a.AddLoad? && a.load.id == id ==> Selection(a.load))
    requires a.FetchLoads? ==> Aligned(s) && BidsAligned(s, partial) && CleanUnder(s, id)
    ensures SelectsUnder(Step(world, s, a), id)
  {
    var t := Step(world, s, a);
    if a.FetchLoads? {
      FetchAligned(world, s, a.now);
      hide Step, Selection, Aligned, AfterReload, CleanBids;
      forall i | 0 <= i < |t.loads| && t.loads[i].id == id ensures Selection(t.loads[i]) {
        assert BidsMirror(s.loads[i], s.rows[i], s.loads[i].id in partial);
        assert SameDeal(t.loads[i], s.loads[i]);
        ReloadedSelection(s.loads[i], t.loads[i], s.loads[i].id in partial);
      }
    } else {
      hide Step, Selection, Moved;
      forall i | 0 <= i < |t.loads| && t.loads[i].id == id ensures Selection(t.loads[i]) {
        StepOrigin(world, s, a, t.loads[i]);
        if Target(a).Some? && IndexOf(s.loads, Target(a).value) < |s.loads| {
          MovedKeepsId(world, s.cache, s.loads[IndexOf(s.loads, Target(a).value)], a);
          if Target(a).value == id { MovedSelection(world, s.cache, s.loads[IndexOf(s.loads, id)], a); }
        }
      }
    }
  }

  lemma {:induction false} RunSelects(world: World, s: State, partial: set<string>, actions: seq<Action>, id: string)
    requires SelectsUnder(s, id) && PostsSelect(actions, id)
    requires NoFetch(actions) ||
             (&& Aligned(s) && BidsAligned(s, partial) && UniqueIds(world, s, actions)
              && CleanUnder(s, id) && CleanFor(actions, id))
    ensures SelectsUnder(Run(world, s, actions), id)
    decreases |actions|
  {
    hide Step, Selection, Aligned, BidsAligned, SelectsUnder, CleanUnder, FreshId, CleanAction, Track;
    if actions != [] {
      var a := actions[0];
      StepSelects(world, s, partial, a, id);
      if !NoFetch(actions) {
        StepAligned(world, s, partial, a);
        StepCleanUnder(world, s, a, id);
      }
      RunSelects(world, Step(world, s, a), Track(world, s, partial, a), actions[1..], id);
    }
  }

  /**
   In every run, guarded or not, for a load posted with distinct bidders and a selection that names
   one of them, or none: its bidders stay distinct and its selection names exactly one bid, for any
   strings as long as nothing is reloaded, and through reloads too when the actions that name the
   load bring it no separator, whatever the other loads hold.
   */
  lemma SelectionAlwaysNamesOneBid(world: World, actions: seq<Action>, id: string)
    requires PostsSelect(actions, id)
    requires NoFetch(actions) || (UniqueIds(world, EMPTY, actions) && CleanFor(actions, id))
    ensures SelectsUnder(Run(world, EMPTY, actions), id)
  {
    hide UniqueIds, Run, CleanFor;
    EmptyAligned();
    RunSelects(world, EMPTY, {}, actions, id);
  }
}
