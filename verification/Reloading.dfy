/**
 What the table knows about the loads in memory, through every run, and therefore what a
 reload gives back. `updateLoadBids` stores only `bidder:amount`, so the answer depends on
 which operation wrote the row last.
 */
module Reloading {
  import opened Text
  import opened LoadPosts
  import opened Distances
  import opened Negotiation

  // ----- the relation between a load and its row -----

  // Every column but the bids.
  ghost predicate Mirrors(l: Load, r: Row) {
    && r.id == l.id && r.posting == l.posting && r.equipment == Join(l.equipment, ';')
    && r.status == l.status && r.selectedBidId == l.selectedBidId
    && r.brokerConfirmed == Flag(l.brokerConfirmed) && r.carrierConfirmed == Flag(l.carrierConfirmed)
  }

  // `partial` says that the row was last written by `updateLoadBids` alone.
  ghost predicate BidsMirror(l: Load, r: Row, partial: bool) {
    DecodeBids(r.bids) == AfterReload(l.bids, partial)
  }

  ghost predicate Aligned(s: State) {
    && |s.rows| == |s.loads| && DistinctIds(s.loads)
    && forall i :: 0 <= i < |s.loads| ==> Mirrors(s.loads[i], s.rows[i])
  }

  ghost predicate BidsAligned(s: State, partial: set<string>) {
    && |s.rows| == |s.loads|
    && forall i :: 0 <= i < |s.loads| ==> BidsMirror(s.loads[i], s.rows[i], s.loads[i].id in partial)
  }

  // ----- which rows were last written by updateLoadBids alone -----

  function Track(world: World, s: State, partial: set<string>, a: Action): set<string> {
    match a
    case AddLoad(load) => partial - {load.id}
    case DeleteLoad(id) => partial - {id}
    case FetchLoads(_) => {}
    case AddBid(id, _) => if IndexOf(s.loads, id) < |s.loads| then partial + {id} else partial
    case UpdateBidStatus(id, bidder, _, _, _) =>
      var i := IndexOf(s.loads, id);
      if i < |s.loads| && BidIndex(s.loads[i].bids, bidder) < |s.loads[i].bids| then partial - {id} else partial
    case ConfirmLoad(id, _) => if IndexOf(s.loads, id) < |s.loads| then partial - {id} else partial
    case DeclineLoad(id, _) => if IndexOf(s.loads, id) < |s.loads| then partial - {id} else partial
    case MeasureOne(id, _) =>
      var i := IndexOf(s.loads, id);
      if i < |s.loads| && Measure(world, s.cache, s.loads[i]).writeBack then partial - {id} else partial
    case Compare(_, _) => partial
    case AskDistance(_, _) => partial
  }

  /** The ids whose rows `updateLoadBids` wrote last, after a run. */
  function PartialRows(world: World, s: State, partial: set<string>, actions: seq<Action>): set<string>
    decreases |actions|
  {
    if actions == [] then partial
    else PartialRows(world, Step(world, s, actions[0]), Track(world, s, partial, actions[0]), actions[1..])
  }

  // ----- separator-free strings, load by load -----

  /** The bids of the loads under `id` hold no separator. */
  ghost predicate CleanUnder(s: State, id: string) {
    forall i :: 0 <= i < |s.loads| && s.loads[i].id == id ==> CleanBids(s.loads[i].bids)
  }

  // What `a` brings to the loads under `id` holds no separator; it may bring anything to the others.
  ghost predicate CleanAction(a: Action, id: string) {
    match a
    case AddLoad(load) => load.id == id ==> CleanBids(load.bids)
    case AddBid(i, quote) => i == id ==> CleanQuote(quote)
    case UpdateBidStatus(i, _, status, _, _) => i == id ==> Clean(status)
    case _ => true
  }

  ghost predicate CleanFor(actions: seq<Action>, id: string) {
    forall i :: 0 <= i < |actions| ==> CleanAction(actions[i], id)
  }

  // ----- one write to one load and its row -----

  lemma ToRowMirrors(l: Load)
    ensures Mirrors(l, ToRow(l))
    ensures BidsMirror(l, ToRow(l), false)
  {
  }

  lemma PutBidClean(bids: seq<Quote>, quote: Quote)
    requires CleanBids(bids) && CleanQuote(quote)
    ensures CleanBids(PutBid(bids, quote))
  {
    hide Without;
    var kept := Without(bids, quote.bidder);
    forall i | 0 <= i < |kept| ensures CleanQuote(kept[i]) {
      assert kept[i] in bids;
    }
  }

  /** Replacing the load at `i` and the row of the same id keeps loads and rows in step. */
  lemma SetAligned(s: State, i: nat, l: Load, r: Row, t: State, partial: set<string>, partial': set<string>)
    requires Aligned(s) && i < |s.loads| && l.id == s.loads[i].id && Mirrors(l, r)
    requires t.loads == s.loads[i := l] && t.rows == ReplaceRow(s.rows, r)
    requires forall id :: id != l.id ==> (id in partial <==> id in partial')
    ensures t.rows == s.rows[i := r] && Aligned(t)
    ensures BidsAligned(s, partial) && BidsMirror(l, r, l.id in partial') ==> BidsAligned(t, partial')
  {
    hide DecodeBids, AfterReload, Join;
    assert s.rows[i].id == l.id;
    forall j | 0 <= j < |s.rows| && j != i ensures s.rows[j].id != l.id && t.loads[j].id != l.id {
      assert s.rows[j].id == s.loads[j].id;
      if j < i { assert s.loads[j].id != s.loads[i].id; } else { assert s.loads[i].id != s.loads[j].id; }
    }
    assert t.rows == s.rows[i := r];
  }

  lemma PatchIsReplace(rows: seq<Row>, i: nat, text: string)
    requires i < |rows| && forall j :: 0 <= j < |rows| && j != i ==> rows[j].id != rows[i].id
    ensures PatchBids(rows, rows[i].id, text) == rows[i := rows[i].(bids := text)]
    ensures ReplaceRow(rows, rows[i].(bids := text)) == rows[i := rows[i].(bids := text)]
  {
  }

  lemma ReplaceAfterPatch(rows: seq<Row>, row: Row, text: string)
    ensures ReplaceRow(PatchBids(rows, row.id, text), row) == ReplaceRow(rows, row)
  {
  }

  lemma AlignedIds(s: State, i: nat, j: nat)
    requires Aligned(s) && i < |s.loads| && j < |s.loads| && i != j
    ensures s.rows[i].id == s.loads[i].id != s.rows[j].id == s.loads[j].id
  {
    assert Mirrors(s.loads[i], s.rows[i]) && Mirrors(s.loads[j], s.rows[j]);
    if i < j { assert s.loads[i].id != s.loads[j].id; } else { assert s.loads[j].id != s.loads[i].id; }
  }

  // ----- each operation -----

  lemma NewRowIsLast(s: State, row: Row)
    requires Aligned(s) && FreshId(s, row.id)
    ensures InsertRow(s.rows, row) == s.rows + [row]
  {
    hide Mirrors;
    forall r | r in s.rows ensures r.id != row.id {
      var i :| 0 <= i < |s.rows| && s.rows[i] == r;
      assert Mirrors(s.loads[i], s.rows[i]);
      assert r.id == s.loads[i].id by { MirrorsId(s.loads[i], r); }
    }
    WhereAll(s.rows, (r: Row) => r.id != row.id);
  }

  lemma MirrorsId(l: Load, r: Row)
    requires Mirrors(l, r)
    ensures r.id == l.id
  {
  }

  lemma AddLoadAligned(world: World, s: State, partial: set<string>, l: Load)
    requires Aligned(s) && FreshId(s, l.id)
    ensures Aligned(Step(world, s, AddLoad(l)))
    ensures BidsAligned(s, partial) ==> BidsAligned(Step(world, s, AddLoad(l)), Track(world, s, partial, AddLoad(l)))
  {
    hide ToRow, InsertRow, Mirrors, BidsMirror;
    ToRowMirrors(l);
    MirrorsId(l, ToRow(l));
    NewRowIsLast(s, ToRow(l));
  }

  lemma AddBidAligned(world: World, s: State, partial: set<string>, id: string, q: Quote)
    requires Aligned(s)
    ensures Aligned(Step(world, s, AddBid(id, q)))
    ensures BidsAligned(s, partial) ==>
              BidsAligned(Step(world, s, AddBid(id, q)), Track(world, s, partial, AddBid(id, q)))
  {
    hide DecodeBids, Join, EncodeBidsShort, Without;
    var i := IndexOf(s.loads, id);
    if i < |s.loads| {
      var l := s.loads[i].(bids := PutBid(s.loads[i].bids, q));
      var text := EncodeBidsShort(l.bids);
      assert Mirrors(s.loads[i], s.rows[i]);
      forall j | 0 <= j < |s.rows| && j != i ensures s.rows[j].id != s.rows[i].id { AlignedIds(s, i, j); }
      PatchIsReplace(s.rows, i, text);
      var r := s.rows[i].(bids := text);
      SetAligned(s, i, l, r, Step(world, s, AddBid(id, q)), partial, Track(world, s, partial, AddBid(id, q)));
    }
  }

  // The operations that write the whole row of the moved load.
  lemma FullWriteAligned(s: State, i: nat, l: Load, t: State, partial: set<string>, partial': set<string>)
    requires Aligned(s) && i < |s.loads| && l.id == s.loads[i].id
    requires t.loads == s.loads[i := l] && t.rows == ReplaceRow(s.rows, ToRow(l))
    requires forall id :: id in partial' <==> id in partial && id != l.id
    ensures Aligned(t)
    ensures BidsAligned(s, partial) ==> BidsAligned(t, partial')
  {
    hide DecodeBids, AfterReload, Join, ToRow, ReplaceRow;
    ToRowMirrors(l);
    SetAligned(s, i, l, ToRow(l), t, partial, partial');
  }

  lemma UpdateBidStatusAligned(world: World, s: State, partial: set<string>, a: Action)
    requires Aligned(s) && a.UpdateBidStatus?
    ensures Aligned(Step(world, s, a))
    ensures BidsAligned(s, partial) ==> BidsAligned(Step(world, s, a), Track(world, s, partial, a))
  {
    hide DecodeBids, AfterReload, Join, ToRow, ReplaceRow, PatchBids, EncodeBidsShort;
    var i := IndexOf(s.loads, a.id);
    if i < |s.loads| {
      var k := BidIndex(s.loads[i].bids, a.bidder);
      if k < |s.loads[i].bids| {
        var l := Answered(s.loads[i], k, a.status, a.counter, a.now);
        assert ToRow(l).id == a.id by { ToRowMirrors(l); }
        ReplaceAfterPatch(s.rows, ToRow(l), EncodeBidsShort(l.bids));
        FullWriteAligned(s, i, l, Step(world, s, a), partial, Track(world, s, partial, a));
      }
    }
  }

  lemma CarrierAnswerAligned(world: World, s: State, partial: set<string>, a: Action)
    requires Aligned(s) && (a.ConfirmLoad? || a.DeclineLoad?)
    ensures Aligned(Step(world, s, a))
    ensures BidsAligned(s, partial) ==> BidsAligned(Step(world, s, a), Track(world, s, partial, a))
  {
    hide DecodeBids, AfterReload, Join, ToRow, ReplaceRow;
    var i := IndexOf(s.loads, a.id);
    if i < |s.loads| {
      FullWriteAligned(s, i, Moved(world, s.cache, s.loads[i], a), Step(world, s, a), partial,
                       Track(world, s, partial, a));
    }
  }

  // `kept` is `xs` read at the places `at`.
  ghost predicate ReadAt<T>(kept: seq<T>, xs: seq<T>, at: seq<nat>) {
    && |kept| == |at|
    && forall i :: 0 <= i < |at| ==> at[i] < |xs| && kept[i] == xs[at[i]]
  }

  lemma ReadAtSnoc<T>(kept: seq<T>, xs: seq<T>, at: seq<nat>, x: T)
    requires ReadAt(kept, xs, at)
    ensures ReadAt(kept, xs + [x], at) && ReadAt(kept + [x], xs + [x], at + [|xs|])
  {
  }

  ghost predicate Rising(at: seq<nat>, bound: nat) {
    && (forall i :: 0 <= i < |at| ==> at[i] < bound)
    && forall i, j :: 0 <= i < j < |at| ==> at[i] < at[j]
  }

  lemma RisingSnoc(at: seq<nat>, bound: nat)
    requires Rising(at, bound)
    ensures Rising(at, bound + 1) && Rising(at + [bound], bound + 1)
  {
  }

  /** Memory and table drop the same places. */
  lemma {:induction false} DropTogether(loads: seq<Load>, rows: seq<Row>, id: string) returns (at: seq<nat>)
    requires |loads| == |rows| && forall i :: 0 <= i < |loads| ==> rows[i].id == loads[i].id
    ensures ReadAt(DropLoad(loads, id), loads, at)
    ensures ReadAt(DeleteRow(rows, id), rows, at)
    ensures Rising(at, |loads|)
  {
    var n := |loads|;
    if n == 0 {
      at := [];
    } else {
      hide DropLoad, DeleteRow, ReadAt, Rising;
      var rest := DropTogether(loads[..n - 1], rows[..n - 1], id);
      assert loads == loads[..n - 1] + [loads[n - 1]] && rows == rows[..n - 1] + [rows[n - 1]];
      at := DropOneMore(loads[..n - 1], rows[..n - 1], id, rest, loads[n - 1], rows[n - 1]);
    }
  }

  lemma DropOneMore(loads: seq<Load>, rows: seq<Row>, id: string, rest: seq<nat>, l: Load, r: Row)
    returns (at: seq<nat>)
    requires |loads| == |rows| && l.id == r.id && Rising(rest, |loads|)
    requires ReadAt(DropLoad(loads, id), loads, rest) && ReadAt(DeleteRow(rows, id), rows, rest)
    ensures Rising(at, |loads| + 1)
    ensures ReadAt(DropLoad(loads + [l], id), loads + [l], at) && ReadAt(DeleteRow(rows + [r], id), rows + [r], at)
  {
    hide DropLoad, DeleteRow, ReadAt, Rising;
    DropSnoc(loads, l, id);
    DeleteRowSnoc(rows, r, id);
    ReadAtSnoc(DropLoad(loads, id), loads, rest, l);
    ReadAtSnoc(DeleteRow(rows, id), rows, rest, r);
    RisingSnoc(rest, |loads|);
    at := if l.id != id then rest + [|loads|] else rest;
  }

  lemma SelectAligned(s: State, t: State, at: seq<nat>)
    requires Aligned(s) && ReadAt(t.loads, s.loads, at) && ReadAt(t.rows, s.rows, at)
    requires Rising(at, |s.loads|)
    ensures Aligned(t)
  {
    hide Mirrors;
    forall i, j | 0 <= i < j < |t.loads| ensures t.loads[i].id != t.loads[j].id {
      assert at[i] < at[j];
    }
    forall i | 0 <= i < |t.loads| ensures Mirrors(t.loads[i], t.rows[i]) {
      assert Mirrors(s.loads[at[i]], s.rows[at[i]]);
    }
  }

  lemma SelectBidsAligned(s: State, t: State, at: seq<nat>, partial: set<string>, id: string)
    requires BidsAligned(s, partial) && ReadAt(t.loads, s.loads, at) && ReadAt(t.rows, s.rows, at)
    requires forall i :: 0 <= i < |t.loads| ==> t.loads[i].id != id
    ensures BidsAligned(t, partial - {id})
  {
    hide BidsMirror;
    forall i | 0 <= i < |t.loads| ensures BidsMirror(t.loads[i], t.rows[i], t.loads[i].id in partial - {id}) {
      assert BidsMirror(s.loads[at[i]], s.rows[at[i]], s.loads[at[i]].id in partial);
    }
  }

  lemma DeleteAligned(world: World, s: State, partial: set<string>, id: string)
    requires Aligned(s)
    ensures Aligned(Step(world, s, DeleteLoad(id)))
    ensures BidsAligned(s, partial) ==>
              BidsAligned(Step(world, s, DeleteLoad(id)), Track(world, s, partial, DeleteLoad(id)))
  {
    hide DropLoad, DeleteRow, BidsAligned, Aligned, Rising, ReadAt;
    RowsHaveIds(s);
    DroppedIsGone(s.loads, id);
    var at := DropTogether(s.loads, s.rows, id);
    var t := Step(world, s, DeleteLoad(id));
    SelectAligned(s, t, at);
    assert forall i :: 0 <= i < |t.loads| ==> t.loads[i] in t.loads;
    if BidsAligned(s, partial) {
      SelectBidsAligned(s, t, at, partial, id);
    }
  }

  lemma RowsHaveIds(s: State)
    requires Aligned(s)
    ensures |s.rows| == |s.loads| && forall i :: 0 <= i < |s.loads| ==> s.rows[i].id == s.loads[i].id
  {
    forall i | 0 <= i < |s.loads| ensures s.rows[i].id == s.loads[i].id {
      assert Mirrors(s.loads[i], s.rows[i]);
    }
  }

  // ----- reload and the distance write-back -----

  // A load changed where its row does not look.
  lemma QuietWriteAligned(s: State, i: nat, l: Load, t: State, partial: set<string>)
    requires Aligned(s) && i < |s.loads| && SameDeal(l, s.loads[i])
    requires l.bids == s.loads[i].bids && l.equipment == s.loads[i].equipment
    requires t.loads == s.loads[i := l] && t.rows == s.rows
    ensures Aligned(t) && (BidsAligned(s, partial) ==> BidsAligned(t, partial))
  {
    hide DecodeBids, AfterReload, Join;
    assert Mirrors(s.loads[i], s.rows[i]);
    forall j | 0 <= j < |t.loads| ensures Mirrors(t.loads[j], t.rows[j]) { assert Mirrors(s.loads[j], s.rows[j]); }
    if BidsAligned(s, partial) {
      forall j | 0 <= j < |t.loads| ensures BidsMirror(t.loads[j], t.rows[j], t.loads[j].id in partial) {
        assert BidsMirror(s.loads[j], s.rows[j], s.loads[j].id in partial);
      }
    }
  }

  lemma MeasureAtAligned(world: World, s: State, i: nat, now: int, partial: set<string>)
    requires Aligned(s) && i < |s.loads|
    ensures Aligned(MeasureAt(world, s, i, now))
    ensures var wrote := Measure(world, s.cache, s.loads[i]).writeBack;
            BidsAligned(s, partial) ==>
              BidsAligned(MeasureAt(world, s, i, now), if wrote then partial - {s.loads[i].id} else partial)
  {
    hide Aligned, BidsAligned, Mirrors, BidsMirror, ToRow, ReplaceRow, Measure;
    var m := Measure(world, s.cache, s.loads[i]);
    MeasureKeepsDeal(world, s.cache, s.loads[i]);
    var t := MeasureAt(world, s, i, now);
    if m.writeBack {
      var stored := CopyWith(m.load, None, None, None, None, now);
      StoredMirrors(m.load, now);
      SetAligned(s, i, m.load, ToRow(stored), t, partial, partial - {m.load.id});
    } else {
      QuietWriteAligned(s, i, m.load, t, partial);
    }
  }

  // The row of a copy is a row of the load itself.
  lemma StoredMirrors(l: Load, now: int)
    ensures Mirrors(l, ToRow(CopyWith(l, None, None, None, None, now)))
    ensures BidsMirror(l, ToRow(CopyWith(l, None, None, None, None, now)), false)
  {
    hide DecodeBids, EncodeBids, Join;
  }

  lemma CompareAligned(world: World, s: State, partial: set<string>, a: Action)
    requires Aligned(s) && a.Compare?
    ensures Aligned(Step(world, s, a)) && (BidsAligned(s, partial) ==> BidsAligned(Step(world, s, a), partial))
  {
    hide Aligned, BidsAligned, PairDistance;
    var i := IndexOf(s.loads, a.id);
    if i < |s.loads| {
      QuietWriteAligned(s, i, Moved(world, s.cache, s.loads[i], a), Step(world, s, a), partial);
    }
  }

  lemma MeasureOneAligned(world: World, s: State, partial: set<string>, id: string, now: int)
    requires Aligned(s)
    ensures Aligned(Step(world, s, MeasureOne(id, now)))
    ensures BidsAligned(s, partial) ==>
              BidsAligned(Step(world, s, MeasureOne(id, now)), Track(world, s, partial, MeasureOne(id, now)))
  {
    hide Aligned, BidsAligned, MeasureAt, Measure;
    var i := IndexOf(s.loads, id);
    if i < |s.loads| { MeasureAtAligned(world, s, i, now, partial); }
  }

  lemma AskAligned(world: World, s: State, partial: set<string>, a: string, b: string)
    requires Aligned(s)
    ensures Aligned(Step(world, s, AskDistance(a, b)))
    ensures BidsAligned(s, partial) ==> BidsAligned(Step(world, s, AskDistance(a, b)), partial)
  {
    hide Mirrors, BidsMirror, DistinctIds, PairDistance;
  }

  lemma {:induction false} MeasureFromAligned(world: World, s: State, i: nat, now: int)
    requires Aligned(s)
    ensures var t := MeasureFrom(world, s, i, now);
      && Aligned(t) && (BidsAligned(s, {}) ==> BidsAligned(t, {}))
      && |t.loads| == |s.loads|
      && forall j :: 0 <= j < |s.loads| ==>
           && SameDeal(t.loads[j], s.loads[j])
           && t.loads[j].bids == s.loads[j].bids && t.loads[j].equipment == s.loads[j].equipment
           && t.loads[j].contact == s.loads[j].contact
    decreases |s.loads| - i
  {
    hide Aligned, BidsAligned, Measure, ReplaceRow;
    if i < |s.loads| {
      var t := MeasureAt(world, s, i, now);
      MeasureAtAligned(world, s, i, now, {});
      assert {} - {s.loads[i].id} == {};
      MeasureKeepsDeal(world, s.cache, s.loads[i]);
      MeasureFromAligned(world, t, i + 1, now);
    }
  }

  lemma FromRowAligned(s: State, t: State, i: nat)
    requires Aligned(s) && t == s.(loads := FetchedLoads(s.rows)) && i < |s.loads|
    ensures Mirrors(t.loads[i], t.rows[i]) && SameDeal(t.loads[i], s.loads[i])
    ensures BidsMirror(t.loads[i], t.rows[i], false)
    ensures t.loads[i].bids == DecodeBids(s.rows[i].bids)
    ensures t.loads[i].equipment == Split(Join(s.loads[i].equipment, ';'), ';') && t.loads[i].contact == NO_CONTACT
  {
    hide DecodeBids;
    assert Mirrors(s.loads[i], s.rows[i]);
    JoinOfSplit(s.rows[i].equipment, ';');
    DecodeIsStable(s.rows[i].bids);
  }

  lemma FetchAligned(world: World, s: State, now: int)
    requires Aligned(s)
    ensures var t := Step(world, s, FetchLoads(now));
      && Aligned(t) && BidsAligned(t, {})
      && |t.loads| == |s.loads|
      && forall i :: 0 <= i < |s.loads| ==>
           && SameDeal(t.loads[i], s.loads[i])
           && t.loads[i].bids == DecodeBids(s.rows[i].bids)
           && t.loads[i].equipment == Split(Join(s.loads[i].equipment, ';'), ';')
           && t.loads[i].contact == NO_CONTACT
  {
    hide Mirrors, DecodeBids, MeasureFrom, Join, Split, FromRow, BidsMirror;
    var r := s.(loads := FetchedLoads(s.rows));
    forall i | 0 <= i < |s.loads|
      ensures Mirrors(r.loads[i], r.rows[i]) && SameDeal(r.loads[i], s.loads[i])
      ensures BidsMirror(r.loads[i], r.rows[i], false)
      ensures r.loads[i].bids == DecodeBids(s.rows[i].bids)
      ensures r.loads[i].equipment == Split(Join(s.loads[i].equipment, ';'), ';') && r.loads[i].contact == NO_CONTACT
    {
      FromRowAligned(s, r, i);
    }
    MeasureFromAligned(world, r, 0, now);
  }

  lemma FetchKeepsIndex(world: World, s: State, now: int, id: string)
    requires Aligned(s)
    ensures var t := Step(world, s, FetchLoads(now));
            |t.loads| == |s.loads| && IndexOf(t.loads, id) == IndexOf(s.loads, id)
  {
    hide Step, Aligned, BidsAligned;
    FetchAligned(world, s, now);
    var t := Step(world, s, FetchLoads(now));
    forall i | 0 <= i < |s.loads| ensures t.loads[i].id == s.loads[i].id { assert SameDeal(t.loads[i], s.loads[i]); }
    IndexSameIds(s.loads, t.loads, id);
  }

  // A reload keeps every load in its place and brings back its bids as the row had them.
  lemma FetchAtId(world: World, s: State, partial: set<string>, now: int, id: string)
    requires Aligned(s) && BidsAligned(s, partial) && IndexOf(s.loads, id) < |s.loads|
    ensures var t, l := Step(world, s, FetchLoads(now)), s.loads[IndexOf(s.loads, id)];
            && IndexOf(t.loads, id) == IndexOf(s.loads, id) < |t.loads|
            && SameDeal(t.loads[IndexOf(t.loads, id)], l)
            && t.loads[IndexOf(t.loads, id)].bids == AfterReload(l.bids, id in partial)
  {
    hide Step, Aligned, AfterReload, DecodeBids, SameDeal;
    FetchAligned(world, s, now);
    FetchKeepsIndex(world, s, now, id);
    var i := IndexOf(s.loads, id);
    assert BidsMirror(s.loads[i], s.rows[i], s.loads[i].id in partial);
  }

  // ----- all steps, all runs -----

  lemma StepAligned(world: World, s: State, partial: set<string>, a: Action)
    requires Aligned(s) && (a.AddLoad? ==> FreshId(s, a.load.id))
    ensures Aligned(Step(world, s, a))
    ensures BidsAligned(s, partial) ==> BidsAligned(Step(world, s, a), Track(world, s, partial, a))
  {
    hide Step, Aligned, BidsAligned, FreshId;
    match a
    case AddLoad(l) => AddLoadAligned(world, s, partial, l);
    case AddBid(id, q) => AddBidAligned(world, s, partial, id, q);
    case UpdateBidStatus(_, _, _, _, _) => UpdateBidStatusAligned(world, s, partial, a);
    case DeleteLoad(id) => DeleteAligned(world, s, partial, id);
    case FetchLoads(now) => FetchAligned(world, s, now);
    case MeasureOne(id, now) => MeasureOneAligned(world, s, partial, id, now);
    case Compare(_, _) => CompareAligned(world, s, partial, a);
    case AskDistance(x, y) => AskAligned(world, s, partial, x, y);
    case _ => CarrierAnswerAligned(world, s, partial, a);
  }

  lemma {:induction false} RunAligned(world: World, s: State, partial: set<string>, actions: seq<Action>)
    requires Aligned(s) && UniqueIds(world, s, actions)
    ensures Aligned(Run(world, s, actions))
    ensures BidsAligned(s, partial) ==> BidsAligned(Run(world, s, actions), PartialRows(world, s, partial, actions))
    decreases |actions|
  {
    hide Step, Aligned, BidsAligned, FreshId, Track;
    if actions != [] {
      StepAligned(world, s, partial, actions[0]);
      RunAligned(world, Step(world, s, actions[0]), Track(world, s, partial, actions[0]), actions[1..]);
    }
  }

  /** Whatever the strings, a reload gives back every load in place with its posting, status, selection and flags. */
  lemma ReloadKeepsDeals(world: World, actions: seq<Action>, now: int)
    requires UniqueIds(world, EMPTY, actions)
    ensures var s := Run(world, EMPTY, actions);
            var t := Step(world, s, FetchLoads(now));
            |t.loads| == |s.loads| && forall i :: 0 <= i < |s.loads| ==> SameDeal(t.loads[i], s.loads[i])
  {
    hide Step, Run, Aligned, BidsAligned, DecodeBids, Join, Split;
    assert Aligned(EMPTY) by { EmptyAligned(); }
    RunAligned(world, EMPTY, {}, actions);
    FetchAligned(world, Run(world, EMPTY, actions), now);
  }

  lemma EmptyAligned()
    ensures Aligned(EMPTY) && BidsAligned(EMPTY, {})
  {
  }

  // ----- the whole row, column by column -----

  // What a step that finds the load `l` over the row `r` leaves of the row.
  function RowMoved(world: World, cache: Cache, r: Row, l: Load, a: Action): Row {
    var m := Moved(world, cache, l, a);
    match a
    case AddBid(_, _) => r.(bids := EncodeBidsShort(m.bids))
    case UpdateBidStatus(_, bidder, _, _, _) => if BidIndex(l.bids, bidder) == |l.bids| then r else ToRow(m)
    case ConfirmLoad(_, _) => ToRow(m)
    case DeclineLoad(_, _) => ToRow(m)
    case MeasureOne(_, now) =>
      if Measure(world, cache, l).writeBack then ToRow(CopyWith(m, None, None, None, None, now)) else r
    case _ => r
  }

  lemma IndexOfOwn(loads: seq<Load>, i: nat)
    requires DistinctIds(loads) && i < |loads|
    ensures IndexOf(loads, loads[i].id) == i
  {
  }

  lemma TargetRow(world: World, s: State, a: Action)
    requires Aligned(s) && Target(a).Some? && !a.DeleteLoad?
    ensures var t, i := Step(world, s, a), IndexOf(s.loads, Target(a).value);
      && |t.rows| == |s.rows|
      && (i < |s.loads| ==> t.rows[i] == RowMoved(world, s.cache, s.rows[i], s.loads[i], a))
      && forall j :: 0 <= j < |s.rows| && j != i ==> t.rows[j] == s.rows[j]
  {
    hide Aligned, Mirrors, Measure, PairDistance, IndexOf, BidIndex, EncodeBids, EncodeBidsShort, Join, PutBid,
      AcceptedAmount;
    var i := IndexOf(s.loads, Target(a).value);
    RowsHaveIds(s);
    if i < |s.loads| {
      forall j | 0 <= j < |s.rows| && j != i ensures s.rows[j].id != s.loads[i].id { AlignedIds(s, i, j); }
      MovedKeepsId(world, s.cache, s.loads[i], a);
      MeasureKeepsDeal(world, s.cache, s.loads[i]);
    }
  }

  /** How a step other than a reload moves the whole row of the load found under `id`. */
  lemma StepRowAtId(world: World, s: State, a: Action, id: string)
    requires Aligned(s) && IndexOf(s.loads, id) < |s.loads| && !a.FetchLoads? && a != DeleteLoad(id)
    requires a.AddLoad? ==> FreshId(s, a.load.id)
    ensures var i, t := IndexOf(s.loads, id), Step(world, s, a);
      && Aligned(t) && IndexOf(t.loads, id) < |t.loads|
      && t.rows[IndexOf(t.loads, id)] ==
           if Target(a) == Some(id) then RowMoved(world, s.cache, s.rows[i], s.loads[i], a) else s.rows[i]
  {
    hide Step, IndexOf, RowMoved, Moved, Mirrors, DropLoad, DeleteRow, FreshId;
    StepAligned(world, s, {}, a);
    StepAtId(world, s, a, id);
    var i, t := IndexOf(s.loads, id), Step(world, s, a);
    if Target(a).Some? && !a.DeleteLoad? {
      TargetRow(world, s, a);
      StepMovesTarget(world, s, a);
      var k := IndexOf(s.loads, Target(a).value);
      if k < |s.loads| {
        MovedKeepsId(world, s.cache, s.loads[k], a);
        IndexAfterUpdate(s.loads, k, Moved(world, s.cache, s.loads[k], a), id);
      }
    } else {
      StepOtherwise(world, s, a);
      OtherRows(world, s, a);
      if a.AddLoad? { IndexAfterAppend(s.loads, a.load, id); }
      if a.DeleteLoad? { DroppedRow(world, s, a.id, id); }
    }
  }

  lemma OtherRows(world: World, s: State, a: Action)
    requires Aligned(s) && (a.AddLoad? ==> FreshId(s, a.load.id))
    ensures a.AddLoad? ==> Step(world, s, a).rows == s.rows + [ToRow(a.load)]
    ensures a.DeleteLoad? ==> Step(world, s, a).rows == DeleteRow(s.rows, a.id)
    ensures a.AskDistance? ==> Step(world, s, a).rows == s.rows
  {
    hide InsertRow, Mirrors, DropLoad, DeleteRow, PairDistance;
    if a.AddLoad? { NewRowIsLast(s, ToRow(a.load)); }
  }

  // Deleting another load moves the load and its row together.
  lemma DroppedRow(world: World, s: State, other: string, id: string)
    requires Aligned(s) && Aligned(Step(world, s, DeleteLoad(other)))
    requires IndexOf(s.loads, id) < |s.loads| && other != id
    ensures var t, i := Step(world, s, DeleteLoad(other)), IndexOf(s.loads, id);
            IndexOf(t.loads, id) < |t.loads| && t.rows[IndexOf(t.loads, id)] == s.rows[i]
  {
    hide Mirrors, DeleteRow, DropLoad, IndexOf, Rising;
    RowsHaveIds(s);
    var at := DropTogether(s.loads, s.rows, other);
    var t := Step(world, s, DeleteLoad(other));
    IndexAfterDrop(s.loads, id, other);
    var j := IndexOf(t.loads, id);
    IndexOfOwn(s.loads, at[j]);
  }

  /** `s` is what some run with unique ids leaves, and `partial` the rows it left to `updateLoadBids`. */
  ghost predicate Reached(world: World, s: State, partial: set<string>) {
    exists actions :: UniqueIds(world, EMPTY, actions) && Run(world, EMPTY, actions) == s
                      && PartialRows(world, EMPTY, {}, actions) == partial
  }

  lemma ReachedAligned(world: World, s: State, partial: set<string>)
    requires Reached(world, s, partial)
    ensures Aligned(s) && BidsAligned(s, partial)
  {
    hide UniqueIds, Run, PartialRows, Aligned, BidsAligned;
    var actions :| UniqueIds(world, EMPTY, actions) && Run(world, EMPTY, actions) == s
                   && PartialRows(world, EMPTY, {}, actions) == partial;
    EmptyAligned();
    RunAligned(world, EMPTY, {}, actions);
  }

  /**
   What `fetchLoads` gives back after any run, whatever the strings: the same loads in the same
   order, with the same posting, status, selection and confirmation flags. The bids of a load are
   the same exactly when there are some, none of them holds a separator, and either the row was
   written whole or they are all pending without a counter offer; the equipment exactly when
   there is some and it holds no separator. The contact person, the contact address and the
   poster's name are gone.
   */
  lemma ReloadExact(world: World, s: State, partial: set<string>, now: int)
    requires Reached(world, s, partial)
    ensures var t := Step(world, s, FetchLoads(now));
      && |t.loads| == |s.loads|
      && forall i :: 0 <= i < |s.loads| ==>
           && SameDeal(t.loads[i], s.loads[i])
           && t.loads[i].bids == AfterReload(s.loads[i].bids, s.loads[i].id in partial)
           && (t.loads[i].bids == s.loads[i].bids <==>
                 && s.loads[i].bids != [] && CleanBids(s.loads[i].bids)
                 && (s.loads[i].id in partial ==> PlainBids(s.loads[i].bids) == s.loads[i].bids))
           && (t.loads[i].equipment == s.loads[i].equipment <==>
                 s.loads[i].equipment != [] && AllFree(s.loads[i].equipment, ';'))
           && t.loads[i].contact == NO_CONTACT
  {
    hide Step, Reached, Aligned, AfterReload, DecodeBids, CleanBids, PlainBids, Join, Split, AllFree;
    ReachedAligned(world, s, partial);
    FetchAligned(world, s, now);
    forall i | 0 <= i < |s.loads|
      ensures DecodeBids(s.rows[i].bids) == AfterReload(s.loads[i].bids, s.loads[i].id in partial)
      ensures AfterReload(s.loads[i].bids, s.loads[i].id in partial) == s.loads[i].bids <==>
                && s.loads[i].bids != [] && CleanBids(s.loads[i].bids)
                && (s.loads[i].id in partial ==> PlainBids(s.loads[i].bids) == s.loads[i].bids)
      ensures Split(Join(s.loads[i].equipment, ';'), ';') == s.loads[i].equipment <==>
                s.loads[i].equipment != [] && AllFree(s.loads[i].equipment, ';')
    {
      assert BidsMirror(s.loads[i], s.rows[i], s.loads[i].id in partial);
      AfterReloadExact(s.loads[i].bids, s.loads[i].id in partial);
      SplitJoinExact(s.loads[i].equipment, ';');
    }
  }

  // ----- separator-free strings stay separator-free -----

  lemma MovedClean(world: World, cache: Cache, l: Load, a: Action)
    requires CleanBids(l.bids) && Target(a) == Some(l.id) && CleanAction(a, l.id)
    ensures CleanBids(Moved(world, cache, l, a).bids)
  {
    hide PutBid, Measure, DestinationDifference;
    MeasureKeepsDeal(world, cache, l);
    if a.AddBid? { PutBidClean(l.bids, a.quote); }
  }

  lemma StepCleanUnder(world: World, s: State, a: Action, id: string)
    requires CleanUnder(s, id) && CleanAction(a, id) && (a.FetchLoads? ==> Aligned(s))
    ensures CleanUnder(Step(world, s, a), id)
  {
    var t := Step(world, s, a);
    if a.FetchLoads? {
      FetchAligned(world, s, a.now);
      hide Step, CleanBids, DecodeBids, Aligned, BidsAligned;
      forall i | 0 <= i < |t.loads| ensures CleanBids(t.loads[i].bids) { DecodedClean(s.rows[i].bids); }
    } else {
      hide Step, CleanBids, Moved;
      forall i | 0 <= i < |t.loads| && t.loads[i].id == id ensures CleanBids(t.loads[i].bids) {
        StepOrigin(world, s, a, t.loads[i]);
        if Target(a).Some? && IndexOf(s.loads, Target(a).value) < |s.loads| {
          MovedKeepsId(world, s.cache, s.loads[IndexOf(s.loads, Target(a).value)], a);
          if Target(a).value == id { MovedClean(world, s.cache, s.loads[IndexOf(s.loads, id)], a); }
        }
      }
    }
  }

  lemma {:induction false} RunCleanUnder(world: World, s: State, actions: seq<Action>, id: string)
    requires CleanUnder(s, id) && CleanFor(actions, id) && Aligned(s) && UniqueIds(world, s, actions)
    ensures CleanUnder(Run(world, s, actions), id)
    decreases |actions|
  {
    hide Step, CleanUnder, CleanAction, Aligned, FreshId;
    if actions != [] {
      StepCleanUnder(world, s, actions[0], id);
      StepAligned(world, s, {}, actions[0]);
      RunCleanUnder(world, Step(world, s, actions[0]), actions[1..], id);
    }
  }

  /**
   Reloading is invisible for one load, whatever the others hold: when the actions that name it
   bring no separator, a reload gives back its bids exactly when there are some and either the
   row was written whole or they are all pending without a counter offer.
   */
  lemma CleanReloadExact(world: World, actions: seq<Action>, now: int, i: nat)
    requires UniqueIds(world, EMPTY, actions) && i < |Run(world, EMPTY, actions).loads|
    requires CleanFor(actions, Run(world, EMPTY, actions).loads[i].id)
    ensures var s := Run(world, EMPTY, actions);
            var t, l := Step(world, s, FetchLoads(now)), s.loads[i];
      && i < |t.loads| && SameDeal(t.loads[i], l)
      && (t.loads[i].bids == l.bids <==>
            l.bids != [] && (l.id in PartialRows(world, EMPTY, {}, actions) ==> PlainBids(l.bids) == l.bids))
  {
    hide Step, UniqueIds, Run, PartialRows, CleanFor, SameDeal, CleanBids, PlainBids, AfterReload, Aligned;
    var s, partial := Run(world, EMPTY, actions), PartialRows(world, EMPTY, {}, actions);
    assert Reached(world, s, partial);
    ReloadExact(world, s, partial, now);
    EmptyAligned();
    RunCleanUnder(world, EMPTY, actions, s.loads[i].id);
  }
}
