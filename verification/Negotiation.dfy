/**
 The load negotiation as a state machine: one step per `LoadProvider` operation, over the
 loads in memory, the rows of the table, the distance cache and the notifications sent.
 */
module Negotiation {
  import opened Text
  import opened Amounts
  import opened LoadPosts
  import opened Distances

  datatype Notice =
    | LoadConfirmed(loadId: string, brokerId: string, carrierName: string, bidAmount: Amount)
    | LoadDeclined(loadId: string, brokerId: string, carrierName: string, bidAmount: Amount)

  datatype State = State(loads: seq<Load>, rows: seq<Row>, cache: Cache, notices: seq<Notice>)

  const EMPTY: State := State([], [], map[], [])

  datatype Action =
    | AddLoad(load: Load)
    | AddBid(id: string, quote: Quote)
    | UpdateBidStatus(id: string, bidder: string, status: string, counter: Option<Amount>, now: int)
    | ConfirmLoad(id: string, now: int)
    | DeclineLoad(id: string, now: int)
    | DeleteLoad(id: string)
    | FetchLoads(now: int)
    // `calculateDistance` for one load, as the details screen asks for it.
    | MeasureOne(id: string, now: int)
    // `calculateDestinationDifference` of one load, as the matching loops ask for it.
    | Compare(id: string, destination: string)
    // `calculateDistanceBetweenPickups`, as the load board asks for it.
    | AskDistance(a: string, b: string)

  // ----- the table (DatabaseHelper) -----

  function InsertRow(rows: seq<Row>, row: Row): seq<Row> {
    Where(rows, (r: Row) => r.id != row.id) + [row]
  }

  function ReplaceRow(rows: seq<Row>, row: Row): seq<Row> {
    seq(|rows|, i requires 0 <= i < |rows| => if rows[i].id == row.id then row else rows[i])
  }

  function PatchBids(rows: seq<Row>, id: string, text: string): seq<Row> {
    seq(|rows|, i requires 0 <= i < |rows| => if rows[i].id == id then rows[i].(bids := text) else rows[i])
  }

  function DeleteRow(rows: seq<Row>, id: string): seq<Row> {
    Where(rows, (r: Row) => r.id != id)
  }

  // ----- one load -----

  // `removeWhere` on the id.
  function DropLoad(loads: seq<Load>, id: string): seq<Load> {
    Where(loads, (l: Load) => l.id != id)
  }

  lemma DropSnoc(loads: seq<Load>, l: Load, id: string)
    ensures l.id != id ==> DropLoad(loads + [l], id) == DropLoad(loads, id) + [l]
    ensures l.id == id ==> DropLoad(loads + [l], id) == DropLoad(loads, id)
  {
    WhereSnoc(loads, l, (l: Load) => l.id != id);
  }

  lemma DeleteRowSnoc(rows: seq<Row>, r: Row, id: string)
    ensures r.id != id ==> DeleteRow(rows + [r], id) == DeleteRow(rows, id) + [r]
    ensures r.id == id ==> DeleteRow(rows + [r], id) == DeleteRow(rows, id)
  {
    WhereSnoc(rows, r, (r: Row) => r.id != id);
  }

  // `indexWhere`, with the length standing for -1.
  function IndexOf(loads: seq<Load>, id: string): (i: nat)
    ensures i <= |loads|
    ensures i < |loads| ==> loads[i].id == id
    ensures forall j :: 0 <= j < i ==> loads[j].id != id
  {
    if loads == [] || loads[0].id == id then 0 else 1 + IndexOf(loads[1..], id)
  }

  function BidIndex(bids: seq<Quote>, bidder: string): (i: nat)
    ensures i <= |bids|
    ensures i < |bids| ==> bids[i].bidder == bidder
    ensures forall j :: 0 <= j < i ==> bids[j].bidder != bidder
  {
    if bids == [] || bids[0].bidder == bidder then 0 else 1 + BidIndex(bids[1..], bidder)
  }

  // `removeWhere` on the bidder.
  function Without(bids: seq<Quote>, bidder: string): (kept: seq<Quote>)
    ensures forall i :: 0 <= i < |kept| ==> kept[i] in bids && kept[i].bidder != bidder
    ensures forall i :: 0 <= i < |bids| && bids[i].bidder != bidder ==> bids[i] in kept
  {
    Where(bids, (b: Quote) => b.bidder != bidder)
  }

  function PutBid(bids: seq<Quote>, quote: Quote): seq<Quote> {
    Without(bids, quote.bidder) + [quote]
  }

  function Answer(b: Quote, status: string, counter: Option<Amount>): Quote {
    Quote(b.bidder, b.amount, status, counter.Or(b.counter))
  }

  function Answered(l: Load, k: nat, status: string, counter: Option<Amount>, now: int): Load
    requires k < |l.bids|
  {
    var l1 := l.(bids := l.bids[k := Answer(l.bids[k], status, counter)]);
    if status == "accepted" then
      CopyWith(l1, Some("awaiting_carrier_confirmation"), Some(l.bids[k].bidder), Some(true), Some(false), now)
    else l1
  }

  function Confirmed(l: Load, now: int): Load {
    CopyWith(l, Some("confirmed"), None, None, Some(true), now)
  }

  // The null passed for `selectedBidId` keeps the old selection.
  function Declined(l: Load, now: int): Load {
    CopyWith(l, Some("declined_by_carrier"), None, Some(false), Some(false), now)
  }

  // `firstWhere` on bidder and 'accepted', with amount 0 when there is none.
  function AcceptedAmount(bids: seq<Quote>, selected: Option<string>): Amount {
    if bids == [] then ZERO
    else if Some(bids[0].bidder) == selected && bids[0].status == "accepted" then bids[0].amount
    else AcceptedAmount(bids[1..], selected)
  }

  // ----- steps -----

  function FetchedLoads(rows: seq<Row>): seq<Load> {
    seq(|rows|, i requires 0 <= i < |rows| => FromRow(rows[i]))
  }

  // The distance of load `i`, with its write-back through `copyWith`.
  function MeasureAt(world: World, s: State, i: nat, now: int): State
    requires i < |s.loads|
  {
    var m := Measure(world, s.cache, s.loads[i]);
    s.(loads := s.loads[i := m.load], cache := m.cache,
       rows := if m.writeBack then ReplaceRow(s.rows, ToRow(CopyWith(m.load, None, None, None, None, now))) else s.rows)
  }

  function MeasureFrom(world: World, s: State, i: nat, now: int): State
    decreases |s.loads| - i
  {
    if i >= |s.loads| then s else MeasureFrom(world, MeasureAt(world, s, i, now), i + 1, now)
  }

  function AfterMeasure(world: World, s: State, id: string, now: int): State {
    var i := IndexOf(s.loads, id);
    if i == |s.loads| then s else MeasureAt(world, s, i, now)
  }

  function AfterCompare(world: World, s: State, id: string, destination: string): State {
    var i := IndexOf(s.loads, id);
    if i == |s.loads| then s
    else
      var (difference, cache) := DestinationDifference(world, s.cache, s.loads[i].posting.destination, destination);
      s.(loads := s.loads[i := s.loads[i].(difference := difference)], cache := cache)
  }

  function AfterAddLoad(s: State, load: Load): State {
    s.(loads := s.loads + [load], rows := InsertRow(s.rows, ToRow(load)))
  }

  function AfterAddBid(s: State, id: string, quote: Quote): State {
    var i := IndexOf(s.loads, id);
    if i == |s.loads| then s
    else
      var bids := PutBid(s.loads[i].bids, quote);
      s.(loads := s.loads[i := s.loads[i].(bids := bids)], rows := PatchBids(s.rows, id, EncodeBidsShort(bids)))
  }

  function AfterAnswer(s: State, id: string, bidder: string, status: string, counter: Option<Amount>, now: int): State {
    var i := IndexOf(s.loads, id);
    if i == |s.loads| || BidIndex(s.loads[i].bids, bidder) == |s.loads[i].bids| then s
    else
      var l := Answered(s.loads[i], BidIndex(s.loads[i].bids, bidder), status, counter, now);
      s.(loads := s.loads[i := l], rows := ReplaceRow(PatchBids(s.rows, id, EncodeBidsShort(l.bids)), ToRow(l)))
  }

  function AfterConfirm(s: State, id: string, now: int): State {
    var i := IndexOf(s.loads, id);
    if i == |s.loads| then s
    else
      var was, l := s.loads[i], Confirmed(s.loads[i], now);
      s.(loads := s.loads[i := l], rows := ReplaceRow(s.rows, ToRow(l)),
         notices := s.notices + [LoadConfirmed(id, was.posting.postedBy, was.selectedBidId.GetOr("Carrier"),
                                               AcceptedAmount(was.bids, was.selectedBidId))])
  }

  function AfterDecline(s: State, id: string, now: int): State {
    var i := IndexOf(s.loads, id);
    if i == |s.loads| then s
    else
      var was, l := s.loads[i], Declined(s.loads[i], now);
      s.(loads := s.loads[i := l], rows := ReplaceRow(s.rows, ToRow(l)),
         notices := s.notices + [LoadDeclined(id, was.posting.postedBy, was.selectedBidId.GetOr("Carrier"),
                                              AcceptedAmount(was.bids, was.selectedBidId))])
  }

  function AfterDelete(s: State, id: string): State {
    s.(loads := DropLoad(s.loads, id), rows := DeleteRow(s.rows, id), cache := s.cache - {id})
  }

  function AfterFetch(world: World, s: State, now: int): State {
    MeasureFrom(world, s.(loads := FetchedLoads(s.rows)), 0, now)
  }

  function Step(world: World, s: State, a: Action): State {
    match a
    case AddLoad(load) => AfterAddLoad(s, load)
    case AddBid(id, quote) => AfterAddBid(s, id, quote)
    case UpdateBidStatus(id, bidder, status, counter, now) => AfterAnswer(s, id, bidder, status, counter, now)
    case ConfirmLoad(id, now) => AfterConfirm(s, id, now)
    case DeclineLoad(id, now) => AfterDecline(s, id, now)
    case DeleteLoad(id) => AfterDelete(s, id)
    case FetchLoads(now) => AfterFetch(world, s, now)
    case MeasureOne(id, now) => AfterMeasure(world, s, id, now)
    case Compare(id, destination) => AfterCompare(world, s, id, destination)
    case AskDistance(a, b) => s.(cache := PairDistance(world, s.cache, a, b).1)
  }

  function Run(world: World, s: State, actions: seq<Action>): State
    decreases |actions|
  {
    if actions == [] then s else Run(world, Step(world, s, actions[0]), actions[1..])
  }

  lemma {:induction false} RunConcat(world: World, s: State, first: seq<Action>, next: seq<Action>)
    ensures Run(world, s, first + next) == Run(world, Run(world, s, first), next)
    decreases |first|
  {
    hide Step;
    if first == [] {
      assert first + next == next;
    } else {
      RunConcat(world, Step(world, s, first[0]), first[1..], next);
      assert (first + next)[0] == first[0] && (first + next)[1..] == first[1..] + next;
    }
  }

  lemma RunOne(world: World, s: State, first: seq<Action>, a: Action)
    ensures Run(world, s, first + [a]) == Step(world, Run(world, s, first), a)
  {
    hide Step;
    RunConcat(world, s, first, [a]);
    assert [a][1..] == [];
  }

  // ----- how a load moves -----

  function Target(a: Action): Option<string> {
    match a
    case AddLoad(_) => None
    case FetchLoads(_) => None
    case AskDistance(_, _) => None
    case AddBid(id, _) => Some(id)
    case UpdateBidStatus(id, _, _, _, _) => Some(id)
    case ConfirmLoad(id, _) => Some(id)
    case DeclineLoad(id, _) => Some(id)
    case DeleteLoad(id) => Some(id)
    case MeasureOne(id, _) => Some(id)
    case Compare(id, _) => Some(id)
  }

  // The load `l`, found under the target of `a`, becomes this one.
  function Moved(world: World, cache: Cache, l: Load, a: Action): Load {
    match a
    case AddBid(_, quote) => l.(bids := PutBid(l.bids, quote))
    case UpdateBidStatus(_, bidder, status, counter, now) =>
      var k := BidIndex(l.bids, bidder);
      if k == |l.bids| then l else Answered(l, k, status, counter, now)
    case ConfirmLoad(_, now) => Confirmed(l, now)
    case DeclineLoad(_, now) => Declined(l, now)
    case MeasureOne(_, _) => Measure(world, cache, l).load
    case Compare(_, destination) =>
      l.(difference := DestinationDifference(world, cache, l.posting.destination, destination).0)
    case _ => l
  }

  /** Same negotiation: everything the five operations and the screens act on, bids aside. */
  ghost predicate SameDeal(l: Load, m: Load) {
    && l.id == m.id && l.posting == m.posting
    && l.status == m.status && l.selectedBidId == m.selectedBidId
    && l.brokerConfirmed == m.brokerConfirmed && l.carrierConfirmed == m.carrierConfirmed
  }

  lemma MeasureKeepsDeal(world: World, cache: Cache, l: Load)
    ensures var m := Measure(world, cache, l).load;
            SameDeal(m, l) && m.bids == l.bids && m.equipment == l.equipment && m.contact == l.contact
  {
    hide Geocode, Trim;
  }

  lemma MovedKeepsId(world: World, cache: Cache, l: Load, a: Action)
    ensures Moved(world, cache, l, a).id == l.id && Moved(world, cache, l, a).posting == l.posting
  {
    hide Measure, DestinationDifference, PutBid, BidIndex;
    if a.MeasureOne? { MeasureKeepsDeal(world, cache, l); }
  }

  // Away from reloads, every load after a step was there before, was added, or is the target moved.
  lemma StepOrigin(world: World, s: State, a: Action, l: Load)
    requires !a.FetchLoads? && l in Step(world, s, a).loads
    ensures || l in s.loads
            || (a.AddLoad? && l == a.load)
            || (&& Target(a).Some? && IndexOf(s.loads, Target(a).value) < |s.loads|
                && l == Moved(world, s.cache, s.loads[IndexOf(s.loads, Target(a).value)], a))
  {
    hide Measure, DestinationDifference, PutBid, BidIndex, IndexOf, ReplaceRow, ToRow, EncodeBidsShort, PairDistance;
  }

  lemma IndexCons(l: Load, loads: seq<Load>, id: string)
    ensures IndexOf([l] + loads, id) == if l.id == id then 0 else 1 + IndexOf(loads, id)
  {
    assert ([l] + loads)[1..] == loads;
  }

  lemma {:induction false} IndexAfterDrop(loads: seq<Load>, id: string, other: string)
    requires id != other && IndexOf(loads, id) < |loads|
    ensures var kept := DropLoad(loads, other);
            IndexOf(kept, id) < |kept| && kept[IndexOf(kept, id)] == loads[IndexOf(loads, id)]
  {
    hide DropLoad, IndexOf;
    var l, rest := loads[0], loads[1..];
    assert loads == [l] + rest;
    IndexCons(l, rest, id);
    IndexCons(l, DropLoad(rest, other), id);
    DropCons(loads, other);
    if l.id != id {
      IndexAfterDrop(rest, id, other);
    }
  }

  lemma DropCons(loads: seq<Load>, id: string)
    requires loads != []
    ensures loads[0].id == id ==> DropLoad(loads, id) == DropLoad(loads[1..], id)
    ensures loads[0].id != id ==> DropLoad(loads, id) == [loads[0]] + DropLoad(loads[1..], id)
  {
  }

  lemma {:induction false} IndexAfterUpdate(loads: seq<Load>, i: nat, l: Load, id: string)
    requires i < |loads| && l.id == loads[i].id
    ensures IndexOf(loads[i := l], id) == IndexOf(loads, id)
  {
    if i > 0 && loads[0].id != id {
      IndexAfterUpdate(loads[1..], i - 1, l, id);
      assert loads[i := l][1..] == loads[1..][i - 1 := l];
    }
  }

  lemma {:induction false} IndexAfterAppend(loads: seq<Load>, l: Load, id: string)
    requires IndexOf(loads, id) < |loads|
    ensures IndexOf(loads + [l], id) == IndexOf(loads, id)
  {
    if loads[0].id != id {
      IndexAfterAppend(loads[1..], l, id);
      assert (loads + [l])[1..] == loads[1..] + [l];
    }
  }

  /** How a step other than a reload moves the load found under `id`. */
  lemma StepAtId(world: World, s: State, a: Action, id: string)
    requires IndexOf(s.loads, id) < |s.loads| && !a.FetchLoads? && a != DeleteLoad(id)
    ensures var l, t := s.loads[IndexOf(s.loads, id)], Step(world, s, a);
            && IndexOf(t.loads, id) < |t.loads|
            && t.loads[IndexOf(t.loads, id)] == if Target(a) == Some(id) then Moved(world, s.cache, l, a) else l
  {
    hide Step, IndexOf, Moved, DropLoad;
    if Target(a).Some? && !a.DeleteLoad? {
      StepMovesTarget(world, s, a);
      var i := IndexOf(s.loads, Target(a).value);
      if i < |s.loads| {
        MovedKeepsId(world, s.cache, s.loads[i], a);
        IndexAfterUpdate(s.loads, i, Moved(world, s.cache, s.loads[i], a), id);
      }
    } else {
      StepOtherwise(world, s, a);
      if a.AddLoad? { IndexAfterAppend(s.loads, a.load, id); }
      if a.DeleteLoad? { IndexAfterDrop(s.loads, id, a.id); }
    }
  }

  lemma StepOtherwise(world: World, s: State, a: Action)
    ensures a.AddLoad? ==> Step(world, s, a).loads == s.loads + [a.load]
    ensures a.DeleteLoad? ==> Step(world, s, a).loads == DropLoad(s.loads, a.id)
    ensures a.AskDistance? ==> Step(world, s, a).loads == s.loads
  {
    hide InsertRow, ToRow, DropLoad, DeleteRow, PairDistance;
  }

  lemma NotFound(loads: seq<Load>, id: string)
    requires forall l :: l in loads ==> l.id != id
    ensures IndexOf(loads, id) == |loads|
  {
  }

  lemma DroppedIsGone(loads: seq<Load>, id: string)
    ensures forall l :: l in DropLoad(loads, id) ==> l.id != id
  {
  }

  lemma AppendedIndex(loads: seq<Load>, l: Load)
    requires IndexOf(loads, l.id) == |loads|
    ensures IndexOf(loads + [l], l.id) == |loads|
  {
    assert (loads + [l])[|loads|] == l;
  }

  /** A step other than a reload lets a load be found under an id, where there was none, only by adding it. */
  lemma StepFinds(world: World, s: State, a: Action, id: string)
    requires !a.FetchLoads? && (IndexOf(s.loads, id) == |s.loads| || a == DeleteLoad(id))
    ensures var t := Step(world, s, a);
      if a.AddLoad? && a.load.id == id then t.loads == s.loads + [a.load] && IndexOf(t.loads, id) == |s.loads|
      else IndexOf(t.loads, id) == |t.loads|
  {
    hide Step, Moved, DropLoad, IndexOf;
    var t := Step(world, s, a);
    if a.AddLoad? && a.load.id == id {
      StepOtherwise(world, s, a);
      AppendedIndex(s.loads, a.load);
    } else {
      if a.DeleteLoad? { DroppedIsGone(s.loads, a.id); StepOtherwise(world, s, a); }
      forall l | l in t.loads ensures l.id != id {
        StepOrigin(world, s, a, l);
        if Target(a).Some? && IndexOf(s.loads, Target(a).value) < |s.loads| {
          MovedKeepsId(world, s.cache, s.loads[IndexOf(s.loads, Target(a).value)], a);
        }
        FoundFrom(s.loads, id);
      }
      NotFound(t.loads, id);
    }
  }

  lemma FoundFrom(loads: seq<Load>, id: string)
    ensures IndexOf(loads, id) == |loads| ==> forall l :: l in loads ==> l.id != id
  {
  }

  lemma StepMovesTarget(world: World, s: State, a: Action)
    requires Target(a).Some? && !a.DeleteLoad?
    ensures var i := IndexOf(s.loads, Target(a).value);
            Step(world, s, a).loads ==
              if i < |s.loads| then s.loads[i := Moved(world, s.cache, s.loads[i], a)] else s.loads
  {
    hide ReplaceRow, PatchBids, ToRow, EncodeBidsShort, PutBid, AcceptedAmount, IndexOf, BidIndex, Measure,
      PairDistance;
    var i := IndexOf(s.loads, Target(a).value);
    assert i < |s.loads| ==> s.loads[i := s.loads[i]] == s.loads;
  }

  lemma {:induction false} IndexSameIds(loads: seq<Load>, other: seq<Load>, id: string)
    requires |loads| == |other| && forall i :: 0 <= i < |loads| ==> loads[i].id == other[i].id
    ensures IndexOf(loads, id) == IndexOf(other, id)
  {
    if loads != [] && loads[0].id != id {
      IndexSameIds(loads[1..], other[1..], id);
    }
  }

  // ----- distinct bidders, and a selection that names one bid -----

  ghost predicate DistinctBidders(bids: seq<Quote>) {
    forall i, j :: 0 <= i < j < |bids| ==> bids[i].bidder != bids[j].bidder
  }

  ghost predicate NamesOne(bids: seq<Quote>, bidder: string) {
    exists i :: 0 <= i < |bids| && bids[i].bidder == bidder
                && forall j :: 0 <= j < |bids| && bids[j].bidder == bidder ==> j == i
  }

  ghost predicate Selection(l: Load) {
    && DistinctBidders(l.bids)
    && (l.selectedBidId.Some? ==> NamesOne(l.bids, l.selectedBidId.value))
  }

  lemma NamesOneExact(bids: seq<Quote>, bidder: string)
    requires DistinctBidders(bids)
    ensures NamesOne(bids, bidder) <==> BidIndex(bids, bidder) < |bids|
  {
    var k := BidIndex(bids, bidder);
    if k < |bids| {
      assert bids[k].bidder == bidder;
    }
  }

  lemma {:induction false} WithoutDistinct(bids: seq<Quote>, bidder: string)
    requires DistinctBidders(bids)
    ensures DistinctBidders(Without(bids, bidder))
  {
    if bids != [] {
      WithoutDistinct(bids[1..], bidder);
      var rest := Without(bids[1..], bidder);
      assert Without(bids, bidder) == if bids[0].bidder != bidder then [bids[0]] + rest else rest;
      forall j | 0 <= j < |rest| ensures rest[j].bidder != bids[0].bidder {
        assert rest[j] in bids[1..];
      }
    }
  }

  lemma PutBidDistinct(bids: seq<Quote>, quote: Quote)
    requires DistinctBidders(bids)
    ensures DistinctBidders(PutBid(bids, quote))
  {
    WithoutDistinct(bids, quote.bidder);
    hide Without;
    var kept := Without(bids, quote.bidder);
    assert forall i :: 0 <= i < |kept| ==> kept[i].bidder != quote.bidder;
  }

  // A bidder who had a bid still has one.
  lemma PutBidKeepsBidder(bids: seq<Quote>, quote: Quote, bidder: string)
    requires BidIndex(bids, bidder) < |bids|
    ensures BidIndex(PutBid(bids, quote), bidder) < |PutBid(bids, quote)|
  {
    hide Without;
    var kept, all := Without(bids, quote.bidder), PutBid(bids, quote);
    if bidder == quote.bidder {
      assert all[|kept|].bidder == bidder;
    } else {
      var b := bids[BidIndex(bids, bidder)];
      assert b in kept;
      var j :| 0 <= j < |kept| && kept[j] == b;
      assert all[j].bidder == bidder;
    }
  }

  lemma SameBiddersSelection(bids: seq<Quote>, other: seq<Quote>, bidder: string)
    requires |bids| == |other| && forall i :: 0 <= i < |bids| ==> bids[i].bidder == other[i].bidder
    ensures DistinctBidders(bids) ==> DistinctBidders(other)
    ensures BidIndex(bids, bidder) == BidIndex(other, bidder)
  {
    var i, j := BidIndex(bids, bidder), BidIndex(other, bidder);
    assert i < |bids| ==> other[i].bidder == bidder;
    assert j < |other| ==> bids[j].bidder == bidder;
  }

  lemma PutBidSelection(l: Load, quote: Quote)
    requires Selection(l)
    ensures Selection(l.(bids := PutBid(l.bids, quote)))
  {
    var selected := l.selectedBidId.GetOr("");
    PutBidDistinct(l.bids, quote);
    hide PutBid, DistinctBidders, NamesOne, BidIndex;
    NamesOneExact(l.bids, selected);
    NamesOneExact(PutBid(l.bids, quote), selected);
    if l.selectedBidId.Some? { PutBidKeepsBidder(l.bids, quote, selected); }
  }

  lemma AnsweredSelection(l: Load, k: nat, status: string, counter: Option<Amount>, now: int)
    requires Selection(l) && k < |l.bids|
    ensures Selection(Answered(l, k, status, counter, now))
  {
    var selected, bidder := l.selectedBidId.GetOr(""), l.bids[k].bidder;
    var bids := Answered(l, k, status, counter, now).bids;
    SameBiddersSelection(l.bids, bids, selected);
    SameBiddersSelection(l.bids, bids, bidder);
    assert bids[k].bidder == bidder;
    hide DistinctBidders, NamesOne;
    NamesOneExact(l.bids, selected);
    NamesOneExact(bids, selected);
    NamesOneExact(bids, bidder);
  }

  lemma MovedSelection(world: World, cache: Cache, l: Load, a: Action)
    requires Selection(l)
    ensures Selection(Moved(world, cache, l, a))
  {
    hide PutBid, Answered, DistinctBidders, NamesOne, Measure, DestinationDifference;
    MeasureKeepsDeal(world, cache, l);
    match a
    case AddBid(_, quote) => PutBidSelection(l, quote);
    case UpdateBidStatus(_, bidder, status, counter, now) =>
      var k := BidIndex(l.bids, bidder);
      if k < |l.bids| { AnsweredSelection(l, k, status, counter, now); }
    case _ =>
  }

  // ----- lifecycle -----

  const AWAITING := "awaiting_carrier_confirmation"
  const CONFIRMED := "confirmed"

  /** The status column tells exactly what the two confirmation flags tell. */
  ghost predicate Lifecycle(l: Load) {
    && (l.status == Some(AWAITING) <==> l.brokerConfirmed && !l.carrierConfirmed)
    && (l.status == Some(CONFIRMED) <==> l.brokerConfirmed && l.carrierConfirmed)
    && (l.carrierConfirmed ==> l.brokerConfirmed)
    && (l.brokerConfirmed ==> l.selectedBidId.Some?)
  }

  ghost predicate AllLifecycle(s: State) {
    forall i :: 0 <= i < |s.loads| ==> Lifecycle(s.loads[i])
  }

  // A post as the form creates it: not negotiated yet.
  ghost predicate FreshPost(l: Load) {
    && !l.brokerConfirmed && !l.carrierConfirmed
    && l.status != Some(AWAITING) && l.status != Some(CONFIRMED)
  }

  /** Posts from the form satisfy the lifecycle, and so do the return loads of loads that do. */
  lemma PostsLive(l: Load, now: int)
    ensures FreshPost(l) || Lifecycle(l) ==> Lifecycle(l) && Lifecycle(ReturnOf(l, now))
  {
  }

  // `getLoadsAwaitingCarrierConfirmation(carrier)` lists the load.
  predicate ListedFor(l: Load, carrier: string) {
    l.status == Some(AWAITING) && l.selectedBidId == Some(carrier) && l.brokerConfirmed && !l.carrierConfirmed
  }

  // `getLoadsAwaitingCarrierConfirmation`
  function AwaitingLoads(loads: seq<Load>, carrier: string): seq<Load> {
    Where(loads, (l: Load) => ListedFor(l, carrier))
  }

  lemma AwaitingSnoc(loads: seq<Load>, l: Load, carrier: string)
    ensures ListedFor(l, carrier) ==> AwaitingLoads(loads + [l], carrier) == AwaitingLoads(loads, carrier) + [l]
    ensures !ListedFor(l, carrier) ==> AwaitingLoads(loads + [l], carrier) == AwaitingLoads(loads, carrier)
  {
    WhereSnoc(loads, l, (l: Load) => ListedFor(l, carrier));
  }

  // The load found under `id` is on the awaiting list of the carrier it selects.
  predicate Listed(s: State, id: string) {
    var i := IndexOf(s.loads, id);
    i < |s.loads| && s.loads[i].selectedBidId.Some? && ListedFor(s.loads[i], s.loads[i].selectedBidId.value)
  }

  // Statuses a broker's answer may carry never reach the load: only 'accepted' moves it.
  lemma MovedLifecycle(world: World, cache: Cache, l: Load, a: Action)
    requires Lifecycle(l)
    requires a.ConfirmLoad? ==> l.brokerConfirmed
    ensures Lifecycle(Moved(world, cache, l, a))
  {
    hide Measure, DestinationDifference, PutBid, BidIndex;
    MeasureKeepsDeal(world, cache, l);
  }

  // ----- runs -----

  ghost predicate FreshId(s: State, id: string) {
    forall i :: 0 <= i < |s.loads| ==> s.loads[i].id != id
  }

  /** Every added post has a new id. */
  ghost predicate UniqueIds(world: World, s: State, actions: seq<Action>)
    decreases |actions|
  {
    actions != [] ==>
      && (actions[0].AddLoad? ==> FreshId(s, actions[0].load.id))
      && UniqueIds(world, Step(world, s, actions[0]), actions[1..])
  }

  /** Every added post has a status that tells its flags: new ones from the form and return loads. */
  ghost predicate LivePosts(actions: seq<Action>) {
    forall i :: 0 <= i < |actions| && actions[i].AddLoad? ==> Lifecycle(actions[i].load)
  }

  // Carriers confirm and decline only what the awaiting list offers them.
  predicate Guarded(s: State, a: Action) {
    a.ConfirmLoad? || a.DeclineLoad? ==> Listed(s, a.id)
  }

  ghost predicate GuardedRun(world: World, s: State, actions: seq<Action>)
    decreases |actions|
  {
    actions != [] ==> Guarded(s, actions[0]) && GuardedRun(world, Step(world, s, actions[0]), actions[1..])
  }

  ghost predicate DistinctIds(loads: seq<Load>) {
    forall i, j :: 0 <= i < j < |loads| ==> loads[i].id != loads[j].id
  }
}
