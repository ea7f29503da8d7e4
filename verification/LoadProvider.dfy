/**
 `LoadProvider` over the heap: mutable posts, bid lists that `copyWith` shares between the
 old and the new post, the table, and one method per operation, each proved to take the
 step of the same name in `Negotiation`.
 */
module LoadProviders {
  import opened Text
  import opened Amounts
  import opened LoadPosts
  import opened Distances
  import opened SharedKeys
  import opened Negotiation
  import opened Matching

  // A growable `List<LoadPostQuote>`.
  class BidList {
    var items: seq<Quote>

    constructor (items: seq<Quote>)
      ensures this.items == items
    {
      this.items := items;
    }
  }

  class LoadPost {
    const id: string
    const posting: Posting
    const equipment: seq<string>
    const bids: BidList
    const marks: Marks
    const contact: Contact
    var status: Option<string>
    var selectedBidId: Option<string>
    var brokerConfirmed: bool
    var carrierConfirmed: bool
    var pickup: Option<Point>
    var drop: Option<Point>
    var distance: Option<string>
    var destinationDifference: Option<string>
    var matchingLoads: seq<LoadPost>

    function View(): Load
      reads this, bids
    {
      Load(id, posting, equipment, bids.items, status, selectedBidId, brokerConfirmed, carrierConfirmed,
           pickup, drop, distance, destinationDifference, marks, contact)
    }

    // The post without its destination difference, which matching does not look at.
    function Face(): Load
      reads this`status, this`selectedBidId, this`brokerConfirmed, this`carrierConfirmed, this`pickup, this`drop,
            this`distance, bids
    {
      Load(id, posting, equipment, bids.items, status, selectedBidId, brokerConfirmed, carrierConfirmed,
           pickup, drop, distance, None, marks, contact)
    }

    lemma FaceIs()
      ensures View() == Face().(difference := destinationDifference)
    {
    }

    constructor (id: string, posting: Posting, equipment: seq<string>, bids: BidList,
                 status: Option<string>, selectedBidId: Option<string>, brokerConfirmed: bool, carrierConfirmed: bool,
                 pickup: Option<Point>, drop: Option<Point>, distance: Option<string>, difference: Option<string>,
                 marks: Marks, contact: Contact)
      ensures this.bids == bids
      ensures View() == Load(id, posting, equipment, bids.items, status, selectedBidId, brokerConfirmed,
                             carrierConfirmed, pickup, drop, distance, difference, marks, contact)
      ensures matchingLoads == []
    {
      this.id, this.posting, this.equipment, this.bids := id, posting, equipment, bids;
      this.marks, this.contact := marks, contact;
      this.status, this.selectedBidId := status, selectedBidId;
      this.brokerConfirmed, this.carrierConfirmed := brokerConfirmed, carrierConfirmed;
      this.pickup, this.drop, this.distance := pickup, drop, distance;
      destinationDifference, matchingLoads := difference, [];
    }

    /** The copy is a new post over the same bid list. */
    method CopyWith(status: Option<string>, selectedBidId: Option<string>,
                    brokerConfirmed: Option<bool>, carrierConfirmed: Option<bool>, now: int) returns (copy: LoadPost)
      ensures fresh(copy) && copy.bids == bids && copy.matchingLoads == []
      ensures copy.View() == LoadPosts.CopyWith(View(), status, selectedBidId, brokerConfirmed, carrierConfirmed, now)
    {
      copy := new LoadPost(id, posting, equipment, bids, status.Or(this.status), selectedBidId.Or(this.selectedBidId),
                           brokerConfirmed.GetOr(this.brokerConfirmed), carrierConfirmed.GetOr(this.carrierConfirmed),
                           pickup, drop, None, None, ResetMarks(now), contact);
    }
  }

  // `PlatformDatabaseService` over the `loads` table.
  class LoadTable {
    var rows: seq<Row>

    constructor ()
      ensures rows == []
    {
      rows := [];
    }

    method InsertLoad(load: LoadPost)
      modifies this
      ensures rows == InsertRow(old(rows), ToRow(load.View()))
    {
      var row := RowOf(load);
      rows := InsertRow(rows, row);
    }

    method UpdateLoadBids(loadId: string, bids: BidList)
      modifies this
      ensures rows == PatchBids(old(rows), loadId, EncodeBidsShort(bids.items))
    {
      rows := PatchBids(rows, loadId, EncodeBidsShort(bids.items));
    }

    method UpdateLoad(load: LoadPost)
      modifies this
      ensures rows == ReplaceRow(old(rows), ToRow(load.View()))
    {
      var row := RowOf(load);
      rows := ReplaceRow(rows, row);
    }

    method DeleteLoad(id: string)
      modifies this
      ensures rows == DeleteRow(old(rows), id)
    {
      rows := DeleteRow(rows, id);
    }

    // `getLoads`: every row becomes a new post over a new list.
    method GetLoads() returns (posts: seq<LoadPost>)
      ensures |posts| == |rows|
      ensures forall i :: 0 <= i < |posts| ==>
                fresh(posts[i]) && fresh(posts[i].bids) && posts[i].View() == FromRow(rows[i])
      ensures forall i, j :: 0 <= i < j < |posts| ==> posts[i] != posts[j] && posts[i].bids != posts[j].bids
    {
      hide DecodeBids, Split;
      posts := [];
      for k := 0 to |rows|
        invariant |posts| == k
        invariant forall i :: 0 <= i < k ==>
                    fresh(posts[i]) && fresh(posts[i].bids) && posts[i].View() == FromRow(rows[i])
        invariant forall i, j :: 0 <= i < j < k ==> posts[i] != posts[j] && posts[i].bids != posts[j].bids
      {
        var r := rows[k];
        var bids := new BidList(DecodeBids(r.bids));
        var post := new LoadPost(r.id, r.posting, Split(r.equipment, ';'), bids, r.status, r.selectedBidId,
                                 r.brokerConfirmed == 1, r.carrierConfirmed == 1,
                                 r.pickup, r.drop, r.distance, r.difference, r.marks, NO_CONTACT);
        posts := posts + [post];
      }
    }

    // `toMap`
    static method RowOf(load: LoadPost) returns (row: Row)
      ensures row == ToRow(load.View())
    {
      row := Row(load.id, load.posting, Join(load.equipment, ';'), EncodeBids(load.bids.items), load.status,
                 load.selectedBidId, Flag(load.brokerConfirmed), Flag(load.carrierConfirmed),
                 load.pickup, load.drop, load.distance, load.destinationDifference, load.marks, load.contact);
    }
  }

  lemma IndexIs(loads: seq<Load>, id: string, i: nat)
    requires i <= |loads| && (i < |loads| ==> loads[i].id == id) && forall j :: 0 <= j < i ==> loads[j].id != id
    ensures IndexOf(loads, id) == i
  {
  }

  lemma BidIndexIs(bids: seq<Quote>, bidder: string, i: nat)
    requires i <= |bids| && (i < |bids| ==> bids[i].bidder == bidder)
    requires forall j :: 0 <= j < i ==> bids[j].bidder != bidder
    ensures BidIndex(bids, bidder) == i
  {
  }

  lemma AnswerFound(s: State, t: State, id: string, bidder: string, status: string, counter: Option<Amount>, now: int,
                    i: nat, k: nat)
    requires i == IndexOf(s.loads, id) && (i < |s.loads| ==> k == BidIndex(s.loads[i].bids, bidder))
    requires i == |s.loads| || k == |s.loads[i].bids| ==> t == s
    requires i < |s.loads| && k < |s.loads[i].bids| ==>
      var l := Answered(s.loads[i], k, status, counter, now);
      && t.loads == s.loads[i := l] && t.cache == s.cache && t.notices == s.notices
      && t.rows == ReplaceRow(PatchBids(s.rows, id, EncodeBidsShort(l.bids)), ToRow(l))
    ensures t == AfterAnswer(s, id, bidder, status, counter, now)
  {
  }

  lemma BidAdded(s: State, t: State, id: string, quote: Quote, i: nat)
    requires i == IndexOf(s.loads, id) && (i == |s.loads| ==> t == s)
    requires i < |s.loads| ==>
      var bids := PutBid(s.loads[i].bids, quote);
      && t.loads == s.loads[i := s.loads[i].(bids := bids)] && t.cache == s.cache && t.notices == s.notices
      && t.rows == PatchBids(s.rows, id, EncodeBidsShort(bids))
    ensures t == AfterAddBid(s, id, quote)
  {
  }

  lemma ConfirmFound(s: State, t: State, id: string, now: int, i: nat)
    requires i == IndexOf(s.loads, id) && (i == |s.loads| ==> t == s)
    requires i < |s.loads| ==>
      var was, l := s.loads[i], Confirmed(s.loads[i], now);
      && t.loads == s.loads[i := l] && t.rows == ReplaceRow(s.rows, ToRow(l)) && t.cache == s.cache
      && t.notices == s.notices + [LoadConfirmed(id, was.posting.postedBy, was.selectedBidId.GetOr("Carrier"),
                                                 AcceptedAmount(was.bids, was.selectedBidId))]
    ensures t == AfterConfirm(s, id, now)
  {
  }

  lemma DeclineFound(s: State, t: State, id: string, now: int, i: nat)
    requires i == IndexOf(s.loads, id) && (i == |s.loads| ==> t == s)
    requires i < |s.loads| ==>
      var was, l := s.loads[i], Declined(s.loads[i], now);
      && t.loads == s.loads[i := l] && t.rows == ReplaceRow(s.rows, ToRow(l)) && t.cache == s.cache
      && t.notices == s.notices + [LoadDeclined(id, was.posting.postedBy, was.selectedBidId.GetOr("Carrier"),
                                                AcceptedAmount(was.bids, was.selectedBidId))]
    ensures t == AfterDecline(s, id, now)
  {
  }

  // `_loads.removeWhere((load) => load.id == id)`
  function OtherPosts(posts: seq<LoadPost>, id: string): seq<LoadPost> {
    Where(posts, (p: LoadPost) => p.id != id)
  }

  lemma OtherPostsSnoc(posts: seq<LoadPost>, p: LoadPost, id: string)
    ensures p.id != id ==> OtherPosts(posts + [p], id) == OtherPosts(posts, id) + [p]
    ensures p.id == id ==> OtherPosts(posts + [p], id) == OtherPosts(posts, id)
  {
    WhereSnoc(posts, p, (p: LoadPost) => p.id != id);
  }

  // `views` shows the posts one by one.
  ghost predicate Shows(views: seq<Load>, posts: seq<LoadPost>)
    reads posts, set i | 0 <= i < |posts| :: posts[i].bids
  {
    |views| == |posts| && forall i :: 0 <= i < |posts| ==> views[i] == posts[i].View()
  }

  lemma ShowsSnoc(views: seq<Load>, posts: seq<LoadPost>, view: Load, post: LoadPost)
    requires view == post.View()
    ensures Shows(views, posts) <==> Shows(views + [view], posts + [post])
  {
    hide LoadPost.View;
    if Shows(views + [view], posts + [post]) {
      forall i | 0 <= i < |posts| ensures views[i] == posts[i].View() {
        assert (views + [view])[i] == (posts + [post])[i].View();
      }
    }
  }

  lemma AwaitingStep(views: seq<Load>, i: nat, posts: seq<LoadPost>, post: LoadPost, carrier: string)
    requires i < |views| && views[i] == post.View() && Shows(AwaitingLoads(views[..i], carrier), posts)
    ensures Shows(AwaitingLoads(views[..i + 1], carrier),
                  if ListedFor(views[i], carrier) then posts + [post] else posts)
  {
    hide AwaitingLoads, Shows, LoadPost.View, ListedFor;
    AwaitingSnoc(views[..i], views[i], carrier);
    ShowsSnoc(AwaitingLoads(views[..i], carrier), posts, views[i], post);
    assert views[..i + 1] == views[..i] + [views[i]];
  }

  lemma {:induction false} OtherPostsViews(posts: seq<LoadPost>, views: seq<Load>, id: string)
    requires Shows(views, posts)
    ensures Shows(DropLoad(views, id), OtherPosts(posts, id))
  {
    var n := |posts|;
    if n > 0 {
      hide OtherPosts, DropLoad, LoadPost.View;
      var front, frontViews := posts[..n - 1], views[..n - 1];
      assert posts == front + [posts[n - 1]] && views == frontViews + [views[n - 1]];
      ShowsSnoc(frontViews, front, views[n - 1], posts[n - 1]);
      OtherPostsViews(front, frontViews, id);
      OtherPostsSnoc(front, posts[n - 1], id);
      DropSnoc(frontViews, views[n - 1], id);
      ShowsSnoc(DropLoad(frontViews, id), OtherPosts(front, id), views[n - 1], posts[n - 1]);
    }
  }

  ghost predicate Apart(posts: seq<LoadPost>) {
    forall i, j :: 0 <= i < j < |posts| ==> posts[i] != posts[j] && posts[i].bids != posts[j].bids
  }

  lemma {:induction false} OtherPostsDistinct(posts: seq<LoadPost>, id: string)
    requires Apart(posts)
    ensures Apart(OtherPosts(posts, id)) && forall p :: p in OtherPosts(posts, id) ==> p in posts
  {
    var n := |posts|;
    if n > 0 {
      var front, p := posts[..n - 1], posts[n - 1];
      hide OtherPosts;
      OtherPostsDistinct(front, id);
      OtherPostsSnoc(front, p, id);
      assert posts == front + [p];
      var kept := OtherPosts(front, id);
      forall i | 0 <= i < |kept| ensures kept[i] != p && kept[i].bids != p.bids {
        assert kept[i] in front;
      }
    }
  }

  lemma FetchedAt(rows: seq<Row>, views: seq<Load>)
    requires |views| == |rows| && forall i :: 0 <= i < |rows| ==> views[i] == FromRow(rows[i])
    ensures views == FetchedLoads(rows)
  {
    hide FromRow;
  }

  // The coordinates of both ends of a load.
  datatype Ends = Ends(pickup: Option<Point>, drop: Option<Point>)

  // The distance cache and the destination differences the posts show.
  datatype Answers = Answers(cache: Cache, shown: map<LoadPost, Option<string>>)

  predicate NeitherHasRadius(l: Load, m: Load) { NoRadius(l) && NoRadius(m) }

  class LoadProvider {
    const world: World
    const board: Board
    const db: LoadTable
    var loads: seq<LoadPost>
    var distanceCache: Cache
    ghost var notices: seq<Notice>

    // Distinct loads are distinct objects and never share a bid list.
    ghost predicate Valid()
      reads this
    {
      Apart(loads)
    }

    ghost function Lists(): set<BidList>
      reads this
    {
      set i | 0 <= i < |loads| :: loads[i].bids
    }

    ghost function Views(): (views: seq<Load>)
      reads this, loads, Lists()
      ensures |views| == |loads| && forall i :: 0 <= i < |loads| ==> views[i] == loads[i].View()
    {
      seq(|loads|, i requires 0 <= i < |loads| reads this, loads, Lists() => loads[i].View())
    }

    ghost function View(): State
      reads this, db, loads, Lists()
    {
      State(Views(), db.rows, distanceCache, notices)
    }

    // Every load keeps its bid list, by identity: whoever still holds the old post sees the same bids.
    twostate predicate KeepsLists()
      reads this
    {
      |loads| == |old(loads)| && forall i :: 0 <= i < |loads| ==> loads[i].bids == old(loads)[i].bids
    }

    constructor (world: World, board: Board)
      ensures Valid() && View() == EMPTY && fresh(db)
      ensures this.world == world && this.board == board
    {
      this.world, this.board := world, board;
      db := new LoadTable();
      loads, distanceCache, notices := [], map[], [];
    }

    // `_loads.indexWhere((l) => l.id == id)`
    method IndexWhere(id: string) returns (i: nat)
      ensures i == IndexOf(Views(), id)
    {
      i := 0;
      while i < |loads| && loads[i].id != id
        invariant i <= |loads|
        invariant forall j :: 0 <= j < i ==> loads[j].id != id
      {
        i := i + 1;
      }
      IndexIs(Views(), id, i);
    }

    // `_loads[index] = copy`, for a copy over the same bid list.
    method SetLoad(index: nat, copy: LoadPost)
      requires Valid() && index < |loads| && copy !in loads && copy.bids == loads[index].bids
      modifies this`loads
      ensures Valid() && loads == old(loads)[index := copy] && Lists() == old(Lists()) && KeepsLists()
      ensures Views() == old(Views())[index := copy.View()]
    {
      loads := loads[index := copy];
      assert forall i :: 0 <= i < |loads| ==> loads[i].bids == old(loads)[i].bids;
    }

    // `_loads[index].bids`, changed in place.
    method SetBids(index: nat, items: seq<Quote>)
      requires Valid() && index < |loads|
      modifies loads[index].bids
      ensures loads[index].bids.items == items
      ensures Views() == old(Views())[index := old(loads[index].View()).(bids := items)]
    {
      loads[index].bids.items := items;
    }

    method AddLoad(post: LoadPost)
      requires Valid() && post !in loads && post.bids !in Lists()
      modifies this`loads, db
      ensures Valid() && View() == AfterAddLoad(old(View()), old(post.View()))
    {
      db.InsertLoad(post);
      loads := loads + [post];
      assert Views() == old(Views()) + [post.View()];
    }

    // `removeWhere` on the bidder, then `add`.
    method PlaceBid(index: nat, quote: Quote)
      requires Valid() && index < |loads|
      modifies loads[index].bids
      ensures Views() == old(Views())[index :=
                old(loads[index].View()).(bids := PutBid(old(loads[index].bids.items), quote))]
    {
      hide Without;
      SetBids(index, Without(loads[index].bids.items, quote.bidder));
      SetBids(index, loads[index].bids.items + [quote]);
    }

    method AddBid(loadId: string, quote: Quote)
      requires Valid()
      modifies db, Lists()
      ensures Valid() && View() == AfterAddBid(old(View()), loadId, quote)
    {
      hide AfterAddBid, PatchBids, EncodeBidsShort, Without, IndexOf;
      ghost var before := View();
      var index := IndexWhere(loadId);
      if index < |loads| {
        PlaceBid(index, quote);
        db.UpdateLoadBids(loadId, loads[index].bids);
      }
      BidAdded(before, View(), loadId, quote, index);
    }

    // `bids.indexWhere((b) => b.bidder == bidder)`
    method IndexWhereBidder(list: BidList, bidder: string) returns (i: nat)
      ensures i == BidIndex(list.items, bidder)
    {
      i := 0;
      while i < |list.items| && list.items[i].bidder != bidder
        invariant i <= |list.items|
        invariant forall j :: 0 <= j < i ==> list.items[j].bidder != bidder
      {
        i := i + 1;
      }
      BidIndexIs(list.items, bidder, i);
    }

    // The bid replaced in place and, on acceptance, the load replaced by a copy over the same list.
    method AnswerBid(index: nat, bidIndex: nat, bidder: string, status: string,
                     counterBidAmount: Option<Amount>, now: int)
      requires Valid() && index < |loads| && bidIndex < |loads[index].bids.items|
      requires loads[index].bids.items[bidIndex].bidder == bidder
      modifies this`loads, loads[index].bids
      ensures Valid() && Lists() == old(Lists()) && KeepsLists()
      ensures Views() == old(Views())[index := Answered(old(Views())[index], bidIndex, status, counterBidAmount, now)]
    {
      var oldBid := loads[index].bids.items[bidIndex];
      SetBids(index, loads[index].bids.items[bidIndex :=
        Quote(oldBid.bidder, oldBid.amount, status, counterBidAmount.Or(oldBid.counter))]);
      if status == "accepted" {
        var copy := loads[index].CopyWith(Some("awaiting_carrier_confirmation"), Some(bidder),
                                          Some(true), Some(false), now);
        SetLoad(index, copy);
      }
    }

    // The answer, written through to the table twice.
    method StoreAnswer(loadId: string, index: nat, bidIndex: nat, bidder: string, status: string,
                       counterBidAmount: Option<Amount>, now: int)
      requires Valid() && index < |loads| && bidIndex < |loads[index].bids.items|
      requires loads[index].bids.items[bidIndex].bidder == bidder
      modifies this`loads, db, loads[index].bids
      ensures Valid() && Lists() == old(Lists()) && KeepsLists()
      ensures var l := Answered(old(Views())[index], bidIndex, status, counterBidAmount, now);
        && Views() == old(Views())[index := l]
        && db.rows == ReplaceRow(PatchBids(old(db.rows), loadId, EncodeBidsShort(l.bids)), ToRow(l))
    {
      hide ToRow, ReplaceRow, PatchBids, EncodeBidsShort, Answered, Apart;
      AnswerBid(index, bidIndex, bidder, status, counterBidAmount, now);
      db.UpdateLoadBids(loadId, loads[index].bids);
      db.UpdateLoad(loads[index]);
    }

    method UpdateBidStatus(loadId: string, bidder: string, status: string, counterBidAmount: Option<Amount>, now: int)
      requires Valid()
      modifies this`loads, db, Lists()
      ensures Valid() && KeepsLists()
      ensures View() == AfterAnswer(old(View()), loadId, bidder, status, counterBidAmount, now)
    {
      hide ToRow, ReplaceRow, PatchBids, IndexOf, BidIndex, EncodeBidsShort, Answered, AfterAnswer;
      ghost var before := View();
      var index := IndexWhere(loadId);
      var bidIndex := 0;
      if index < |loads| {
        bidIndex := IndexWhereBidder(loads[index].bids, bidder);
        if bidIndex < |loads[index].bids.items| {
          StoreAnswer(loadId, index, bidIndex, bidder, status, counterBidAmount, now);
        }
      }
      AnswerFound(before, View(), loadId, bidder, status, counterBidAmount, now, index, bidIndex);
    }

    // `firstWhere` on the selected bidder and 'accepted', `orElse` amount 0.
    method FindAcceptedAmount(load: LoadPost) returns (amount: Amount)
      ensures amount == AcceptedAmount(load.bids.items, load.selectedBidId)
    {
      var bids := load.bids.items;
      var i := 0;
      while i < |bids| && !(Some(bids[i].bidder) == load.selectedBidId && bids[i].status == "accepted")
        invariant i <= |bids|
        invariant AcceptedAmount(bids, load.selectedBidId) == AcceptedAmount(bids[i..], load.selectedBidId)
      {
        i := i + 1;
      }
      amount := if i < |bids| then bids[i].amount else ZERO;
    }

    // `_loads[index] = load.copyWith(...)`, written through to the table.
    method ReplaceByCopy(index: nat, status: Option<string>,
                         brokerConfirmed: Option<bool>, carrierConfirmed: Option<bool>, now: int)
      requires Valid() && index < |loads|
      modifies this`loads, db
      ensures Valid() && KeepsLists()
      ensures var copy := LoadPosts.CopyWith(old(Views())[index], status, None, brokerConfirmed, carrierConfirmed, now);
              Views() == old(Views())[index := copy] && db.rows == ReplaceRow(old(db.rows), ToRow(copy))
    {
      hide ToRow, ReplaceRow, Apart, LoadPosts.CopyWith;
      var copy := loads[index].CopyWith(status, None, brokerConfirmed, carrierConfirmed, now);
      SetLoad(index, copy);
      db.UpdateLoad(loads[index]);
    }

    /** False stands for the exception 'Load not found'. */
    method ConfirmLoad(loadId: string, now: int) returns (found: bool)
      requires Valid()
      modifies this`loads, this`notices, db
      ensures Valid() && KeepsLists() && View() == AfterConfirm(old(View()), loadId, now)
      ensures found <==> IndexOf(old(Views()), loadId) < |old(loads)|
    {
      hide ToRow, ReplaceRow, AcceptedAmount, IndexOf, AfterConfirm, Apart, LoadPosts.CopyWith;
      ghost var before := View();
      var index := IndexWhere(loadId);
      found := index < |loads|;
      if found {
        var load := loads[index];
        ReplaceByCopy(index, Some("confirmed"), None, Some(true), now);
        var bidAmount := FindAcceptedAmount(load);
        notices := notices + [LoadConfirmed(loadId, load.posting.postedBy,
                                            load.selectedBidId.GetOr("Carrier"), bidAmount)];
      }
      ConfirmFound(before, View(), loadId, now, index);
    }

    method DeclineLoad(loadId: string, now: int) returns (found: bool)
      requires Valid()
      modifies this`loads, this`notices, db
      ensures Valid() && KeepsLists() && View() == AfterDecline(old(View()), loadId, now)
      ensures found <==> IndexOf(old(Views()), loadId) < |old(loads)|
    {
      hide ToRow, ReplaceRow, AcceptedAmount, IndexOf, AfterDecline, Apart, LoadPosts.CopyWith;
      ghost var before := View();
      var index := IndexWhere(loadId);
      found := index < |loads|;
      if found {
        var load := loads[index];
        ReplaceByCopy(index, Some("declined_by_carrier"), Some(false), Some(false), now);
        var bidAmount := FindAcceptedAmount(load);
        notices := notices + [LoadDeclined(loadId, load.posting.postedBy,
                                           load.selectedBidId.GetOr("Carrier"), bidAmount)];
      }
      DeclineFound(before, View(), loadId, now, index);
    }

    method DeleteLoad(id: string)
      requires Valid()
      modifies this`loads, this`distanceCache, db
      ensures Valid() && View() == AfterDelete(old(View()), id)
    {
      hide DeleteRow, DropLoad, OtherPosts;
      db.DeleteLoad(id);
      OtherPostsViews(loads, Views(), id);
      OtherPostsDistinct(loads, id);
      var kept := OtherPosts(loads, id);
      ghost var dropped := DropLoad(Views(), id);
      assert Views() == old(Views());
      loads := kept;
      forall i | 0 <= i < |dropped| ensures Views()[i] == dropped[i] {
        assert Views()[i] == kept[i].View();
      }
      assert Views() == dropped;
      distanceCache := distanceCache - {id};
    }

    // The loads of the table and the distance of each.
    method ReloadLoads(now: int)
      requires Valid()
      modifies this`loads, this`distanceCache, db
      ensures Valid() && forall i :: 0 <= i < |loads| ==> fresh(loads[i]) && fresh(loads[i].bids)
      ensures View() == AfterFetch(world, old(View()), now)
    {
      hide FetchedLoads, MeasureAt, FromRow;
      ghost var before := View();
      var posts := db.GetLoads();
      loads := posts;
      ghost var reloaded := before.(loads := FetchedLoads(before.rows));
      FetchedAt(before.rows, Views());
      for i := 0 to |posts|
        invariant Valid() && loads == posts && |posts| == |reloaded.loads|
        invariant forall k :: 0 <= k < |posts| ==> fresh(posts[k]) && fresh(posts[k].bids)
        invariant MeasureFrom(world, View(), i, now) == MeasureFrom(world, reloaded, 0, now)
      {
        CalculateDistance(i, now);
      }
    }

    // The coordinates and the distance of one post, and whether they are to be written back.
    method MeasureLoad(load: LoadPost) returns (writeBack: bool)
      modifies this`distanceCache, load`pickup, load`drop, load`distance
      ensures Measured(load.View(), distanceCache, writeBack) == Measure(world, old(distanceCache), old(load.View()))
    {
      hide Geocode, Trim;
      if load.id in distanceCache { return false; }
      if load.pickup.None? {
        if Trim(load.posting.origin) == "" { return false; }
        load.pickup := Geocode(world, load.posting.origin);
      }
      if load.drop.None? {
        if Trim(load.posting.destination) == "" { return false; }
        load.drop := Geocode(world, load.posting.destination);
      }
      if load.pickup.None? || load.drop.None? {
        distanceCache := distanceCache[load.id := "Location not found"];
        return false;
      }
      var origin, destination := load.pickup.value, load.drop.value;
      var route := world.route(origin, destination);
      if route.Found? {
        var shown := route.text.GetOr("Unknown distance") + if route.isEstimate then " (est.)" else "";
        distanceCache := distanceCache[load.id := shown];
        load.distance := Some(shown);
        return true;
      }
      distanceCache := distanceCache[load.id :=
        if route.Missing? then "Calculation failed" else world.fallback(origin, destination)];
      return false;
    }

    method CalculateDistance(i: nat, now: int)
      requires Valid() && i < |loads|
      modifies this`distanceCache, loads[i], db
      ensures View() == MeasureAt(world, old(View()), i, now)
    {
      hide ToRow, ReplaceRow, Measure;
      var writeBack := MeasureLoad(loads[i]);
      if writeBack {
        var stored := loads[i].CopyWith(None, None, None, None, now);
        db.UpdateLoad(stored);
      }
      assert Views() == old(Views())[i := loads[i].View()];
    }

    /**
     Both halves of `fetchLoads`, the distances and then the matches: a reload followed by the
     comparisons of the matching loops, which change nothing but the differences and the cache.
     A table that cannot be read leaves no loads in memory.
     */
    method FetchLoads(now: int, readable: bool)
      requires Valid()
      modifies this`loads, this`distanceCache, db
      ensures Valid() && (!readable ==> View() == old(View()).(loads := []))
      ensures readable ==> Pictured(AfterFetch(world, old(View()), now), Album())
      ensures readable && UniquePosts() ==>
        View() == Run(world, AfterFetch(world, old(View()), now), Comparisons(BothAsks(Album(), Album())))
    {
      if readable {
        hide *;
        ReloadLoads(now);
        UpdateMatches();
      } else {
        loads := [];
      }
    }

    /** Exactly the loads listed for the carrier, in order. */
    method GetLoadsAwaitingCarrierConfirmation(carrierId: string) returns (posts: seq<LoadPost>)
      ensures Shows(AwaitingLoads(Views(), carrierId), posts) && forall p :: p in posts ==> p in loads
    {
      ghost var views := Views();
      posts := [];
      assert Shows(AwaitingLoads(views[..0], carrierId), posts);
      hide AwaitingLoads, Shows, LoadPost.View, ListedFor;
      for i := 0 to |loads|
        invariant Shows(AwaitingLoads(views[..i], carrierId), posts)
        invariant forall p :: p in posts ==> p in loads
      {
        AwaitingStep(views, i, posts, loads[i], carrierId);
        if ListedFor(loads[i].View(), carrierId) {
          posts := posts + [loads[i]];
        }
      }
      assert views[..|views|] == views == Views();
    }

    // ----- matches -----

    method CalculateDistanceBetweenPickups(origin1: string, origin2: string) returns (text: Option<string>)
      modifies this`distanceCache
      ensures (text, distanceCache) == PairDistance(world, old(distanceCache), origin1, origin2)
    {
      var cacheKey := PairKey(origin1, origin2);
      if cacheKey in distanceCache {
        return Some(distanceCache[cacheKey]);
      }
      text := None;
      var point1 := Geocode(world, origin1);
      var point2 := Geocode(world, origin2);
      if point1.Some? && point2.Some? {
        var route := world.route(point1.value, point2.value);
        if route.Found? && route.text.Some? {
          text := route.text;
          distanceCache := distanceCache[cacheKey := text.value];
        }
      }
    }

    // `calculateDestinationDifference`
    method CalculateDestinationDifference(load: LoadPost, other: LoadPost)
      modifies this`distanceCache, load`destinationDifference
      ensures var a, b := load.posting.destination, other.posting.destination;
              (load.destinationDifference, distanceCache) == DestinationDifference(world, old(distanceCache), a, b)
    {
      if load.posting.destination == "" || other.posting.destination == "" {
        load.destinationDifference := None;
      } else {
        var text := CalculateDistanceBetweenPickups(load.posting.destination, other.posting.destination);
        load.destinationDifference := text;
      }
    }

    ghost function MatchList(v: map<LoadPost, Load>, target: LoadPost, candidates: seq<LoadPost>): seq<LoadPost> {
      Where(candidates, (c: LoadPost) => target in v && c in v && Matches(board, v[target], v[c]))
    }

    lemma MatchListSnoc(v: map<LoadPost, Load>, target: LoadPost, candidates: seq<LoadPost>, c: LoadPost)
      requires target in v && c in v
      ensures MatchList(v, target, candidates + [c]) ==
              MatchList(v, target, candidates) + if Matches(board, v[target], v[c]) then [c] else []
    {
      hide Matches;
      WhereSnoc(candidates, c, (c: LoadPost) => target in v && c in v && Matches(board, v[target], v[c]));
    }

    // `v` is what the posts in `posts` look like.
    ghost predicate Pictures(v: map<LoadPost, Load>, posts: seq<LoadPost>)
      reads posts, set i | 0 <= i < |posts| :: posts[i].bids
    {
      forall p :: p in posts ==> p in v && v[p] == p.Face()
    }

    // What the posts look like, one by one.
    ghost function Looks(v: map<LoadPost, Load>, posts: seq<LoadPost>): seq<Load>
      requires forall p :: p in posts ==> p in v
    {
      seq(|posts|, i requires 0 <= i < |posts| => v[posts[i]])
    }

    lemma LooksSnoc(v: map<LoadPost, Load>, posts: seq<LoadPost>, p: LoadPost)
      requires p in v && forall q :: q in posts ==> q in v
      ensures Looks(v, posts + [p]) == Looks(v, posts) + [v[p]]
    {
    }

    lemma FindSnoc(target: Load, views: seq<Load>, m: Load)
      ensures Matching.FindMatchingLoads(board, target, views + [m]) ==
              Matching.FindMatchingLoads(board, target, views) + if Matches(board, target, m) then [m] else []
    {
      hide Matches;
      WhereSnoc(views, m, (m: Load) => Matches(board, target, m));
    }

    // What the posts kept look like is what `Matching.FindMatchingLoads` keeps.
    lemma {:induction false} MatchListLooks(v: map<LoadPost, Load>, target: LoadPost, candidates: seq<LoadPost>)
      requires target in v && forall p :: p in candidates ==> p in v
      ensures forall p :: p in MatchList(v, target, candidates) ==> p in v
      ensures Looks(v, MatchList(v, target, candidates)) ==
              Matching.FindMatchingLoads(board, v[target], Looks(v, candidates))
    {
      var n := |candidates|;
      if n > 0 {
        hide Matches, MatchList, Matching.FindMatchingLoads, Looks;
        var front, c := candidates[..n - 1], candidates[n - 1];
        assert candidates == front + [c] && c in candidates;
        MatchListLooks(v, target, front);
        MatchListSnoc(v, target, front, c);
        LooksSnoc(v, front, c);
        FindSnoc(v[target], Looks(v, front), v[c]);
        var kept := MatchList(v, target, front);
        LooksSnoc(v, kept, c);
        assert kept + [] == kept && Looks(v, kept) + [] == Looks(v, kept);
      }
    }

    /** The posts kept, in order; what they look like is what the filter over values keeps. */
    method FindMatchingLoads(target: LoadPost, candidates: seq<LoadPost>, ghost v: map<LoadPost, Load>)
      returns (matches: seq<LoadPost>)
      requires target in v && v[target] == target.Face() && Pictures(v, candidates)
      ensures matches == MatchList(v, target, candidates) && forall p :: p in matches ==> p in v
      ensures Looks(v, matches) == Matching.FindMatchingLoads(board, target.Face(), Looks(v, candidates))
    {
      matches := [];
      assert MatchList(v, target, candidates[..0]) == [];
      hide MatchList, Matches, Looks;
      for i := 0 to |candidates|
        invariant matches == MatchList(v, target, candidates[..i])
      {
        var c := candidates[i];
        assert c in v && v[c] == c.Face();
        MatchListSnoc(v, target, candidates[..i], c);
        assert candidates[..i + 1] == candidates[..i] + [c];
        if Matches(board, target.Face(), c.Face()) {
          matches := matches + [c];
        }
      }
      assert candidates[..|candidates|] == candidates;
      MatchListLooks(v, target, candidates);
    }

    function BrokerPosts(): seq<LoadPost>
      reads this`loads
    {
      Where(loads, (p: LoadPost) => p.posting.isBrokerPost)
    }

    function CarrierPosts(): seq<LoadPost>
      reads this`loads
    {
      Where(loads, (p: LoadPost) => p.posting.isCarrierPost)
    }

    // ----- which destination difference is left -----

    // The pairs (match, target) in the order in which a loop over `targets` compares destinations.
    ghost function Asks(v: map<LoadPost, Load>, targets: seq<LoadPost>, candidates: seq<LoadPost>)
      : seq<(LoadPost, LoadPost)>
    {
      if targets == [] then []
      else
        var front, t := targets[..|targets| - 1], targets[|targets| - 1];
        Asks(v, front, candidates) + With(MatchList(v, t, candidates), t)
    }

    ghost function With(matches: seq<LoadPost>, target: LoadPost): seq<(LoadPost, LoadPost)> {
      seq(|matches|, i requires 0 <= i < |matches| => (matches[i], target))
    }

    // The target `p` was last compared with.
    ghost function LastAsker(asks: seq<(LoadPost, LoadPost)>, p: LoadPost): Option<LoadPost> {
      if asks == [] then None
      else
        var last := asks[|asks| - 1];
        if last.0 == p then Some(last.1) else LastAsker(asks[..|asks| - 1], p)
    }

    // What one comparison leaves.
    ghost function Ask(r: Answers, load: LoadPost, target: LoadPost): Answers {
      var (difference, cache) :=
        DestinationDifference(world, r.cache, load.posting.destination, target.posting.destination);
      Answers(cache, r.shown[load := difference])
    }

    // What a sequence of comparisons leaves.
    ghost function AskAll(r: Answers, asks: seq<(LoadPost, LoadPost)>): Answers {
      if asks == [] then r
      else Ask(AskAll(r, asks[..|asks| - 1]), asks[|asks| - 1].0, asks[|asks| - 1].1)
    }

    lemma AskAllSnoc(r: Answers, asks: seq<(LoadPost, LoadPost)>, load: LoadPost, target: LoadPost)
      ensures AskAll(r, asks + [(load, target)]) == Ask(AskAll(r, asks), load, target)
    {
      assert (asks + [(load, target)])[..|asks|] == asks;
    }

    lemma AskSound(r: Answers, load: LoadPost, target: LoadPost, a: string, b: string)
      requires PairSound(world, r.cache, a, b) && !Confusable(a, b)
      ensures PairSound(world, Ask(r, load, target).cache, a, b)
    {
      hide PairDistance, PairSound, Confusable;
      ApplyKeepsSound(world, r.cache, AskPair(load.posting.destination, target.posting.destination), a, b);
    }

    /** Comparisons keep the entry of every pair that cannot be confused right. */
    lemma {:induction false} AskAllSound(r: Answers, asks: seq<(LoadPost, LoadPost)>, a: string, b: string)
      requires PairSound(world, r.cache, a, b) && !Confusable(a, b)
      ensures PairSound(world, AskAll(r, asks).cache, a, b)
    {
      hide PairSound, Confusable, Ask;
      if asks != [] {
        var n := |asks| - 1;
        AskAllSound(r, asks[..n], a, b);
        AskSound(AskAll(r, asks[..n]), asks[n].0, asks[n].1, a, b);
      }
    }

    lemma PairAnswer(cache: Cache, a: string, b: string)
      requires PairSound(world, cache, a, b)
      ensures PairDistance(world, cache, a, b).0 == PairText(world, a, b)
    {
    }

    // What `p` shows next to `target`: nothing for an empty destination, else the uncached distance.
    ghost predicate DiffersFrom(shown: Option<string>, cache: Cache, p: LoadPost, target: LoadPost) {
      var a, b := p.posting.destination, target.posting.destination;
      if a == "" || b == "" then shown == None
      else !Confusable(a, b) && PairSound(world, cache, a, b) ==> shown == PairText(world, a, b)
    }

    /** Every load is left with its difference to the target it was last compared with, or what it showed before. */
    lemma {:induction false} AskAllShows(r: Answers, asks: seq<(LoadPost, LoadPost)>, p: LoadPost)
      requires p in r.shown
      ensures var s, t := AskAll(r, asks), LastAsker(asks, p);
        p in s.shown && if t.Some? then DiffersFrom(s.shown[p], r.cache, p, t.value) else s.shown[p] == r.shown[p]
    {
      hide Confusable, PairSound, PairDistance, PairText;
      if asks != [] {
        var n := |asks| - 1;
        AskAllShows(r, asks[..n], p);
        var a, b := asks[n].0.posting.destination, asks[n].1.posting.destination;
        if asks[n].0 == p && !Confusable(a, b) && PairSound(world, r.cache, a, b) {
          AskAllSound(r, asks[..n], a, b);
          PairAnswer(AskAll(r, asks[..n]).cache, a, b);
        }
      }
    }

    // The cache and the differences shown now.
    ghost function Now(): Answers
      reads this`loads, this`distanceCache, loads`destinationDifference
    {
      Answers(distanceCache, Shown())
    }

    // `match.calculateDestinationDifference(target, ...)`
    method Compare(load: LoadPost, target: LoadPost, ghost asks: seq<(LoadPost, LoadPost)>, ghost start: Answers)
      requires load in loads && Now() == AskAll(start, asks)
      modifies this`distanceCache, loads`destinationDifference
      ensures Now() == AskAll(start, asks + [(load, target)])
    {
      AskAllSnoc(start, asks, load, target);
      hide DestinationDifference, AskAll;
      CalculateDestinationDifference(load, target);
    }

    // The inner loop: every match is compared with the target.
    method UpdateDifferences(target: LoadPost, matches: seq<LoadPost>, ghost asks: seq<(LoadPost, LoadPost)>,
                             ghost start: Answers)
      requires (forall p :: p in matches ==> p in loads) && Now() == AskAll(start, asks)
      modifies this`distanceCache, loads`destinationDifference
      ensures Now() == AskAll(start, asks + With(matches, target))
    {
      hide Now, AskAll;
      assert asks + With(matches[..0], target) == asks;
      for k := 0 to |matches|
        invariant Now() == AskAll(start, asks + With(matches[..k], target))
      {
        assert matches[k] in matches;
        Compare(matches[k], target, asks + With(matches[..k], target), start);
        assert asks + With(matches[..k + 1], target) == asks + With(matches[..k], target) + [(matches[k], target)];
      }
      assert matches[..|matches|] == matches;
    }

    method MatchOne(target: LoadPost, candidates: seq<LoadPost>, ghost v: map<LoadPost, Load>,
                    ghost asks: seq<(LoadPost, LoadPost)>, ghost start: Answers)
      requires Pictures(v, loads) && target in loads && forall p :: p in candidates ==> p in loads
      requires Now() == AskAll(start, asks)
      modifies this`distanceCache, target`matchingLoads, loads`destinationDifference
      ensures Pictures(v, loads) && target.matchingLoads == MatchList(v, target, candidates)
      ensures Now() == AskAll(start, asks + With(MatchList(v, target, candidates), target))
    {
      hide MatchList, Now, AskAll, With;
      var matches := FindMatchingLoads(target, candidates, v);
      target.matchingLoads := matches;
      MatchListFrom(v, target, candidates);
      UpdateDifferences(target, matches, asks, start);
    }

    // One of the two loops: fill in the matches of `targets`.
    method MatchAll(targets: seq<LoadPost>, candidates: seq<LoadPost>, ghost v: map<LoadPost, Load>,
                    ghost asks: seq<(LoadPost, LoadPost)>, ghost start: Answers)
      requires Pictures(v, loads)
      requires (forall p :: p in targets ==> p in loads) && (forall p :: p in candidates ==> p in loads)
      requires Now() == AskAll(start, asks)
      modifies this`distanceCache, loads`matchingLoads, loads`destinationDifference
      ensures Pictures(v, loads)
      ensures forall p :: p in targets ==> p.matchingLoads == MatchList(v, p, candidates)
      ensures forall p :: p in loads && p !in targets ==> p.matchingLoads == old(p.matchingLoads)
      ensures Now() == AskAll(start, asks + Asks(v, targets, candidates))
    {
      hide MatchList, Pictures, Now, AskAll, With;
      assert asks + Asks(v, targets[..0], candidates) == asks;
      for i := 0 to |targets|
        invariant Pictures(v, loads)
        invariant forall j :: 0 <= j < i ==> targets[j].matchingLoads == MatchList(v, targets[j], candidates)
        invariant forall p :: p in loads && p !in targets ==> p.matchingLoads == old(p.matchingLoads)
        invariant Now() == AskAll(start, asks + Asks(v, targets[..i], candidates))
      {
        assert targets[i] in targets && targets[i] in loads;
        MatchOne(targets[i], candidates, v, asks + Asks(v, targets[..i], candidates), start);
        AsksSnoc(v, targets, i, candidates, asks);
      }
      assert targets[..|targets|] == targets;
    }

    lemma AsksSnoc(v: map<LoadPost, Load>, targets: seq<LoadPost>, i: nat, candidates: seq<LoadPost>,
                   asks: seq<(LoadPost, LoadPost)>)
      requires i < |targets|
      ensures asks + Asks(v, targets[..i + 1], candidates) ==
              asks + Asks(v, targets[..i], candidates) + With(MatchList(v, targets[i], candidates), targets[i])
    {
      hide MatchList, With;
      assert targets[..i + 1][..i] == targets[..i];
    }

    lemma MatchListFrom(v: map<LoadPost, Load>, target: LoadPost, candidates: seq<LoadPost>)
      ensures forall p :: p in MatchList(v, target, candidates) ==> p in candidates
    {
    }

    lemma MatchListHolds(v: map<LoadPost, Load>, target: LoadPost, candidates: seq<LoadPost>, p: LoadPost)
      requires target in v && p in v && p in candidates
      ensures p in MatchList(v, target, candidates) <==> Matches(board, v[target], v[p])
    {
      hide Matches;
    }

    // The outcome of the loop over brokers, which saw `v`, and of that over carriers, which saw `w`
    // and decides for posts that are both.
    ghost predicate Matched(v: map<LoadPost, Load>, w: map<LoadPost, Load>)
      reads this`loads, loads`matchingLoads
    {
      forall p :: p in loads ==>
        && (p.posting.isCarrierPost ==> p.matchingLoads == MatchList(w, p, BrokerPosts()))
        && (p.posting.isBrokerPost && !p.posting.isCarrierPost ==> p.matchingLoads == MatchList(v, p, CarrierPosts()))
    }

    predicate OnlyBroker(p: LoadPost) { p.posting.isBrokerPost && !p.posting.isCarrierPost }

    predicate OnlyCarrier(p: LoadPost) { p.posting.isCarrierPost && !p.posting.isBrokerPost }

    // A broker post and a carrier post that satisfy `r` list each other or not at all.
    ghost predicate Mutual(r: (Load, Load) -> bool)
      reads this, loads, Lists()
    {
      forall p, q :: p in loads && q in loads && OnlyBroker(p) && OnlyCarrier(q) && r(p.Face(), q.Face()) ==>
        (q in p.matchingLoads <==> p in q.matchingLoads)
    }

    // The posts looked alike in both loops but for their coordinates.
    ghost predicate OnlyPlacesMoved(v: map<LoadPost, Load>, w: map<LoadPost, Load>)
      reads this`loads
    {
      forall p :: p in loads ==> p in v && p in w && MovedOnly(w[p], v[p])
    }

    /**
     After both loops a carrier post lists exactly the broker posts that match it, and a post that is
     only a broker's exactly the carrier posts that match it.
     */
    lemma ListsExact(v: map<LoadPost, Load>, w: map<LoadPost, Load>)
      requires Matched(v, w) && forall p :: p in loads ==> p in v && p in w
      ensures forall p, q :: p in loads && q in loads && p.posting.isCarrierPost ==>
                (q in p.matchingLoads <==> q.posting.isBrokerPost && Matches(board, w[p], w[q]))
      ensures forall p, q :: p in loads && q in loads && OnlyBroker(p) ==>
                (q in p.matchingLoads <==> q.posting.isCarrierPost && Matches(board, v[p], v[q]))
      ensures forall p :: p in loads && (p.posting.isCarrierPost || p.posting.isBrokerPost) ==>
                forall q :: q in p.matchingLoads ==> q in loads
    {
      hide Matches;
    }

    lemma MatchedIsMutual(v: map<LoadPost, Load>)
      requires Matched(v, v) && Pictures(v, loads) && Symmetric(board)
      ensures Mutual(EvenRadii)
    {
      hide MatchList, Matches, EvenRadii, Symmetric, Where;
      forall p, q | p in loads && q in loads && OnlyBroker(p) && OnlyCarrier(q) && EvenRadii(p.Face(), q.Face())
        ensures q in p.matchingLoads <==> p in q.matchingLoads
      {
        MatchListHolds(v, p, CarrierPosts(), q);
        MatchListHolds(v, q, BrokerPosts(), p);
        MatchIsSymmetric(board, v[p], v[q]);
      }
    }

    lemma MatchedWithoutRadii(v: map<LoadPost, Load>, w: map<LoadPost, Load>)
      requires Matched(v, w) && Pictures(w, loads) && OnlyPlacesMoved(v, w)
      ensures Mutual(NeitherHasRadius)
    {
      hide MatchList, Matches, NoRadius, Where;
      forall p, q | p in loads && q in loads && OnlyBroker(p) && OnlyCarrier(q) && NeitherHasRadius(p.Face(), q.Face())
        ensures q in p.matchingLoads <==> p in q.matchingLoads
      {
        MatchListHolds(v, p, CarrierPosts(), q);
        MatchListHolds(w, q, BrokerPosts(), p);
        NoRadiusIgnoresPlaces(board, w[q], w[p], v[q], v[p]);
      }
    }

    lemma MatchedFrom(v: map<LoadPost, Load>, w: map<LoadPost, Load>, brokers: seq<LoadPost>, carriers: seq<LoadPost>)
      requires brokers == BrokerPosts() && carriers == CarrierPosts()
      requires forall p :: p in carriers ==> p.matchingLoads == MatchList(w, p, brokers)
      requires forall p :: p in brokers && p !in carriers ==> p.matchingLoads == MatchList(v, p, carriers)
      ensures Matched(v, w)
    {
      hide MatchList;
    }

    lemma RolePostsAreLoads()
      ensures forall p :: p in BrokerPosts() ==> p in loads
      ensures forall p :: p in CarrierPosts() ==> p in loads
    {
    }

    ghost function Filled(filled: map<LoadPost, Ends>, p: LoadPost, l: Load): Load {
      if p in filled then l.(pickup := filled[p].pickup, drop := filled[p].drop) else l
    }

    ghost function Posts(): set<LoadPost>
      reads this`loads
    {
      set p | p in loads
    }

    // What every load looks like.
    ghost function Album(): (v: map<LoadPost, Load>)
      reads this, loads, Lists()
      ensures v.Keys == Posts() && Pictures(v, loads)
    {
      map p | p in loads :: p.Face()
    }

    // The destination difference of every load.
    ghost function Shown(): (was: map<LoadPost, Option<string>>)
      reads this`loads, loads`destinationDifference
      ensures was.Keys == Posts()
      ensures forall p :: p in loads ==> was[p] == p.destinationDifference
    {
      map p | p in loads :: p.destinationDifference
    }

    ghost function FilledIn(filled: map<LoadPost, Ends>, v: map<LoadPost, Load>): (w: map<LoadPost, Load>)
      ensures w.Keys == v.Keys
    {
      map p | p in v :: Filled(filled, p, v[p])
    }

    // What the distance pass, which runs at the same time, fills in.
    method FillPlaces(filled: map<LoadPost, Ends>, ghost v: map<LoadPost, Load>)
      requires filled.Keys <= Posts() && v == Album()
      modifies loads`pickup, loads`drop
      ensures Pictures(FilledIn(filled, v), loads)
    {
      hide Album, Looks;
      forall p | p in filled { p.pickup := filled[p].pickup; }
      forall p | p in filled { p.drop := filled[p].drop; }
      ghost var w := FilledIn(filled, v);
      forall p | p in loads ensures p in w && w[p] == p.Face() {
        assert v[p] == old(p.Face());
      }
    }

    lemma FilledMovesOnly(filled: map<LoadPost, Ends>, v: map<LoadPost, Load>)
      requires v.Keys == Posts()
      ensures OnlyPlacesMoved(v, FilledIn(filled, v))
      ensures filled == map[] ==> FilledIn(filled, v) == v
    {
    }

    lemma AlbumIs(w: map<LoadPost, Load>)
      requires w.Keys == Posts() && Pictures(w, loads)
      ensures Album() == w
    {
    }

    // The comparisons of both loops, which see `v` and `w`.
    ghost function BothAsks(v: map<LoadPost, Load>, w: map<LoadPost, Load>): seq<(LoadPost, LoadPost)>
      reads this`loads
    {
      Asks(v, BrokerPosts(), CarrierPosts()) + Asks(w, CarrierPosts(), BrokerPosts())
    }

    // What the loop over broker posts, which saw `v`, leaves.
    ghost predicate HalfDone(v: map<LoadPost, Load>, start: Answers)
      reads this`loads, this`distanceCache, loads`matchingLoads, loads`destinationDifference
    {
      && (forall p :: p in BrokerPosts() ==> p.matchingLoads == MatchList(v, p, CarrierPosts()))
      && Now() == AskAll(start, Asks(v, BrokerPosts(), CarrierPosts()))
    }

    /** What both loops, which saw `v` and `w`, leave: the matches, the differences and the cache. */
    ghost predicate Done(v: map<LoadPost, Load>, w: map<LoadPost, Load>, start: Answers)
      reads this`loads, this`distanceCache, loads`matchingLoads, loads`destinationDifference
    {
      Matched(v, w) && Now() == AskAll(start, BothAsks(v, w))
    }

    method MatchBrokers(ghost v: map<LoadPost, Load>)
      requires Pictures(v, loads)
      modifies this`distanceCache, loads`matchingLoads, loads`destinationDifference
      ensures Pictures(v, loads) && HalfDone(v, old(Now()))
    {
      hide *;
      RolePostsAreLoads();
      ghost var start := Now();
      AskNothing(start);
      MatchAll(BrokerPosts(), CarrierPosts(), v, [], start);
      HalfIsDone(v, start);
    }

    lemma AskNothing(r: Answers)
      ensures AskAll(r, []) == r
    {
    }

    lemma HalfIsDone(v: map<LoadPost, Load>, start: Answers)
      requires forall p :: p in BrokerPosts() ==> p.matchingLoads == MatchList(v, p, CarrierPosts())
      requires Now() == AskAll(start, [] + Asks(v, BrokerPosts(), CarrierPosts()))
      ensures HalfDone(v, start)
    {
      hide MatchList, AskAll, Now, Asks, BrokerPosts, CarrierPosts;
      assert [] + Asks(v, BrokerPosts(), CarrierPosts()) == Asks(v, BrokerPosts(), CarrierPosts());
    }

    method MatchCarriers(ghost v: map<LoadPost, Load>, ghost w: map<LoadPost, Load>, ghost start: Answers)
      requires Pictures(w, loads) && HalfDone(v, start)
      modifies this`distanceCache, loads`matchingLoads, loads`destinationDifference
      ensures Pictures(w, loads) && Done(v, w, start)
    {
      RolePostsAreLoads();
      ghost var brokers, carriers := BrokerPosts(), CarrierPosts();
      hide MatchList, AskAll, Now, Asks, BrokerPosts, CarrierPosts, LoadPost.Face, Pictures, Matched;
      MatchAll(CarrierPosts(), BrokerPosts(), w, Asks(v, brokers, carriers), start);
      MatchedFrom(v, w, brokers, carriers);
    }

    /**
     Both loops of `updateLoadsWithMatches`, with the coordinates in `filled` arriving in between.
     Nothing else of the loads changes but the matches and the differences.
     */
    method UpdateLoadsWithMatches(filled: map<LoadPost, Ends>)
      requires Valid() && filled.Keys <= Posts()
      modifies this`distanceCache, loads`matchingLoads, loads`destinationDifference, loads`pickup, loads`drop
      ensures Album() == FilledIn(filled, old(Album())) && Done(old(Album()), Album(), old(Now()))
      ensures Mutual(NeitherHasRadius) && (filled == map[] && Symmetric(board) ==> Mutual(EvenRadii))
    {
      hide *;
      ghost var v, start := Album(), Now();
      ghost var w := FilledIn(filled, v);
      FilledMovesOnly(filled, v);
      MatchBrokers(v);
      AlbumIs(v);
      FillPlaces(filled, v);
      MatchCarriers(v, w, start);
      AlbumIs(w);
      DoneIsMutual(v, w, start);
    }

    lemma DoneIsMutual(v: map<LoadPost, Load>, w: map<LoadPost, Load>, start: Answers)
      requires Done(v, w, start) && Pictures(w, loads) && OnlyPlacesMoved(v, w)
      ensures Mutual(NeitherHasRadius) && (v == w && Symmetric(board) ==> Mutual(EvenRadii))
    {
      hide Matched, Mutual, Pictures, Now, AskAll;
      MatchedWithoutRadii(v, w);
      if v == w && Symmetric(board) {
        MatchedIsMutual(v);
      }
    }

    /** After both loops every load shows its last comparison, and pairs that cannot be confused stay right. */
    lemma DoneAnswers(v: map<LoadPost, Load>, w: map<LoadPost, Load>, start: Answers)
      requires Done(v, w, start) && start.shown.Keys == Posts()
      ensures forall p :: p in loads ==>
        var t := LastAsker(BothAsks(v, w), p);
        if t.Some? then DiffersFrom(p.destinationDifference, start.cache, p, t.value)
        else p.destinationDifference == start.shown[p]
      ensures forall a, b :: !Confusable(a, b) && PairSound(world, start.cache, a, b) ==>
                PairSound(world, distanceCache, a, b)
    {
      hide Matched, AskAll, LastAsker, DiffersFrom, Confusable, PairSound, BothAsks;
      forall p | p in loads
        ensures var t := LastAsker(BothAsks(v, w), p);
          if t.Some? then DiffersFrom(p.destinationDifference, start.cache, p, t.value)
          else p.destinationDifference == start.shown[p]
      {
        AskAllShows(start, BothAsks(v, w), p);
      }
      forall a, b | !Confusable(a, b) && PairSound(world, start.cache, a, b)
        ensures PairSound(world, distanceCache, a, b)
      {
        AskAllSound(start, BothAsks(v, w), a, b);
      }
    }

    // ----- the matching half as a run -----

    ghost function Comparisons(asks: seq<(LoadPost, LoadPost)>): seq<Action> {
      seq(|asks|, i requires 0 <= i < |asks| => Action.Compare(asks[i].0.id, asks[i].1.posting.destination))
    }

    ghost predicate UniquePosts()
      reads this`loads
    {
      forall i, j :: 0 <= i < j < |loads| ==> loads[i].id != loads[j].id
    }

    // `s` is about the loads of this provider, with the answers `r`.
    ghost predicate Fits(s: State, r: Answers)
      reads this`loads
    {
      && s.cache == r.cache && |s.loads| == |loads|
      && forall i :: 0 <= i < |loads| ==>
           && loads[i] in r.shown && s.loads[i].difference == r.shown[loads[i]]
           && s.loads[i].id == loads[i].id && s.loads[i].posting == loads[i].posting
    }

    // The state `s` with other answers.
    ghost function WithAnswers(s: State, r: Answers): State
      requires |s.loads| == |loads| && forall i :: 0 <= i < |loads| ==> loads[i] in r.shown
      reads this`loads
    {
      var posts := loads;
      s.(cache := r.cache,
         loads := seq(|posts|, i requires 0 <= i < |posts| => s.loads[i].(difference := r.shown[posts[i]])))
    }

    lemma AskIsStep(s: State, r: Answers, load: LoadPost, target: LoadPost)
      requires UniquePosts() && Fits(s, r) && load in loads
      ensures var next := Ask(r, load, target);
        && (forall i :: 0 <= i < |loads| ==> loads[i] in next.shown) && Fits(WithAnswers(s, next), next)
        && Step(world, s, Action.Compare(load.id, target.posting.destination)) == WithAnswers(s, next)
    {
      hide PairDistance;
      var i :| 0 <= i < |loads| && loads[i] == load;
      IndexIs(s.loads, load.id, i);
      var next := Ask(r, load, target);
      var t := Step(world, s, Action.Compare(load.id, target.posting.destination));
      assert t.loads == WithAnswers(s, next).loads;
    }

    lemma NoComparisons(s: State)
      ensures Run(world, s, Comparisons([])) == s
    {
    }

    lemma ComparisonsSnoc(asks: seq<(LoadPost, LoadPost)>, last: (LoadPost, LoadPost))
      ensures Comparisons(asks + [last]) ==
              Comparisons(asks) + [Action.Compare(last.0.id, last.1.posting.destination)]
    {
    }

    lemma {:induction false} AskAllIsRun(s: State, r: Answers, asks: seq<(LoadPost, LoadPost)>)
      requires UniquePosts() && Fits(s, r) && forall i :: 0 <= i < |asks| ==> asks[i].0 in loads
      ensures var next := AskAll(r, asks);
        && (forall i :: 0 <= i < |loads| ==> loads[i] in next.shown) && Fits(WithAnswers(s, next), next)
        && Run(world, s, Comparisons(asks)) == WithAnswers(s, next)
    {
      hide Step, UniquePosts, Ask, Run, Comparisons;
      if asks == [] {
        NoComparisons(s);
        assert WithAnswers(s, r).loads == s.loads;
      } else {
        var n := |asks| - 1;
        var front, last := asks[..n], asks[n];
        AskAllIsRun(s, r, front);
        var mid := AskAll(r, front);
        AskIsStep(WithAnswers(s, mid), mid, last.0, last.1);
        assert asks == front + [last];
        ComparisonsSnoc(front, last);
        RunOne(world, s, Comparisons(front), Action.Compare(last.0.id, last.1.posting.destination));
        assert WithAnswers(WithAnswers(s, mid), AskAll(r, asks)) == WithAnswers(s, AskAll(r, asks));
      }
    }

    lemma {:induction false} AsksAreLoads(v: map<LoadPost, Load>, targets: seq<LoadPost>, candidates: seq<LoadPost>)
      requires forall p :: p in candidates ==> p in loads
      ensures forall i :: 0 <= i < |Asks(v, targets, candidates)| ==> Asks(v, targets, candidates)[i].0 in loads
    {
      if targets != [] {
        var n := |targets| - 1;
        AsksAreLoads(v, targets[..n], candidates);
        MatchListFrom(v, targets[n], candidates);
        hide MatchList;
        var last := MatchList(v, targets[n], candidates);
        assert forall i :: 0 <= i < |last| ==> last[i] in last;
      }
    }

    lemma BothAsksAreLoads(v: map<LoadPost, Load>, w: map<LoadPost, Load>)
      ensures forall i :: 0 <= i < |BothAsks(v, w)| ==> BothAsks(v, w)[i].0 in loads
    {
      RolePostsAreLoads();
      hide Asks, BrokerPosts, CarrierPosts;
      AsksAreLoads(v, BrokerPosts(), CarrierPosts());
      AsksAreLoads(w, CarrierPosts(), BrokerPosts());
    }

    // `s` is about the loads as they are, but for the answers.
    ghost predicate Pictured(s: State, v: map<LoadPost, Load>)
      reads this`loads, this`notices, db
    {
      && s.rows == db.rows && s.notices == notices && |s.loads| == |loads|
      && forall i :: 0 <= i < |loads| ==> loads[i] in v && s.loads[i].(difference := None) == v[loads[i]]
    }

    lemma ViewFits()
      ensures Fits(View(), Now()) && Pictured(View(), Album())
    {
      forall i | 0 <= i < |loads|
        ensures View().loads[i] == loads[i].Face().(difference := loads[i].destinationDifference)
      {
        loads[i].FaceIs();
      }
    }

    lemma AnswersAreView(s: State, v: map<LoadPost, Load>)
      requires Pictured(s, v) && v == Album()
      ensures forall i :: 0 <= i < |loads| ==> loads[i] in Now().shown
      ensures View() == WithAnswers(s, Now())
    {
      ViewFits();
      var t := WithAnswers(s, Now());
      hide LoadPost.Face, LoadPost.View, Album;
      forall i | 0 <= i < |loads| ensures View().loads[i] == t.loads[i] {
        assert View().loads[i].(difference := None) == s.loads[i].(difference := None);
        assert View().loads[i].difference == Now().shown[loads[i]];
        SameButDifference(View().loads[i], s.loads[i]);
      }
      assert View().loads == t.loads;
    }

    lemma SameButDifference(l: Load, m: Load)
      requires l.(difference := None) == m.(difference := None)
      ensures l == m.(difference := l.difference)
    {
    }

    lemma DoneIsNow(v: map<LoadPost, Load>, w: map<LoadPost, Load>, start: Answers)
      requires Done(v, w, start)
      ensures Now() == AskAll(start, BothAsks(v, w))
    {
      hide Matched, Now, AskAll, BothAsks;
    }

    /** Without coordinates arriving, the matching half is the run of its comparisons. */
    method UpdateMatches()
      requires Valid()
      modifies this`distanceCache, loads`matchingLoads, loads`destinationDifference, loads`pickup, loads`drop
      ensures Album() == old(Album()) && Done(old(Album()), Album(), old(Now()))
      ensures UniquePosts() ==> View() == Run(world, old(View()), Comparisons(BothAsks(Album(), Album())))
      ensures Pictured(old(View()), Album())
    {
      hide *;
      ghost var before, v, start := View(), Album(), Now();
      ViewFits();
      FilledMovesOnly(map[], v);
      UpdateLoadsWithMatches(map[]);
      BothAsksAreLoads(v, v);
      DoneIsNow(v, v, start);
      if UniquePosts() {
        AskAllIsRun(before, start, BothAsks(v, v));
        AnswersAreView(before, v);
      }
    }
  }
}
