/**
 Which posts match a post: `LoadProvider.findMatchingLoads`, its symmetry between brokers
 and carriers, and what raising a radius does to it.
 */
module Matching {
  import opened Text
  import opened LoadPosts

  // `fold` lower-cases a character, `miles` is the distance the provider computes.
  datatype Board = Board(fold: char -> string, miles: (Point, Point) -> real)

  // ----- one candidate -----

  // `originParts` and `destinationParts`: the comma-separated parts, trimmed, at least four.
  function Parts(address: string): (parts: seq<string>)
    ensures |parts| >= 4
  {
    var pieces := Split(address, ',');
    var trimmed := seq(|pieces|, i requires 0 <= i < |pieces| => Trim(pieces[i]));
    trimmed + seq(if |trimmed| < 4 then 4 - |trimmed| else 0, _ => "")
  }

  function City(board: Board, address: string): string {
    Lower(board.fold, Parts(address)[0])
  }

  predicate SameRoute(board: Board, l: Load, m: Load) {
    && City(board, l.posting.origin) == City(board, m.posting.origin)
    && City(board, l.posting.destination) == City(board, m.posting.destination)
  }

  // `xs.any((x) => ys.contains(x))`
  predicate Overlap(xs: seq<string>, ys: seq<string>) {
    exists i :: 0 <= i < |xs| && xs[i] in ys
  }

  predicate CompatibleTerms(l: Load, m: Load) {
    && (l.equipment == [] || m.equipment == [] || Overlap(l.equipment, m.equipment))
    && (l.posting.pickupDate == "" || m.posting.pickupDate == "" || l.posting.pickupDate == m.posting.pickupDate)
    && (l.posting.loadType.None? || m.posting.loadType.None? || l.posting.loadType == m.posting.loadType)
  }

  predicate Unset(radius: Option<int>) { radius.None? || radius.value == 0 }

  predicate NoRadius(l: Load) { Unset(l.posting.originRadius) && Unset(l.posting.destinationRadius) }

  // A radius that is absent, zero or negative, or a missing coordinate, asks for nothing.
  predicate Within(board: Board, radius: Option<int>, p: Option<Point>, q: Option<Point>) {
    radius.Some? && radius.value > 0 && p.Some? && q.Some? ==>
      board.miles(p.value, q.value) <= radius.value as real
  }

  predicate Matches(board: Board, target: Load, candidate: Load) {
    && candidate.id != target.id
    && CompatibleTerms(target, candidate)
    && if NoRadius(target) then SameRoute(board, target, candidate)
       else Within(board, target.posting.originRadius, target.pickup, candidate.pickup)
            && Within(board, target.posting.destinationRadius, target.drop, candidate.drop)
  }

  function FindMatchingLoads(board: Board, target: Load, candidates: seq<Load>): seq<Load> {
    Where(candidates, (c: Load) => Matches(board, target, c))
  }

  // ----- what a match is, said outright -----

  // The text before the first comma.
  function BeforeComma(address: string): (town: string)
    ensures town <= address && ',' !in town
    ensures |town| < |address| ==> address[|town|] == ','
  {
    if address == "" || address[0] == ',' then "" else [address[0]] + BeforeComma(address[1..])
  }

  lemma {:induction false} FirstPiece(address: string)
    ensures Split(address, ',')[0] == BeforeComma(address)
  {
    if address != "" && address[0] != ',' {
      FirstPiece(address[1..]);
    }
  }

  lemma CityIsTown(board: Board, address: string)
    ensures City(board, address) == Lower(board.fold, Trim(BeforeComma(address)))
  {
    FirstPiece(address);
    hide Lower, Trim, Split, BeforeComma;
  }

  // Both addresses are in the same town: the same text before the first comma, but for case and outer space.
  ghost predicate SameTown(board: Board, a: string, b: string) {
    Lower(board.fold, Trim(BeforeComma(a))) == Lower(board.fold, Trim(BeforeComma(b)))
  }

  // Equipment, pickup date and load type are each left open by one of the posts, or shared.
  ghost predicate TermsMeet(l: Load, m: Load) {
    && (l.equipment == [] || m.equipment == [] || exists e :: e in l.equipment && e in m.equipment)
    && (l.posting.pickupDate == "" || m.posting.pickupDate == "" || l.posting.pickupDate == m.posting.pickupDate)
    && (l.posting.loadType == None || m.posting.loadType == None || l.posting.loadType == m.posting.loadType)
  }

  lemma OverlapExact(xs: seq<string>, ys: seq<string>)
    ensures Overlap(xs, ys) <==> exists e :: e in xs && e in ys
  {
    if e :| e in xs && e in ys { var i :| 0 <= i < |xs| && xs[i] == e; }
  }

  lemma TermsExact(l: Load, m: Load)
    ensures CompatibleTerms(l, m) <==> TermsMeet(l, m)
  {
    OverlapExact(l.equipment, m.equipment);
    hide Overlap;
  }

  /** Without radii a candidate is kept exactly when both ends are in the same towns and the terms meet. */
  lemma KeptWithoutRadii(board: Board, target: Load, candidates: seq<Load>, c: Load)
    requires target.posting.originRadius == None || target.posting.originRadius == Some(0)
    requires target.posting.destinationRadius == None || target.posting.destinationRadius == Some(0)
    ensures c in FindMatchingLoads(board, target, candidates) <==>
      && c in candidates && c.id != target.id && TermsMeet(target, c)
      && SameTown(board, target.posting.origin, c.posting.origin)
      && SameTown(board, target.posting.destination, c.posting.destination)
  {
    TermsExact(target, c);
    CityIsTown(board, target.posting.origin);
    CityIsTown(board, c.posting.origin);
    CityIsTown(board, target.posting.destination);
    CityIsTown(board, c.posting.destination);
    hide CompatibleTerms, TermsMeet, City;
  }

  /** With a radius set, exactly when every positive radius whose two places are known covers their distance. */
  lemma KeptWithRadii(board: Board, target: Load, candidates: seq<Load>, c: Load)
    requires target.posting.originRadius.GetOr(0) != 0 || target.posting.destinationRadius.GetOr(0) != 0
    ensures c in FindMatchingLoads(board, target, candidates) <==>
      && c in candidates && c.id != target.id && TermsMeet(target, c)
      && (target.posting.originRadius.GetOr(0) > 0 && target.pickup.Some? && c.pickup.Some? ==>
            board.miles(target.pickup.value, c.pickup.value) <= target.posting.originRadius.value as real)
      && (target.posting.destinationRadius.GetOr(0) > 0 && target.drop.Some? && c.drop.Some? ==>
            board.miles(target.drop.value, c.drop.value) <= target.posting.destinationRadius.value as real)
  {
    TermsExact(target, c);
    hide CompatibleTerms, TermsMeet, SameRoute;
  }

  // ----- symmetry -----

  ghost predicate Symmetric(board: Board) {
    forall p, q :: board.miles(p, q) == board.miles(q, p)
  }

  // What a radius asks for: `None` when nothing.
  function Reach(radius: Option<int>): Option<int> {
    if radius.Some? && radius.value > 0 then radius else None
  }

  /** The radii ask the same of both posts. */
  predicate EvenRadii(l: Load, m: Load) {
    || (NoRadius(l) && NoRadius(m))
    || (&& !NoRadius(l) && !NoRadius(m)
        && Reach(l.posting.originRadius) == Reach(m.posting.originRadius)
        && Reach(l.posting.destinationRadius) == Reach(m.posting.destinationRadius))
  }

  lemma OverlapSymmetric(xs: seq<string>, ys: seq<string>)
    ensures Overlap(xs, ys) ==> Overlap(ys, xs)
  {
    if Overlap(xs, ys) {
      var i :| 0 <= i < |xs| && xs[i] in ys;
      var j :| 0 <= j < |ys| && ys[j] == xs[i];
      assert ys[j] in xs;
    }
  }

  /** Posts whose radii ask the same match each other or not at all. */
  lemma MatchIsSymmetric(board: Board, l: Load, m: Load)
    requires Symmetric(board) && EvenRadii(l, m)
    ensures Matches(board, l, m) == Matches(board, m, l)
  {
    OverlapSymmetric(l.equipment, m.equipment);
    OverlapSymmetric(m.equipment, l.equipment);
    hide Parts, Overlap, Lower;
    assert CompatibleTerms(l, m) == CompatibleTerms(m, l);
  }

  // The same post with coordinates filled in or moved.
  predicate MovedOnly(l: Load, l': Load) {
    l' == l.(pickup := l'.pickup, drop := l'.drop)
  }

  /** Without radii the answer is the same in both directions even when coordinates change in between. */
  lemma NoRadiusIgnoresPlaces(board: Board, l: Load, m: Load, l': Load, m': Load)
    requires NoRadius(l) && NoRadius(m) && MovedOnly(l, l') && MovedOnly(m, m')
    ensures Matches(board, l, m) == Matches(board, m', l')
  {
    OverlapSymmetric(l.equipment, m.equipment);
    OverlapSymmetric(m.equipment, l.equipment);
    hide Parts, Overlap, Lower;
  }

  // ----- symmetry fails exactly for uneven radii -----

  ghost predicate HasRadii(l: Load, origin: Option<int>, destination: Option<int>) {
    l.posting.originRadius == origin && l.posting.destinationRadius == destination
  }

  // Every two posts with these radii agree, wherever they are and whatever else they say.
  ghost predicate AlwaysSymmetric(o1: Option<int>, d1: Option<int>, o2: Option<int>, d2: Option<int>) {
    forall board, l, m :: Symmetric(board) && HasRadii(l, o1, d1) && HasRadii(m, o2, d2) ==>
      Matches(board, l, m) == Matches(board, m, l)
  }

  function Sample(id: string, city: string, origin: Option<int>, destination: Option<int>,
                  pickup: Option<Point>, drop: Option<Point>): Load
  {
    Load(id, Posting("", city, "", "", "", "", true, false, None, None, origin, destination), [], [],
         None, None, false, false, pickup, drop, None, None, ResetMarks(0), NO_CONTACT)
  }

  // All distances are `miles`.
  function FlatBoard(miles: real): (board: Board)
    ensures Symmetric(board)
  {
    Board((c: char) => [c], (p: Point, q: Point) => miles)
  }

  lemma CitiesDiffer(board: Board)
    requires board.fold == ((c: char) => [c])
    ensures City(board, "x") != City(board, "y")
  {
    SplitWhole("x", ',');
    SplitWhole("y", ',');
    TrimExact("x");
    TrimExact("y");
    assert Parts("x")[0] == "x" && Parts("y")[0] == "y";
    assert Lower(board.fold, "x") == "x" && Lower(board.fold, "y") == "y";
  }

  lemma SamplesCompare(board: Board, l: Load, m: Load)
    requires l.id != m.id && l.equipment == [] && l.posting.pickupDate == "" && l.posting.loadType == None
    requires !NoRadius(l)
    ensures Matches(board, l, m) ==
      (&& Within(board, l.posting.originRadius, l.pickup, m.pickup)
       && Within(board, l.posting.destinationRadius, l.drop, m.drop))
  {
    hide Within, Overlap;
  }

  // Only one of the two posts falls back on comparing cities.
  lemma UnevenFallback(o1: Option<int>, d1: Option<int>, o2: Option<int>, d2: Option<int>)
    returns (board: Board, l: Load, m: Load)
    requires (Unset(o1) && Unset(d1)) != (Unset(o2) && Unset(d2))
    ensures Symmetric(board) && HasRadii(l, o1, d1) && HasRadii(m, o2, d2)
    ensures Matches(board, l, m) != Matches(board, m, l)
  {
    board := FlatBoard(0.0);
    l, m := Sample("1", "x", o1, d1, None, None), Sample("2", "y", o2, d2, None, None);
    CitiesDiffer(board);
    hide Parts, Lower, Overlap;
    if Unset(o1) && Unset(d1) {
      SamplesCompare(board, m, l);
    } else {
      SamplesCompare(board, l, m);
    }
  }

  // Something between two different reaches.
  lemma Between(r1: Option<int>, r2: Option<int>) returns (miles: real)
    requires r1 != r2 && (r1.Some? ==> r1.value > 0) && (r2.Some? ==> r2.value > 0)
    ensures (r1.Some? ==> miles <= r1.value as real) != (r2.Some? ==> miles <= r2.value as real)
  {
    var tight := if r1.None? then r2.value else if r2.None? || r1.value < r2.value then r1.value else r2.value;
    miles := tight as real + 0.5;
  }

  // Both posts ask for radii, one of them for less.
  lemma UnevenReach(o1: Option<int>, d1: Option<int>, o2: Option<int>, d2: Option<int>)
    returns (board: Board, l: Load, m: Load)
    requires !(Unset(o1) && Unset(d1)) && !(Unset(o2) && Unset(d2))
    requires (Reach(o1) != Reach(o2) || Reach(d1) != Reach(d2))
    ensures Symmetric(board) && HasRadii(l, o1, d1) && HasRadii(m, o2, d2)
    ensures Matches(board, l, m) != Matches(board, m, l)
  {
    var atOrigin := Reach(o1) != Reach(o2);
    var miles;
    if atOrigin { miles := Between(Reach(o1), Reach(o2)); } else { miles := Between(Reach(d1), Reach(d2)); }
    board := FlatBoard(miles);
    var place := Some(Point(0.0, 0.0));
    var pickup, drop := if atOrigin then place else None, if atOrigin then None else place;
    l, m := Sample("1", "x", o1, d1, pickup, drop), Sample("2", "y", o2, d2, pickup, drop);
    hide Matches;
    SamplesCompare(board, l, m);
    SamplesCompare(board, m, l);
  }

  /** Two posts agree on every board exactly when their radii ask the same. */
  lemma SymmetryExact(l: Load, m: Load)
    ensures EvenRadii(l, m) <==>
      AlwaysSymmetric(l.posting.originRadius, l.posting.destinationRadius,
                      m.posting.originRadius, m.posting.destinationRadius)
  {
    var o1, d1 := l.posting.originRadius, l.posting.destinationRadius;
    var o2, d2 := m.posting.originRadius, m.posting.destinationRadius;
    if EvenRadii(l, m) {
      forall board, l', m' | Symmetric(board) && HasRadii(l', o1, d1) && HasRadii(m', o2, d2)
        ensures Matches(board, l', m') == Matches(board, m', l')
      {
        MatchIsSymmetric(board, l', m');
      }
    } else {
      var board, l', m';
      if NoRadius(l) != NoRadius(m) {
        board, l', m' := UnevenFallback(o1, d1, o2, d2);
      } else {
        board, l', m' := UnevenReach(o1, d1, o2, d2);
      }
      assert Matches(board, l', m') != Matches(board, m', l');
    }
  }

  // ----- radii -----

  // Left as it is, or already positive and not lowered.
  predicate Raised(radius: Option<int>, radius': Option<int>) {
    radius' == radius || (radius.Some? && radius'.Some? && 0 < radius.value <= radius'.value)
  }

  predicate RaisedRadii(l: Load, l': Load) {
    && l' == l.(posting := l.posting.(originRadius := l'.posting.originRadius,
                                      destinationRadius := l'.posting.destinationRadius))
    && Raised(l.posting.originRadius, l'.posting.originRadius)
    && Raised(l.posting.destinationRadius, l'.posting.destinationRadius)
  }

  lemma RaisedMatches(board: Board, l: Load, l': Load, c: Load)
    requires RaisedRadii(l, l') && Matches(board, l, c)
    ensures Matches(board, l', c)
  {
    hide Parts, Overlap, Lower;
  }

  /** Raising radii that are already positive only adds matches, and keeps the order of the others. */
  lemma RaisingRadiiAddsMatches(board: Board, l: Load, l': Load, candidates: seq<Load>)
    requires RaisedRadii(l, l')
    ensures Subsequence(FindMatchingLoads(board, l, candidates), FindMatchingLoads(board, l', candidates))
  {
    hide Matches, RaisedRadii;
    forall c | c in candidates && Matches(board, l, c) ensures Matches(board, l', c) {
      RaisedMatches(board, l, l', c);
    }
    WhereNarrows(candidates, (c: Load) => Matches(board, l, c), (c: Load) => Matches(board, l', c));
  }

  // ----- equipment -----

  lemma OnlyEmptyName(xs: seq<string>)
    ensures Overlap([""], xs) <==> "" in xs
    ensures Overlap(xs, [""]) <==> "" in xs
  {
    assert [""][0] == "" && "" in [""];
    if "" in xs { var i :| 0 <= i < |xs| && xs[i] == ""; }
  }

  /**
   A post without equipment goes with any equipment, until it is reloaded: its row reads back as
   asking for the equipment '', so of its matches it keeps exactly those that name none or name ''.
   */
  lemma ReloadDropsWildcardMatches(board: Board, l: Load, m: Load)
    requires l.equipment == []
    ensures Matches(board, FromRow(ToRow(l)), m) <==> Matches(board, l, m) && (m.equipment == [] || "" in m.equipment)
    ensures Matches(board, m, FromRow(ToRow(l))) <==> Matches(board, m, l) && (m.equipment == [] || "" in m.equipment)
  {
    var l' := FromRow(ToRow(l));
    assert Join([], ';') == "" && Split("", ';') == [""];
    assert l'.equipment == [""];
    OnlyEmptyName(m.equipment);
    hide DecodeBids, EncodeBids, Overlap, Parts, Lower, Within;
  }

  // ----- posts offered to a user (matchingCarrierPostsForUser) -----

  datatype User = User(
    id: string, role: string, usDotMcNumber: string, equipment: seq<string>,
    distanceRadiusLimit: Option<real>, location: Option<Point>)

  predicate OppositeRole(user: User, l: Load) {
    (user.role == "broker" && l.posting.isCarrierPost) || (user.role == "carrier" && l.posting.isBrokerPost)
  }

  predicate PassesUsdot(user: User, sameUsdot: set<string>, l: Load) {
    user.usDotMcNumber != "" ==> l.posting.postedBy !in sameUsdot
  }

  predicate PassesEquipment(user: User, l: Load) {
    user.equipment == [] || l.equipment == [] || Overlap(l.equipment, user.equipment)
  }

  predicate PassesRadius(board: Board, user: User, l: Load) {
    user.distanceRadiusLimit.Some? && user.location.Some? ==>
      l.pickup.Some? && board.miles(user.location.value, l.pickup.value) <= user.distanceRadiusLimit.value
  }

  // The inner comparison of the nested loop: always by city, whatever the radii.
  predicate PairsUp(board: Board, own: Load, other: Load) {
    SameRoute(board, own, other) && CompatibleTerms(own, other)
  }

  predicate PairsUpWithAny(board: Board, own: seq<Load>, other: Load) {
    exists j :: 0 <= j < |own| && PairsUp(board, own[j], other)
  }

  predicate OwnPost(user: User, l: Load) {
    (if user.role == "broker" then l.posting.isBrokerPost else l.posting.isCarrierPost) && l.posting.postedBy == user.id
  }

  /** One declarative test for being offered. */
  predicate Offered(board: Board, posts: seq<Load>, user: User, sameUsdot: set<string>, l: Load) {
    && OppositeRole(user, l) && PassesUsdot(user, sameUsdot, l)
    && PassesEquipment(user, l) && PassesRadius(board, user, l)
    && exists i :: 0 <= i < |posts| && OwnPost(user, posts[i]) && PairsUp(board, posts[i], l)
  }

  // The chained filters before the nested loop.
  function Eligible(board: Board, posts: seq<Load>, user: User, sameUsdot: set<string>): seq<Load> {
    var opposite :=
      if user.role == "broker" then Where(posts, (l: Load) => l.posting.isCarrierPost)
      else if user.role == "carrier" then Where(posts, (l: Load) => l.posting.isBrokerPost)
      else [];
    var s1 := if user.usDotMcNumber != "" then Where(opposite, (l: Load) => l.posting.postedBy !in sameUsdot)
              else opposite;
    var s2 := if user.equipment != []
              then Where(s1, (l: Load) => l.equipment == [] || Overlap(l.equipment, user.equipment))
              else s1;
    if user.distanceRadiusLimit.Some? && user.location.Some? then
      Where(s2, (l: Load) =>
        l.pickup.Some? && board.miles(user.location.value, l.pickup.value) <= user.distanceRadiusLimit.value)
    else s2
  }

  lemma EligibleIsOneFilter(board: Board, posts: seq<Load>, user: User, sameUsdot: set<string>)
    ensures Eligible(board, posts, user, sameUsdot) == Where(posts, (l: Load) =>
      && OppositeRole(user, l) && PassesUsdot(user, sameUsdot, l)
      && PassesEquipment(user, l) && PassesRadius(board, user, l))
  {
    var p0 := (l: Load) => OppositeRole(user, l);
    var p1 := (l: Load) => OppositeRole(user, l) && PassesUsdot(user, sameUsdot, l);
    var p2 := (l: Load) => OppositeRole(user, l) && PassesUsdot(user, sameUsdot, l) && PassesEquipment(user, l);
    var p3 := (l: Load) =>
      && OppositeRole(user, l) && PassesUsdot(user, sameUsdot, l)
      && PassesEquipment(user, l) && PassesRadius(board, user, l);
    var opposite :=
      if user.role == "broker" then Where(posts, (l: Load) => l.posting.isCarrierPost)
      else if user.role == "carrier" then Where(posts, (l: Load) => l.posting.isBrokerPost)
      else [];
    hide Overlap;
    assert opposite == Where(posts, p0) by {
      if user.role == "broker" {
        WhereCongruent(posts, (l: Load) => l.posting.isCarrierPost, p0);
      } else if user.role == "carrier" {
        WhereCongruent(posts, (l: Load) => l.posting.isBrokerPost, p0);
      } else {
        WhereNone(posts, p0);
      }
    }
    hide Where;
    var s1 := if user.usDotMcNumber != "" then Where(opposite, (l: Load) => l.posting.postedBy !in sameUsdot)
              else opposite;
    assert s1 == Where(posts, p1) by {
      if user.usDotMcNumber != "" {
        FilterStep(posts, opposite, p0, (l: Load) => l.posting.postedBy !in sameUsdot, p1);
      } else {
        WhereCongruent(posts, p0, p1);
      }
    }
    var s2 := if user.equipment != []
              then Where(s1, (l: Load) => l.equipment == [] || Overlap(l.equipment, user.equipment))
              else s1;
    assert s2 == Where(posts, p2) by {
      if user.equipment != [] {
        FilterStep(posts, s1, p1, (l: Load) => l.equipment == [] || Overlap(l.equipment, user.equipment), p2);
      } else {
        WhereCongruent(posts, p1, p2);
      }
    }
    if user.distanceRadiusLimit.Some? && user.location.Some? {
      FilterStep(posts, s2, p2,
        (l: Load) =>
          l.pickup.Some? && board.miles(user.location.value, l.pickup.value) <= user.distanceRadiusLimit.value,
        p3);
    } else {
      WhereCongruent(posts, p2, p3);
    }
  }

  // The inner loop, left at the first own post that pairs up.
  method HasPartner(board: Board, own: seq<Load>, other: Load) returns (found: bool)
    ensures found == PairsUpWithAny(board, own, other)
  {
    hide PairsUp;
    for k := 0 to |own|
      invariant forall j :: 0 <= j < k ==> !PairsUp(board, own[j], other)
    {
      if PairsUp(board, own[k], other) {
        return true;
      }
    }
    return false;
  }

  function Paired(board: Board, own: seq<Load>, others: seq<Load>): seq<Load> {
    Where(others, (l: Load) => PairsUpWithAny(board, own, l))
  }

  lemma PairedSnoc(board: Board, own: seq<Load>, others: seq<Load>, l: Load)
    ensures PairsUpWithAny(board, own, l) ==> Paired(board, own, others + [l]) == Paired(board, own, others) + [l]
    ensures !PairsUpWithAny(board, own, l) ==> Paired(board, own, others + [l]) == Paired(board, own, others)
  {
    WhereSnoc(others, l, (l: Load) => PairsUpWithAny(board, own, l));
  }

  lemma PairedNone(board: Board, own: seq<Load>)
    ensures Paired(board, own, []) == []
  {
  }

  // The outer loop.
  method KeepPaired(board: Board, own: seq<Load>, others: seq<Load>) returns (matching: seq<Load>)
    ensures matching == Paired(board, own, others)
  {
    hide *;
    matching := [];
    PairedNone(board, own);
    assert others[..0] == [];
    for i := 0 to |others|
      invariant matching == Paired(board, own, others[..i])
    {
      PairedSnoc(board, own, others[..i], others[i]);
      assert others[..i + 1] == others[..i] + [others[i]];
      var found := HasPartner(board, own, others[i]);
      if found {
        matching := matching + [others[i]];
      }
    }
    assert others[..|others|] == others;
  }

  /**
   `matchingCarrierPostsForUser`: the chained filters and the nested loop with its break
   return, in order and each once, exactly the posts the one test `Offered` accepts.
   */
  method MatchingCarrierPostsForUser(board: Board, posts: seq<Load>, user: User, sameUsdot: set<string>)
    returns (matching: seq<Load>)
    ensures matching == Where(posts, (l: Load) => Offered(board, posts, user, sameUsdot, l))
  {
    var eligible := Eligible(board, posts, user, sameUsdot);
    var own := Where(posts, (l: Load) => OwnPost(user, l));
    matching := KeepPaired(board, own, eligible);
    OfferedIsPaired(board, posts, user, sameUsdot, own, eligible);
  }

  lemma OfferedIsPaired(board: Board, posts: seq<Load>, user: User, sameUsdot: set<string>,
                        own: seq<Load>, eligible: seq<Load>)
    requires own == Where(posts, (l: Load) => OwnPost(user, l))
    requires eligible == Eligible(board, posts, user, sameUsdot)
    ensures Paired(board, own, eligible) == Where(posts, (l: Load) => Offered(board, posts, user, sameUsdot, l))
  {
    var paired := (l: Load) => PairsUpWithAny(board, own, l);
    EligibleIsOneFilter(board, posts, user, sameUsdot);
    hide Eligible, PairsUp, OppositeRole, PassesUsdot, PassesEquipment, PassesRadius;
    forall l | l in posts
      ensures paired(l) == exists i :: 0 <= i < |posts| && OwnPost(user, posts[i]) && PairsUp(board, posts[i], l)
    {
      if paired(l) {
        var j :| 0 <= j < |own| && PairsUp(board, own[j], l);
        assert own[j] in posts;
        var i :| 0 <= i < |posts| && posts[i] == own[j];
        assert OwnPost(user, posts[i]) && PairsUp(board, posts[i], l);
      }
      if i :| 0 <= i < |posts| && OwnPost(user, posts[i]) && PairsUp(board, posts[i], l) {
        assert posts[i] in own;
        var j :| 0 <= j < |own| && own[j] == posts[i];
        assert PairsUp(board, own[j], l);
      }
    }
    FilterStep(posts, eligible,
      (l: Load) =>
        && OppositeRole(user, l) && PassesUsdot(user, sameUsdot, l)
        && PassesEquipment(user, l) && PassesRadius(board, user, l),
      paired, (l: Load) => Offered(board, posts, user, sameUsdot, l));
  }

  // A post of the user, on the user's own side, between the same towns on terms that meet.
  ghost predicate Answers(board: Board, user: User, own: Load, l: Load) {
    && own.posting.postedBy == user.id
    && (user.role == "broker" ==> own.posting.isBrokerPost) && (user.role != "broker" ==> own.posting.isCarrierPost)
    && SameTown(board, own.posting.origin, l.posting.origin)
    && SameTown(board, own.posting.destination, l.posting.destination) && TermsMeet(own, l)
  }

  /**
   A post is offered to a user exactly when it is of the other role, its poster does not share a
   USDOT number the user has, its equipment is open or one the user has, its pickup is known and
   within the limit of a user who has a limit and a place, and it answers some post of the user.
   */
  lemma OfferedExact(board: Board, posts: seq<Load>, user: User, sameUsdot: set<string>, l: Load)
    ensures l in Where(posts, (l: Load) => Offered(board, posts, user, sameUsdot, l)) <==>
      && l in posts
      && ((user.role == "broker" && l.posting.isCarrierPost) || (user.role == "carrier" && l.posting.isBrokerPost))
      && (user.usDotMcNumber == "" || l.posting.postedBy !in sameUsdot)
      && (user.equipment == [] || l.equipment == [] || exists e :: e in l.equipment && e in user.equipment)
      && (user.distanceRadiusLimit == None || user.location == None
          || (&& l.pickup.Some?
              && board.miles(user.location.value, l.pickup.value) <= user.distanceRadiusLimit.value))
      && exists own :: own in posts && Answers(board, user, own, l)
  {
    OverlapExact(l.equipment, user.equipment);
    PartnersExact(board, posts, user, l);
    hide Overlap, PairsUp, Answers, OwnPost;
  }

  lemma PartnersExact(board: Board, posts: seq<Load>, user: User, l: Load)
    ensures (exists i :: 0 <= i < |posts| && OwnPost(user, posts[i]) && PairsUp(board, posts[i], l)) <==>
            exists own :: own in posts && Answers(board, user, own, l)
  {
    forall own: Load ensures OwnPost(user, own) && PairsUp(board, own, l) <==> Answers(board, user, own, l) {
      AnswersExact(board, user, own, l);
    }
    hide OwnPost, PairsUp, Answers;
    if own :| own in posts && Answers(board, user, own, l) {
      var i :| 0 <= i < |posts| && posts[i] == own;
      assert OwnPost(user, posts[i]) && PairsUp(board, posts[i], l);
    }
    if i :| 0 <= i < |posts| && OwnPost(user, posts[i]) && PairsUp(board, posts[i], l) {
      assert posts[i] in posts && Answers(board, user, posts[i], l);
    }
  }

  lemma AnswersExact(board: Board, user: User, own: Load, l: Load)
    ensures OwnPost(user, own) && PairsUp(board, own, l) <==> Answers(board, user, own, l)
  {
    hide SameTown, TermsMeet, PairsUp;
    PairsUpExact(board, own, l);
  }

  lemma PairsUpExact(board: Board, own: Load, l: Load)
    ensures PairsUp(board, own, l) <==>
      && SameTown(board, own.posting.origin, l.posting.origin)
      && SameTown(board, own.posting.destination, l.posting.destination) && TermsMeet(own, l)
  {
    TermsExact(own, l);
    CityIsTown(board, own.posting.origin);
    CityIsTown(board, l.posting.origin);
    CityIsTown(board, own.posting.destination);
    CityIsTown(board, l.posting.destination);
    hide CompatibleTerms, TermsMeet, City;
  }
}
