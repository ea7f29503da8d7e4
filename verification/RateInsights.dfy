/**
 The analytics screen: `_calculateAnalytics` and `_calculateFrequentLoads`, which fill maps of
 totals and averages in one pass over the loads each.
 */
module RateInsights {
  import opened Text
  import opened Amounts
  import opened LoadPosts
  import opened Numerals
  import opened Tallies

  // ----- what is read off one load -----

  predicate Sold(l: Load) {
    l.brokerConfirmed && l.carrierConfirmed && l.selectedBidId.Some? && l.bids != []
  }

  predicate Picked(selected: Option<string>, b: Quote) {
    Some(b.bidder) == selected || (selected.None? && b.status == "accepted")
  }

  function FirstPick(bids: seq<Quote>, selected: Option<string>): (i: nat)
    ensures i <= |bids| && (i < |bids| ==> Picked(selected, bids[i]))
    ensures forall j :: 0 <= j < i ==> !Picked(selected, bids[j])
  {
    if bids == [] || Picked(selected, bids[0]) then 0 else 1 + FirstPick(bids[1..], selected)
  }

  function AcceptedBids(bids: seq<Quote>): seq<Quote> {
    Where(bids, (b: Quote) => b.status == "accepted")
  }

  // `firstWhere`, whose `orElse` is the last accepted bid or else the last bid.
  function SelectedBid(l: Load): Quote
    requires l.bids != []
  {
    var i, accepted := FirstPick(l.bids, l.selectedBidId), AcceptedBids(l.bids);
    if i < |l.bids| then l.bids[i]
    else if accepted != [] then accepted[|accepted| - 1]
    else l.bids[|l.bids| - 1]
  }

  function SalePrice(l: Load): Option<real> {
    if Sold(l) then Some(SelectedBid(l).amount.Value()) else None
  }

  function Lane(l: Load): string { l.posting.origin + " → " + l.posting.destination }

  function Broker(l: Load): string { l.posting.postedBy }

  function Carrier(l: Load): string { if l.bids != [] then SelectedBid(l).bidder else "" }

  // `text.replaceAll(RegExp(r'[^0-9.]'), '')`
  function Kept(text: string): string {
    Where(text, (c: char) => IsDigit(c) || c == '.')
  }

  // `double.tryParse(distance.replaceAll(RegExp(r'[^0-9.]'), '')) ?? 0.0`
  function Miles(distance: Option<string>): real {
    if distance.None? then 0.0
    else
      var parsed := TryParse(Kept(distance.value));
      if parsed.Some? then parsed.value.Value() else 0.0
  }

  function MilesSold(l: Load): Option<real> {
    if Sold(l) then Some(Miles(l.distance)) else None
  }

  // ----- the second pass -----

  function Rate(l: Load): real {
    var parsed := TryParse(l.posting.rate);
    if parsed.Some? then parsed.value.Value() else 0.0
  }

  function One(l: Load): Option<real> { Some(1.0) }

  function PositiveRate(l: Load): Option<real> {
    if Rate(l) > 0.0 then Some(Rate(l)) else None
  }

  function SoldAmount(l: Load): Option<real> {
    if Rate(l) <= 0.0 || l.bids == [] then None
    else if l.brokerConfirmed && l.carrierConfirmed then Some(SelectedBid(l).amount.Value())
    else
      var accepted := AcceptedBids(l.bids);
      if accepted != [] then Some(accepted[|accepted| - 1].amount.Value()) else None
  }

  function RouteMiles(l: Load): Option<real> {
    if Rate(l) > 0.0 && l.distance.Some? && Miles(l.distance) > 0.0 then Some(Miles(l.distance)) else None
  }

  function PerMile(l: Load): Option<real> {
    if RouteMiles(l).Some? then Some(Rate(l) / RouteMiles(l).value) else None
  }

  // ----- what the texts of a load count for -----

  /** A rate counts as the number its text stands for, and as 0 when it stands for none. */
  lemma RateExact(l: Load)
    ensures forall n :: WellFormed(n) && Trim(l.posting.rate) == Written(n) ==> Rate(l) == Meaning(n)
    ensures (forall n :: WellFormed(n) ==> Trim(l.posting.rate) != Written(n)) ==> Rate(l) == 0.0
  {
    hide TryParse, Trim, WellFormed, Written, Meaning;
    ParsedExact(l.posting.rate);
    forall n | WellFormed(n) && Trim(l.posting.rate) == Written(n) ensures Rate(l) == Meaning(n) {
      ParsedMeaning(l.posting.rate, n);
    }
  }

  /** In particular the rate "1500", as the form stores what is typed, counts as 1500. */
  lemma WholeRate(l: Load, n: nat)
    requires l.posting.rate == Digits(n)
    ensures Rate(l) == n as real
  {
    hide TryParse, Digits;
    WholeNumber(n);
  }

  /** The digits of a text, in order. */
  function DigitsOf(text: string): (digits: string)
    ensures AllDigits(digits)
  {
    Where(text, IsDigit)
  }

  lemma KeptCons(c: char, rest: string)
    ensures Kept([c] + rest) == if IsDigit(c) || c == '.' then [c] + Kept(rest) else Kept(rest)
    ensures DigitsOf([c] + rest) == if IsDigit(c) then [c] + DigitsOf(rest) else DigitsOf(rest)
    ensures DigitsOf("") == "" == Kept("")
  {
    assert ([c] + rest)[1..] == rest;
  }

  lemma SplitStep(c: char, rest: string, sep: char)
    ensures var parts := Split(rest, sep);
            Split([c] + rest, sep) == if c == sep then [""] + parts else [[c] + parts[0]] + parts[1..]
  {
    assert ([c] + rest)[1..] == rest;
  }

  // The digits of each piece.
  function DigitPieces(pieces: seq<string>): seq<string> {
    seq(|pieces|, i requires 0 <= i < |pieces| => DigitsOf(pieces[i]))
  }

  lemma DigitPiecesFirst(first: string, rest: seq<string>)
    ensures DigitPieces([first] + rest) == [DigitsOf(first)] + DigitPieces(rest)
  {
    hide DigitsOf;
  }

  lemma DigitPiecesCons(c: char, parts: seq<string>)
    requires parts != []
    ensures DigitPieces([""] + parts) == [""] + DigitPieces(parts)
    ensures DigitPieces([[c] + parts[0]] + parts[1..]) ==
            [(if IsDigit(c) then [c] else "") + DigitPieces(parts)[0]] + DigitPieces(parts)[1..]
  {
    KeptCons(c, parts[0]);
    assert "" + DigitsOf(parts[0]) == DigitsOf(parts[0]);
    hide DigitsOf, DigitPieces;
    DigitPiecesFirst("", parts);
    DigitPiecesFirst([c] + parts[0], parts[1..]);
    DigitPiecesFirst(parts[0], parts[1..]);
    assert parts == [parts[0]] + parts[1..];
    assert DigitPieces(parts)[1..] == DigitPieces(parts[1..]);
  }

  // The digit pieces of one more character in front.
  lemma PieceStep(c: char, rest: string)
    ensures var parts := DigitPieces(Split(rest, '.'));
      DigitPieces(Split([c] + rest, '.')) ==
        if c == '.' then [""] + parts else if IsDigit(c) then [[c] + parts[0]] + parts[1..] else parts
  {
    hide Split, DigitsOf, DigitPieces;
    SplitStep(c, rest, '.');
    DigitPiecesCons(c, Split(rest, '.'));
    DigitPiecesFirst(Split(rest, '.')[0], Split(rest, '.')[1..]);
    var parts := DigitPieces(Split(rest, '.'));
    assert [Split(rest, '.')[0]] + Split(rest, '.')[1..] == Split(rest, '.');
    assert "" + parts[0] == parts[0];
    assert [parts[0]] + parts[1..] == parts;
  }

  lemma {:induction false} KeptPieces(s: string)
    ensures Split(Kept(s), '.') == DigitPieces(Split(s, '.'))
  {
    if s == "" {
      KeptCons('0', "");
    } else {
      hide Kept, Split, DigitsOf, DigitPieces;
      var c, rest := s[0], s[1..];
      assert s == [c] + rest;
      KeptPieces(rest);
      KeptCons(c, rest);
      SplitStep(c, Kept(rest), '.');
      PieceStep(c, rest);
    }
  }

  lemma DigitsAndDotsUntrimmed(s: string)
    requires forall c :: c in s ==> IsDigit(c) || c == '.'
    ensures Trim(s) == s
  {
    TrimExact(s);
    if s != "" {
      assert s[0] in s && s[|s| - 1] in s;
    }
  }

  lemma ParseKept(kept: string)
    requires forall c :: c in kept ==> IsDigit(c) || c == '.'
    ensures TryParse(kept) == ParseMantissa(false, kept, 0)
  {
    DigitsAndDotsUntrimmed(kept);
    hide Trim, ParseMantissa;
    assert kept != "" ==> kept[0] in kept;
    assert 'e' !in kept && 'E' !in kept;
    SplitWhole(kept, 'E');
  }

  lemma KeptChars(text: string)
    ensures forall c :: c in Kept(text) ==> IsDigit(c) || c == '.'
  {
    var kept := Kept(text);
    forall c | c in kept ensures IsDigit(c) || c == '.' {
      var i :| 0 <= i < |kept| && kept[i] == c;
    }
  }

  // The digits before and after the dot.
  function Counted(text: string): (digits: (string, string))
    ensures AllDigits(digits.0 + digits.1)
  {
    var parts := Split(text, '.');
    (DigitsOf(parts[0]), if |parts| == 2 then DigitsOf(parts[1]) else "")
  }

  lemma MilesParsed(text: string)
    ensures var parts := Split(text, '.');
            var (whole, frac) := Counted(text);
      Miles(Some(text)) ==
        if |parts| > 2 || whole + frac == "" then 0.0
        else Normalise(false, ReadDigits(whole + frac), |frac|).Value()
  {
    var kept := Kept(text);
    KeptPieces(text);
    KeptChars(text);
    hide Kept, Split, TryParse, Normalise, ReadDigits, DigitsOf;
    ParseKept(kept);
  }

  /**
   A distance counts as the number its digits make, divided by ten for each digit after the dot, and
   as 0 when there is a second dot. In particular "12.3 km (est.)", with the dot of its mark, counts
   as 0; so a distance counts as miles exactly when it has at most one dot and some digit but 0.
   */
  lemma MilesExact(text: string)
    ensures var parts := Split(text, '.');
      Miles(Some(text)) ==
        if |parts| > 2 then 0.0
        else
          var whole, frac := DigitsOf(parts[0]), if |parts| == 2 then DigitsOf(parts[1]) else "";
          assert AllDigits(whole + frac);
          ReadDigits(whole + frac) as real / Pow10(|frac|) as real
    ensures Miles(Some(text)) >= 0.0
    ensures Miles(Some(text)) > 0.0 <==> CountOf(text, '.') <= 1 && NonZeroDigit(text)
  {
    MilesParsed(text);
    SplitDots(text);
    CountedDigits(text);
    hide Split, DigitsOf, CountOf, NonZeroDigit, Miles, Normalise, ReadDigits;
    var (whole, frac) := Counted(text);
    if |Split(text, '.')| <= 2 {
      ReadPositive(whole + frac);
      NoExponent(ReadDigits(whole + frac), |frac|);
      RatioPositive(ReadDigits(whole + frac), |frac|);
      if whole + frac == "" { NothingCounts(); }
    }
  }

  lemma NothingCounts()
    ensures AllDigits("") && ReadDigits("") == 0 && Pow10(0) == 1
  {
  }

  lemma NoExponent(units: nat, f: nat)
    ensures Normalise(false, units, f).Value() == Ratio(units, f)
  {
    hide Normalise, Pow10;
    NormaliseValue(NoSign, units, f, 0);
    NoShift(units, f);
  }

  lemma NoShift(units: nat, f: nat)
    ensures Signed(NoSign, Scaled(units, f, 0)) == Ratio(units, f)
  {
    assert Power(0) == 1.0;
  }

  // ----- estimated distances count for nothing -----

  lemma {:induction false} SplitDots(s: string)
    ensures |Split(s, '.')| == CountOf(s, '.') + 1
  {
    if s != "" {
      SplitDots(s[1..]);
    }
  }

  predicate NonZeroDigit(s: string) {
    exists i :: 0 <= i < |s| && IsDigit(s[i]) && s[i] != '0'
  }

  lemma {:induction false} ReadPositive(s: string)
    requires AllDigits(s)
    ensures ReadDigits(s) > 0 <==> NonZeroDigit(s)
  {
    if s != "" {
      var front, c := s[..|s| - 1], s[|s| - 1];
      ReadPositive(front);
      assert c != '0' <==> DigitValue(c) > 0;
      if NonZeroDigit(front) {
        var i :| 0 <= i < |front| && IsDigit(front[i]) && front[i] != '0';
        assert IsDigit(s[i]) && s[i] != '0';
      }
      if c != '0' { assert IsDigit(s[|s| - 1]) && s[|s| - 1] != '0'; }
      if NonZeroDigit(s) && c == '0' {
        var i :| 0 <= i < |s| && IsDigit(s[i]) && s[i] != '0';
        assert front[i] == s[i];
      }
    }
  }

  lemma RatioPositive(units: nat, scale: nat)
    ensures Ratio(units, scale) >= 0.0 && (Ratio(units, scale) > 0.0 <==> units > 0)
  {
  }

  lemma SameDigits(s: string, t: string)
    requires forall c: char :: IsDigit(c) ==> (c in s <==> c in t)
    ensures NonZeroDigit(s) <==> NonZeroDigit(t)
  {
    if NonZeroDigit(s) {
      var i :| 0 <= i < |s| && IsDigit(s[i]) && s[i] != '0';
      var j :| 0 <= j < |t| && t[j] == s[i];
    }
    if NonZeroDigit(t) {
      var i :| 0 <= i < |t| && IsDigit(t[i]) && t[i] != '0';
      var j :| 0 <= j < |s| && s[j] == t[i];
    }
  }

  lemma DigitsOfHolds(text: string)
    ensures forall c: char :: IsDigit(c) ==> (c in DigitsOf(text) <==> c in text)
  {
  }

  // Counting a text with at most one dot skips none of its digits.
  lemma CountedDigits(text: string)
    ensures |Split(text, '.')| <= 2 ==>
              var (whole, frac) := Counted(text); NonZeroDigit(whole + frac) <==> NonZeroDigit(text)
  {
    var parts := Split(text, '.');
    var (whole, frac) := Counted(text);
    JoinOfSplit(text, '.');
    if |parts| <= 2 {
      DigitsOfHolds(parts[0]);
      assert |parts| == 2 ==> text == parts[0] + ['.'] + parts[1];
      if |parts| == 2 { DigitsOfHolds(parts[1]); }
      hide Split, DigitsOf;
      SameDigits(whole + frac, text);
    }
  }

  // ----- what a load is sold for -----

  // What `firstWhere` looks for: the selected bidder, or any accepted bid if nobody is selected.
  predicate Wanted(l: Load, b: Quote) {
    if l.selectedBidId.Some? then b.bidder == l.selectedBidId.value else b.status == "accepted"
  }

  ghost predicate IsLastAccepted(bids: seq<Quote>, k: nat) {
    && k < |bids| && bids[k].status == "accepted"
    && forall j :: k < j < |bids| ==> bids[j].status != "accepted"
  }

  /** A load is sold to its first bid by the selected bidder, else to its last accepted bid, else to its last bid. */
  lemma SelectedBidExact(l: Load, k: nat)
    requires k < |l.bids|
    ensures Wanted(l, l.bids[k]) && (forall j :: 0 <= j < k ==> !Wanted(l, l.bids[j])) ==> SelectedBid(l) == l.bids[k]
    ensures (forall b :: b in l.bids ==> !Wanted(l, b)) && IsLastAccepted(l.bids, k) ==> SelectedBid(l) == l.bids[k]
    ensures (forall b :: b in l.bids ==> !Wanted(l, b) && b.status != "accepted") && k == |l.bids| - 1 ==>
              SelectedBid(l) == l.bids[k]
  {
    var i := FirstPick(l.bids, l.selectedBidId);
    assert forall b :: Wanted(l, b) == Picked(l.selectedBidId, b);
    hide FirstPick, AcceptedBids, Wanted, Picked;
    if IsLastAccepted(l.bids, k) { LastAccepted(l.bids, k); }
    if forall b :: b in l.bids ==> !Wanted(l, b) && b.status != "accepted" { NoneAccepted(l.bids); }
    assert i < |l.bids| ==> l.bids[i] in l.bids;
  }

  lemma NoneAccepted(bids: seq<Quote>)
    requires forall b :: b in bids ==> b.status != "accepted"
    ensures AcceptedBids(bids) == []
  {
    WhereNone(bids, (b: Quote) => b.status == "accepted");
  }

  lemma AcceptedSnoc(bids: seq<Quote>, b: Quote)
    ensures b.status == "accepted" ==> AcceptedBids(bids + [b]) == AcceptedBids(bids) + [b]
    ensures b.status != "accepted" ==> AcceptedBids(bids + [b]) == AcceptedBids(bids)
  {
    WhereSnoc(bids, b, (b: Quote) => b.status == "accepted");
  }

  lemma {:induction false} LastAccepted(bids: seq<Quote>, k: nat)
    requires IsLastAccepted(bids, k)
    ensures var accepted := AcceptedBids(bids); accepted != [] && accepted[|accepted| - 1] == bids[k]
  {
    hide AcceptedBids;
    var n := |bids| - 1;
    assert bids == bids[..n] + [bids[n]];
    AcceptedSnoc(bids[..n], bids[n]);
    if k < n { LastAccepted(bids[..n], k); }
  }

  /** The sales are the loads confirmed on both sides that have a selection and bids, each at the amount of that bid. */
  lemma SalesExact(loads: seq<Load>, l: Load)
    ensures l in Where(loads, Sold) <==>
              l in loads && l.brokerConfirmed && l.carrierConfirmed && l.selectedBidId.Some? && l.bids != []
    ensures SalePrice(l) == if l.brokerConfirmed && l.carrierConfirmed && l.selectedBidId.Some? && l.bids != []
                            then Some(SelectedBid(l).amount.Value()) else None
    ensures MilesSold(l) == if l.brokerConfirmed && l.carrierConfirmed && l.selectedBidId.Some? && l.bids != []
                            then Some(Miles(l.distance)) else None
  {
    hide SelectedBid, Miles;
  }

  /** Each entry of the three maps is the revenue of its broker, of its carrier, of its lane. */
  lemma GroupsExact(loads: seq<Load>, k: string)
    ensures At(Tally(Entries(loads, Broker, SalePrice)), k) ==
            Total(Entries(Where(loads, (l: Load) => l.posting.postedBy == k), Lane, SalePrice))
    ensures At(Tally(Entries(loads, Carrier, SalePrice)), k) ==
            Total(Entries(Where(loads, (l: Load) => l.bids != [] && SelectedBid(l).bidder == k), Lane, SalePrice))
    ensures At(Tally(Entries(loads, Lane, SalePrice)), k) ==
            Total(Entries(Where(loads, (l: Load) => l.posting.origin + " → " + l.posting.destination == k), Lane,
                          SalePrice))
  {
    hide Entries, Tally, Total, Where, SalePrice, SelectedBid;
    SalesHaveBids(loads);
    GroupIsWhere(loads, Broker, (l: Load) => l.posting.postedBy == k, k);
    GroupIsWhere(loads, Carrier, (l: Load) => l.bids != [] && SelectedBid(l).bidder == k, k);
    GroupIsWhere(loads, Lane, (l: Load) => l.posting.origin + " → " + l.posting.destination == k, k);
  }

  /** A lane is counted once for each of its sales, and a route once for each of its loads. */
  lemma LaneCountsExact(loads: seq<Load>, k: string)
    ensures CountIn(Counts(Entries(loads, Lane, SalePrice)), k) ==
            |Where(loads, (l: Load) => Sold(l) && l.posting.origin + " → " + l.posting.destination == k)|
    ensures CountIn(Counts(Entries(loads, Lane, One)), k) ==
            |Where(loads, (l: Load) => l.posting.origin + " → " + l.posting.destination == k)|
  {
    hide Entries, Counts, Where, SelectedBid;
    CountIsWhere(loads, SalePrice, (l: Load) => Sold(l) && l.posting.origin + " → " + l.posting.destination == k, k);
    CountIsWhere(loads, One, (l: Load) => l.posting.origin + " → " + l.posting.destination == k, k);
  }

  function CountIn(counts: map<string, int>, k: string): int {
    if k in counts then counts[k] else 0
  }

  lemma {:induction false} CountIsWhere(loads: seq<Load>, amount: Load -> Option<real>, p: Load -> bool, k: string)
    requires forall l :: p(l) <==> amount(l).Some? && Lane(l) == k
    ensures CountIn(Counts(Entries(loads, Lane, amount)), k) == |Where(loads, p)|
  {
    if loads != [] {
      var front, l := loads[..|loads| - 1], loads[|loads| - 1];
      assert loads == front + [l];
      hide Entries, Counts, Where, Lane, Tally, Total;
      CountIsWhere(front, amount, p, k);
      WhereSnoc(front, l, p);
      EntriesSnoc(front, l, Lane, amount);
      if amount(l).Some? { AfterEntry(front, l, Lane, amount); }
    }
  }

  lemma SalesHaveBids(loads: seq<Load>)
    ensures forall l :: l in loads && SalePrice(l).Some? ==> l.bids != []
  {
    hide SelectedBid;
  }

  lemma GroupIsWhere(loads: seq<Load>, key: Load -> string, p: Load -> bool, k: string)
    requires forall l :: l in loads && SalePrice(l).Some? ==> (p(l) <==> key(l) == k)
    ensures At(Tally(Entries(loads, key, SalePrice)), k) == Total(Entries(Where(loads, p), Lane, SalePrice))
  {
    hide Entries, Tally, Total, Where, SalePrice;
    var within := (l: Load) => if p(l) then SalePrice(l) else None;
    TallyAt(loads, key, SalePrice, k);
    EntriesOfWhere(loads, p, Lane, SalePrice, within);
    TotalIgnoresKey(loads, key, Lane, OnlyKey(key, SalePrice, k), within);
  }

  /** What a load adds to its route: nothing without a positive rate, else the amounts and the miles it has. */
  lemma RouteAmountsExact(l: Load)
    ensures PositiveRate(l) == if Rate(l) > 0.0 then Some(Rate(l)) else None
    ensures Rate(l) <= 0.0 ==> SoldAmount(l) == None && RouteMiles(l) == None && PerMile(l) == None
    ensures Rate(l) > 0.0 && l.bids == [] ==> SoldAmount(l) == None
    ensures Rate(l) > 0.0 && l.bids != [] && l.brokerConfirmed && l.carrierConfirmed ==>
              SoldAmount(l) == Some(SelectedBid(l).amount.Value())
    ensures Rate(l) > 0.0 && !(l.brokerConfirmed && l.carrierConfirmed) ==>
              forall k: nat :: IsLastAccepted(l.bids, k) ==> SoldAmount(l) == Some(l.bids[k].amount.Value())
    ensures !(l.brokerConfirmed && l.carrierConfirmed) && (forall b :: b in l.bids ==> b.status != "accepted") ==>
              SoldAmount(l) == None
    ensures Rate(l) > 0.0 && Miles(l.distance) > 0.0 ==>
              RouteMiles(l) == Some(Miles(l.distance)) && PerMile(l) == Some(Rate(l) / Miles(l.distance))
    ensures Miles(l.distance) <= 0.0 ==> RouteMiles(l) == None && PerMile(l) == None
  {
    hide SelectedBid, AcceptedBids, TryParse;
    forall k: nat | IsLastAccepted(l.bids, k)
      ensures AcceptedBids(l.bids) != [] && AcceptedBids(l.bids)[|AcceptedBids(l.bids)| - 1] == l.bids[k]
    {
      LastAccepted(l.bids, k);
    }
    if forall b :: b in l.bids ==> b.status != "accepted" { NoneAccepted(l.bids); }
  }

  lemma SaleOf(l: Load)
    requires Sold(l)
    ensures l.bids != [] && SalePrice(l) == Some(SelectedBid(l).amount.Value()) && Carrier(l) == SelectedBid(l).bidder
  {
    hide SelectedBid;
  }

  /** However the sales are grouped, the groups add up to the revenue, and the counts to the number of sales. */
  lemma RevenueIsConserved(loads: seq<Load>)
    ensures var sales := Entries(loads, Lane, SalePrice);
      && Sum(Tally(Entries(loads, Broker, SalePrice))) == Total(sales)
      && Sum(Tally(Entries(loads, Carrier, SalePrice))) == Total(sales)
      && Counts(sales).Keys == Tally(sales).Keys && (forall k :: k in Counts(sales) ==> Counts(sales)[k] >= 1)
      && Sum(Weighted(Averages(Tally(sales), Counts(sales)), Counts(sales))) == Total(sales)
      && Sum(AsReals(Counts(sales))) == |sales| as real
  {
    hide SalePrice, Lane, Broker, Carrier, Sum, Tally, Total, Counts, Entries;
    var sales := Entries(loads, Lane, SalePrice);
    TallyConserves(sales);
    TallyConserves(Entries(loads, Broker, SalePrice));
    TallyConserves(Entries(loads, Carrier, SalePrice));
    TotalIgnoresKey(loads, Lane, Broker, SalePrice, SalePrice);
    TotalIgnoresKey(loads, Lane, Carrier, SalePrice, SalePrice);
    CountsCover(sales);
    AveragesWeighBack(Tally(sales), Counts(sales));
    CountsConserve(sales);
  }

  // ----- the screen -----

  class Screen {
    var allLoads: seq<Load>
    var laneRates: map<string, real>
    var laneCounts: map<string, int>
    var brokerSales: map<string, real>
    var carrierSales: map<string, real>
    var averageRatePerMile: real
    var totalRevenue: real
    var totalLoadsSold: nat
    var frequentLoads: map<string, int>
    var frequentLoadRates: map<string, real>
    var frequentLoadPerMileRates: map<string, real>
    var frequentLoadTotalMiles: map<string, real>
    var frequentLoadSoldAmounts: map<string, real>

    constructor (allLoads: seq<Load>)
      ensures this.allLoads == allLoads
    {
      this.allLoads := allLoads;
      laneRates, laneCounts, brokerSales, carrierSales := map[], map[], map[], map[];
      averageRatePerMile, totalRevenue, totalLoadsSold := 0.0, 0.0, 0;
      frequentLoads, frequentLoadRates, frequentLoadPerMileRates := map[], map[], map[];
      frequentLoadTotalMiles, frequentLoadSoldAmounts := map[], map[];
    }

    // The maps and totals hold what the confirmed loads in `loads` add up to.
    ghost predicate Accumulated(loads: seq<Load>)
      reads this
    {
      && totalRevenue == Total(Entries(loads, Lane, SalePrice))
      && laneRates == Tally(Entries(loads, Lane, SalePrice))
      && laneCounts == Counts(Entries(loads, Lane, SalePrice))
      && brokerSales == Tally(Entries(loads, Broker, SalePrice))
      && carrierSales == Tally(Entries(loads, Carrier, SalePrice))
    }

    // One iteration of the loop over the confirmed loads.
    method AddSale(l: Load, ghost loads: seq<Load>)
      requires Sold(l) && Accumulated(loads)
      modifies this`totalRevenue, this`laneRates, this`laneCounts, this`brokerSales, this`carrierSales
      ensures Accumulated(loads + [l])
    {
      hide Sold, SelectedBid, Add, Count, Entries, Tally, Counts, Total, SalePrice, Lane, Broker, Carrier;
      SaleOf(l);
      var price := SelectedBid(l).amount.Value();
      AfterEntry(loads, l, Lane, SalePrice);
      AfterEntry(loads, l, Broker, SalePrice);
      AfterEntry(loads, l, Carrier, SalePrice);
      totalRevenue := totalRevenue + price;
      laneRates := Add(laneRates, Lane(l), price);
      laneCounts := Count(laneCounts, Lane(l));
      brokerSales := Add(brokerSales, Broker(l), price);
      carrierSales := Add(carrierSales, SelectedBid(l).bidder, price);
    }

    /**
     `_calculateAnalytics`: every map is a grouping of the sale prices of the confirmed loads,
     so brokers, carriers and lanes all add up to the revenue.
     */
    method CalculateAnalytics()
      modifies this`totalRevenue, this`laneRates, this`laneCounts, this`brokerSales, this`carrierSales,
               this`totalLoadsSold, this`averageRatePerMile
      ensures var sales := Entries(allLoads, Lane, SalePrice);
        && totalLoadsSold == |Where(allLoads, Sold)| == |sales|
        && totalRevenue == Total(sales)
        && brokerSales == Tally(Entries(allLoads, Broker, SalePrice))
        && carrierSales == Tally(Entries(allLoads, Carrier, SalePrice))
        && laneCounts == Counts(sales) && laneCounts.Keys == Tally(sales).Keys
        && (forall k :: k in laneCounts ==> laneCounts[k] >= 1)
        && laneRates == Averages(Tally(sales), laneCounts)
      ensures Sum(brokerSales) == totalRevenue && Sum(carrierSales) == totalRevenue
      ensures laneRates.Keys <= laneCounts.Keys && Sum(Weighted(laneRates, laneCounts)) == totalRevenue
      ensures Sum(AsReals(laneCounts)) == totalLoadsSold as real
      ensures var miles := Total(Entries(allLoads, Lane, MilesSold));
              averageRatePerMile == if miles > 0.0 then totalRevenue / miles else 0.0
    {
      hide Entries, Tally, Total, Counts, Sum, Where, Sold, Weighted, AsReals;
      var totalMiles := AddSales();
      averageRatePerMile := if totalMiles > 0.0 then totalRevenue / totalMiles else 0.0;
      RevenueIsConserved(allLoads);
      laneRates := AverageAll(laneRates, laneCounts);
    }

    // The loop over the confirmed loads.
    method AddSales() returns (totalMiles: real)
      modifies this`totalRevenue, this`laneRates, this`laneCounts, this`brokerSales, this`carrierSales,
               this`totalLoadsSold
      ensures Accumulated(allLoads)
      ensures totalLoadsSold == |Where(allLoads, Sold)| == |Entries(allLoads, Lane, SalePrice)|
      ensures totalMiles == Total(Entries(allLoads, Lane, MilesSold))
    {
      hide Sold, Accumulated, Where, Entries, Tally, Total, Counts;
      var confirmedLoads := Where(allLoads, Sold);
      totalLoadsSold := |confirmedLoads|;
      totalRevenue, totalMiles := 0.0, 0.0;
      laneRates, laneCounts, brokerSales, carrierSales := map[], map[], map[], map[];
      NothingAccumulated();
      assert confirmedLoads[..0] == [];
      SoldLoadsOnly(allLoads);
      for i := 0 to |confirmedLoads|
        invariant totalLoadsSold == |confirmedLoads|
        invariant Accumulated(confirmedLoads[..i])
        invariant totalMiles == Total(Entries(confirmedLoads[..i], Lane, MilesSold))
      {
        var load := confirmedLoads[i];
        assert load in confirmedLoads;
        AddSale(load, confirmedLoads[..i]);
        MilesSnoc(confirmedLoads[..i], load);
        totalMiles := totalMiles + Miles(load.distance);
        assert confirmedLoads[..i + 1] == confirmedLoads[..i] + [load];
      }
      assert confirmedLoads[..|confirmedLoads|] == confirmedLoads;
      AccumulatedSame(confirmedLoads, allLoads);
    }

    lemma NothingAccumulated()
      requires totalRevenue == 0.0 && laneRates == brokerSales == carrierSales == map[] && laneCounts == map[]
      ensures Accumulated([]) && Total(Entries([], Lane, MilesSold)) == 0.0
    {
    }

    lemma AccumulatedSame(some: seq<Load>, all: seq<Load>)
      requires Entries(some, Lane, SalePrice) == Entries(all, Lane, SalePrice)
      requires Entries(some, Broker, SalePrice) == Entries(all, Broker, SalePrice)
      requires Entries(some, Carrier, SalePrice) == Entries(all, Carrier, SalePrice)
      ensures Accumulated(some) <==> Accumulated(all)
    {
      hide Entries, Tally, Total, Counts;
    }

    lemma MilesSnoc(loads: seq<Load>, l: Load)
      requires Sold(l)
      ensures Total(Entries(loads + [l], Lane, MilesSold)) == Total(Entries(loads, Lane, MilesSold)) + Miles(l.distance)
    {
      EntriesSnoc(loads, l, Lane, MilesSold);
      TallySnoc(Entries(loads, Lane, MilesSold), Entry(Lane(l), Miles(l.distance)));
    }

    // Looking only at confirmed loads first adds the same entries.
    lemma SoldLoadsOnly(loads: seq<Load>)
      ensures forall l :: l in Where(loads, Sold) ==> Sold(l)
      ensures Entries(Where(loads, Sold), Lane, SalePrice) == Entries(loads, Lane, SalePrice)
      ensures Entries(Where(loads, Sold), Broker, SalePrice) == Entries(loads, Broker, SalePrice)
      ensures Entries(Where(loads, Sold), Carrier, SalePrice) == Entries(loads, Carrier, SalePrice)
      ensures Entries(Where(loads, Sold), Lane, MilesSold) == Entries(loads, Lane, MilesSold)
      ensures |Where(loads, Sold)| == |Entries(loads, Lane, SalePrice)|
    {
      hide SelectedBid, Miles, Lane, Carrier, Broker;
      EntriesOfWhere(loads, Sold, Lane, SalePrice, SalePrice);
      EntriesOfWhere(loads, Sold, Broker, SalePrice, SalePrice);
      EntriesOfWhere(loads, Sold, Carrier, SalePrice, SalePrice);
      EntriesOfWhere(loads, Sold, Lane, MilesSold, MilesSold);
      EntriesOfAll(Where(loads, Sold), Lane, SalePrice);
    }

    // ----- frequent loads -----

    ghost predicate Counted(loads: seq<Load>)
      reads this
    {
      && frequentLoads == Counts(Entries(loads, Lane, One))
      && frequentLoadRates == Tally(Entries(loads, Lane, PositiveRate))
      && frequentLoadSoldAmounts == Tally(Entries(loads, Lane, SoldAmount))
      && frequentLoadTotalMiles == Tally(Entries(loads, Lane, RouteMiles))
      && frequentLoadPerMileRates == Tally(Entries(loads, Lane, PerMile))
    }

    // One iteration of the loop over all loads.
    method AddRoute(load: Load, ghost loads: seq<Load>)
      requires Counted(loads)
      modifies this`frequentLoads, this`frequentLoadRates, this`frequentLoadSoldAmounts,
               this`frequentLoadTotalMiles, this`frequentLoadPerMileRates
      ensures Counted(loads + [load])
    {
      hide SelectedBid, AcceptedBids, Add, Count, Entries, Tally, Counts, Total, Lane, Rate, Miles;
      AfterEntry(loads, load, Lane, One);
      MaybeEntry(loads, load, Lane, PositiveRate);
      MaybeEntry(loads, load, Lane, SoldAmount);
      MaybeEntry(loads, load, Lane, RouteMiles);
      MaybeEntry(loads, load, Lane, PerMile);
      var route := Lane(load);
      frequentLoads := Count(frequentLoads, route);
      var rate := Rate(load);
      if rate > 0.0 {
        frequentLoadRates := Add(frequentLoadRates, route, rate);
        if load.brokerConfirmed && load.carrierConfirmed && load.bids != [] {
          frequentLoadSoldAmounts := Add(frequentLoadSoldAmounts, route, SelectedBid(load).amount.Value());
        } else if load.bids != [] {
          var acceptedBids := AcceptedBids(load.bids);
          if acceptedBids != [] {
            frequentLoadSoldAmounts := Add(frequentLoadSoldAmounts, route,
                                           acceptedBids[|acceptedBids| - 1].amount.Value());
          }
        }
        if load.distance.Some? {
          var distance := Miles(load.distance);
          if distance > 0.0 {
            frequentLoadTotalMiles := Add(frequentLoadTotalMiles, route, distance);
            frequentLoadPerMileRates := Add(frequentLoadPerMileRates, route, rate / distance);
          }
        }
      }
    }

    /**
     `_calculateFrequentLoads`: route counts add up to the number of loads, and an average times
     the count of its route is the sum of the positive rates on that route.
     */
    method CalculateFrequentLoads()
      modifies this`frequentLoads, this`frequentLoadRates, this`frequentLoadSoldAmounts,
               this`frequentLoadTotalMiles, this`frequentLoadPerMileRates
      ensures frequentLoads == Counts(Entries(allLoads, Lane, One)) && Sum(AsReals(frequentLoads)) == |allLoads| as real
      ensures frequentLoadRates.Keys <= frequentLoads.Keys
      ensures Weighted(frequentLoadRates, frequentLoads) == Tally(Entries(allLoads, Lane, PositiveRate))
      ensures frequentLoadPerMileRates.Keys <= frequentLoads.Keys
      ensures Weighted(frequentLoadPerMileRates, frequentLoads) == Tally(Entries(allLoads, Lane, PerMile))
      ensures frequentLoadSoldAmounts == Tally(Entries(allLoads, Lane, SoldAmount))
      ensures frequentLoadTotalMiles == Tally(Entries(allLoads, Lane, RouteMiles))
    {
      hide Counted, Entries, Tally, Counts, Total, PositiveRate, PerMile, SoldAmount, RouteMiles;
      frequentLoads, frequentLoadRates, frequentLoadPerMileRates := map[], map[], map[];
      frequentLoadTotalMiles, frequentLoadSoldAmounts := map[], map[];
      NothingCounted();
      assert allLoads[..0] == [];
      ghost var all := allLoads;
      for i := 0 to |allLoads|
        invariant allLoads == all && Counted(allLoads[..i])
      {
        AddRoute(allLoads[i], allLoads[..i]);
        assert allLoads[..i + 1] == allLoads[..i] + [allLoads[i]];
      }
      assert allLoads[..|allLoads|] == allLoads;
      RoutesAreConserved();
      frequentLoadRates := AverageAll(frequentLoadRates, frequentLoads);
      frequentLoadPerMileRates := AverageAll(frequentLoadPerMileRates, frequentLoads);
    }

    lemma NothingCounted()
      requires frequentLoads == map[]
      requires frequentLoadRates == frequentLoadSoldAmounts == map[]
      requires frequentLoadTotalMiles == frequentLoadPerMileRates == map[]
      ensures Counted([])
    {
    }

    lemma RoutesAreConserved()
      requires Counted(allLoads)
      ensures frequentLoads == Counts(Entries(allLoads, Lane, One)) && Sum(AsReals(frequentLoads)) == |allLoads| as real
      ensures forall k :: k in frequentLoads ==> frequentLoads[k] >= 1
      ensures frequentLoadSoldAmounts == Tally(Entries(allLoads, Lane, SoldAmount))
      ensures frequentLoadTotalMiles == Tally(Entries(allLoads, Lane, RouteMiles))
      ensures frequentLoadRates == Tally(Entries(allLoads, Lane, PositiveRate))
      ensures frequentLoadPerMileRates == Tally(Entries(allLoads, Lane, PerMile))
      ensures frequentLoadRates.Keys <= frequentLoads.Keys && frequentLoadPerMileRates.Keys <= frequentLoads.Keys
      ensures Weighted(Averages(frequentLoadRates, frequentLoads), frequentLoads) == frequentLoadRates
      ensures Weighted(Averages(frequentLoadPerMileRates, frequentLoads), frequentLoads) == frequentLoadPerMileRates
    {
      hide Entries, Tally, Counts, Total, PositiveRate, PerMile, SoldAmount, RouteMiles, Sum, Averages, Weighted;
      var ones := Entries(allLoads, Lane, One);
      CountsConserve(ones);
      CountsCover(ones);
      EntriesOfAll(allLoads, Lane, One);
      KeysOfSome(allLoads, Lane, PositiveRate, One);
      KeysOfSome(allLoads, Lane, PerMile, One);
      AveragesWeighBack(frequentLoadRates, frequentLoads);
      AveragesWeighBack(frequentLoadPerMileRates, frequentLoads);
    }
  }
}
