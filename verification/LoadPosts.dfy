/**
 `LoadPost` and `LoadPostQuote` as values: the bid codec, the row codec and `copyWith`.
 The mutable `LoadPost` objects of `LoadProvider.dfy` are described by these values.
 */
module LoadPosts {
  import opened Text
  import opened Amounts

  datatype Quote = Quote(bidder: string, amount: Amount, status: string, counter: Option<Amount>)

  datatype Point = Point(lat: real, lng: real)

  // What `copyWith` hands over as it is and the table stores as it is.
  datatype Posting = Posting(
    title: string, origin: string, destination: string, pickupDate: string, rate: string,
    postedBy: string, isBrokerPost: bool, isCarrierPost: bool,
    loadType: Option<string>, country: Option<string>,
    originRadius: Option<int>, destinationRadius: Option<int>)

  datatype Address = Address(
    city: Option<string>, country: Option<string>, state: Option<string>,
    postalCode: Option<string>, description: Option<string>)

  const NO_ADDRESS: Address := Address(None, None, None, None, None)

  // What the table stores as it is and `copyWith` resets whatever it was.
  datatype Marks = Marks(
    isActive: bool, volume: int, isBroken: bool, isBooked: bool, createdAt: int,
    origin: Address, destination: Address,
    pickupTime: Option<string>, deliveryTime: Option<string>, appointment: bool)

  function ResetMarks(now: int): Marks {
    Marks(true, 0, false, false, now, NO_ADDRESS, NO_ADDRESS, None, None, false)
  }

  // What `copyWith` hands over and `toMap` writes, but `fromMap` never reads.
  datatype Contact = Contact(person: Option<string>, address: Option<string>, postedByName: Option<string>)

  const NO_CONTACT: Contact := Contact(None, None, None)

  datatype Load = Load(
    id: string, posting: Posting, equipment: seq<string>, bids: seq<Quote>,
    status: Option<string>, selectedBidId: Option<string>, brokerConfirmed: bool, carrierConfirmed: bool,
    pickup: Option<Point>, drop: Option<Point>, distance: Option<string>, difference: Option<string>,
    marks: Marks, contact: Contact)

  // A record of the `loads` table: lists are text, flags are 0 or 1.
  datatype Row = Row(
    id: string, posting: Posting, equipment: string, bids: string,
    status: Option<string>, selectedBidId: Option<string>, brokerConfirmed: int, carrierConfirmed: int,
    pickup: Option<Point>, drop: Option<Point>, distance: Option<string>, difference: Option<string>,
    marks: Marks, contact: Contact)

  // ----- the bid codec -----

  const UNKNOWN: Quote := Quote("Unknown", ZERO, "pending", None)

  function Fields(q: Quote): (fields: seq<string>)
    ensures |fields| == 4
  {
    [q.bidder, Print(q.amount), q.status, if q.counter.None? then "" else Print(q.counter.value)]
  }

  function EncodeQuote(q: Quote): string {
    Join(Fields(q), ':')
  }

  // The form `updateLoadBids` writes: neither status nor counter offer.
  function EncodeShort(q: Quote): string {
    Join(Fields(q)[..2], ':')
  }

  function DecodeQuote(s: string): Quote {
    if s == "" then UNKNOWN else DecodeFields(Split(s, ':'))
  }

  function DecodeFields(parts: seq<string>): Quote {
    if |parts| < 2 then UNKNOWN
    else
      Quote(parts[0], TryParse(parts[1]).GetOr(ZERO),
            if |parts| >= 3 then parts[2] else "pending",
            if |parts| >= 4 then TryParse(parts[3]) else None)
  }

  function EncodeBids(bids: seq<Quote>): string {
    Join(seq(|bids|, i requires 0 <= i < |bids| => EncodeQuote(bids[i])), ';')
  }

  function EncodeBidsShort(bids: seq<Quote>): string {
    Join(seq(|bids|, i requires 0 <= i < |bids| => EncodeShort(bids[i])), ';')
  }

  function DecodeBids(s: string): seq<Quote> {
    var pieces := Split(s, ';');
    seq(|pieces|, i requires 0 <= i < |pieces| => DecodeQuote(pieces[i]))
  }

  predicate Clean(s: string) { ':' !in s && ';' !in s }

  ghost predicate CleanQuote(q: Quote) { Clean(q.bidder) && Clean(q.status) }

  ghost predicate CleanBids(bids: seq<Quote>) {
    forall i :: 0 <= i < |bids| ==> CleanQuote(bids[i])
  }

  function Plain(q: Quote): Quote {
    q.(status := "pending", counter := None)
  }

  // What is left of a bid list after `updateLoadBids` and a reload.
  function PlainBids(bids: seq<Quote>): seq<Quote> {
    seq(|bids|, i requires 0 <= i < |bids| => Plain(bids[i]))
  }

  lemma CounterText(counter: Option<Amount>)
    ensures var text := if counter.None? then "" else Print(counter.value);
            Clean(text) && TryParse(text) == counter
  {
    if counter.Some? {
      ParsePrint(counter.value);
      PrintFree(counter.value, ':');
      PrintFree(counter.value, ';');
    }
  }

  lemma FieldsClean(q: Quote)
    ensures Clean(Fields(q)[1]) && Clean(Fields(q)[3])
    ensures DecodeFields(Fields(q)) == q
    ensures DecodeFields(Fields(q)[..2]) == Plain(q)
  {
    ParsePrint(q.amount);
    PrintFree(q.amount, ':');
    PrintFree(q.amount, ';');
    CounterText(q.counter);
  }

  lemma DecodeJoined(fields: seq<string>)
    requires |fields| >= 2 && AllFree(fields, ':')
    ensures DecodeQuote(Join(fields, ':')) == DecodeFields(fields)
  {
    SplitOfJoin(fields, ':');
    assert Join(fields, ':') != "";
  }

  /**
   A text is read field by field: fewer than two fields are the 'Unknown' quote, an amount that is no
   number is 0, a missing status is pending, and a missing or unreadable counter offer is none.
   */
  lemma DecodeExact(fields: seq<string>)
    requires fields != [] && AllFree(fields, ':')
    ensures var q := DecodeQuote(Join(fields, ':'));
      if |fields| == 1 then q == Quote("Unknown", Decimal(false, 0, 1), "pending", None)
      else
        && q.bidder == fields[0]
        && q.amount == (if TryParse(fields[1]).Some? then TryParse(fields[1]).value else Decimal(false, 0, 1))
        && q.status == (if |fields| == 2 then "pending" else fields[2])
        && q.counter == (if |fields| <= 3 then None else TryParse(fields[3]))
  {
    SplitOfJoin(fields, ':');
    hide TryParse, Split;
  }

  lemma DecodedFieldsFree(s: string)
    ensures ':' !in DecodeQuote(s).bidder && ':' !in DecodeQuote(s).status
  {
    hide TryParse;
  }

  /** A quote survives `toString` and `fromString` exactly when bidder and status hold no colon. */
  lemma QuoteRoundTripExact(q: Quote)
    ensures DecodeQuote(EncodeQuote(q)) == q <==> ':' !in q.bidder && ':' !in q.status
  {
    DecodedFieldsFree(EncodeQuote(q));
    hide DecodeQuote, EncodeQuote, Fields, Join;
    if ':' !in q.bidder && ':' !in q.status {
      QuoteSurvives(q);
    }
  }

  lemma QuoteSurvives(q: Quote)
    requires ':' !in q.bidder && ':' !in q.status
    ensures DecodeQuote(EncodeQuote(q)) == q
  {
    hide DecodeQuote, DecodeFields, Join;
    FieldsClean(q);
    DecodeJoined(Fields(q));
  }

  lemma DecodeShort(q: Quote)
    requires ':' !in q.bidder
    ensures DecodeQuote(EncodeShort(q)) == Plain(q)
  {
    hide DecodeQuote, DecodeFields, Join, Print;
    FieldsClean(q);
    DecodeJoined(Fields(q)[..2]);
  }

  lemma EncodedFree(q: Quote)
    requires CleanQuote(q)
    ensures ';' !in EncodeQuote(q)
  {
    FieldsClean(q);
    ghost var fields := Fields(q);
    assert fields[0] == q.bidder && fields[2] == q.status;
    FourFree(fields);
  }

  lemma FourFree(fields: seq<string>)
    requires |fields| == 4
    requires ';' !in fields[0] && ';' !in fields[1] && ';' !in fields[2] && ';' !in fields[3]
    ensures ';' !in Join(fields, ':')
  {
    JoinFree(fields, ':', ';');
  }

  lemma ShortFree(q: Quote)
    requires Clean(q.bidder)
    ensures ';' !in EncodeShort(q)
  {
    hide DecodeFields, Join, Print;
    FieldsClean(q);
    JoinFree(Fields(q)[..2], ':', ';');
  }

  lemma DecodedClean(s: string)
    ensures DecodeBids(s) != [] && CleanBids(DecodeBids(s))
  {
    var pieces := Split(s, ';');
    forall i | 0 <= i < |pieces| ensures CleanQuote(DecodeQuote(pieces[i])) {
      SplitKeepsFree(pieces[i], ':', ';');
    }
  }

  /** A bid list survives the row exactly when it is non-empty and its strings hold no separator. */
  lemma BidsRoundTripExact(bids: seq<Quote>)
    ensures DecodeBids(EncodeBids(bids)) == bids <==> bids != [] && CleanBids(bids)
  {
    DecodedClean(EncodeBids(bids));
    if bids != [] && CleanBids(bids) {
      var texts := seq(|bids|, i requires 0 <= i < |bids| => EncodeQuote(bids[i]));
      forall i | 0 <= i < |texts| ensures ';' !in texts[i] && DecodeQuote(texts[i]) == bids[i] {
        EncodedFree(bids[i]);
        QuoteRoundTripExact(bids[i]);
      }
      SplitOfJoin(texts, ';');
    }
  }

  /** Whatever text was read, printing and reading it once more changes nothing. */
  lemma DecodeIsStable(s: string)
    ensures DecodeBids(EncodeBids(DecodeBids(s))) == DecodeBids(s)
  {
    DecodedClean(s);
    BidsRoundTripExact(DecodeBids(s));
  }

  /** The empty bid list comes back as one quote by 'Unknown'. */
  lemma EmptyBidsDecode()
    ensures DecodeBids(EncodeBids([])) == [UNKNOWN] == DecodeBids(EncodeBidsShort([]))
  {
    assert EncodeBids([]) == "" == EncodeBidsShort([]);
  }

  /** What `updateLoadBids` wrote reads back with every bid pending and no counter offer. */
  lemma ShortBidsDecode(bids: seq<Quote>)
    requires bids != [] && forall i :: 0 <= i < |bids| ==> Clean(bids[i].bidder)
    ensures DecodeBids(EncodeBidsShort(bids)) == PlainBids(bids)
  {
    var texts := seq(|bids|, i requires 0 <= i < |bids| => EncodeShort(bids[i]));
    forall i | 0 <= i < |texts| ensures ';' !in texts[i] && DecodeQuote(texts[i]) == Plain(bids[i]) {
      ShortFree(bids[i]);
      DecodeShort(bids[i]);
    }
    SplitOfJoin(texts, ';');
  }

  // ----- what the bids column reads back as, whatever the strings -----

  // The text a bid puts into the column: whole from `toMap`, short from `updateLoadBids`.
  function QuoteText(q: Quote, short: bool): string {
    if short then EncodeShort(q) else EncodeQuote(q)
  }

  /** The bids after a reload, when the column was last written whole or short. */
  function AfterReload(bids: seq<Quote>, short: bool): seq<Quote> {
    DecodeBids(if short then EncodeBidsShort(bids) else EncodeBids(bids))
  }

  lemma AfterReloadClean(bids: seq<Quote>, short: bool)
    requires CleanBids(bids)
    ensures AfterReload(bids, short) == if bids == [] then [UNKNOWN] else if short then PlainBids(bids) else bids
  {
    if bids == [] {
      EmptyBidsDecode();
    } else if short {
      ShortBidsDecode(bids);
    } else {
      BidsRoundTripExact(bids);
    }
  }

  /** A reload leaves a bid list alone exactly when it can be written and nothing that matters was cut off. */
  lemma AfterReloadExact(bids: seq<Quote>, short: bool)
    ensures AfterReload(bids, short) == bids <==>
            bids != [] && CleanBids(bids) && (short ==> PlainBids(bids) == bids)
  {
    DecodedClean(if short then EncodeBidsShort(bids) else EncodeBids(bids));
    hide DecodeBids, EncodeBids, EncodeBidsShort;
    if CleanBids(bids) { AfterReloadClean(bids, short); }
  }

  // The bids that the text of one bid falls apart into.
  function Readings(q: Quote, short: bool): seq<Quote> {
    DecodeBids(QuoteText(q, short))
  }

  lemma ReadJoined(p: string, s: string)
    ensures DecodeBids(p + [';'] + s) == DecodeBids(p) + DecodeBids(s)
  {
    hide DecodeQuote;
    SplitConcat(p, s, ';');
  }

  /** Every bid is read on its own. */
  lemma AfterReloadCons(bids: seq<Quote>, short: bool)
    requires bids != []
    ensures AfterReload(bids, short) ==
            Readings(bids[0], short) + if |bids| == 1 then [] else AfterReload(bids[1..], short)
  {
    hide EncodeQuote, EncodeShort, DecodeBids;
    var texts := seq(|bids|, i requires 0 <= i < |bids| => QuoteText(bids[i], short));
    assert Join(texts, ';') == if short then EncodeBidsShort(bids) else EncodeBids(bids) by {
      assert short ==> texts == seq(|bids|, i requires 0 <= i < |bids| => EncodeShort(bids[i]));
      assert !short ==> texts == seq(|bids|, i requires 0 <= i < |bids| => EncodeQuote(bids[i]));
    }
    if |bids| > 1 {
      var rest := bids[1..];
      assert Join(texts[1..], ';') == if short then EncodeBidsShort(rest) else EncodeBids(rest) by {
        assert short ==> texts[1..] == seq(|rest|, i requires 0 <= i < |rest| => EncodeShort(rest[i]));
        assert !short ==> texts[1..] == seq(|rest|, i requires 0 <= i < |rest| => EncodeQuote(rest[i]));
      }
      ReadJoined(texts[0], Join(texts[1..], ';'));
    }
  }

  // Both texts of a bid start with the bidder and a colon.
  lemma QuoteTextStarts(q: Quote, short: bool) returns (rest: string)
    ensures QuoteText(q, short) == q.bidder + ":" + rest
    ensures ';' in rest ==> !short && ';' in q.status
  {
    var fields := Fields(q);
    FieldsClean(q);
    rest := if short then Join(fields[1..2], ':') else Join(fields[1..], ':');
    hide Print;
    assert fields[..2][1..] == fields[1..2];
    if short {
      assert rest == fields[1];
    } else if ';' !in q.status {
      assert forall i :: 0 <= i < 3 ==> ';' !in fields[1..][i];
      JoinFree(fields[1..], ':', ';');
    }
  }

  /** A bidder without separators is read back first, whatever the status holds. */
  lemma CleanBidderIsRead(q: Quote, short: bool)
    requires Clean(q.bidder)
    ensures Readings(q, short)[0].bidder == q.bidder
  {
    var rest := QuoteTextStarts(q, short);
    SplitHead(q.bidder + ":", rest, ';');
    var piece := q.bidder + ":" + Split(rest, ';')[0];
    assert Split(QuoteText(q, short), ';')[0] == piece;
    SplitPrefix(q.bidder, Split(rest, ';')[0], ':');
    assert piece != "" && piece == q.bidder + [':'] + Split(rest, ';')[0];
    hide TryParse;
  }

  /** A bidder with a colon is read back as the part before it. */
  lemma ColonBidderIsCut(q: Quote, short: bool)
    requires ';' !in q.bidder && (short || ';' !in q.status)
    ensures |Readings(q, short)| == 1 && Readings(q, short)[0].bidder == Split(q.bidder, ':')[0]
  {
    var rest := QuoteTextStarts(q, short);
    var text := q.bidder + ":" + rest;
    SplitWhole(text, ';');
    assert text == q.bidder + [':'] + rest;
    SplitConcat(q.bidder, rest, ':');
    hide TryParse;
  }

  /**
   The names under which a bid is read back, from the name of its bidder: one for each of its
   ';'-pieces, up to the first colon. A piece without a colon, unless it is the last, reads 'Unknown'.
   */
  function ReadNames(bidder: string): seq<string> {
    var pieces := Split(bidder, ';');
    seq(|pieces|, i requires 0 <= i < |pieces| => PieceNameAt(pieces, i))
  }

  function PieceNameAt(pieces: seq<string>, i: nat): string
    requires i < |pieces|
  {
    if i < |pieces| - 1 && ':' !in pieces[i] then UNKNOWN.bidder else Split(pieces[i], ':')[0]
  }

  lemma PieceName(piece: string)
    ensures DecodeQuote(piece).bidder == if ':' in piece then Split(piece, ':')[0] else UNKNOWN.bidder
  {
    hide TryParse;
    if ':' in piece {
      ColonSplits(piece);
    } else {
      SplitWhole(piece, ':');
    }
  }

  lemma ColonSplits(s: string)
    requires ':' in s
    ensures |Split(s, ':')| >= 2
  {
    if |Split(s, ':')| == 1 { JoinOfSplit(s, ':'); }
  }

  // The last piece of a name is followed by a colon and the rest of the text.
  lemma TextPieces(q: Quote, short: bool) returns (rest: string)
    requires short || ';' !in q.status
    ensures var pieces := Split(q.bidder, ';'); var n := |pieces| - 1;
            Split(QuoteText(q, short), ';') == pieces[..n] + [pieces[n] + [':'] + rest]
  {
    rest := QuoteTextStarts(q, short);
    hide QuoteText;
    var last := Split(q.bidder, ';')[|Split(q.bidder, ';')| - 1];
    assert QuoteText(q, short) == q.bidder + (":" + rest);
    SplitTail(q.bidder, ":" + rest, ';');
    assert last + (":" + rest) == last + [':'] + rest;
  }

  lemma LastPieceName(piece: string, rest: string)
    ensures DecodeQuote(piece + [':'] + rest).bidder == Split(piece, ':')[0]
  {
    hide DecodeQuote;
    PieceName(piece + [':'] + rest);
    SplitConcat(piece, rest, ':');
  }

  lemma ReadingAt(pieces: seq<string>, texts: seq<string>, rest: string, i: nat)
    requires pieces != [] && i < |pieces|
    requires texts == pieces[..|pieces| - 1] + [pieces[|pieces| - 1] + [':'] + rest]
    ensures |texts| == |pieces| && DecodeQuote(texts[i]).bidder == PieceNameAt(pieces, i)
  {
    hide DecodeQuote, Split;
    if i < |pieces| - 1 { PieceName(pieces[i]); } else { LastPieceName(pieces[i], rest); }
  }

  /** With a status free of ';', which the short form never holds, the name alone decides how a bid is read. */
  lemma ReadingsByName(q: Quote, short: bool)
    requires short || ';' !in q.status
    ensures |Readings(q, short)| == |ReadNames(q.bidder)|
    ensures forall i :: 0 <= i < |Readings(q, short)| ==> Readings(q, short)[i].bidder == ReadNames(q.bidder)[i]
  {
    hide DecodeQuote, QuoteText, Split, PieceNameAt;
    var rest := TextPieces(q, short);
    var pieces, texts := Split(q.bidder, ';'), Split(QuoteText(q, short), ';');
    forall i | 0 <= i < |texts| ensures DecodeQuote(texts[i]).bidder == PieceNameAt(pieces, i) {
      ReadingAt(pieces, texts, rest, i);
    }
  }

  // ----- rows -----

  function Flag(b: bool): int { if b then 1 else 0 }

  function ToRow(l: Load): Row {
    Row(l.id, l.posting, Join(l.equipment, ';'), EncodeBids(l.bids),
        l.status, l.selectedBidId, Flag(l.brokerConfirmed), Flag(l.carrierConfirmed),
        l.pickup, l.drop, l.distance, l.difference, l.marks, l.contact)
  }

  function FromRow(r: Row): Load {
    Load(r.id, r.posting, Split(r.equipment, ';'), DecodeBids(r.bids),
         r.status, r.selectedBidId, r.brokerConfirmed == 1, r.carrierConfirmed == 1,
         r.pickup, r.drop, r.distance, r.difference, r.marks, NO_CONTACT)
  }

  /**
   A load survives its own row exactly when both its lists are non-empty and separator-free and it
   has no contact person, contact address or poster's name, which are written and never read. In
   particular a post that asks for no equipment comes back asking for the equipment ''.
   */
  lemma RowRoundTripExact(l: Load)
    ensures FromRow(ToRow(l)) == l <==>
            && l.bids != [] && CleanBids(l.bids)
            && l.equipment != [] && AllFree(l.equipment, ';') && l.contact == NO_CONTACT
  {
    BidsRoundTripExact(l.bids);
    SplitJoinExact(l.equipment, ';');
  }

  // ----- copyWith -----

  /** `copyWith` with the four parameters the negotiation uses; null keeps the old value. */
  function CopyWith(l: Load, status: Option<string>, selectedBidId: Option<string>,
                    brokerConfirmed: Option<bool>, carrierConfirmed: Option<bool>, now: int): Load
  {
    l.(status := status.Or(l.status),
       selectedBidId := selectedBidId.Or(l.selectedBidId),
       brokerConfirmed := brokerConfirmed.GetOr(l.brokerConfirmed),
       carrierConfirmed := carrierConfirmed.GetOr(l.carrierConfirmed),
       distance := None,
       difference := None,
       marks := ResetMarks(now))
  }

  /**
   The return load that the load board posts: `copyWith` under the empty id, with the ends swapped
   and no bids. Status, selection and both confirmations stay those of the load it returns from.
   */
  function ReturnOf(l: Load, now: int): Load {
    CopyWith(l, None, None, None, None, now).(
      id := "", bids := [],
      posting := l.posting.(origin := l.posting.destination, destination := l.posting.origin),
      pickup := l.drop.Or(l.pickup), drop := l.pickup.Or(l.drop))
  }

  /** The return load, part by part: an end without coordinates keeps those it had. */
  lemma ReturnExact(l: Load, now: int)
    ensures var m := ReturnOf(l, now);
      && m.id == "" && m.bids == [] && m.equipment == l.equipment && m.contact == l.contact
      && m.posting.origin == l.posting.destination && m.posting.destination == l.posting.origin
      && m.posting.(origin := "", destination := "") == l.posting.(origin := "", destination := "")
      && m.status == l.status && m.selectedBidId == l.selectedBidId
      && m.brokerConfirmed == l.brokerConfirmed && m.carrierConfirmed == l.carrierConfirmed
      && m.pickup == (if l.drop.Some? then l.drop else l.pickup)
      && m.drop == (if l.pickup.Some? then l.pickup else l.drop)
      && m.distance == None && m.difference == None && m.marks.createdAt == now
  {
  }

  // The `status` getter, with its default.
  function ShownStatus(l: Load): string {
    l.status.GetOr(if l.bids != [] then "Has Bids" else "Available")
  }
}
