/**
 The list columns of `User`: equipment joined by commas and lane preferences joined by '|'
 and ':', and what the lanes are for.
 */
module Users {
  import opened Text

  datatype Lane = Lane(origin: string, destination: string)
  {
    // `LanePreference.matches`: case-insensitive containment on both ends.
    predicate Matches(fold: char -> string, originFilter: string, destinationFilter: string) {
      && Contains(Lower(fold, origin), Lower(fold, originFilter))
      && Contains(Lower(fold, destination), Lower(fold, destinationFilter))
    }
  }

  /** `prefersLane`: no preference means all lanes. */
  predicate PrefersLane(fold: char -> string, lanes: seq<Lane>, origin: string, destination: string) {
    lanes == [] || exists i :: 0 <= i < |lanes| && lanes[i].Matches(fold, origin, destination)
  }

  /** A user prefers a lane with no lane set, or with one whose two ends hold the two texts asked for. */
  lemma PrefersLaneExact(fold: char -> string, lanes: seq<Lane>, origin: string, destination: string)
    ensures PrefersLane(fold, lanes, origin, destination) <==>
      || lanes == []
      || exists lane :: lane in lanes && Has(fold, lane.origin, origin) && Has(fold, lane.destination, destination)
  {
    hide Contains, Lower, Has;
    forall lane: Lane
      ensures lane.Matches(fold, origin, destination) <==>
              Has(fold, lane.origin, origin) && Has(fold, lane.destination, destination)
    {
      HasExact(fold, lane.origin, origin);
      HasExact(fold, lane.destination, destination);
    }
    if lane :| lane in lanes && Has(fold, lane.origin, origin) && Has(fold, lane.destination, destination) {
      var i :| 0 <= i < |lanes| && lanes[i] == lane;
      assert lanes[i].Matches(fold, origin, destination);
    }
  }

  function NonEmpty(s: string): bool { s != "" }

  // ----- equipment -----

  function EncodeEquipment(equipment: seq<string>): string {
    Join(equipment, ',')
  }

  function TrimAll(pieces: seq<string>): seq<string> {
    seq(|pieces|, i requires 0 <= i < |pieces| => Trim(pieces[i]))
  }

  function DecodeEquipment(text: string): seq<string> {
    TrimAll(Where(Split(text, ','), NonEmpty))
  }

  ghost predicate PlainEquipment(equipment: seq<string>) {
    forall i :: 0 <= i < |equipment| ==> equipment[i] != "" && IsTrimmed(equipment[i]) && ',' !in equipment[i]
  }

  lemma {:induction false} AllKept(pieces: seq<string>)
    requires |Where(pieces, NonEmpty)| == |pieces|
    ensures Where(pieces, NonEmpty) == pieces && forall i :: 0 <= i < |pieces| ==> pieces[i] != ""
  {
    if pieces != [] {
      KeptAtMost(pieces[1..]);
      AllKept(pieces[1..]);
    }
  }

  lemma {:induction false} KeptAtMost(pieces: seq<string>)
    ensures |Where(pieces, NonEmpty)| <= |pieces|
  {
    if pieces != [] {
      KeptAtMost(pieces[1..]);
    }
  }

  lemma {:induction false} TrimKeepsChars(s: string, c: char)
    requires c !in s
    ensures c !in Trim(s)
  {
    TrimLeftKeeps(s, c);
    TrimRightKeeps(TrimLeft(s), c);
  }

  lemma TrimLeftKeeps(s: string, c: char)
    requires c !in s
    ensures c !in TrimLeft(s)
  {
  }

  lemma TrimRightKeeps(s: string, c: char)
    requires c !in s
    ensures c !in TrimRight(s)
  {
  }

  lemma DecodedEquipment(text: string)
    ensures forall i :: 0 <= i < |DecodeEquipment(text)| ==>
              IsTrimmed(DecodeEquipment(text)[i]) && ',' !in DecodeEquipment(text)[i]
  {
    var kept := Where(Split(text, ','), NonEmpty);
    forall i | 0 <= i < |kept| ensures IsTrimmed(Trim(kept[i])) && ',' !in Trim(kept[i]) {
      assert kept[i] in Split(text, ',');
      TrimExact(kept[i]);
      TrimKeepsChars(kept[i], ',');
    }
  }

  lemma EquipmentSurvives(equipment: seq<string>)
    requires PlainEquipment(equipment)
    ensures DecodeEquipment(EncodeEquipment(equipment)) == equipment
  {
    if equipment == [] {
      assert Split("", ',') == [""];
    } else {
      SplitOfJoin(equipment, ',');
      WhereAll(equipment, NonEmpty);
      forall i | 0 <= i < |equipment| ensures Trim(equipment[i]) == equipment[i] {
        TrimExact(equipment[i]);
      }
    }
  }

  /** Equipment survives `toJson` and `fromJson` exactly when every entry is non-empty, trimmed and comma-free. */
  lemma EquipmentRoundTripExact(equipment: seq<string>)
    ensures DecodeEquipment(EncodeEquipment(equipment)) == equipment <==> PlainEquipment(equipment)
  {
    if PlainEquipment(equipment) {
      EquipmentSurvives(equipment);
    } else if DecodeEquipment(EncodeEquipment(equipment)) == equipment {
      DecodedEquipment(EncodeEquipment(equipment));
      if equipment != [] {
        SplitOfJoin(equipment, ',');
        AllKept(equipment);
      }
      assert PlainEquipment(equipment);
    }
  }

  // ----- lane preferences -----

  function EncodeLane(lane: Lane): string {
    lane.origin + ":" + lane.destination
  }

  function EncodeLanes(lanes: seq<Lane>): string {
    Join(seq(|lanes|, i requires 0 <= i < |lanes| => EncodeLane(lanes[i])), '|')
  }

  // `parts[1]` throws when there is no colon.
  function DecodeLane(text: string): Option<Lane> {
    var parts := Split(text, ':');
    if |parts| < 2 then None else Some(Lane(parts[0], parts[1]))
  }

  function DecodeAll(texts: seq<string>): Option<seq<Lane>> {
    if texts == [] then Some([])
    else
      var first, rest := DecodeLane(texts[0]), DecodeAll(texts[1..]);
      if first.None? || rest.None? then None else Some([first.value] + rest.value)
  }

  /** `fromJson` on the lane column; `None` stands for its RangeError. */
  function DecodeLanes(text: string): Option<seq<Lane>> {
    DecodeAll(Where(Split(text, '|'), NonEmpty))
  }

  predicate PlainField(s: string) { ':' !in s && '|' !in s }

  ghost predicate PlainLanes(lanes: seq<Lane>) {
    forall i :: 0 <= i < |lanes| ==> PlainField(lanes[i].origin) && PlainField(lanes[i].destination)
  }

  lemma LaneSurvives(lane: Lane)
    requires PlainField(lane.origin) && PlainField(lane.destination)
    ensures DecodeLane(EncodeLane(lane)) == Some(lane) && '|' !in EncodeLane(lane) && EncodeLane(lane) != ""
  {
    assert EncodeLane(lane) == lane.origin + [':'] + lane.destination;
    SplitPrefix(lane.origin, lane.destination, ':');
    SplitWhole(lane.destination, ':');
  }

  lemma {:induction false} LanesDecode(lanes: seq<Lane>, texts: seq<string>)
    requires PlainLanes(lanes) && |texts| == |lanes|
    requires forall i :: 0 <= i < |lanes| ==> texts[i] == EncodeLane(lanes[i])
    ensures DecodeAll(texts) == Some(lanes)
  {
    if lanes != [] {
      LaneSurvives(lanes[0]);
      LanesDecode(lanes[1..], texts[1..]);
      assert [lanes[0]] + lanes[1..] == lanes;
    }
  }

  lemma {:induction false} DecodedLanes(texts: seq<string>)
    requires AllFree(texts, '|') && DecodeAll(texts).Some?
    ensures PlainLanes(DecodeAll(texts).value)
  {
    if texts != [] {
      assert forall i :: 0 <= i < |texts[1..]| ==> texts[1..][i] == texts[i + 1];
      DecodedLanes(texts[1..]);
      SplitKeepsFree(texts[0], ':', '|');
    }
  }

  lemma LanesSurvive(lanes: seq<Lane>)
    requires PlainLanes(lanes)
    ensures DecodeLanes(EncodeLanes(lanes)) == Some(lanes)
  {
    var texts := seq(|lanes|, i requires 0 <= i < |lanes| => EncodeLane(lanes[i]));
    forall i | 0 <= i < |lanes| ensures '|' !in texts[i] && texts[i] != "" {
      LaneSurvives(lanes[i]);
    }
    if lanes == [] {
      assert Split("", '|') == [""];
    } else {
      SplitOfJoin(texts, '|');
      WhereAll(texts, NonEmpty);
    }
    LanesDecode(lanes, texts);
  }

  /** Lane preferences, empty lists and empty fields included, survive exactly when no field holds ':' or '|'. */
  lemma LanesRoundTripExact(lanes: seq<Lane>)
    ensures DecodeLanes(EncodeLanes(lanes)) == Some(lanes) <==> PlainLanes(lanes)
  {
    if PlainLanes(lanes) {
      LanesSurvive(lanes);
    } else if DecodeLanes(EncodeLanes(lanes)) == Some(lanes) {
      var kept := Where(Split(EncodeLanes(lanes), '|'), NonEmpty);
      forall i | 0 <= i < |kept| ensures '|' !in kept[i] {
        assert kept[i] in Split(EncodeLanes(lanes), '|');
      }
      DecodedLanes(kept);
    }
  }

  /** So a user prefers the same lanes before and after being stored, whatever is asked. */
  lemma PreferencesSurvive(fold: char -> string, lanes: seq<Lane>, origin: string, destination: string)
    requires PlainLanes(lanes)
    ensures DecodeLanes(EncodeLanes(lanes)).Some?
    ensures PrefersLane(fold, DecodeLanes(EncodeLanes(lanes)).value, origin, destination) ==
            PrefersLane(fold, lanes, origin, destination)
  {
    LanesSurvive(lanes);
  }
}
