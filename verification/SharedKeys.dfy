/**
 When the cache entry of one pair of addresses answers for another pair: exactly which keys
 are shared, and exactly which pairs are always answered as if there were no cache.
 */
module SharedKeys {
  import opened Text
  import opened LoadPosts
  import opened Distances

  // ----- when two pairs share a key -----

  const MARK := "_to_"

  predicate MarkAt(s: string, p: nat) {
    p + 4 <= |s| && s[p..p + 4] == MARK
  }

  predicate EndsWith(s: string, t: string) {
    |t| <= |s| && s[|s| - |t|..] == t
  }

  // The pair (a, b) has the key of the different pair (c, d).
  ghost predicate Twin(a: string, b: string, c: string, d: string) {
    PairKey(a, b) == PairKey(c, d) && (a != c || b != d)
  }

  // The twins are the other places of the key where the mark stands.
  lemma TwinIsMark(a: string, b: string, c: string, d: string)
    ensures var key := PairKey(c, d);
            Twin(a, b, c, d) <==> |a| != |c| && MarkAt(key, |a|) && a == key[..|a|] && b == key[|a| + 4..]
  {
    var key := PairKey(c, d);
    assert key[|c|..|c| + 4] == MARK && c == key[..|c|] && d == key[|c| + 4..];
    if PairKey(a, b) == key {
      assert PairKey(a, b)[|a|..|a| + 4] == MARK && a == key[..|a|] && b == key[|a| + 4..];
    }
    if MarkAt(key, |a|) && a == key[..|a|] && b == key[|a| + 4..] {
      assert key == key[..|a|] + key[|a|..|a| + 4] + key[|a| + 4..];
    }
  }

  lemma {:induction false} ContainsAt(s: string)
    ensures Contains(s, MARK) <==> exists p: nat :: MarkAt(s, p)
  {
    if s != "" {
      ContainsAt(s[1..]);
      assert MARK <= s <==> MarkAt(s, 0);
      assert forall p: nat :: p > 0 ==> (MarkAt(s, p) <==> MarkAt(s[1..], p - 1));
      if p: nat :| MarkAt(s[1..], p) { assert MarkAt(s, p + 1); }
      if p: nat :| MarkAt(s, p) { if p > 0 { assert MarkAt(s[1..], p - 1); } }
    }
  }

  // A mark elsewhere in the key lies within one address or overlaps the one in the middle by an underscore.
  lemma MarksOfKey(c: string, d: string, p: nat)
    requires p != |c|
    ensures MarkAt(PairKey(c, d), p) <==>
            || MarkAt(c, p) || (p + 3 == |c| && EndsWith(c, "_to"))
            || (p == |c| + 3 && "to_" <= d) || (p >= |c| + 4 && MarkAt(d, p - |c| - 4))
  {
    var key := PairKey(c, d);
    assert key[..|c|] == c && key[|c|..|c| + 4] == MARK && key[|c| + 4..] == d;
    assert forall i :: 0 <= i < |c| ==> key[i] == c[i];
    assert key[|c|] == '_' && key[|c| + 1] == 't' && key[|c| + 2] == 'o' && key[|c| + 3] == '_';
    assert forall i :: 0 <= i < |d| ==> key[|c| + 4 + i] == d[i];
    MarkLetters(key, p);
    if p < |c| {
      MarkLetters(c, p);
      if p + 3 == |c| { assert EndsWith(c, "_to") <==> c[p] == '_' && c[p + 1] == 't' && c[p + 2] == 'o'; }
    } else if p >= |c| + 4 {
      MarkLetters(d, p - |c| - 4);
    } else if p == |c| + 3 && |d| >= 3 {
      assert "to_" <= d <==> d[0] == 't' && d[1] == 'o' && d[2] == '_';
    }
  }

  lemma MarkLetters(s: string, p: nat)
    ensures MarkAt(s, p) <==> p + 4 <= |s| && s[p] == '_' && s[p + 1] == 't' && s[p + 2] == 'o' && s[p + 3] == '_'
  {
    if p + 4 <= |s| {
      var t := s[p..p + 4];
      assert t[0] == s[p] && t[1] == s[p + 1] && t[2] == s[p + 2] && t[3] == s[p + 3];
      assert MARK == ['_', 't', 'o', '_'];
    }
  }

  /** The marks that let a pair share its key: "_to_" in either address, or half of it where they meet. */
  predicate Marked(c: string, d: string) {
    Contains(c, MARK) || EndsWith(c, "_to") || Contains(d, MARK) || "to_" <= d
  }

  lemma TwinIsMarked(a: string, b: string, c: string, d: string)
    requires Twin(a, b, c, d)
    ensures Marked(c, d)
  {
    hide Contains, PairKey, Twin;
    TwinIsMark(a, b, c, d);
    MarksOfKey(c, d, |a|);
    ContainsAt(c);
    ContainsAt(d);
  }

  lemma MarkedHasMark(c: string, d: string) returns (p: nat)
    requires Marked(c, d)
    ensures p != |c| && MarkAt(PairKey(c, d), p)
  {
    hide Contains, PairKey;
    if Contains(c, MARK) {
      ContainsAt(c);
      p :| MarkAt(c, p);
    } else if EndsWith(c, "_to") {
      p := |c| - 3;
    } else if Contains(d, MARK) {
      ContainsAt(d);
      var q: nat :| MarkAt(d, q);
      p := |c| + 4 + q;
    } else {
      p := |c| + 3;
    }
    MarksOfKey(c, d, p);
  }

  /** Some other pair has the key of (c, d) exactly when the two addresses hold such a mark. */
  lemma SharedKeyExact(c: string, d: string)
    ensures (exists a, b :: Twin(a, b, c, d)) <==> Marked(c, d)
  {
    hide Marked, Twin, PairKey;
    if a, b :| Twin(a, b, c, d) {
      TwinIsMarked(a, b, c, d);
    }
    if Marked(c, d) {
      var p := MarkedHasMark(c, d);
      TwinAt(c, d, p);
    }
  }

  lemma TwinAt(c: string, d: string, p: nat)
    requires p != |c| && MarkAt(PairKey(c, d), p)
    ensures Twin(PairKey(c, d)[..p], PairKey(c, d)[p + 4..], c, d)
  {
    TwinIsMark(PairKey(c, d)[..p], PairKey(c, d)[p + 4..], c, d);
  }

  // ----- when the cache is transparent for a pair -----

  // What is asked of one pair: its entry, if any, is what an uncached computation answers.
  ghost predicate PairSound(world: World, cache: Cache, c: string, d: string) {
    PairKey(c, d) in cache ==> PairText(world, c, d) == Some(cache[PairKey(c, d)])
  }

  /** The key of (c, d) also reads as the key of two other addresses, neither of them blank. */
  predicate Confusable(c: string, d: string) {
    var key := PairKey(c, d);
    exists p | 0 <= p <= |key| :: MarkAt(key, p) && p != |c| && Trim(key[..p]) != "" && Trim(key[p + 4..]) != ""
  }

  lemma ConfusableIsTwin(c: string, d: string)
    ensures Confusable(c, d) <==> exists a, b :: Twin(a, b, c, d) && Trim(a) != "" && Trim(b) != ""
  {
    var key := PairKey(c, d);
    hide Trim, Twin, PairKey;
    if p :| 0 <= p <= |key| && MarkAt(key, p) && p != |c| && Trim(key[..p]) != "" && Trim(key[p + 4..]) != "" {
      TwinAt(c, d, p);
    }
    if a, b :| Twin(a, b, c, d) && Trim(a) != "" && Trim(b) != "" {
      TwinIsMark(a, b, c, d);
    }
  }

  lemma UnmarkedIsPlain(c: string, d: string)
    requires !Marked(c, d)
    ensures !Confusable(c, d)
  {
    hide Marked, Confusable, Twin, Trim;
    SharedKeyExact(c, d);
    ConfusableIsTwin(c, d);
  }

  // Only the entry of a load whose id is that very key could disturb the pair.
  predicate SparesPair(e: CacheEvent, c: string, d: string) {
    e.RecordLoad? ==> e.id != PairKey(c, d)
  }

  lemma ApplyKeepsSound(world: World, cache: Cache, e: CacheEvent, c: string, d: string)
    requires PairSound(world, cache, c, d) && !Confusable(c, d) && SparesPair(e, c, d)
    ensures PairSound(world, Apply(world, cache, e), c, d)
  {
    ConfusableIsTwin(c, d);
    hide Confusable, PairKey;
    if e.AskPair? && PairKey(e.a, e.b) == PairKey(c, d) {
      assert Twin(e.a, e.b, c, d) <==> e.a != c || e.b != d;
    }
  }

  lemma {:induction false} ApplyAllKeepsSound(world: World, cache: Cache, events: seq<CacheEvent>, c: string, d: string)
    requires PairSound(world, cache, c, d) && !Confusable(c, d)
    requires forall i :: 0 <= i < |events| ==> SparesPair(events[i], c, d)
    ensures PairSound(world, ApplyAll(world, cache, events), c, d)
    decreases |events|
  {
    hide PairSound, Confusable, Apply;
    if events != [] {
      ApplyKeepsSound(world, cache, events[0], c, d);
      ApplyAllKeepsSound(world, Apply(world, cache, events[0]), events[1..], c, d);
    }
  }

  /**
   After any history, whatever else was asked, asking for a pair that cannot be confused answers
   as if there were no cache; ids may be anything but the key of that pair.
   */
  lemma CacheIsTransparent(world: World, events: seq<CacheEvent>, c: string, d: string)
    requires !Confusable(c, d) && forall i :: 0 <= i < |events| ==> SparesPair(events[i], c, d)
    ensures PairDistance(world, ApplyAll(world, map[], events), c, d).0 == PairText(world, c, d)
  {
    hide Confusable, Apply;
    ApplyAllKeepsSound(world, map[], events, c, d);
  }

  // ----- and when it is not -----

  lemma {:induction false} TrimLeftKeepsMarks(s: string)
    ensures CountOf(TrimLeft(s), '_') == CountOf(s, '_')
  {
    if s != "" && IsSpace(s[0]) { TrimLeftKeepsMarks(s[1..]); }
  }

  lemma NoUnderscoreInSpace(c: char)
    requires IsSpace(c)
    ensures CountOf([c], '_') == 0
  {
    assert Where([c], (x: char) => x == '_') == [];
  }

  lemma {:induction false} TrimRightKeepsMarks(s: string)
    ensures CountOf(TrimRight(s), '_') == CountOf(s, '_')
  {
    if s != "" && IsSpace(s[|s| - 1]) {
      var front := s[..|s| - 1];
      TrimRightKeepsMarks(front);
      CountConcat(front, [s[|s| - 1]], '_');
      assert s == front + [s[|s| - 1]];
      NoUnderscoreInSpace(s[|s| - 1]);
    }
  }

  lemma TrimKeepsMarks(s: string)
    ensures CountOf(Trim(s), '_') == CountOf(s, '_')
  {
    hide CountOf;
    TrimLeftKeepsMarks(s);
    TrimRightKeepsMarks(TrimLeft(s));
  }

  // Twins differ even to the geocoder, which trims them.
  lemma TwinsDifferTrimmed(a: string, b: string, c: string, d: string)
    requires Twin(a, b, c, d) && |a| < |c|
    ensures Trim(a) != Trim(c)
  {
    var rest := c[|a|..];
    TwinIsMark(a, b, c, d);
    MarkLetters(PairKey(c, d), |a|);
    assert c == a + rest && rest == ['_'] + rest[1..];
    CountConcat(a, rest, '_');
    CountConcat(['_'], rest[1..], '_');
    assert CountOf(['_'], '_') == 1;
    TrimKeepsMarks(a);
    TrimKeepsMarks(c);
    hide Trim, CountOf, Twin;
  }

  // A world that tells every address from `known`.
  ghost function Telling(known: string): World {
    World((address: string) => Some(Point(0.0, if address == Trim(known) then 0.0 else 1.0)),
          (p: Point, q: Point) => Found(Some(if p.lng == 0.0 then "near" else "far"), false),
          (p: Point, q: Point) => "")
  }

  lemma TwinMisleads(a: string, b: string, c: string, d: string) returns (world: World)
    requires Twin(a, b, c, d) && Trim(a) != "" && Trim(b) != ""
    ensures PairDistance(world, Apply(world, map[], AskPair(a, b)), c, d).0 != PairText(world, c, d)
  {
    if |a| < |c| { TwinsDifferTrimmed(a, b, c, d); }
    else if |c| < |a| { TwinsDifferTrimmed(c, d, a, b); }
    else { TwinIsMark(a, b, c, d); }
    hide Trim, PairKey;
    world := Telling(c);
  }

  predicate PairsOnly(events: seq<CacheEvent>) {
    forall i :: 0 <= i < |events| ==> events[i].AskPair?
  }

  // Every history of pair questions, in every world, leaves the answer for (c, d) alone.
  ghost predicate AlwaysTransparent(c: string, d: string) {
    forall world: World, events: seq<CacheEvent> :: PairsOnly(events) ==>
      PairDistance(world, ApplyAll(world, map[], events), c, d).0 == PairText(world, c, d)
  }

  /** In every world and after every history the cache answers right, exactly for pairs that cannot be confused. */
  lemma TransparencyExact(c: string, d: string)
    ensures AlwaysTransparent(c, d) <==> !Confusable(c, d)
  {
    hide Confusable, Twin, PairText, PairDistance, Trim;
    if Confusable(c, d) {
      ConfusableIsTwin(c, d);
      var a, b :| Twin(a, b, c, d) && Trim(a) != "" && Trim(b) != "";
      var world := TwinMisleads(a, b, c, d);
      var events := [AskPair(a, b)];
      assert events[1..] == [];
      assert ApplyAll(world, map[], events) == Apply(world, map[], AskPair(a, b));
      assert PairsOnly(events);
    } else {
      forall world: World, events: seq<CacheEvent> | PairsOnly(events)
        ensures PairDistance(world, ApplyAll(world, map[], events), c, d).0 == PairText(world, c, d)
      {
        CacheIsTransparent(world, events, c, d);
      }
    }
  }

  // Whichever of two pairs with one key is asked first answers for both.
  lemma SharedKeyAnswersWrongly(world: World, a: string, b: string, c: string, d: string)
    requires PairKey(a, b) == PairKey(c, d) && PairText(world, a, b).Some?
    ensures PairDistance(world, Apply(world, map[], AskPair(a, b)), c, d).0 == PairText(world, a, b)
  {
  }

  // In this world every address lies on the equator, at its own length.
  ghost const LENGTHS: World := World(
    (address: string) => Some(Point(0.0, |address| as real)),
    (p: Point, q: Point) => Found(Some(if p.lng > 3.0 then "far" else "near"), false),
    (p: Point, q: Point) => "")

  lemma UnderscoreExample()
    ensures var cache := Apply(LENGTHS, map[], AskPair("a_to_b", "c"));
            PairDistance(LENGTHS, cache, "a", "b_to_c").0 == Some("far") != PairText(LENGTHS, "a", "b_to_c")
  {
    assert PairKey("a", "b") == "a_to_b" && PairKey("b", "c") == "b_to_c";
    forall s | s in ["a", "c", "a_to_b", "b_to_c"] ensures Trim(s) == s {
      TrimExact(s);
    }
    assert Trim("a") == "a" && Trim("c") == "c" && Trim("a_to_b") == "a_to_b" && Trim("b_to_c") == "b_to_c" by {
      assert "a" in ["a", "c", "a_to_b", "b_to_c"];
    }
    SharedKeyAnswersWrongly(LENGTHS, "a_to_b", "c", "a", "b_to_c");
  }
}
