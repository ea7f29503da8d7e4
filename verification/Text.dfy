/**
 The parts of Dart's `String` and `Iterable` that the models lean on: splitting and
 joining on a separator, trimming, substring search, case folding, and `where`.
 */
module Text {

  datatype Option<+T> = None | Some(value: T)
  {
    // Dart's `this ?? other`.
    function Or(other: Option<T>): Option<T> {
      if None? then other else this
    }

    function GetOr(default: T): T {
      if None? then default else value
    }
  }

  // ----- split and join -----

  /** `s.split(sep)`: never empty, and no piece holds the separator. */
  function Split(s: string, sep: char): (parts: seq<string>)
    ensures |parts| >= 1
    ensures forall i :: 0 <= i < |parts| ==> sep !in parts[i]
  {
    if s == "" then [""]
    else
      var rest := Split(s[1..], sep);
      if s[0] == sep then [""] + rest else [[s[0]] + rest[0]] + rest[1..]
  }

  /** `parts.join(sep)`. */
  function Join(parts: seq<string>, sep: char): string {
    if |parts| == 0 then ""
    else if |parts| == 1 then parts[0]
    else parts[0] + [sep] + Join(parts[1..], sep)
  }

  ghost predicate AllFree(parts: seq<string>, sep: char) {
    forall i :: 0 <= i < |parts| ==> sep !in parts[i]
  }

  lemma {:induction false} SplitKeepsFree(s: string, sep: char, c: char)
    requires c !in s
    ensures AllFree(Split(s, sep), c)
  {
    if s != "" {
      SplitKeepsFree(s[1..], sep, c);
    }
  }

  lemma SplitWhole(s: string, sep: char)
    requires sep !in s
    ensures Split(s, sep) == [s]
  {
    if s != "" {
      SplitWhole(s[1..], sep);
      assert [s[0]] + s[1..] == s;
    }
  }

  lemma SplitCons(s: string, sep: char)
    requires s != ""
    ensures var rest := Split(s[1..], sep);
            Split(s, sep) == if s[0] == sep then [""] + rest else [[s[0]] + rest[0]] + rest[1..]
  {
  }

  lemma {:induction false} SplitConcat(p: string, s: string, sep: char)
    ensures Split(p + [sep] + s, sep) == Split(p, sep) + Split(s, sep)
  {
    var t := p + [sep] + s;
    SplitCons(t, sep);
    if p == "" {
      assert t[1..] == s;
    } else {
      SplitConcat(p[1..], s, sep);
      SplitCons(p, sep);
      hide Split;
      assert t[0] == p[0] && t[1..] == p[1..] + [sep] + s;
      MoreInFront(Split(p[1..], sep), Split(s, sep), p[0]);
    }
  }

  lemma MoreInFront(front: seq<string>, back: seq<string>, c: char)
    requires front != []
    ensures [""] + (front + back) == [""] + front + back
    ensures [[c] + (front + back)[0]] + (front + back)[1..] == [[c] + front[0]] + front[1..] + back
  {
    assert (front + back)[0] == front[0] && (front + back)[1..] == front[1..] + back;
  }

  lemma SplitPrefix(p: string, s: string, sep: char)
    requires sep !in p
    ensures Split(p + [sep] + s, sep) == [p] + Split(s, sep)
  {
    SplitConcat(p, s, sep);
    SplitWhole(p, sep);
  }

  // Text after the last separator goes to the last piece.
  lemma {:induction false} SplitTail(p: string, s: string, sep: char)
    requires sep !in s
    ensures var parts := Split(p, sep); var n := |parts| - 1;
            Split(p + s, sep) == parts[..n] + [parts[n] + s]
  {
    hide Split;
    if p == "" {
      assert p + s == s && "" + s == s;
      SplitWhole("", sep);
      SplitWhole(s, sep);
    } else {
      SplitTail(p[1..], s, sep);
      SplitCons(p, sep);
      SplitCons(p + s, sep);
      assert (p + s)[0] == p[0] && (p + s)[1..] == p[1..] + s;
      LastInFront(Split(p[1..], sep), s, p[0]);
    }
  }

  lemma LastInFront(rest: seq<string>, s: string, c: char)
    requires rest != []
    ensures var n := |rest| - 1; var tail := rest[..n] + [rest[n] + s];
      && (var parts := [""] + rest; [""] + tail == parts[..|parts| - 1] + [parts[|parts| - 1] + s])
      && (var parts := [[c] + rest[0]] + rest[1..];
          [[c] + tail[0]] + tail[1..] == parts[..|parts| - 1] + [parts[|parts| - 1] + s])
  {
    assert [c] + (rest[0] + s) == [c] + rest[0] + s;
  }

  // Text before the first separator goes to the first piece.
  lemma {:induction false} SplitHead(p: string, s: string, sep: char)
    requires sep !in p
    ensures Split(p + s, sep) == [p + Split(s, sep)[0]] + Split(s, sep)[1..]
  {
    if p == "" {
      assert p + s == s && "" + Split(s, sep)[0] == Split(s, sep)[0];
    } else {
      SplitHead(p[1..], s, sep);
      assert (p + s)[0] == p[0] && (p + s)[1..] == p[1..] + s;
      assert [p[0]] + (p[1..] + Split(s, sep)[0]) == p + Split(s, sep)[0];
    }
  }

  lemma {:induction false} SplitOfJoin(parts: seq<string>, sep: char)
    requires parts != [] && AllFree(parts, sep)
    ensures Split(Join(parts, sep), sep) == parts
  {
    if |parts| == 1 {
      SplitWhole(parts[0], sep);
    } else {
      SplitOfJoin(parts[1..], sep);
      SplitPrefix(parts[0], Join(parts[1..], sep), sep);
    }
  }

  lemma {:induction false} JoinOfSplit(s: string, sep: char)
    ensures Join(Split(s, sep), sep) == s
  {
    if s != "" {
      JoinOfSplit(s[1..], sep);
      var rest := Split(s[1..], sep);
      assert [s[0]] + s[1..] == s;
      if s[0] == sep {
        assert ([""] + rest)[1..] == rest;
      } else {
        assert ([[s[0]] + rest[0]] + rest[1..])[1..] == rest[1..];
      }
    }
  }

  /** A list survives joining and splitting exactly when it is non-empty and holds no separator. */
  lemma SplitJoinExact(parts: seq<string>, sep: char)
    ensures Split(Join(parts, sep), sep) == parts <==> parts != [] && AllFree(parts, sep)
  {
    if parts != [] && AllFree(parts, sep) {
      SplitOfJoin(parts, sep);
    }
  }

  lemma JoinFree(parts: seq<string>, sep: char, c: char)
    requires AllFree(parts, c) && c != sep
    ensures c !in Join(parts, sep)
  {
    if |parts| > 1 {
      assert forall i :: 0 <= i < |parts[1..]| ==> parts[1..][i] == parts[i + 1];
      JoinFree(parts[1..], sep, c);
    }
  }

  // ----- trim -----

  /** The white space `String.trim` removes: Unicode White_Space and the byte order mark. */
  predicate IsSpace(c: char) {
    var n := c as int;
    || 9 <= n <= 13 || n == 0x20 || n == 0x85 || n == 0xA0 || n == 0x1680
    || 0x2000 <= n <= 0x200A || n == 0x2028 || n == 0x2029 || n == 0x202F
    || n == 0x205F || n == 0x3000 || n == 0xFEFF
  }

  function TrimLeft(s: string): string {
    if s != "" && IsSpace(s[0]) then TrimLeft(s[1..]) else s
  }

  function TrimRight(s: string): string {
    if s != "" && IsSpace(s[|s| - 1]) then TrimRight(s[..|s| - 1]) else s
  }

  function Trim(s: string): string {
    TrimRight(TrimLeft(s))
  }

  predicate IsTrimmed(s: string) {
    s == "" || (!IsSpace(s[0]) && !IsSpace(s[|s| - 1]))
  }

  lemma TrimRightKeepsHead(s: string)
    requires s == "" || !IsSpace(s[0])
    ensures IsTrimmed(TrimRight(s))
  {
    if s != "" && IsSpace(s[|s| - 1]) {
      TrimRightKeepsHead(s[..|s| - 1]);
    }
  }

  /** `trim` leaves a string alone exactly when neither end is white space; its result is such a string. */
  lemma TrimExact(s: string)
    ensures IsTrimmed(Trim(s))
    ensures Trim(s) == s <==> IsTrimmed(s)
  {
    TrimLeftHead(s);
    TrimRightKeepsHead(TrimLeft(s));
  }

  lemma TrimLeftHead(s: string)
    ensures TrimLeft(s) == "" || !IsSpace(TrimLeft(s)[0])
  {
  }

  lemma {:induction false} TrimLeftCuts(s: string) returns (before: string)
    ensures s == before + TrimLeft(s) && forall c :: c in before ==> IsSpace(c)
  {
    if s != "" && IsSpace(s[0]) {
      before := TrimLeftCuts(s[1..]);
      before := [s[0]] + before;
    } else {
      before := "";
    }
  }

  lemma {:induction false} TrimRightCuts(s: string) returns (after: string)
    ensures s == TrimRight(s) + after && forall c :: c in after ==> IsSpace(c)
  {
    if s != "" && IsSpace(s[|s| - 1]) {
      after := TrimRightCuts(s[..|s| - 1]);
      assert s == s[..|s| - 1] + [s[|s| - 1]];
      after := after + [s[|s| - 1]];
    } else {
      after := "";
    }
  }

  /** `trim` cuts off white space at both ends and nothing else. */
  lemma TrimCuts(s: string) returns (before: string, after: string)
    ensures s == before + Trim(s) + after && IsTrimmed(Trim(s))
    ensures (forall c :: c in before ==> IsSpace(c)) && (forall c :: c in after ==> IsSpace(c))
  {
    before := TrimLeftCuts(s);
    after := TrimRightCuts(TrimLeft(s));
    TrimExact(s);
  }

  // ----- substrings and case -----

  /** `s.contains(t)`. */
  predicate Contains(s: string, t: string) {
    t <= s || (s != "" && Contains(s[1..], t))
  }

  lemma {:induction false} ContainsParts(s: string, t: string) returns (before: string, after: string)
    requires Contains(s, t)
    ensures s == before + t + after
  {
    if t <= s {
      before, after := "", s[|t|..];
    } else {
      before, after := ContainsParts(s[1..], t);
      before := [s[0]] + before;
    }
  }

  lemma {:induction false} ContainsIntro(before: string, t: string, after: string)
    ensures Contains(before + t + after, t)
  {
    var s := before + t + after;
    if before == "" {
      assert s == t + after;
    } else {
      ContainsIntro(before[1..], t, after);
      assert s[1..] == before[1..] + t + after;
    }
  }

  /** `contains` says that the text has that part. */
  lemma ContainsExact(s: string, t: string)
    ensures Contains(s, t) <==> exists before, after :: s == before + t + after
  {
    hide Contains;
    if Contains(s, t) { var before, after := ContainsParts(s, t); }
    if before, after :| s == before + t + after { ContainsIntro(before, t, after); }
  }

  lemma ContainsTransitive(s: string, t: string, u: string)
    requires Contains(s, t) && Contains(t, u)
    ensures Contains(s, u)
  {
    var a, b := ContainsParts(s, t);
    var c, d := ContainsParts(t, u);
    hide Contains;
    assert s == a + (c + u + d) + b == (a + c) + u + (d + b);
    ContainsIntro(a + c, u, d + b);
  }

  /** `s.toLowerCase()` for a character map `fold`, which may expand one character to several. */
  function Lower(fold: char -> string, s: string): string {
    if s == "" then "" else fold(s[0]) + Lower(fold, s[1..])
  }

  lemma {:induction false} LowerConcat(fold: char -> string, s: string, t: string)
    ensures Lower(fold, s + t) == Lower(fold, s) + Lower(fold, t)
  {
    if s == "" {
      assert s + t == t;
    } else {
      LowerConcat(fold, s[1..], t);
      assert (s + t)[0] == s[0] && (s + t)[1..] == s[1..] + t;
      var head, mid, last := fold(s[0]), Lower(fold, s[1..]), Lower(fold, t);
      assert head + (mid + last) == head + mid + last;
    }
  }

  lemma LowerContains(fold: char -> string, s: string, t: string)
    requires Contains(s, t)
    ensures Contains(Lower(fold, s), Lower(fold, t))
  {
    var before, after := ContainsParts(s, t);
    LowerConcat(fold, before + t, after);
    LowerConcat(fold, before, t);
    ContainsIntro(Lower(fold, before), Lower(fold, t), Lower(fold, after));
  }

  // Ignoring case, `text` has the part `needle`.
  ghost predicate Has(fold: char -> string, text: string, needle: string) {
    exists before, after :: Lower(fold, text) == before + Lower(fold, needle) + after
  }

  lemma HasExact(fold: char -> string, text: string, needle: string)
    ensures Contains(Lower(fold, text), Lower(fold, needle)) <==> Has(fold, text, needle)
  {
    hide Contains, Lower;
    ContainsExact(Lower(fold, text), Lower(fold, needle));
  }

  /** `toLowerCase` where every character folds to one: character by character, in place. */
  lemma {:induction false} LowerAt(fold: char -> string, s: string)
    requires forall c :: |fold(c)| == 1
    ensures |Lower(fold, s)| == |s| && forall i :: 0 <= i < |s| ==> [Lower(fold, s)[i]] == fold(s[i])
  {
    if s != "" {
      LowerAt(fold, s[1..]);
    }
  }

  // ----- lists -----

  /** `xs.where(p).toList()`. */
  function Where<T>(xs: seq<T>, p: T -> bool): (ys: seq<T>)
    ensures forall i :: 0 <= i < |ys| ==> ys[i] in xs && p(ys[i])
    ensures forall i :: 0 <= i < |xs| && p(xs[i]) ==> xs[i] in ys
  {
    if xs == [] then []
    else
      var rest := Where(xs[1..], p);
      if p(xs[0]) then [xs[0]] + rest else rest
  }

  lemma {:induction false} WhereSnoc<T>(xs: seq<T>, x: T, p: T -> bool)
    ensures Where(xs + [x], p) == Where(xs, p) + if p(x) then [x] else []
  {
    if xs == [] {
    } else {
      WhereSnoc(xs[1..], x, p);
      assert (xs + [x])[1..] == xs[1..] + [x];
    }
  }

  lemma {:induction false} WhereAll<T>(xs: seq<T>, p: T -> bool)
    requires forall x :: x in xs ==> p(x)
    ensures Where(xs, p) == xs
  {
    if xs != [] {
      WhereAll(xs[1..], p);
    }
  }

  lemma {:induction false} WhereNone<T>(xs: seq<T>, p: T -> bool)
    requires forall x :: x in xs ==> !p(x)
    ensures Where(xs, p) == []
  {
    if xs != [] {
      WhereNone(xs[1..], p);
    }
  }

  lemma {:induction false} WhereCongruent<T>(xs: seq<T>, p: T -> bool, q: T -> bool)
    requires forall x :: x in xs ==> p(x) == q(x)
    ensures Where(xs, p) == Where(xs, q)
  {
    if xs != [] {
      WhereCongruent(xs[1..], p, q);
    }
  }

  lemma {:induction false} WhereTwice<T>(xs: seq<T>, p: T -> bool, q: T -> bool)
    ensures Where(Where(xs, p), q) == Where(xs, x => p(x) && q(x))
  {
    if xs != [] {
      WhereTwice(xs[1..], p, q);
    }
  }

  /** `where` keeps the elements that pass, each as often as it was there, in their order. */
  lemma WhereExact<T>(xs: seq<T>, p: T -> bool)
    ensures Subsequence(Where(xs, p), xs)
    ensures forall x :: x in Where(xs, p) <==> x in xs && p(x)
    ensures forall x :: p(x) ==> multiset(Where(xs, p))[x] == multiset(xs)[x]
  {
    WhereNarrows(xs, p, (x: T) => true);
    WhereAll(xs, (x: T) => true);
    WhereCounts(xs, p);
  }

  lemma {:induction false} WhereCounts<T>(xs: seq<T>, p: T -> bool)
    ensures forall x :: p(x) ==> multiset(Where(xs, p))[x] == multiset(xs)[x]
  {
    if xs != [] {
      WhereCounts(xs[1..], p);
      assert xs == [xs[0]] + xs[1..];
      var rest := Where(xs[1..], p);
      assert multiset([xs[0]] + rest) == multiset{xs[0]} + multiset(rest);
      assert multiset(xs) == multiset{xs[0]} + multiset(xs[1..]);
    }
  }

  // How often `c` occurs in `s`.
  function CountOf(s: string, c: char): nat { |Where(s, (x: char) => x == c)| }

  lemma {:induction false} CountConcat(s: string, t: string, c: char)
    ensures CountOf(s + t, c) == CountOf(s, c) + CountOf(t, c)
  {
    if s == "" {
      assert s + t == t;
    } else {
      CountConcat(s[1..], t, c);
      assert (s + t)[0] == s[0] && (s + t)[1..] == s[1..] + t;
    }
  }

  lemma FilterStep<T>(xs: seq<T>, kept: seq<T>, p: T -> bool, q: T -> bool, r: T -> bool)
    requires kept == Where(xs, p) && forall x :: x in xs ==> r(x) == (p(x) && q(x))
    ensures Where(kept, q) == Where(xs, r)
  {
    WhereTwice(xs, p, q);
    WhereCongruent(xs, x => p(x) && q(x), r);
  }

  /** `xs` is obtained from `ys` by leaving elements out, keeping the order. */
  ghost predicate Subsequence<T>(xs: seq<T>, ys: seq<T>) {
    xs == [] ||
    (ys != [] && if xs[0] == ys[0] then Subsequence(xs[1..], ys[1..]) else Subsequence(xs, ys[1..]))
  }

  lemma {:induction false} SubsequenceSkip<T>(xs: seq<T>, ys: seq<T>, y: T)
    requires Subsequence(xs, ys)
    ensures Subsequence(xs, [y] + ys)
    decreases |ys|, 1
  {
    if xs != [] && xs[0] == y {
      SubsequenceTail(xs, ys);
    }
  }

  lemma {:induction false} SubsequenceTail<T>(xs: seq<T>, ys: seq<T>)
    requires Subsequence(xs, ys) && xs != []
    ensures Subsequence(xs[1..], ys)
    decreases |ys|, 0
  {
    if xs[0] == ys[0] {
      assert ys == [ys[0]] + ys[1..];
      SubsequenceSkip(xs[1..], ys[1..], ys[0]);
    } else {
      SubsequenceTail(xs, ys[1..]);
      assert ys == [ys[0]] + ys[1..];
      SubsequenceSkip(xs[1..], ys[1..], ys[0]);
    }
  }

  /** A stricter test keeps a subsequence of what a laxer test keeps. */
  lemma {:induction false} WhereNarrows<T>(xs: seq<T>, strict: T -> bool, lax: T -> bool)
    requires forall x :: x in xs && strict(x) ==> lax(x)
    ensures Subsequence(Where(xs, strict), Where(xs, lax))
  {
    if xs != [] {
      WhereNarrows(xs[1..], strict, lax);
      if !strict(xs[0]) && lax(xs[0]) {
        SubsequenceSkip(Where(xs[1..], strict), Where(xs[1..], lax), xs[0]);
      }
    }
  }
}
