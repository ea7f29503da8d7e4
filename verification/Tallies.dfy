/**
 The accumulation every analytics loop performs, `m[key] = (m[key] ?? 0) + amount`, and what
 it conserves.
 */
module Tallies {
  import opened Text
  import opened LoadPosts

  datatype Entry = Entry(key: string, amount: real)

  // The entries a loop over `loads` adds: one for each load that has an amount.
  function Entries(loads: seq<Load>, key: Load -> string, amount: Load -> Option<real>): seq<Entry> {
    if loads == [] then []
    else
      var rest, l := Entries(loads[..|loads| - 1], key, amount), loads[|loads| - 1];
      if amount(l).Some? then rest + [Entry(key(l), amount(l).value)] else rest
  }

  function Total(entries: seq<Entry>): real {
    if entries == [] then 0.0 else Total(entries[..|entries| - 1]) + entries[|entries| - 1].amount
  }

  function Add(tally: map<string, real>, key: string, amount: real): map<string, real> {
    tally[key := (if key in tally then tally[key] else 0.0) + amount]
  }

  function Tally(entries: seq<Entry>): map<string, real> {
    if entries == [] then map[]
    else Add(Tally(entries[..|entries| - 1]), entries[|entries| - 1].key, entries[|entries| - 1].amount)
  }

  function Count(tally: map<string, int>, key: string): map<string, int> {
    tally[key := (if key in tally then tally[key] else 0) + 1]
  }

  function Counts(entries: seq<Entry>): map<string, int> {
    if entries == [] then map[] else Count(Counts(entries[..|entries| - 1]), entries[|entries| - 1].key)
  }

  // ----- one more load -----

  lemma EntriesSnoc(loads: seq<Load>, l: Load, key: Load -> string, amount: Load -> Option<real>)
    ensures amount(l).None? ==> Entries(loads + [l], key, amount) == Entries(loads, key, amount)
    ensures amount(l).Some? ==>
              Entries(loads + [l], key, amount) == Entries(loads, key, amount) + [Entry(key(l), amount(l).value)]
  {
    assert (loads + [l])[..|loads|] == loads;
  }

  lemma TallySnoc(entries: seq<Entry>, e: Entry)
    ensures Tally(entries + [e]) == Add(Tally(entries), e.key, e.amount)
    ensures Counts(entries + [e]) == Count(Counts(entries), e.key)
    ensures Total(entries + [e]) == Total(entries) + e.amount
  {
    assert (entries + [e])[..|entries|] == entries;
  }

  /** One more load with an amount adds it to the map and to the total under its key. */
  lemma AfterEntry(loads: seq<Load>, l: Load, key: Load -> string, amount: Load -> Option<real>)
    requires amount(l).Some?
    ensures var e, e' := Entries(loads, key, amount), Entries(loads + [l], key, amount);
      && Tally(e') == Add(Tally(e), key(l), amount(l).value)
      && Counts(e') == Count(Counts(e), key(l))
      && Total(e') == Total(e) + amount(l).value
  {
    hide Entries, Tally, Counts, Total;
    EntriesSnoc(loads, l, key, amount);
    TallySnoc(Entries(loads, key, amount), Entry(key(l), amount(l).value));
  }

  lemma MaybeEntry(loads: seq<Load>, l: Load, key: Load -> string, amount: Load -> Option<real>)
    ensures var tally := Tally(Entries(loads, key, amount));
      Tally(Entries(loads + [l], key, amount)) == if amount(l).Some? then Add(tally, key(l), amount(l).value) else tally
  {
    hide Entries, Tally, Counts, Total;
    EntriesSnoc(loads, l, key, amount);
    if amount(l).Some? { AfterEntry(loads, l, key, amount); }
  }

  lemma {:induction false} EntriesOfAll(loads: seq<Load>, key: Load -> string, amount: Load -> Option<real>)
    requires forall l :: l in loads ==> amount(l).Some?
    ensures |Entries(loads, key, amount)| == |loads|
  {
    if loads != [] {
      EntriesOfAll(loads[..|loads| - 1], key, amount);
      assert loads[|loads| - 1] in loads;
    }
  }

  /** Only keys of loads that have an amount occur. */
  lemma {:induction false} KeysOfSome(loads: seq<Load>, key: Load -> string,
                                      some: Load -> Option<real>, all: Load -> Option<real>)
    requires forall l :: some(l).Some? ==> all(l).Some?
    ensures Tally(Entries(loads, key, some)).Keys <= Tally(Entries(loads, key, all)).Keys
  {
    if loads != [] {
      var front, l := loads[..|loads| - 1], loads[|loads| - 1];
      hide Entries, Tally;
      KeysOfSome(front, key, some, all);
      assert loads == front + [l];
      MaybeEntry(front, l, key, some);
      MaybeEntry(front, l, key, all);
    } else {
      assert Entries(loads, key, some) == [];
    }
  }

  // ----- the sum of a map -----

  ghost function Sum(m: map<string, real>): real
    decreases |m|
  {
    if m == map[] then 0.0
    else
      var k :| k in m;
      m[k] + Sum(m - {k})
  }

  lemma {:induction false} SumRemove(m: map<string, real>, k: string)
    requires k in m
    ensures Sum(m) == m[k] + Sum(m - {k})
    decreases |m|
  {
    var c :| c in m && Sum(m) == m[c] + Sum(m - {c});
    if c != k {
      SumRemove(m - {c}, k);
      SumRemove(m - {k}, c);
      assert m - {c} - {k} == m - {k} - {c};
    }
  }

  lemma SumAdd(m: map<string, real>, key: string, amount: real)
    ensures Sum(Add(m, key, amount)) == Sum(m) + amount
  {
    var m' := Add(m, key, amount);
    SumRemove(m', key);
    if key in m {
      SumRemove(m, key);
      assert m' - {key} == m - {key};
    } else {
      assert m' - {key} == m;
    }
  }

  /** Grouping loses nothing: the sums per key add up to the total. */
  lemma {:induction false} TallyConserves(entries: seq<Entry>)
    ensures Sum(Tally(entries)) == Total(entries)
  {
    if entries != [] {
      var n := |entries|;
      TallyConserves(entries[..n - 1]);
      SumAdd(Tally(entries[..n - 1]), entries[n - 1].key, entries[n - 1].amount);
    }
  }

  function Ones(entries: seq<Entry>): seq<Entry> {
    seq(|entries|, i requires 0 <= i < |entries| => Entry(entries[i].key, 1.0))
  }

  function AsReals(m: map<string, int>): map<string, real> {
    map k | k in m :: m[k] as real
  }

  lemma AsRealsCount(m: map<string, int>, key: string)
    ensures AsReals(Count(m, key)) == Add(AsReals(m), key, 1.0)
  {
  }

  lemma {:induction false} CountsAreTally(entries: seq<Entry>)
    ensures AsReals(Counts(entries)) == Tally(Ones(entries)) && Total(Ones(entries)) == |entries| as real
  {
    if entries != [] {
      var front, e := entries[..|entries| - 1], entries[|entries| - 1];
      hide AsReals, Count, Add;
      CountsAreTally(front);
      assert Ones(entries) == Ones(front) + [Entry(e.key, 1.0)];
      TallySnoc(Ones(front), Entry(e.key, 1.0));
      AsRealsCount(Counts(front), e.key);
    }
  }

  lemma {:induction false} CountsCover(entries: seq<Entry>)
    ensures Counts(entries).Keys == Tally(entries).Keys
    ensures forall k :: k in Counts(entries) ==> Counts(entries)[k] >= 1
  {
    if entries != [] {
      CountsCover(entries[..|entries| - 1]);
    }
  }

  /** The counts add up to the number of entries. */
  lemma CountsConserve(entries: seq<Entry>)
    ensures Sum(AsReals(Counts(entries))) == |entries| as real
  {
    CountsAreTally(entries);
    TallyConserves(Ones(entries));
  }

  // ----- averages -----

  // Each total divided by its count, or by 1 where nothing was counted.
  function Averages(totals: map<string, real>, counts: map<string, int>): map<string, real>
    requires forall k :: k in counts ==> counts[k] >= 1
  {
    map k | k in totals :: totals[k] / (if k in counts then counts[k] else 1) as real
  }

  function Weighted(rates: map<string, real>, counts: map<string, int>): map<string, real>
    requires rates.Keys <= counts.Keys
  {
    map k | k in rates :: rates[k] * counts[k] as real
  }

  /** Averages times counts give the totals back. */
  lemma AveragesWeighBack(totals: map<string, real>, counts: map<string, int>)
    requires totals.Keys <= counts.Keys && forall k :: k in counts ==> counts[k] >= 1
    ensures Weighted(Averages(totals, counts), counts) == totals
  {
    var w := Weighted(Averages(totals, counts), counts);
    forall k | k in totals ensures w[k] == totals[k] {
      DivideMultiply(totals[k], counts[k] as real);
    }
  }

  /** The `forEach` that turns totals into averages, one key at a time. */
  method AverageAll(totals: map<string, real>, counts: map<string, int>) returns (rates: map<string, real>)
    requires forall k :: k in counts ==> counts[k] >= 1
    ensures rates == Averages(totals, counts)
  {
    rates := totals;
    var rest := totals.Keys;
    while rest != {}
      invariant rest <= totals.Keys && rates.Keys == totals.Keys
      invariant forall k :: k in totals ==> rates[k] == if k in rest then totals[k] else Averages(totals, counts)[k]
      decreases |rest|
    {
      var k :| k in rest;
      var count := if k in counts then counts[k] else 1;
      rates := rates[k := rates[k] / count as real];
      rest := rest - {k};
    }
  }

  lemma DivideMultiply(x: real, n: real)
    requires n != 0.0
    ensures x / n * n == x
  {
  }

  // ----- one key, and two groupings -----

  // The amounts of the loads under one key.
  function OnlyKey(key: Load -> string, amount: Load -> Option<real>, k: string): Load -> Option<real> {
    (l: Load) => if key(l) == k then amount(l) else None
  }

  function At(m: map<string, real>, k: string): real {
    if k in m then m[k] else 0.0
  }

  /** The entry of a key is the total over the loads under that key. */
  lemma {:induction false} TallyAt(loads: seq<Load>, key: Load -> string, amount: Load -> Option<real>, k: string)
    ensures At(Tally(Entries(loads, key, amount)), k) == Total(Entries(loads, key, OnlyKey(key, amount, k)))
  {
    if loads != [] {
      var front, l := loads[..|loads| - 1], loads[|loads| - 1];
      hide Entries, Tally, Total, Counts;
      TallyAt(front, key, amount, k);
      assert loads == front + [l];
      EntriesSnoc(front, l, key, amount);
      EntriesSnoc(front, l, key, OnlyKey(key, amount, k));
      if amount(l).Some? {
        AfterEntry(front, l, key, amount);
        if key(l) == k { AfterEntry(front, l, key, OnlyKey(key, amount, k)); }
      }
    }
  }

  /** The total does not depend on what the loads are grouped by. */
  lemma {:induction false} TotalIgnoresKey(loads: seq<Load>, key: Load -> string, key': Load -> string,
                                           amount: Load -> Option<real>, amount': Load -> Option<real>)
    requires forall l :: l in loads ==> amount(l) == amount'(l)
    ensures Total(Entries(loads, key, amount)) == Total(Entries(loads, key', amount'))
    ensures |Entries(loads, key, amount)| == |Entries(loads, key', amount')|
  {
    if loads != [] {
      var front, l := loads[..|loads| - 1], loads[|loads| - 1];
      TotalIgnoresKey(front, key, key', amount, amount');
      assert l in loads;
      if amount(l).Some? {
        TallySnoc(Entries(front, key, amount), Entry(key(l), amount(l).value));
        TallySnoc(Entries(front, key', amount'), Entry(key'(l), amount(l).value));
      }
    }
  }

  /** Filtering the loads first, or leaving their amounts out, adds the same entries. */
  lemma {:induction false} EntriesOfWhere(loads: seq<Load>, p: Load -> bool, key: Load -> string,
                                          amount: Load -> Option<real>, within: Load -> Option<real>)
    requires forall l :: within(l) == if p(l) then amount(l) else None
    ensures Entries(Where(loads, p), key, amount) == Entries(loads, key, within)
  {
    if loads != [] {
      var front, l := loads[..|loads| - 1], loads[|loads| - 1];
      EntriesOfWhere(front, p, key, amount, within);
      WhereSnoc(front, l, p);
      assert loads == front + [l];
      EntriesSnoc(front, l, key, within);
      if p(l) {
        EntriesSnoc(Where(front, p), l, key, amount);
      } else {
        assert Where(front, p) + [] == Where(front, p);
      }
    }
  }
}
