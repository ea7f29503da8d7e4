/**
 The search box and the filters of the load boards: `matchesSearch`, `matchesFilters` and
 `getFilteredLoads`. Typing more only narrows.
 */
module Search {
  import opened Text
  import opened LoadPosts

  datatype Query = Query(
    search: Option<string>, status: Option<string>, equipment: Option<string>,
    loadType: Option<string>, origin: Option<string>, destination: Option<string>)

  // `text.toLowerCase().contains(needle.toLowerCase())`
  predicate Mentions(fold: char -> string, text: string, needle: string) {
    Contains(Lower(fold, text), Lower(fold, needle))
  }

  predicate AnyMentions(fold: char -> string, texts: seq<string>, needle: string) {
    exists i :: 0 <= i < |texts| && Mentions(fold, texts[i], needle)
  }

  predicate MatchesSearch(fold: char -> string, l: Load, query: string) {
    || query == ""
    || Mentions(fold, l.id, query) || Mentions(fold, l.posting.title, query)
    || Mentions(fold, l.posting.origin, query) || Mentions(fold, l.posting.destination, query)
    || (l.posting.loadType.Some? && Mentions(fold, l.posting.loadType.value, query))
    || AnyMentions(fold, l.equipment, query)
  }

  predicate Given(filter: Option<string>) { filter.Some? && filter.value != "" }

  predicate MatchesFilters(fold: char -> string, l: Load, q: Query) {
    && (Given(q.status) ==> ShownStatus(l) == q.status.value)
    && (Given(q.equipment) ==> AnyMentions(fold, l.equipment, q.equipment.value))
    && (Given(q.loadType) ==>
          l.posting.loadType.Some? && Lower(fold, l.posting.loadType.value) == Lower(fold, q.loadType.value))
    && (Given(q.origin) ==> Mentions(fold, l.posting.origin, q.origin.value))
    && (Given(q.destination) ==> Mentions(fold, l.posting.destination, q.destination.value))
  }

  predicate Shown(fold: char -> string, isBrokerPosts: bool, q: Query, l: Load) {
    && (if isBrokerPosts then l.posting.isBrokerPost else l.posting.isCarrierPost)
    && (q.search.None? || MatchesSearch(fold, l, q.search.value))
    && MatchesFilters(fold, l, q)
  }

  function FilteredLoads(fold: char -> string, loads: seq<Load>, q: Query, isBrokerPosts: bool): seq<Load> {
    Where(loads, (l: Load) => Shown(fold, isBrokerPosts, q, l))
  }

  lemma MentionsHas(fold: char -> string)
    ensures forall text, needle :: Mentions(fold, text, needle) <==> Has(fold, text, needle)
  {
    hide Contains, Has;
    forall text, needle ensures Mentions(fold, text, needle) <==> Has(fold, text, needle) {
      HasExact(fold, text, needle);
    }
  }

  /** Which loads a board shows: those of its side that have the search text somewhere and pass every filter set. */
  lemma ShownExact(fold: char -> string, loads: seq<Load>, q: Query, isBrokerPosts: bool, l: Load)
    ensures l in FilteredLoads(fold, loads, q, isBrokerPosts) <==>
      && l in loads
      && (isBrokerPosts ==> l.posting.isBrokerPost) && (!isBrokerPosts ==> l.posting.isCarrierPost)
      && (q.search.GetOr("") != "" ==>
            || Has(fold, l.id, q.search.value) || Has(fold, l.posting.title, q.search.value)
            || Has(fold, l.posting.origin, q.search.value) || Has(fold, l.posting.destination, q.search.value)
            || (l.posting.loadType.Some? && Has(fold, l.posting.loadType.value, q.search.value))
            || exists e :: e in l.equipment && Has(fold, e, q.search.value))
      && (q.status.GetOr("") != "" ==>
            || l.status == q.status
            || (l.status == None && q.status == Some(if l.bids == [] then "Available" else "Has Bids")))
      && (q.equipment.GetOr("") != "" ==> exists e :: e in l.equipment && Has(fold, e, q.equipment.value))
      && (q.loadType.GetOr("") != "" ==>
            l.posting.loadType.Some? && Lower(fold, l.posting.loadType.value) == Lower(fold, q.loadType.value))
      && (q.origin.GetOr("") != "" ==> Has(fold, l.posting.origin, q.origin.value))
      && (q.destination.GetOr("") != "" ==> Has(fold, l.posting.destination, q.destination.value))
  {
    MentionsHas(fold);
    AnyMentionsHas(fold, l.equipment, q.search.GetOr(""));
    AnyMentionsHas(fold, l.equipment, q.equipment.GetOr(""));
    hide Mentions, AnyMentions, Has, Lower;
  }

  lemma AnyMentionsHas(fold: char -> string, texts: seq<string>, needle: string)
    ensures AnyMentions(fold, texts, needle) <==> exists e :: e in texts && Has(fold, e, needle)
  {
    MentionsHas(fold);
    hide Mentions, Has;
    if e :| e in texts && Has(fold, e, needle) {
      var i :| 0 <= i < |texts| && texts[i] == e;
      assert Mentions(fold, texts[i], needle);
    }
  }

  // The filter was unset, or its text now contains the old text.
  predicate Longer(filter: Option<string>, filter': Option<string>) {
    filter == filter' || filter.None? || (filter'.Some? && Contains(filter'.value, filter.value))
  }

  predicate Narrower(q: Query, q': Query) {
    && Longer(q.search, q'.search) && Longer(q.origin, q'.origin)
    && Longer(q.destination, q'.destination) && Longer(q.equipment, q'.equipment)
    && (q.status.None? || q.status == q'.status) && (q.loadType.None? || q.loadType == q'.loadType)
  }

  lemma MentionsShorter(fold: char -> string, text: string, needle: string, needle': string)
    requires Contains(needle', needle) && Mentions(fold, text, needle')
    ensures Mentions(fold, text, needle)
  {
    LowerContains(fold, needle', needle);
    ContainsTransitive(Lower(fold, text), Lower(fold, needle'), Lower(fold, needle));
  }

  lemma AnyMentionsShorter(fold: char -> string, texts: seq<string>, needle: string, needle': string)
    requires Contains(needle', needle) && AnyMentions(fold, texts, needle')
    ensures AnyMentions(fold, texts, needle)
  {
    var i :| 0 <= i < |texts| && Mentions(fold, texts[i], needle');
    MentionsShorter(fold, texts[i], needle, needle');
  }

  lemma SearchShorter(fold: char -> string, l: Load, query: string, query': string)
    requires Contains(query', query) && MatchesSearch(fold, l, query')
    ensures MatchesSearch(fold, l, query)
  {
    hide Mentions, AnyMentions;
    var texts := [l.id, l.posting.title, l.posting.origin, l.posting.destination] +
                 if l.posting.loadType.Some? then [l.posting.loadType.value] else [];
    forall t | t in texts && Mentions(fold, t, query') ensures Mentions(fold, t, query) {
      MentionsShorter(fold, t, query, query');
    }
    assert l.id in texts && l.posting.title in texts && l.posting.origin in texts && l.posting.destination in texts;
    assert l.posting.loadType.Some? ==> texts[4] in texts;
    if AnyMentions(fold, l.equipment, query') { AnyMentionsShorter(fold, l.equipment, query, query'); }
    if query' == "" { assert query == ""; }
  }

  lemma ShownStaysShown(fold: char -> string, isBrokerPosts: bool, q: Query, q': Query, l: Load)
    requires Narrower(q, q') && Shown(fold, isBrokerPosts, q', l)
    ensures Shown(fold, isBrokerPosts, q, l)
  {
    hide Mentions, AnyMentions, MatchesSearch, Contains;
    if q.search.Some? && q.search != q'.search { SearchShorter(fold, l, q.search.value, q'.search.value); }
    if Given(q.equipment) && q.equipment != q'.equipment {
      NonEmptyStays(q.equipment.value, q'.equipment.value);
      AnyMentionsShorter(fold, l.equipment, q.equipment.value, q'.equipment.value);
    }
    if Given(q.origin) && q.origin != q'.origin {
      NonEmptyStays(q.origin.value, q'.origin.value);
      MentionsShorter(fold, l.posting.origin, q.origin.value, q'.origin.value);
    }
    if Given(q.destination) && q.destination != q'.destination {
      NonEmptyStays(q.destination.value, q'.destination.value);
      MentionsShorter(fold, l.posting.destination, q.destination.value, q'.destination.value);
    }
  }

  lemma NonEmptyStays(s: string, s': string)
    requires Contains(s', s) && s != ""
    ensures s' != ""
  {
  }

  /** Setting a filter, or lengthening one to a text that contains the old one, only removes loads. */
  lemma LongerFiltersNarrow(fold: char -> string, loads: seq<Load>, q: Query, q': Query, isBrokerPosts: bool)
    requires Narrower(q, q')
    ensures Subsequence(FilteredLoads(fold, loads, q', isBrokerPosts), FilteredLoads(fold, loads, q, isBrokerPosts))
  {
    hide Shown, Narrower;
    forall l | l in loads && Shown(fold, isBrokerPosts, q', l) ensures Shown(fold, isBrokerPosts, q, l) {
      ShownStaysShown(fold, isBrokerPosts, q, q', l);
    }
    WhereNarrows(loads, (l: Load) => Shown(fold, isBrokerPosts, q', l), (l: Load) => Shown(fold, isBrokerPosts, q, l));
  }
}
