/**
 * The client-side search filters (site/lib/search.js): the favourites filter, the text
 * query, and the facet filters with their four list-matching modes.
 */
module Search {
  import opened Wrappers
  import opened Text
  import opened Seqs
  import opened JsValues

  // ---------------------------------------------------------------- favourites

  /** Some facet filter, after one level of flattening, starts with `"favorite"`. */
  predicate OnlyFavorites(facetFilters: Option<seq<seq<string>>>) {
    facetFilters.Some? && exists g, x :: g in facetFilters.value && x in g && StartsWith(x, "favorite")
  }

  predicate IsFavorite(v: Video) {
    Truthy(Get(v, "favorite"))
  }

  /**
   * `filterFavorites`: the videos unchanged unless a favourite filter is set, and then
   * exactly the favourite videos, in their order.
   */
  function FilterFavorites(videos: seq<Video>, facetFilters: Option<seq<seq<string>>>): (r: seq<Video>)
    ensures !OnlyFavorites(facetFilters) ==> r == videos
    ensures OnlyFavorites(facetFilters) ==> forall v :: v in r <==> v in videos && IsFavorite(v)
  {
    if OnlyFavorites(facetFilters) then Filter(videos, IsFavorite) else videos
  }

  /** Favourite filtering only removes videos and keeps their order. */
  lemma FilterFavoritesSubseq(videos: seq<Video>, facetFilters: Option<seq<seq<string>>>)
    ensures Subseq(FilterFavorites(videos, facetFilters), videos)
  {
    if OnlyFavorites(facetFilters) {
      FilterSubseq(videos, IsFavorite);
    } else {
      SubseqRefl(videos);
    }
  }

  lemma {:induction false} SubseqRefl<T>(s: seq<T>)
    ensures Subseq(s, s)
  {
    if s != [] {
      SubseqRefl(s[1..]);
    }
  }

  // ---------------------------------------------------------------- text query

  /** `x?.toLocaleLowerCase().indexOf(q) > -1` for a property that holds a string. */
  predicate TextMatches(x: Value, q: string) {
    x.Str? && Contains(Lower(x.s), q)
  }

  function MatchesQuery(q: string): Video -> bool {
    (v: Video) => TextMatches(Get(v, "track"), q) || TextMatches(Get(v, "title"), q)
  }

  /**
   * `filterByQuery`: the videos whose lower-cased track or title contains the lower-cased
   * query, in their order.
   */
  function FilterByQuery(videos: seq<Video>, query: string): (r: seq<Video>)
    ensures forall v :: v in r <==>
      (v in videos && (TextMatches(Get(v, "track"), Lower(query)) || TextMatches(Get(v, "title"), Lower(query))))
  {
    Filter(videos, MatchesQuery(Lower(query)))
  }

  /** Query filtering only removes videos and keeps their order. */
  lemma FilterByQuerySubseq(videos: seq<Video>, query: string)
    ensures Subseq(FilterByQuery(videos, query), videos)
  {
    FilterSubseq(videos, MatchesQuery(Lower(query)));
  }

  /** The empty query keeps exactly the videos that have a string track or title. */
  lemma EmptyQuery(videos: seq<Video>)
    ensures forall v :: v in FilterByQuery(videos, "") <==> v in videos && (Get(v, "track").Str? || Get(v, "title").Str?)
  {
    forall s: string ensures Contains(Lower(s), "") {
      ContainsTrivial(Lower(s));
    }
  }

  /** The query is case-insensitive: queries with the same lower-case form select the same videos. */
  lemma QueryCaseInsensitive(videos: seq<Video>, q1: string, q2: string)
    requires Lower(q1) == Lower(q2)
    ensures FilterByQuery(videos, q1) == FilterByQuery(videos, q2)
  {
  }

  // ---------------------------------------------------------------- facet filters

  /** One entry of `filterQ`: an attribute and the query items of its filters. */
  datatype FacetQuery = FacetQuery(attribute: string, items: seq<Option<string>>)

  /** `f.split(":")[0]`. */
  function FacetKey(f: string): string {
    Split(f, ':')[0]
  }

  /** `f.split(":")[1]`, `undefined` when there is no colon. */
  function FacetValue(f: string): Option<string> {
    var parts := Split(f, ':');
    if |parts| >= 2 then Some(parts[1]) else None
  }

  /** `{ ...obj, [key]: items }`: an existing key keeps its place and takes the new items. */
  function SetFacet(qs: seq<FacetQuery>, q: FacetQuery): (r: seq<FacetQuery>)
    ensures forall i :: 0 <= i < |r| ==> r[i].attribute == q.attribute || r[i] in qs
  {
    if qs == [] then [q]
    else if qs[0].attribute == q.attribute then
      assert forall i :: 1 <= i < |qs| ==> ([q] + qs[1..])[i] == qs[i];
      [q] + qs[1..]
    else
      var rest := SetFacet(qs[1..], q);
      assert forall j :: 0 <= j < |rest| ==> ([qs[0]] + rest)[j + 1] == rest[j];
      [qs[0]] + rest
  }

  /** The items `filterQ` holds for `attribute`, if any. */
  function Lookup(qs: seq<FacetQuery>, attribute: string): Option<seq<Option<string>>> {
    if qs == [] then None
    else if qs[0].attribute == attribute then Some(qs[0].items)
    else Lookup(qs[1..], attribute)
  }

  /** No attribute occurs twice. */
  predicate DistinctAttributes(qs: seq<FacetQuery>) {
    forall i, j :: 0 <= i < j < |qs| ==> qs[i].attribute != qs[j].attribute
  }

  /** Setting a key reads back its new items and leaves every other key alone. */
  lemma {:induction false} SetFacetLookup(qs: seq<FacetQuery>, q: FacetQuery, attribute: string)
    ensures Lookup(SetFacet(qs, q), attribute) == if attribute == q.attribute then Some(q.items) else Lookup(qs, attribute)
  {
    if qs != [] && qs[0].attribute != q.attribute {
      SetFacetLookup(qs[1..], q, attribute);
      assert ([qs[0]] + SetFacet(qs[1..], q))[1..] == SetFacet(qs[1..], q);
    } else if qs != [] {
      assert ([q] + qs[1..])[1..] == qs[1..];
    }
  }

  lemma DistinctTail(qs: seq<FacetQuery>)
    requires qs != [] && DistinctAttributes(qs)
    ensures DistinctAttributes(qs[1..])
    ensures forall j :: 0 <= j < |qs[1..]| ==> qs[1..][j].attribute != qs[0].attribute
  {
    var tail := qs[1..];
    forall i, j | 0 <= i < j < |tail| ensures tail[i].attribute != tail[j].attribute {
      assert tail[i] == qs[i + 1] && tail[j] == qs[j + 1];
    }
    forall j | 0 <= j < |tail| ensures tail[j].attribute != qs[0].attribute {
      assert tail[j] == qs[j + 1];
    }
  }

  lemma DistinctCons(x: FacetQuery, rest: seq<FacetQuery>)
    requires DistinctAttributes(rest)
    requires forall j :: 0 <= j < |rest| ==> rest[j].attribute != x.attribute
    ensures DistinctAttributes([x] + rest)
  {
    var r := [x] + rest;
    forall i, j | 0 <= i < j < |r| ensures r[i].attribute != r[j].attribute {
      assert r[j] == rest[j - 1];
      if i > 0 {
        assert r[i] == rest[i - 1];
      }
    }
  }

  /** Setting a key never makes it occur twice. */
  lemma {:induction false} SetFacetDistinct(qs: seq<FacetQuery>, q: FacetQuery)
    requires DistinctAttributes(qs)
    ensures DistinctAttributes(SetFacet(qs, q))
  {
    if qs != [] {
      var tail := qs[1..];
      DistinctTail(qs);
      if qs[0].attribute == q.attribute {
        DistinctCons(q, tail);
      } else {
        SetFacetDistinct(tail, q);
        var rest := SetFacet(tail, q);
        forall j | 0 <= j < |rest| ensures rest[j].attribute != qs[0].attribute {
          if rest[j].attribute != q.attribute {
            var k :| 0 <= k < |tail| && tail[k] == rest[j];
          }
        }
        DistinctCons(qs[0], rest);
      }
    }
  }

  /** The query of one facet-filter group: the key of its first filter and every filter's value. */
  function GroupQuery(g: seq<string>): FacetQuery
    requires g != []
  {
    FacetQuery(FacetKey(g[0]), Map(g, FacetValue))
  }

  /** The `reduce` that builds `filterQ`; an empty group throws at `ff[0].split`. */
  function BuildQueries(acc: seq<FacetQuery>, groups: seq<seq<string>>): Result<seq<FacetQuery>, Fault>
    decreases |groups|
  {
    if groups == [] then Ok(acc)
    else if groups[0] == [] then Err(TypeError)
    else BuildQueries(SetFacet(acc, GroupQuery(groups[0])), groups[1..])
  }

  /** The items of the last group whose key is `attribute`: later groups override earlier ones. */
  function LastItems(groups: seq<seq<string>>, attribute: string): Option<seq<Option<string>>> {
    if groups == [] then None
    else
      var later := LastItems(groups[1..], attribute);
      if later.Some? then later
      else if groups[0] != [] && FacetKey(groups[0][0]) == attribute then Some(Map(groups[0], FacetValue))
      else None
  }

  /**
   * Lines 19-22: building `filterQ` fails exactly when a group is empty; otherwise every
   * attribute occurs once and holds the values of the last group with that key.
   */
  lemma {:induction false} BuildQueriesMeaning(acc: seq<FacetQuery>, groups: seq<seq<string>>, attribute: string)
    requires DistinctAttributes(acc)
    ensures BuildQueries(acc, groups).Ok? <==> forall i :: 0 <= i < |groups| ==> groups[i] != []
    ensures BuildQueries(acc, groups).Ok? ==>
      && DistinctAttributes(BuildQueries(acc, groups).value)
      && Lookup(BuildQueries(acc, groups).value, attribute) ==
           if LastItems(groups, attribute).Some? then LastItems(groups, attribute) else Lookup(acc, attribute)
    decreases |groups|
  {
    if groups != [] && groups[0] != [] {
      var q := GroupQuery(groups[0]);
      SetFacetLookup(acc, q, attribute);
      SetFacetDistinct(acc, q);
      BuildQueriesMeaning(SetFacet(acc, q), groups[1..], attribute);
      assert forall i :: 1 <= i < |groups| ==> groups[1..][i - 1] == groups[i];
    }
  }

  /** `facetFilters?.reduce(...)`: no filters give no queries. */
  function ParseFacetFilters(facetFilters: Option<seq<seq<string>>>): Result<seq<FacetQuery>, Fault> {
    if facetFilters.None? then Ok([]) else BuildQueries([], facetFilters.value)
  }

  /** How `chords` matches its query items: the four keys of `listFilterFuncs`. */
  datatype Mode = Exact | Any | All | NoneOf

  /** The key of `listFilterFuncs` that holds a mode's filter. */
  function ModeName(mode: Mode): string {
    match mode
    case Exact => "exact"
    case Any => "any"
    case All => "all"
    case NoneOf => "none"
  }

  /**
   * `listFilterFuncs[chordsSearchMode]`: the mode whose key is the property key of the
   * value, or none (`undefined`, which `filter` refuses) for any other value.
   */
  function ChordsMode(chordsSearchMode: Value): (r: Option<Mode>)
    ensures forall mode :: r == Some(mode) <==> PropertyKey(chordsSearchMode) == ModeName(mode)
  {
    var key := PropertyKey(chordsSearchMode);
    if key == "exact" then Some(Exact)
    else if key == "any" then Some(Any)
    else if key == "all" then Some(All)
    else if key == "none" then Some(NoneOf)
    else None
  }

  /** Some query is on `chords`. */
  predicate QueriesChords(qs: seq<FacetQuery>) {
    exists i :: 0 <= i < |qs| && qs[i].attribute == "chords"
  }

  /** `query.filter((item) => vidChords.has(item)).length`: the query items in the set, with repeats. */
  function Hits(items: seq<Option<string>>, elements: set<string>): nat {
    |Filter(items, InSet(elements))|
  }

  function InSet(elements: set<string>): Option<string> -> bool {
    (o: Option<string>) => o.Some? && o.value in elements
  }

  /** Lines 32-50: the four list modes. */
  predicate ListMatch(mode: Mode, items: seq<Option<string>>, elements: set<string>) {
    match mode
    case Exact => |items| == |elements| && Hits(items, elements) == |items|
    case Any => Hits(items, elements) > 0
    case All => Hits(items, elements) == |items|
    case NoneOf => Hits(items, elements) == 0
  }

  /**
   * `new Set(vid[attribute])`: an array's items, a string's characters, nothing for a
   * missing value.
   */
  function Elements(x: Value): set<string> {
    match x
    case List(items) => set i | i in items
    case Str(s) => set c | c in s :: [c]
    case _ => {}
  }

  /** `new Set(query).has(vid[attribute])`: a string matches an equal item, `undefined` an undefined one. */
  predicate ScalarMatch(items: seq<Option<string>>, x: Value) {
    (x.Str? && Some(x.s) in items) || (x.Undefined? && None in items)
  }

  /** Lines 52-58: `chords` by the chosen mode, `artists` by `any`, every other attribute by value. */
  predicate KeepFacet(q: FacetQuery, mode: Mode, v: Video) {
    if q.attribute == "chords" then ListMatch(mode, q.items, Elements(Get(v, "chords")))
    else if q.attribute == "artists" then ListMatch(Any, q.items, Elements(Get(v, "artists")))
    else ScalarMatch(q.items, Get(v, q.attribute))
  }

  function KeepFacetOf(q: FacetQuery, mode: Mode): Video -> bool {
    (v: Video) => KeepFacet(q, mode, v)
  }

  /** A video passes every query except the `favorite` one. */
  predicate PassesAll(qs: seq<FacetQuery>, mode: Mode, v: Video) {
    forall i :: 0 <= i < |qs| && qs[i].attribute != "favorite" ==> KeepFacet(qs[i], mode, v)
  }

  function PassesAllOf(qs: seq<FacetQuery>, mode: Mode): Video -> bool {
    (v: Video) => PassesAll(qs, mode, v)
  }

  /**
   * `filterByFacets`: applies the queries one attribute at a time, skipping `favorite`;
   * the result is the videos that pass all of them, in their order. A `chords` query
   * throws when `chordsSearchMode` names no mode, since `filter` then gets `undefined`;
   * without one the mode is never read (`ModeUnread`).
   */
  method FilterByFacets(videos: seq<Video>, facetFilters: Option<seq<seq<string>>>, chordsSearchMode: Value)
    returns (r: Result<seq<Video>, Fault>)
    ensures r.Ok? <==>
      && ParseFacetFilters(facetFilters).Ok?
      && (ChordsMode(chordsSearchMode).None? ==> !QueriesChords(ParseFacetFilters(facetFilters).value))
    ensures r.Ok? ==>
      r.value == Filter(videos, PassesAllOf(ParseFacetFilters(facetFilters).value, ChordsMode(chordsSearchMode).GetOr(Exact)))
  {
    var parsed := ParseFacetFilters(facetFilters);
    if parsed.Err? {
      return Err(parsed.error);
    }
    r := ApplyQueries(videos, parsed.value, ChordsMode(chordsSearchMode));
  }

  /**
   * Lines 25-63, the `for ... in` loop: each query narrows `data` in turn; a `chords`
   * query throws when no mode was chosen.
   */
  method ApplyQueries(videos: seq<Video>, qs: seq<FacetQuery>, chosen: Option<Mode>)
    returns (r: Result<seq<Video>, Fault>)
    ensures r.Ok? <==> chosen.Some? || !QueriesChords(qs)
    ensures r.Ok? ==> r.value == Filter(videos, PassesAllOf(qs, chosen.GetOr(Exact)))
  {
    var mode := chosen.GetOr(Exact);
    var data := videos;
    FilterAll(videos, PassesAllOf(qs[..0], mode));
    for i := 0 to |qs|
      invariant data == Filter(videos, PassesAllOf(qs[..i], mode))
      invariant chosen.None? ==> forall j :: 0 <= j < i ==> qs[j].attribute != "chords"
    {
      PassesAllStep(qs, i, mode);
      if qs[i].attribute == "favorite" {
        FilterExt(videos, PassesAllOf(qs[..i], mode), PassesAllOf(qs[..i + 1], mode));
        continue;
      }
      if qs[i].attribute == "chords" && chosen.None? {
        assert QueriesChords(qs);
        return Err(TypeError);
      }
      FilterFilter(videos, PassesAllOf(qs[..i], mode), KeepFacetOf(qs[i], mode), PassesAllOf(qs[..i + 1], mode));
      data := Filter(data, KeepFacetOf(qs[i], mode));
    }
    assert qs[..|qs|] == qs;
    return Ok(data);
  }

  /** Without a `chords` query the chosen mode does not matter. */
  lemma ModeUnread(qs: seq<FacetQuery>, m1: Mode, m2: Mode, v: Video)
    requires !QueriesChords(qs)
    ensures PassesAll(qs, m1, v) == PassesAll(qs, m2, v)
  {
  }

  /** One more query narrows the conjunction by that query, or not at all for `favorite`. */
  lemma PassesAllStep(qs: seq<FacetQuery>, i: nat, mode: Mode)
    requires i < |qs|
    ensures forall v ::
      PassesAll(qs[..i + 1], mode, v) == (PassesAll(qs[..i], mode, v) && (qs[i].attribute != "favorite" ==> KeepFacet(qs[i], mode, v)))
  {
    assert forall j :: 0 <= j < i ==> qs[..i + 1][j] == qs[..i][j];
  }

  // ---------------------------------------------------------------- what the facet filters mean

  /** `any` keeps a video when some query item is in its set. */
  lemma AnyMeaning(items: seq<Option<string>>, elements: set<string>)
    ensures ListMatch(Any, items, elements) <==> exists x :: Some(x) in items && x in elements
  {
    var f := Filter(items, InSet(elements));
    if exists x :: Some(x) in items && x in elements {
      var x :| Some(x) in items && x in elements;
      assert Some(x) in f;
    }
    if |f| > 0 {
      assert f[0] in f;
    }
  }

  /** `all` keeps a video when every query item is in its set. */
  lemma AllMeaning(items: seq<Option<string>>, elements: set<string>)
    ensures ListMatch(All, items, elements) <==> forall o :: o in items ==> o.Some? && o.value in elements
  {
    FilterKeepsAll(items, InSet(elements));
  }

  /** `none` keeps a video when no query item is in its set. */
  lemma NoneOfMeaning(items: seq<Option<string>>, elements: set<string>)
    ensures ListMatch(NoneOf, items, elements) <==> forall x :: Some(x) in items ==> x !in elements
  {
    if Hits(items, elements) != 0 {
      var f := Filter(items, InSet(elements));
      assert f[0] in f;
    }
  }

  /** `exact` keeps a video when every query item is in its set and there are as many items as elements. */
  lemma ExactMeaning(items: seq<Option<string>>, elements: set<string>)
    ensures ListMatch(Exact, items, elements) <==>
      |items| == |elements| && forall o :: o in items ==> o.Some? && o.value in elements
  {
    AllMeaning(items, elements);
  }

  /** The values of query items that are all defined. */
  function Values(items: seq<Option<string>>): set<string> {
    set o | o in items && o.Some? :: o.value
  }

  lemma {:induction false} ValuesCard(items: seq<Option<string>>)
    requires NoDup(items) && forall o :: o in items ==> o.Some?
    ensures |Values(items)| == |items|
  {
    if items != [] {
      var rest := items[1..];
      assert NoDup(rest) by {
        forall i, j | 0 <= i < j < |rest| ensures rest[i] != rest[j] {
          assert rest[i] == items[i + 1] && rest[j] == items[j + 1];
        }
      }
      assert forall o :: o in items <==> o == items[0] || o in rest by {
        assert items == [items[0]] + rest;
      }
      ValuesCard(rest);
      assert Values(items) == Values(rest) + {items[0].value};
      assert items[0].value !in Values(rest);
    }
  }

  /** Without repeated query items, `exact` keeps a video exactly when its set equals the query's. */
  lemma ExactWithoutRepeats(items: seq<Option<string>>, elements: set<string>)
    requires NoDup(items)
    ensures ListMatch(Exact, items, elements) <==>
      (forall o :: o in items ==> o.Some?) && Values(items) == elements
  {
    ExactMeaning(items, elements);
    if forall o :: o in items ==> o.Some? {
      ValuesCard(items);
      if ListMatch(Exact, items, elements) {
        assert Values(items) <= elements;
        assert elements == Values(items) + (elements - Values(items));
        assert |elements - Values(items)| == 0;
      }
    }
  }

  /**
   * Lines 24-63: the facet filters only remove videos and keep their order; a video stays
   * exactly when, for every attribute but `favorite`, it matches: `chords` by the chosen
   * mode, `artists` by `any`, and any other attribute when its value is among the items.
   */
  lemma FacetSelection(videos: seq<Video>, qs: seq<FacetQuery>, mode: Mode)
    ensures Subseq(Filter(videos, PassesAllOf(qs, mode)), videos)
    ensures forall v :: v in Filter(videos, PassesAllOf(qs, mode)) <==>
      (v in videos &&
       forall i :: 0 <= i < |qs| ==>
         && (qs[i].attribute == "chords" ==> ListMatch(mode, qs[i].items, Elements(Get(v, "chords"))))
         && (qs[i].attribute == "artists" ==> ListMatch(Any, qs[i].items, Elements(Get(v, "artists"))))
         && (qs[i].attribute !in {"chords", "artists", "favorite"} ==> ScalarMatch(qs[i].items, Get(v, qs[i].attribute))))
  {
    FilterSubseq(videos, PassesAllOf(qs, mode));
  }

  /** Filters on `favorite` alone change nothing here. */
  lemma FavoriteSkipped(videos: seq<Video>, qs: seq<FacetQuery>, mode: Mode)
    requires forall i :: 0 <= i < |qs| ==> qs[i].attribute == "favorite"
    ensures Filter(videos, PassesAllOf(qs, mode)) == videos
  {
    FilterAll(videos, PassesAllOf(qs, mode));
  }
}
