/**
 * Facet counting, result pages and the search objects (site/lib/search.js): `getCounts`
 * and `getListCounts` tally attribute values into a plain object, `makeResult` cuts one
 * page of hits and counts every facet, and `createSearchClient` derives the fields the
 * facets are computed on.
 */
module Facets {
  import opened Wrappers
  import opened Text
  import opened Seqs
  import opened JsValues

  // ---------------------------------------------------------------- tallies

  ghost function Pick(s: set<string>): string
    requires s != {}
  {
    var x :| x in s; x
  }

  /** The sum of the counts of a tally. */
  ghost function SumValues(m: map<string, nat>): nat
    decreases |m.Keys|
  {
    if m.Keys == {} then 0
    else
      var k := Pick(m.Keys);
      assert (m - {k}).Keys < m.Keys;
      m[k] + SumValues(m - {k})
  }

  /** The sum does not depend on which key is taken out first. */
  lemma {:induction false} SumRemove(m: map<string, nat>, k: string)
    requires k in m
    ensures SumValues(m) == m[k] + SumValues(m - {k})
    decreases |m.Keys|
  {
    var j := Pick(m.Keys);
    if j != k {
      assert (m - {j}).Keys < m.Keys && (m - {k}).Keys < m.Keys;
      SumRemove(m - {j}, k);
      SumRemove(m - {k}, j);
      assert (m - {j}) - {k} == (m - {k}) - {j};
    }
  }

  /** `acc` maps every key of `keys`, and nothing else, to its number of occurrences. */
  ghost predicate Tally(acc: map<string, nat>, keys: seq<string>) {
    && (forall k :: k in acc <==> k in keys)
    && (forall k :: k in acc ==> acc[k] == multiset(keys)[k])
  }

  /** `acc[item] = acc[item] ? acc[item] + 1 : 1`. */
  function Bump(acc: map<string, nat>, k: string): map<string, nat> {
    acc[k := if k in acc then acc[k] + 1 else 1]
  }

  /** Counting one more key keeps the tally exact and raises the sum by one. */
  lemma TallyStep(acc: map<string, nat>, keys: seq<string>, k: string)
    requires Tally(acc, keys)
    ensures Tally(Bump(acc, k), keys + [k])
    ensures SumValues(Bump(acc, k)) == SumValues(acc) + 1
  {
    var b := Bump(acc, k);
    assert multiset(keys + [k]) == multiset(keys) + multiset{k};
    assert forall x :: x in keys + [k] <==> x in keys || x == k;
    SumRemove(b, k);
    if k in acc {
      SumRemove(acc, k);
      assert b - {k} == acc - {k};
    } else {
      assert b - {k} == acc;
    }
  }

  /** The tally `reduce` builds over `keys`: one `Bump` per key, in order. */
  function Counts(keys: seq<string>): map<string, nat> {
    if keys == [] then map[] else Bump(Counts(keys[..|keys| - 1]), keys[|keys| - 1])
  }

  lemma CountsAppend(keys: seq<string>, k: string)
    ensures Counts(keys + [k]) == Bump(Counts(keys), k)
  {
    assert (keys + [k])[..|keys|] == keys;
  }

  /**
   * The tally maps every key, and nothing else, to its number of occurrences, and its
   * counts add up to the number of keys.
   */
  lemma {:induction false} CountsTally(keys: seq<string>)
    ensures Tally(Counts(keys), keys)
    ensures SumValues(Counts(keys)) == |keys|
    decreases |keys|
  {
    if keys != [] {
      var init := keys[..|keys| - 1];
      CountsTally(init);
      TallyStep(Counts(init), init, keys[|keys| - 1]);
      assert init + [keys[|keys| - 1]] == keys;
    }
  }

  function KeyOf(attribute: string): Video -> string {
    (v: Video) => PropertyKey(Get(v, attribute))
  }

  /** The property keys `acc[val]` uses for each video, in order. */
  function KeysOf(data: seq<Video>, attribute: string): seq<string> {
    Map(data, KeyOf(attribute))
  }

  /**
   * `getCounts`: every distinct value, as a property key, mapped to its number of
   * occurrences; the counts add up to the number of videos.
   */
  method GetCounts(data: seq<Video>, attribute: string) returns (acc: map<string, nat>)
    ensures acc == Counts(KeysOf(data, attribute))
  {
    var keys := KeysOf(data, attribute);
    acc := map[];
    for i := 0 to |data|
      invariant acc == Counts(keys[..i])
    {
      var key := PropertyKey(Get(data[i], attribute));
      CountsAppend(keys[..i], key);
      assert keys[..i + 1] == keys[..i] + [key];
      acc := Bump(acc, key);
    }
    assert keys[..|data|] == keys;
  }

  // ---------------------------------------------------------------- list tallies

  /**
   * `v[attribute].length > 0` and `forEach` do not throw: the value is neither missing
   * nor a non-empty string (numbers and booleans have no length and are skipped).
   */
  predicate ListCountable(x: Value) {
    !(x.Undefined? || x.Null? || (x.Str? && x.s != ""))
  }

  /** An empty item is counted as `"Unknown"`. */
  function UnknownIfEmpty(item: string): string {
    if item == "" then "Unknown" else item
  }

  /** The items a video contributes: those of a list, none otherwise. */
  function ItemsOf(x: Value): seq<string> {
    if x.List? then Map(x.items, UnknownIfEmpty) else []
  }

  /** The items `getListCounts` counts, video by video. */
  function ListItems(data: seq<Video>, attribute: string): seq<string> {
    if data == [] then []
    else ListItems(data[..|data| - 1], attribute) + ItemsOf(Get(data[|data| - 1], attribute))
  }

  /** Lines 72-74: `""` is never counted under its own name. */
  lemma {:induction false} ListItemsNoEmpty(data: seq<Video>, attribute: string)
    ensures "" !in ListItems(data, attribute)
    decreases |data|
  {
    if data != [] {
      ListItemsNoEmpty(data[..|data| - 1], attribute);
      var x := Get(data[|data| - 1], attribute);
      assert "" !in ItemsOf(x);
    }
  }

  /** Some video's list contributes `x`. */
  predicate InSomeList(data: seq<Video>, attribute: string, x: string) {
    exists i :: 0 <= i < |data| && x in ItemsOf(Get(data[i], attribute))
  }

  /**
   * Lines 66-80: the list items counted are exactly the items of the videos' lists, with
   * `""` reported as `"Unknown"`; a video whose list is empty contributes nothing.
   */
  lemma {:induction false} ListItemsMeaning(data: seq<Video>, attribute: string)
    ensures forall x :: x in ListItems(data, attribute) <==> InSomeList(data, attribute, x)
    decreases |data|
  {
    if data != [] {
      var n := |data| - 1;
      var init := data[..n];
      ListItemsMeaning(init, attribute);
      var last := ItemsOf(Get(data[n], attribute));
      assert ListItems(data, attribute) == ListItems(init, attribute) + last;
      forall x ensures x in ListItems(data, attribute) <==> InSomeList(data, attribute, x) {
        if InSomeList(data, attribute, x) {
          var i :| 0 <= i < |data| && x in ItemsOf(Get(data[i], attribute));
          if i < n {
            assert init[i] == data[i];
            assert InSomeList(init, attribute, x);
          }
        }
        if InSomeList(init, attribute, x) {
          var i :| 0 <= i < |init| && x in ItemsOf(Get(init[i], attribute));
          assert init[i] == data[i];
        }
      }
    }
  }

  /** `v[attribute].forEach(...)`: bumps the count of every item, `""` counted as `"Unknown"`. */
  method CountItems(acc0: map<string, nat>, ghost before: seq<string>, items: seq<string>)
    returns (acc: map<string, nat>)
    requires acc0 == Counts(before)
    ensures acc == Counts(before + Map(items, UnknownIfEmpty))
  {
    acc := acc0;
    assert before + Map(items[..0], UnknownIfEmpty) == before;
    for j := 0 to |items|
      invariant acc == Counts(before + Map(items[..j], UnknownIfEmpty))
    {
      var item := items[j];
      if item == "" {
        item := "Unknown";
      }
      CountsAppend(before + Map(items[..j], UnknownIfEmpty), item);
      assert Map(items[..j + 1], UnknownIfEmpty) == Map(items[..j], UnknownIfEmpty) + [item];
      assert before + Map(items[..j + 1], UnknownIfEmpty) == before + Map(items[..j], UnknownIfEmpty) + [item];
      acc := Bump(acc, item);
    }
    assert items[..|items|] == items;
  }

  /**
   * `getListCounts`: throws when some video's value is missing or a non-empty string;
   * otherwise tallies every list item, `""` as `"Unknown"`.
   */
  method GetListCounts(data: seq<Video>, attribute: string) returns (r: Result<map<string, nat>, Fault>)
    ensures r.Ok? <==> forall i :: 0 <= i < |data| ==> ListCountable(Get(data[i], attribute))
    ensures r.Ok? ==> r.value == Counts(ListItems(data, attribute))
  {
    // `.filter((v) => v[attribute].length > 0)` reads every value's length first.
    for i := 0 to |data|
      invariant forall j :: 0 <= j < i ==> !(Get(data[j], attribute).Undefined? || Get(data[j], attribute).Null?)
    {
      var x := Get(data[i], attribute);
      if x.Undefined? || x.Null? {
        return Err(TypeError);
      }
    }
    var acc := map[];
    for i := 0 to |data|
      invariant forall j :: 0 <= j < |data| ==> !(Get(data[j], attribute).Undefined? || Get(data[j], attribute).Null?)
      invariant forall j :: 0 <= j < i ==> ListCountable(Get(data[j], attribute))
      invariant acc == Counts(ListItems(data[..i], attribute))
    {
      var x := Get(data[i], attribute);
      if x.Str? && x.s != "" {
        return Err(TypeError);
      }
      ghost var before := ListItems(data[..i], attribute);
      if x.List? {
        acc := CountItems(acc, before, x.items);
      } else {
        assert before + ItemsOf(x) == before;
      }
      assert data[..i + 1][..i] == data[..i];
      assert ListItems(data[..i + 1], attribute) == before + ItemsOf(x);
    }
    assert data[..|data|] == data;
    return Ok(acc);
  }

  // ---------------------------------------------------------------- result pages

  /** `Math.ceil(nbHits / hitsPerPage)`: no page size gives `NaN` for no hits and `Infinity` otherwise. */
  datatype PageCount = Pages(count: nat) | Infinity | NotANumber

  function NbPages(nbHits: nat, hitsPerPage: nat): PageCount {
    if hitsPerPage == 0 then (if nbHits == 0 then NotANumber else Infinity)
    else Pages((nbHits + hitsPerPage - 1) / hitsPerPage)
  }

  /** With a page size, the number of pages is the least one that holds every hit. */
  lemma NbPagesCeiling(nbHits: nat, hitsPerPage: nat)
    requires hitsPerPage > 0
    ensures NbPages(nbHits, hitsPerPage).Pages?
    ensures var c := NbPages(nbHits, hitsPerPage).count;
      c * hitsPerPage >= nbHits && (c == 0 || (c - 1) * hitsPerPage < nbHits)
  {
    var h := hitsPerPage;
    var c := (nbHits + h - 1) / h;
    var m := (nbHits + h - 1) % h;
    assert nbHits + h - 1 == c * h + m;
    assert c * h >= nbHits;
    if c > 0 {
      assert (c - 1) * h == c * h - h;
    }
  }

  /** `videos.slice(start, end)` for `0 <= start <= end`: bounds past the end are clipped. */
  function Slice(videos: seq<Video>, start: nat, end: nat): seq<Video>
    requires start <= end
  {
    var n := |videos|;
    videos[(if start < n then start else n)..(if end < n then end else n)]
  }

  /**
   * Line 102: page `page` is the run of at most `hitsPerPage` videos starting at
   * `hitsPerPage * page`, cut short by the end of the list.
   */
  function PageHits(videos: seq<Video>, page: nat, hitsPerPage: nat): (r: seq<Video>)
    ensures |r| == if hitsPerPage * page >= |videos| then 0
                   else if |videos| - hitsPerPage * page < hitsPerPage then |videos| - hitsPerPage * page
                   else hitsPerPage
    ensures forall t :: 0 <= t < |r| ==> hitsPerPage * page + t < |videos| && r[t] == videos[hitsPerPage * page + t]
  {
    assert hitsPerPage * (page + 1) == hitsPerPage * page + hitsPerPage;
    Slice(videos, hitsPerPage * page, hitsPerPage * (page + 1))
  }

  /** `a * h <= b` bounds `a` by `b / h`. */
  lemma DivLower(a: nat, b: nat, h: nat)
    requires h > 0 && a * h <= b
    ensures a <= b / h
  {
    var q := b / h;
    assert b == q * h + b % h;
    if a > q {
      assert a * h >= (q + 1) * h by {
        assert a * h - (q + 1) * h == (a - q - 1) * h;
      }
    }
  }

  /** Every video is on the page its index divided by the page size names, and that page exists. */
  lemma VideoOnItsPage(videos: seq<Video>, hitsPerPage: nat, index: nat)
    requires hitsPerPage > 0 && index < |videos|
    ensures NbPages(|videos|, hitsPerPage).Pages? && index / hitsPerPage < NbPages(|videos|, hitsPerPage).count
    ensures var hits := PageHits(videos, index / hitsPerPage, hitsPerPage);
      index % hitsPerPage < |hits| && hits[index % hitsPerPage] == videos[index]
  {
    var h := hitsPerPage;
    var p := index / h;
    var m := index % h;
    assert index == p * h + m;
    assert h * p == p * h;
    assert (p + 1) * h == p * h + h;
    DivLower(p + 1, |videos| + h - 1, h);
  }

  // ---------------------------------------------------------------- makeResult

  /** The tallies of the facets shown beside the results. */
  datatype FacetCounts = FacetCounts(
    artists: map<string, nat>, chords: map<string, nat>, uploader: map<string, nat>,
    chordCount: map<string, nat>, album: map<string, nat>, tuning: map<string, nat>,
    language: map<string, nat>, published: map<string, nat>)

  datatype SearchResult = SearchResult(
    hits: seq<Video>, nbHits: nat, hitsPerPage: nat, nbPages: PageCount, facets: FacetCounts, index: string)

  /** Line 110: the album facet counts only videos whose album is not `""` by loose comparison. */
  predicate AlbumShown(v: Video) {
    LooseNotEmpty(Get(v, "album"))
  }

  /** Every video's artists and chords can be tallied. */
  predicate ListsCountable(videos: seq<Video>) {
    forall i :: 0 <= i < |videos| ==> ListCountable(Get(videos[i], "artists")) && ListCountable(Get(videos[i], "chords"))
  }

  /**
   * `makeResult`: one page of hits, the number of hits and of pages, and every facet's
   * tally; it throws when an artists or chords value cannot be tallied.
   */
  method MakeResult(videos: seq<Video>, page: nat, hitsPerPage: nat, indexName: string)
    returns (r: Result<SearchResult, Fault>)
    ensures r.Ok? <==> ListsCountable(videos)
    ensures r.Ok? ==>
      && r.value.hits == PageHits(videos, page, hitsPerPage)
      && r.value.nbHits == |videos| && r.value.hitsPerPage == hitsPerPage
      && r.value.nbPages == NbPages(|videos|, hitsPerPage) && r.value.index == indexName
    ensures r.Ok? ==> var f := r.value.facets;
      && f.artists == Counts(ListItems(videos, "artists")) && f.chords == Counts(ListItems(videos, "chords"))
      && f.uploader == Counts(KeysOf(videos, "uploader")) && f.chordCount == Counts(KeysOf(videos, "chordCount"))
      && f.album == Counts(KeysOf(Filter(videos, AlbumShown), "album"))
      && f.tuning == Counts(KeysOf(videos, "tuning")) && f.language == Counts(KeysOf(videos, "language"))
      && f.published == Counts(KeysOf(videos, "published"))
  {
    var hits := PageHits(videos, page, hitsPerPage);
    var nbPages := NbPages(|videos|, hitsPerPage);
    var artists := GetListCounts(videos, "artists");
    if artists.Err? {
      return Err(artists.error);
    }
    var chords := GetListCounts(videos, "chords");
    if chords.Err? {
      return Err(chords.error);
    }
    var uploader := GetCounts(videos, "uploader");
    var chordCount := GetCounts(videos, "chordCount");
    var album := GetCounts(Filter(videos, AlbumShown), "album");
    var tuning := GetCounts(videos, "tuning");
    var language := GetCounts(videos, "language");
    var published := GetCounts(videos, "published");
    var facets := FacetCounts(artists.value, chords.value, uploader, chordCount, album, tuning, language, published);
    return Ok(SearchResult(hits, |videos|, hitsPerPage, nbPages, facets, indexName));
  }

  // ---------------------------------------------------------------- search objects

  /** `x.chords.length`: throws for a missing value, is `undefined` for a number or a boolean. */
  function ChordCount(x: Value): Result<Value, Fault> {
    match x
    case Undefined => Err(TypeError)
    case Null => Err(TypeError)
    case List(items) => Ok(Num(|items|))
    case Str(s) => Ok(Num(|s|))
    case _ => Ok(Undefined)
  }

  /** The properties `createSearchClient` adds to each record. */
  const Derived: set<string> := {"objectID", "chordCount", "tuning", "favorite", "published"}

  /**
   * Lines 131-138: the record's own properties followed by the derived ones; `favorites`
   * is the object read from local storage.
   */
  function SearchObject(x: Video, favorites: map<string, Value>): Result<Video, Fault> {
    var count := ChordCount(Get(x, "chords"));
    if count.Err? then Err(count.error)
    else
      var id := PropertyKey(Get(x, "id"));
      Ok(Video(x.props + map[
        "objectID" := Get(x, "id"),
        "chordCount" := count.value,
        "tuning" := Str(if Truthy(Get(x, "baritone")) then "Baritone" else "Standard"),
        "favorite" := Bool(id in favorites && Truthy(favorites[id])),
        "published" := Str(if Get(x, "publish") == Num(1) then "Published" else "Unpublished")]))
  }

  /** `data.map(...)`: throws when any record throws. */
  function SearchObjects(data: seq<Video>, favorites: map<string, Value>): Result<seq<Video>, Fault> {
    if data == [] then Ok([])
    else
      var first := SearchObject(data[0], favorites);
      var rest := SearchObjects(data[1..], favorites);
      if first.Err? then Err(first.error)
      else if rest.Err? then Err(rest.error)
      else Ok([first.value] + rest.value)
  }

  /**
   * What each search object holds: `objectID` is the id, `chordCount` the number of
   * chords, `tuning` is `"Baritone"` exactly when `baritone` is truthy, `published` is
   * `"Published"` exactly when `publish === 1`, and every other property is the record's.
   */
  lemma SearchObjectFields(x: Video, favorites: map<string, Value>)
    ensures SearchObject(x, favorites).Ok? <==> !(Get(x, "chords").Undefined? || Get(x, "chords").Null?)
    ensures SearchObject(x, favorites).Ok? ==> var o := SearchObject(x, favorites).value;
      && Get(o, "objectID") == Get(x, "id")
      && (Get(x, "chords").List? ==> Get(o, "chordCount") == Num(|Get(x, "chords").items|))
      && (Get(o, "tuning") == Str("Baritone") <==> Truthy(Get(x, "baritone")))
      && (Get(o, "tuning") == Str("Baritone") || Get(o, "tuning") == Str("Standard"))
      && (Get(o, "published") == Str("Published") <==> Get(x, "publish") == Num(1))
      && IsBool(Get(o, "favorite"))
      && forall p :: p !in Derived ==> Get(o, p) == Get(x, p)
  {
  }

  predicate IsBool(x: Value) {
    x.Bool?
  }

  /** The mapping succeeds when every record has chords, and then keeps the records in order. */
  lemma {:induction false} SearchObjectsMeaning(data: seq<Video>, favorites: map<string, Value>)
    ensures SearchObjects(data, favorites).Ok? <==> forall i :: 0 <= i < |data| ==> SearchObject(data[i], favorites).Ok?
    ensures SearchObjects(data, favorites).Ok? ==>
      && |SearchObjects(data, favorites).value| == |data|
      && forall i :: 0 <= i < |data| ==> SearchObjects(data, favorites).value[i] == SearchObject(data[i], favorites).value
  {
    if data != [] {
      SearchObjectsMeaning(data[1..], favorites);
      assert forall i :: 1 <= i < |data| ==> data[1..][i - 1] == data[i];
    }
  }
}
