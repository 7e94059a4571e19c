/**
 * The published form of the catalog (the formatting in `Updater._write_json_data`,
 * scripts/update-data.py): rows marked ignored are left out, and the comma-delimited
 * `chords`, `artists` and `composers` cells become sorted lists without empty items.
 */
module Publish {
  import opened Wrappers
  import opened Order
  import opened Text
  import opened Seqs
  import opened Catalog

  /**
   * One published record: the row with its `chords`, `artists` and `composers` cells
   * cleared in `rest`, and those three columns as lists.
   */
  datatype PublicRecord = PublicRecord(rest: Row, chords: seq<string>, artists: seq<string>, composers: seq<string>)

  predicate NonEmpty(x: string) {
    x != ""
  }

  /** `sort_list`: `sorted(filter(None, x))`, the non-empty items in code-point order. */
  function SortList(items: seq<string>): seq<string> {
    SortBy(Filter(items, NonEmpty), StrLe)
  }

  /**
   * One list column: a missing cell reads as `''`; for artists and composers every `', '`
   * becomes `','` first; then the cell is split at commas and sorted.
   */
  function ListField(cell: Option<string>, spaced: bool): seq<string> {
    var s := cell.GetOr("");
    SortList(Split(if spaced then ReplaceAll(s, ", ", ",") else s, ','))
  }

  /** `data['ignore'] != 1`: a missing `ignore` counts as not ignored. */
  predicate Shown(r: Row) {
    r.ignore != Some(1)
  }

  function ToPublic(r: Row): PublicRecord {
    PublicRecord(r.(chords := None, artists := None, composers := None),
      ListField(r.chords, false), ListField(r.artists, true), ListField(r.composers, true))
  }

  /** `_write_json_data`: the records of the rows not marked ignored, in catalog order. */
  function PublishRecords(data: seq<Row>): seq<PublicRecord> {
    Map(Filter(data, Shown), ToPublic)
  }

  // ---------------------------------------------------------------- list columns

  /** Sorted lists: ascending by code point. */
  lemma StrLeIsPreorder()
    ensures Total(StrLe) && Transitive(StrLe)
  {
    CmpStrIsTotalOrder();
  }

  /**
   * Line 160: a sorted list keeps every non-empty item with its multiplicity, drops the
   * empty ones, and is in ascending order.
   */
  lemma SortListShape(items: seq<string>)
    ensures SortedBy(SortList(items), StrLe)
    ensures forall x :: multiset(SortList(items))[x] == if x != "" then multiset(items)[x] else 0
    ensures forall x :: x in SortList(items) <==> x in items && x != ""
  {
    StrLeIsPreorder();
    SortBySorted(Filter(items, NonEmpty), StrLe);
    FilterMultiset(items, NonEmpty);
    assert forall x :: x in SortList(items) <==> x in multiset(SortList(items));
  }

  /** A delimited cell is canonical when its items are non-empty, sorted and, for names, never follow `", "`. */
  ghost predicate Canonical(cell: Option<string>, spaced: bool) {
    && cell.Some?
    && (forall i :: 0 <= i < |Split(cell.value, ',')| ==> Split(cell.value, ',')[i] != "")
    && SortedBy(Split(cell.value, ','), StrLe)
    && (spaced ==> !Contains(cell.value, ", "))
  }

  /** Joining the list of a canonical cell with commas gives the cell back. */
  lemma {:induction false} ListFieldRoundTrip(cell: Option<string>, spaced: bool)
    requires Canonical(cell, spaced)
    ensures Join(ListField(cell, spaced), ',') == cell.value
  {
    var s := cell.value;
    if spaced {
      ReplaceAllAbsent(s, ", ", ",");
    }
    var items := Split(s, ',');
    FilterAll(items, NonEmpty);
    SortBySortedIdentity(items, StrLe);
    JoinSplit(s, ',');
  }

  // ---------------------------------------------------------------- the records

  /** The row a record was published from, when its list cells were canonical. */
  function Unpublish(p: PublicRecord): Row {
    p.rest.(chords := Some(Join(p.chords, ',')), artists := Some(Join(p.artists, ',')),
      composers := Some(Join(p.composers, ',')))
  }

  /** Publishing a row whose list cells are canonical loses nothing. */
  lemma PublishRoundTrip(r: Row)
    requires Canonical(r.chords, false) && Canonical(r.artists, true) && Canonical(r.composers, true)
    ensures Unpublish(ToPublic(r)) == r
  {
    ListFieldRoundTrip(r.chords, false);
    ListFieldRoundTrip(r.artists, true);
    ListFieldRoundTrip(r.composers, true);
  }

  /**
   * Lines 157-174: no published record comes from an ignored row, every row not marked
   * ignored is published, and every list column is sorted and free of empty items.
   */
  lemma PublishShape(data: seq<Row>)
    ensures forall p :: p in PublishRecords(data) ==> p.rest.ignore != Some(1)
    ensures forall r :: r in data && r.ignore != Some(1) ==> ToPublic(r) in PublishRecords(data)
    ensures forall p :: p in PublishRecords(data) ==>
      && SortedBy(p.chords, StrLe) && "" !in p.chords
      && SortedBy(p.artists, StrLe) && "" !in p.artists
      && SortedBy(p.composers, StrLe) && "" !in p.composers
  {
    var shown := Filter(data, Shown);
    var out := PublishRecords(data);
    forall p | p in out
      ensures p.rest.ignore != Some(1)
      ensures && SortedBy(p.chords, StrLe) && "" !in p.chords
              && SortedBy(p.artists, StrLe) && "" !in p.artists
              && SortedBy(p.composers, StrLe) && "" !in p.composers
    {
      var i :| 0 <= i < |out| && out[i] == p;
      assert shown[i] in shown;
      var r := shown[i];
      SortListShape(Split(r.chords.GetOr(""), ','));
      SortListShape(Split(ReplaceAll(r.artists.GetOr(""), ", ", ","), ','));
      SortListShape(Split(ReplaceAll(r.composers.GetOr(""), ", ", ","), ','));
    }
    forall r | r in data && r.ignore != Some(1) ensures ToPublic(r) in out {
      assert r in shown;
      var i :| 0 <= i < |shown| && shown[i] == r;
      assert out[i] == ToPublic(r);
    }
  }
}
