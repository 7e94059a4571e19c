/**
 * The related-id index (`Updater._update_related` in scripts/update-data.py): rows that
 * are not ignored are grouped by their (track, album) pair, each group's ids are joined
 * with commas, and the joined string is attached to every row with that pair by a left
 * join, replacing the old `id_related` column.
 */
module Related {
  import opened Wrappers
  import opened Order
  import opened Text
  import opened Seqs
  import opened Catalog

  /** A (track, album) pair. */
  datatype Key = Key(track: string, album: string)

  /** The pair of a row that has both cells. */
  function KeyOf(r: Row): Option<Key> {
    if r.track.Some? && r.album.Some? then Some(Key(r.track.value, r.album.value)) else None
  }

  /**
   * `query('ignore != 1')` keeps rows whose ignore is missing; `groupby` leaves out rows
   * whose track or album is missing.
   */
  predicate Grouped(r: Row) {
    r.ignore != Some(1) && KeyOf(r).Some?
  }

  function InGroup(k: Key): Row -> bool {
    (r: Row) => Grouped(r) && KeyOf(r) == Some(k)
  }

  /** The ids of a group, in row order. */
  function GroupIdsOf(data: seq<Row>, k: Key): seq<string> {
    Map(Filter(data, InGroup(k)), IdOf)
  }

  /** Line 181: no related ids for a group of one, otherwise all of them joined by commas. */
  function JoinIds(ids: seq<string>): string {
    if |ids| == 1 then "" else Join(ids, ',')
  }

  /** The pairs that form groups. */
  function Keys(data: seq<Row>): set<Key> {
    set r | r in data && Grouped(r) :: KeyOf(r).value
  }

  /** `groupby` orders its groups by track, then album, comparing code points. */
  predicate KeyLess(a: Key, b: Key) {
    CmpStr(a.track, b.track) < 0 || (a.track == b.track && CmpStr(a.album, b.album) < 0)
  }

  /** Line 184: `drop_duplicates` keeps a group unless an earlier group has the same joined ids. */
  predicate Kept(data: seq<Row>, k: Key) {
    forall k' :: k' in Keys(data) && KeyLess(k', k) ==> JoinIds(GroupIdsOf(data, k')) != JoinIds(GroupIdsOf(data, k))
  }

  /** Line 188: the `id_related` cell the left join gives a row. */
  function RelatedOf(data: seq<Row>, r: Row): Option<string> {
    if KeyOf(r).Some? && KeyOf(r).value in Keys(data) && Kept(data, KeyOf(r).value) then
      Some(JoinIds(GroupIdsOf(data, KeyOf(r).value)))
    else None
  }

  function RelatedOfRow(data: seq<Row>): Row -> Row {
    (r: Row) => r.(idRelated := RelatedOf(data, r))
  }

  /**
   * `_update_related`: every row stays, in its place, and only its `id_related` changes.
   * A row without a track or an album matches no group.
   */
  function UpdateRelated(data: seq<Row>): (out: seq<Row>)
    ensures |out| == |data|
    ensures forall i :: 0 <= i < |data| ==> out[i].(idRelated := data[i].idRelated) == data[i]
    ensures forall i :: 0 <= i < |data| && KeyOf(data[i]).None? ==> out[i].idRelated == None
  {
    Map(data, RelatedOfRow(data))
  }

  // ---------------------------------------------------------------- groups

  /** Every id of a group is the id of a grouped row with that pair. */
  lemma GroupIdRow(data: seq<Row>, k: Key, t: nat) returns (a: nat)
    requires t < |GroupIdsOf(data, k)|
    ensures a < |data| && data[a].id == GroupIdsOf(data, k)[t] && Grouped(data[a]) && KeyOf(data[a]) == Some(k)
  {
    var f := Filter(data, InGroup(k));
    assert f[t] in f;
    assert GroupIdsOf(data, k)[t] == f[t].id;
    a :| 0 <= a < |data| && data[a] == f[t];
  }

  /** Ids of a group of a well-formed catalog are free of commas. */
  lemma GroupIdsCommaFree(data: seq<Row>, k: Key)
    requires forall a :: 0 <= a < |data| ==> ',' !in data[a].id
    ensures forall t :: 0 <= t < |GroupIdsOf(data, k)| ==> ',' !in GroupIdsOf(data, k)[t]
  {
    forall t | 0 <= t < |GroupIdsOf(data, k)| ensures ',' !in GroupIdsOf(data, k)[t] {
      var a := GroupIdRow(data, k, t);
    }
  }

  /** A grouped row's id is among its group's ids, and a group is never empty. */
  lemma MemberInGroup(data: seq<Row>, i: nat)
    requires i < |data| && Grouped(data[i])
    ensures KeyOf(data[i]).value in Keys(data)
    ensures data[i].id in GroupIdsOf(data, KeyOf(data[i]).value)
  {
    var k := KeyOf(data[i]).value;
    var f := Filter(data, InGroup(k));
    assert data[i] in f;
    var t :| 0 <= t < |f| && f[t] == data[i];
    assert GroupIdsOf(data, k)[t] == data[i].id;
  }

  lemma KeyHasMembers(data: seq<Row>, k: Key)
    requires k in Keys(data)
    ensures |GroupIdsOf(data, k)| >= 1
  {
    var r :| r in data && Grouped(r) && KeyOf(r).value == k;
    assert r in Filter(data, InGroup(k));
  }

  /** Joined ids are empty exactly for a group of one. */
  lemma JoinIdsEmpty(ids: seq<string>)
    requires |ids| >= 1
    ensures JoinIds(ids) == "" <==> |ids| == 1
  {
    if |ids| >= 2 {
      JoinHasSep(ids, ',');
    }
  }

  lemma KeyLessIrreflexive(k: Key)
    ensures !KeyLess(k, k)
  {
    CmpStrIsTotalOrder();
    assert CmpStr(k.track, k.track) == -CmpStr(k.track, k.track);
    assert CmpStr(k.album, k.album) == -CmpStr(k.album, k.album);
  }

  /** Ids are unique and free of commas, as catalog ids are. */
  predicate WellFormedIds(data: seq<Row>) {
    && (forall a, b :: 0 <= a < b < |data| ==> data[a].id != data[b].id)
    && (forall a :: 0 <= a < |data| ==> ',' !in data[a].id)
  }

  /** With unique, comma-free ids, a group of two or more keeps its joined ids. */
  lemma {:induction false} SharedGroupKept(data: seq<Row>, k: Key)
    requires WellFormedIds(data)
    requires k in Keys(data) && |GroupIdsOf(data, k)| >= 2
    ensures Kept(data, k)
  {
    var ids := GroupIdsOf(data, k);
    GroupIdsCommaFree(data, k);
    forall k' | k' in Keys(data) && KeyLess(k', k)
      ensures JoinIds(GroupIdsOf(data, k')) != JoinIds(ids)
    {
      var ids' := GroupIdsOf(data, k');
      KeyHasMembers(data, k');
      JoinIdsEmpty(ids);
      JoinIdsEmpty(ids');
      if JoinIds(ids') == JoinIds(ids) {
        GroupIdsCommaFree(data, k');
        SplitJoin(ids, ',');
        SplitJoin(ids', ',');
        assert ids' == ids;
        var a := GroupIdRow(data, k, 0);
        var b := GroupIdRow(data, k', 0);
        assert a == b;
        KeyLessIrreflexive(k);
        assert false;
      }
    }
  }

  // ---------------------------------------------------------------- what the index says

  /**
   * Lines 180-188: two different rows with the same pair, neither ignored, both get the
   * comma-join of all their group's ids in row order, each row's own id included; a row
   * with the same pair that is ignored gets the same cell through the left join.
   */
  lemma SharedGroupRelated(data: seq<Row>, i: nat, j: nat)
    requires WellFormedIds(data)
    requires i < |data| && j < |data| && i != j
    requires Grouped(data[i]) && Grouped(data[j]) && KeyOf(data[i]) == KeyOf(data[j])
    ensures var out := UpdateRelated(data); var ids := GroupIdsOf(data, KeyOf(data[i]).value);
      && out[i].idRelated == Some(Join(ids, ','))
      && data[i].id in ids && data[j].id in ids
      && (forall m :: 0 <= m < |data| && KeyOf(data[m]) == KeyOf(data[i]) ==> out[m].idRelated == out[i].idRelated)
  {
    var k := KeyOf(data[i]).value;
    var ids := GroupIdsOf(data, k);
    MemberInGroup(data, i);
    MemberInGroup(data, j);
    TwoDistinct(ids, data[i].id, data[j].id);
    SharedGroupKept(data, k);
  }

  /**
   * Related-id symmetry: when two different rows share a pair and neither is ignored,
   * each one's id is among the comma-separated ids in the other's `id_related`.
   */
  lemma RelatedSymmetric(data: seq<Row>, i: nat, j: nat)
    requires WellFormedIds(data)
    requires i < |data| && j < |data| && i != j
    requires Grouped(data[i]) && Grouped(data[j]) && KeyOf(data[i]) == KeyOf(data[j])
    ensures var out := UpdateRelated(data);
      && out[i].idRelated.Some? && out[i].idRelated == out[j].idRelated
      && data[i].id in Split(out[j].idRelated.value, ',')
      && data[j].id in Split(out[i].idRelated.value, ',')
  {
    var k := KeyOf(data[i]).value;
    var ids := GroupIdsOf(data, k);
    SharedGroupRelated(data, i, j);
    GroupIdsCommaFree(data, k);
    SplitJoin(ids, ',');
  }

  /**
   * Line 184: every group of one joins to `''`, so `drop_duplicates` keeps only the first
   * of them; a row of any later group of one gets a missing `id_related`.
   */
  lemma SingletonRelated(data: seq<Row>, i: nat)
    requires i < |data| && Grouped(data[i]) && |GroupIdsOf(data, KeyOf(data[i]).value)| == 1
    ensures var out := UpdateRelated(data); var k := KeyOf(data[i]).value;
      && (out[i].idRelated == Some("") || out[i].idRelated == None)
      && (out[i].idRelated == Some("") <==>
            forall k' :: k' in Keys(data) && KeyLess(k', k) ==> |GroupIdsOf(data, k')| != 1)
  {
    var k := KeyOf(data[i]).value;
    MemberInGroup(data, i);
    forall k' | k' in Keys(data)
      ensures JoinIds(GroupIdsOf(data, k')) == "" <==> |GroupIdsOf(data, k')| == 1
    {
      KeyHasMembers(data, k');
      JoinIdsEmpty(GroupIdsOf(data, k'));
    }
  }
}
