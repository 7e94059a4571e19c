/**
 * The persisted catalog and the merge that reconciles a freshly parsed batch with it
 * (`COLUMNS` and `Updater._merge_into_existing` in scripts/update-data.py).
 *
 * A dataframe is a sequence of rows; a missing (NaN) cell is `None`. The merge keeps
 * every value a curator has set on a `publish == 1 or ignore == 1` row, fills that row's
 * empty cells from the first parsed row with the same id that has them, adds the parsed
 * rows of every other id, drops identical rows and sorts by a fixed multi-key order.
 */
module Catalog {
  import opened Wrappers
  import opened Order
  import opened Text
  import opened Seqs

  /** A column of the catalog. */
  datatype Column =
    | Ignore | Publish | Id | Track | Chords | SongKey | Album | Artists | Composers | Language
    | LoopStart | LoopEnd | Title | Channel | UploadDate | Uploader | IdRelated | Baritone

  /** The column's header in the CSV file. */
  function ColumnName(c: Column): string {
    match c
    case Ignore => "ignore"
    case Publish => "publish"
    case Id => "id"
    case Track => "track"
    case Chords => "chords"
    case SongKey => "key"
    case Album => "album"
    case Artists => "artists"
    case Composers => "composers"
    case Language => "language"
    case LoopStart => "loop_start"
    case LoopEnd => "loop_end"
    case Title => "title"
    case Channel => "channel"
    case UploadDate => "upload_date"
    case Uploader => "uploader"
    case IdRelated => "id_related"
    case Baritone => "baritone"
  }

  /** `COLUMNS`: the catalog's columns, in order. */
  const Columns: seq<Column> := [
    Ignore, Publish, Id, Track, Chords, SongKey, Album, Artists, Composers, Language,
    LoopStart, LoopEnd, Title, Channel, UploadDate, Uploader, IdRelated, Baritone]

  /**
   * An upload date. `pd.read_csv` without a `dtype` reads the catalog's `yyyymmdd` dates
   * as numbers; a freshly parsed batch holds them as text.
   */
  datatype Date = LoadedDate(n: int) | ParsedDate(s: string)

  /** One catalog row: a field per entry of `Columns`, in the same order. */
  datatype Row = Row(
    ignore: Option<int>, publish: Option<int>, id: string, track: Option<string>,
    chords: Option<string>, key: Option<string>, album: Option<string>, artists: Option<string>,
    composers: Option<string>, language: Option<string>, loopStart: Option<int>, loopEnd: Option<int>,
    title: Option<string>, channel: Option<string>, uploadDate: Option<Date>, uploader: Option<string>,
    idRelated: Option<string>, baritone: Option<int>)

  /** A cell that holds a value: a number or a string. */
  datatype Cell = IntCell(n: int) | StrCell(s: string)

  function IntCellOf(o: Option<int>): Option<Cell> {
    if o.Some? then Some(IntCell(o.value)) else None
  }

  function StrCellOf(o: Option<string>): Option<Cell> {
    if o.Some? then Some(StrCell(o.value)) else None
  }

  function DateCellOf(o: Option<Date>): Option<Cell> {
    match o
    case Some(LoadedDate(n)) => Some(IntCell(n))
    case Some(ParsedDate(t)) => Some(StrCell(t))
    case None => None
  }

  lemma IntCellInjective(a: Option<int>, b: Option<int>)
    requires IntCellOf(a) == IntCellOf(b)
    ensures a == b
  {
  }

  lemma StrCellInjective(a: Option<string>, b: Option<string>)
    requires StrCellOf(a) == StrCellOf(b)
    ensures a == b
  {
  }

  lemma DateCellInjective(a: Option<Date>, b: Option<Date>)
    requires DateCellOf(a) == DateCellOf(b)
    ensures a == b
  {
  }

  /** The cell of a row in a column; no value for a missing cell. */
  function CellAt(r: Row, c: Column): Option<Cell> {
    match c
    case Ignore => IntCellOf(r.ignore)
    case Publish => IntCellOf(r.publish)
    case Id => Some(StrCell(r.id))
    case Track => StrCellOf(r.track)
    case Chords => StrCellOf(r.chords)
    case SongKey => StrCellOf(r.key)
    case Album => StrCellOf(r.album)
    case Artists => StrCellOf(r.artists)
    case Composers => StrCellOf(r.composers)
    case Language => StrCellOf(r.language)
    case LoopStart => IntCellOf(r.loopStart)
    case LoopEnd => IntCellOf(r.loopEnd)
    case Title => StrCellOf(r.title)
    case Channel => StrCellOf(r.channel)
    case UploadDate => DateCellOf(r.uploadDate)
    case Uploader => StrCellOf(r.uploader)
    case IdRelated => StrCellOf(r.idRelated)
    case Baritone => IntCellOf(r.baritone)
  }

  /** `COLUMNS` lists every column. */
  lemma ColumnsListed(c: Column)
    ensures c in Columns
  {
  }

  /**
   * `data[COLUMNS]` loses nothing: `COLUMNS` names every field of a row, so two rows with
   * the same cell in every listed column are the same row.
   */
  lemma ColumnsCoverRow(r1: Row, r2: Row)
    requires forall c :: c in Columns ==> CellAt(r1, c) == CellAt(r2, c)
    ensures r1 == r2
  {
    forall c ensures CellAt(r1, c) == CellAt(r2, c) {
      ColumnsListed(c);
    }
    CellsDetermineRow(r1, r2);
  }

  lemma CellsDetermineRow(r1: Row, r2: Row)
    requires forall c :: CellAt(r1, c) == CellAt(r2, c)
    ensures r1 == r2
  {
    assert r1.ignore == r2.ignore by {
      assert CellAt(r1, Ignore) == CellAt(r2, Ignore);
      IntCellInjective(r1.ignore, r2.ignore);
    }
    assert r1.publish == r2.publish by {
      assert CellAt(r1, Publish) == CellAt(r2, Publish);
      IntCellInjective(r1.publish, r2.publish);
    }
    assert r1.id == r2.id by { assert CellAt(r1, Id) == CellAt(r2, Id); }
    assert r1.track == r2.track by {
      assert CellAt(r1, Track) == CellAt(r2, Track);
      StrCellInjective(r1.track, r2.track);
    }
    assert r1.chords == r2.chords by {
      assert CellAt(r1, Chords) == CellAt(r2, Chords);
      StrCellInjective(r1.chords, r2.chords);
    }
    assert r1.key == r2.key by {
      assert CellAt(r1, SongKey) == CellAt(r2, SongKey);
      StrCellInjective(r1.key, r2.key);
    }
    assert r1.album == r2.album by {
      assert CellAt(r1, Album) == CellAt(r2, Album);
      StrCellInjective(r1.album, r2.album);
    }
    assert r1.artists == r2.artists by {
      assert CellAt(r1, Artists) == CellAt(r2, Artists);
      StrCellInjective(r1.artists, r2.artists);
    }
    assert r1.composers == r2.composers by {
      assert CellAt(r1, Composers) == CellAt(r2, Composers);
      StrCellInjective(r1.composers, r2.composers);
    }
    assert r1.language == r2.language by {
      assert CellAt(r1, Language) == CellAt(r2, Language);
      StrCellInjective(r1.language, r2.language);
    }
    assert r1.loopStart == r2.loopStart by {
      assert CellAt(r1, LoopStart) == CellAt(r2, LoopStart);
      IntCellInjective(r1.loopStart, r2.loopStart);
    }
    assert r1.loopEnd == r2.loopEnd by {
      assert CellAt(r1, LoopEnd) == CellAt(r2, LoopEnd);
      IntCellInjective(r1.loopEnd, r2.loopEnd);
    }
    assert r1.title == r2.title by {
      assert CellAt(r1, Title) == CellAt(r2, Title);
      StrCellInjective(r1.title, r2.title);
    }
    assert r1.channel == r2.channel by {
      assert CellAt(r1, Channel) == CellAt(r2, Channel);
      StrCellInjective(r1.channel, r2.channel);
    }
    assert r1.uploadDate == r2.uploadDate by {
      assert CellAt(r1, UploadDate) == CellAt(r2, UploadDate);
      DateCellInjective(r1.uploadDate, r2.uploadDate);
    }
    assert r1.uploader == r2.uploader by {
      assert CellAt(r1, Uploader) == CellAt(r2, Uploader);
      StrCellInjective(r1.uploader, r2.uploader);
    }
    assert r1.idRelated == r2.idRelated by {
      assert CellAt(r1, IdRelated) == CellAt(r2, IdRelated);
      StrCellInjective(r1.idRelated, r2.idRelated);
    }
    assert r1.baritone == r2.baritone by {
      assert CellAt(r1, Baritone) == CellAt(r2, Baritone);
      IntCellInjective(r1.baritone, r2.baritone);
    }
  }

  /** `publish == 1 or ignore == 1`: a row a curator has decided on. */
  predicate IsCurated(r: Row) {
    r.publish == Some(1) || r.ignore == Some(1)
  }

  // ---------------------------------------------------------------- groupby('id').agg('first')

  function First<T>(a: Option<T>, b: Option<T>): Option<T> {
    if a.Some? then a else b
  }

  /** Each cell taken from `a` where `a` has a value, and from `b` otherwise. */
  function Coalesce(id: string, a: Row, b: Row): Row {
    Row(First(a.ignore, b.ignore), First(a.publish, b.publish), id, First(a.track, b.track),
        First(a.chords, b.chords), First(a.key, b.key), First(a.album, b.album), First(a.artists, b.artists),
        First(a.composers, b.composers), First(a.language, b.language), First(a.loopStart, b.loopStart),
        First(a.loopEnd, b.loopEnd), First(a.title, b.title), First(a.channel, b.channel),
        First(a.uploadDate, b.uploadDate), First(a.uploader, b.uploader), First(a.idRelated, b.idRelated),
        First(a.baritone, b.baritone))
  }

  /** A row whose every cell is missing. */
  function Blank(id: string): Row {
    Row(None, None, id, None, None, None, None, None, None, None, None, None, None, None, None, None, None, None)
  }

  /** `agg('first')` on one group: per column, the first value present in row order. */
  function AggregateFirst(id: string, g: seq<Row>): (r: Row)
    ensures r.id == id
  {
    if g == [] then Blank(id) else Coalesce(id, g[0], AggregateFirst(id, g[1..]))
  }

  /** `r` holds every value `base` holds. */
  predicate Keeps(r: Row, base: Row) {
    && (base.ignore.Some? ==> r.ignore == base.ignore)
    && (base.publish.Some? ==> r.publish == base.publish)
    && (base.track.Some? ==> r.track == base.track)
    && (base.chords.Some? ==> r.chords == base.chords)
    && (base.key.Some? ==> r.key == base.key)
    && (base.album.Some? ==> r.album == base.album)
    && (base.artists.Some? ==> r.artists == base.artists)
    && (base.composers.Some? ==> r.composers == base.composers)
    && (base.language.Some? ==> r.language == base.language)
    && (base.loopStart.Some? ==> r.loopStart == base.loopStart)
    && (base.loopEnd.Some? ==> r.loopEnd == base.loopEnd)
    && (base.title.Some? ==> r.title == base.title)
    && (base.channel.Some? ==> r.channel == base.channel)
    && (base.uploadDate.Some? ==> r.uploadDate == base.uploadDate)
    && (base.uploader.Some? ==> r.uploader == base.uploader)
    && (base.idRelated.Some? ==> r.idRelated == base.idRelated)
    && (base.baritone.Some? ==> r.baritone == base.baritone)
  }

  /** `r` has a value in every column where `other` has one. */
  predicate Covers(r: Row, other: Row) {
    && (other.ignore.Some? ==> r.ignore.Some?)
    && (other.publish.Some? ==> r.publish.Some?)
    && (other.track.Some? ==> r.track.Some?)
    && (other.chords.Some? ==> r.chords.Some?)
    && (other.key.Some? ==> r.key.Some?)
    && (other.album.Some? ==> r.album.Some?)
    && (other.artists.Some? ==> r.artists.Some?)
    && (other.composers.Some? ==> r.composers.Some?)
    && (other.language.Some? ==> r.language.Some?)
    && (other.loopStart.Some? ==> r.loopStart.Some?)
    && (other.loopEnd.Some? ==> r.loopEnd.Some?)
    && (other.title.Some? ==> r.title.Some?)
    && (other.channel.Some? ==> r.channel.Some?)
    && (other.uploadDate.Some? ==> r.uploadDate.Some?)
    && (other.uploader.Some? ==> r.uploader.Some?)
    && (other.idRelated.Some? ==> r.idRelated.Some?)
    && (other.baritone.Some? ==> r.baritone.Some?)
  }

  /** A row without a missing cell. */
  predicate Complete(r: Row) {
    Covers(r, Blank(r.id).(ignore := Some(0), publish := Some(0), track := Some([]), chords := Some([]),
      key := Some([]), album := Some([]), artists := Some([]), composers := Some([]), language := Some([]),
      loopStart := Some(0), loopEnd := Some(0), title := Some([]), channel := Some([]), uploadDate := Some(ParsedDate([])),
      uploader := Some([]), idRelated := Some([]), baritone := Some(0)))
  }

  lemma CoalesceKeeps(id: string, a: Row, b: Row)
    ensures Keeps(Coalesce(id, a, b), a) && Covers(Coalesce(id, a, b), a) && Covers(Coalesce(id, a, b), b)
  {
  }

  lemma CoversTransitive(x: Row, y: Row, z: Row)
    requires Covers(x, y) && Covers(y, z)
    ensures Covers(x, z)
  {
  }

  /**
   * The aggregate of a group keeps every value of the group's first row, and loses no
   * column: a cell is missing in the aggregate only when it is missing in every row.
   */
  lemma {:induction false} AggregateFirstKeeps(id: string, g: seq<Row>)
    ensures g != [] ==> Keeps(AggregateFirst(id, g), g[0])
    ensures forall r :: r in g ==> Covers(AggregateFirst(id, g), r)
    decreases |g|
  {
    if g != [] {
      var rest := AggregateFirst(id, g[1..]);
      AggregateFirstKeeps(id, g[1..]);
      CoalesceKeeps(id, g[0], rest);
      forall r | r in g ensures Covers(AggregateFirst(id, g), r) {
        if r != g[0] {
          assert r in g[1..];
          CoversTransitive(AggregateFirst(id, g), rest, r);
        }
      }
    }
  }

  /** A row that keeps every value of a complete row with the same id is that row. */
  lemma KeepsComplete(r: Row, base: Row)
    requires Complete(base) && Keeps(r, base) && r.id == base.id
    ensures r == base
  {
  }

  // ---------------------------------------------------------------- the merge

  /** The ids of the curated rows of the existing catalog. */
  function CuratedIds(existing: seq<Row>): set<string> {
    set r | r in existing && IsCurated(r) :: r.id
  }

  function IdOf(r: Row): string {
    r.id
  }

  function HasId(id: string): Row -> bool {
    (r: Row) => r.id == id
  }

  function IdIn(ids: set<string>): Row -> bool {
    (r: Row) => r.id in ids
  }

  function IdNotIn(ids: set<string>): Row -> bool {
    (r: Row) => r.id !in ids
  }

  /** The rows of `pool` whose id is `id`, in order. */
  function WithId(pool: seq<Row>, id: string): seq<Row> {
    Filter(pool, HasId(id))
  }

  /** The curated rows followed by the parsed rows of curated ids (line 199). */
  function CuratedPool(existing: seq<Row>, parsed: seq<Row>): seq<Row> {
    Filter(existing, IsCurated) + Filter(parsed, IdIn(CuratedIds(existing)))
  }

  /** The reconciled row of a curated id (line 200). */
  function MergedRow(existing: seq<Row>, parsed: seq<Row>, id: string): Row {
    AggregateFirst(id, WithId(CuratedPool(existing, parsed), id))
  }

  function MergedRowOf(existing: seq<Row>, parsed: seq<Row>): string -> Row {
    (id: string) => MergedRow(existing, parsed, id)
  }

  /** The curated ids in `groupby` order: sorted, each once. */
  function GroupIds(existing: seq<Row>): seq<string> {
    SortBy(Dedup(Map(Filter(existing, IsCurated), IdOf)), StrLe)
  }

  /** Lines 197-200: one reconciled row per curated id. */
  function Reconciled(existing: seq<Row>, parsed: seq<Row>): seq<Row> {
    Map(GroupIds(existing), MergedRowOf(existing, parsed))
  }

  /** Line 203: the parsed rows of ids no curator has decided on. */
  function FreshRows(existing: seq<Row>, parsed: seq<Row>): seq<Row> {
    Filter(parsed, IdNotIn(CuratedIds(existing)))
  }

  /** Line 204: the reconciled rows and the fresh rows, without duplicates. */
  function Combined(existing: seq<Row>, parsed: seq<Row>): seq<Row> {
    Dedup(Reconciled(existing, parsed) + FreshRows(existing, parsed))
  }

  /**
   * `_merge_into_existing`: the combined rows sorted, with `upload_date` compared as text
   * when some row holds a parsed date.
   */
  function Merge(existing: seq<Row>, parsed: seq<Row>): seq<Row> {
    var rows := Combined(existing, parsed);
    SortBy(rows, RowLe(TextDates(rows)))
  }

  // ---------------------------------------------------------------- what the merge keeps

  function CuratedWithId(id: string): Row -> bool {
    (r: Row) => IsCurated(r) && r.id == id
  }

  /** The group ids are the curated ids, each exactly once. */
  lemma GroupIdsAreCuratedIds(existing: seq<Row>)
    ensures forall id :: multiset(GroupIds(existing))[id] == if id in CuratedIds(existing) then 1 else 0
  {
    var curated := Filter(existing, IsCurated);
    var m := Map(curated, IdOf);
    forall id ensures id in m <==> id in CuratedIds(existing) {
      if id in m {
        var i :| 0 <= i < |m| && m[i] == id;
        assert curated[i] in curated;
      }
      if id in CuratedIds(existing) {
        var r :| r in existing && IsCurated(r) && r.id == id;
        assert r in curated;
        var i :| 0 <= i < |curated| && curated[i] == r;
        assert m[i] == id;
      }
    }
  }

  /** The reconciled rows are exactly the merged rows of the curated ids. */
  lemma ReconciledRows(existing: seq<Row>, parsed: seq<Row>)
    ensures forall y :: y in Reconciled(existing, parsed) ==>
      y.id in CuratedIds(existing) && y == MergedRow(existing, parsed, y.id)
    ensures forall id :: id in CuratedIds(existing) ==> MergedRow(existing, parsed, id) in Reconciled(existing, parsed)
  {
    GroupIdsAreCuratedIds(existing);
    forall y | y in Reconciled(existing, parsed)
      ensures y.id in CuratedIds(existing) && y == MergedRow(existing, parsed, y.id)
    {
      ReconciledRow(existing, parsed, y);
    }
    forall id | id in CuratedIds(existing) ensures MergedRow(existing, parsed, id) in Reconciled(existing, parsed) {
      CuratedIdReconciled(existing, parsed, id);
    }
  }

  lemma ReconciledRow(existing: seq<Row>, parsed: seq<Row>, y: Row)
    requires forall id :: multiset(GroupIds(existing))[id] == if id in CuratedIds(existing) then 1 else 0
    requires y in Reconciled(existing, parsed)
    ensures y.id in CuratedIds(existing) && y == MergedRow(existing, parsed, y.id)
  {
    var g := GroupIds(existing);
    var rec := Reconciled(existing, parsed);
    var i :| 0 <= i < |rec| && rec[i] == y;
    assert y == MergedRow(existing, parsed, g[i]);
    assert g[i] in multiset(g);
  }

  lemma CuratedIdReconciled(existing: seq<Row>, parsed: seq<Row>, id: string)
    requires forall id :: multiset(GroupIds(existing))[id] == if id in CuratedIds(existing) then 1 else 0
    requires id in CuratedIds(existing)
    ensures MergedRow(existing, parsed, id) in Reconciled(existing, parsed)
  {
    var g := GroupIds(existing);
    assert id in multiset(g);
    var i :| 0 <= i < |g| && g[i] == id;
    assert Reconciled(existing, parsed)[i] == MergedRow(existing, parsed, id);
  }

  /** The merge holds each reconciled and each fresh row exactly once, and nothing else. */
  lemma MergeMultiplicity(existing: seq<Row>, parsed: seq<Row>)
    ensures forall y :: multiset(Merge(existing, parsed))[y] ==
             if y in Reconciled(existing, parsed) || y in FreshRows(existing, parsed) then 1 else 0
  {
  }

  /**
   * Lines 197-200: the reconciled row of an id whose first curated existing row is
   * `existing[k]` keeps every value that row has (parsed data only fills its empty cells),
   * and it is that row itself when the row has no empty cell.
   */
  lemma MergedRowKeeps(existing: seq<Row>, parsed: seq<Row>, k: nat)
    requires k < |existing| && IsCurated(existing[k])
    requires forall j :: 0 <= j < k && IsCurated(existing[j]) ==> existing[j].id != existing[k].id
    ensures var m := MergedRow(existing, parsed, existing[k].id);
      Keeps(m, existing[k]) && (Complete(existing[k]) ==> m == existing[k])
  {
    var c := existing[k];
    var x := c.id;
    var curated := Filter(existing, IsCurated);
    var others := Filter(parsed, IdIn(CuratedIds(existing)));
    FilterConcat(curated, others, HasId(x));
    FilterFilter(existing, IsCurated, HasId(x), CuratedWithId(x));
    FilterFirst(existing, CuratedWithId(x), k);
    var g := WithId(CuratedPool(existing, parsed), x);
    assert g == Filter(existing, CuratedWithId(x)) + Filter(others, HasId(x));
    assert g[0] == c;
    AggregateFirstKeeps(x, g);
    var m := MergedRow(existing, parsed, x);
    if Complete(c) {
      KeepsComplete(m, c);
    }
  }

  /**
   * Lines 197-200: an id whose first curated existing row is `existing[k]` has exactly one
   * row in the merge, and that row keeps every value the curated row has.
   */
  lemma MergeKeepsCurated(existing: seq<Row>, parsed: seq<Row>, k: nat)
    requires k < |existing| && IsCurated(existing[k])
    requires forall j :: 0 <= j < k && IsCurated(existing[j]) ==> existing[j].id != existing[k].id
    ensures var out := Merge(existing, parsed); var m := MergedRow(existing, parsed, existing[k].id);
      && multiset(out)[m] == 1
      && (forall y :: y in out && y.id == existing[k].id ==> y == m)
      && Keeps(m, existing[k])
      && (Complete(existing[k]) ==> m == existing[k])
  {
    var x := existing[k].id;
    var out := Merge(existing, parsed);
    var m := MergedRow(existing, parsed, x);
    MergedRowKeeps(existing, parsed, k);
    assert x in CuratedIds(existing) by {
      assert existing[k] in existing;
    }
    assert multiset(out)[m] == 1 by {
      ReconciledRows(existing, parsed);
      MergeMultiplicity(existing, parsed);
    }
    assert forall y :: y in out && y.id == x ==> y == m by {
      MergeFreshRows(existing, parsed);
    }
  }

  /**
   * Line 203: a parsed row reaches the merge exactly when no curator has decided on its id;
   * every other row of the merge is the reconciled row of a curated id.
   */
  lemma MergeFreshRows(existing: seq<Row>, parsed: seq<Row>)
    ensures forall r :: r in parsed && r.id !in CuratedIds(existing) ==> r in Merge(existing, parsed)
    ensures forall y :: y in Merge(existing, parsed) ==>
      || (y.id !in CuratedIds(existing) && y in parsed)
      || (y.id in CuratedIds(existing) && y == MergedRow(existing, parsed, y.id))
  {
    var out := Merge(existing, parsed);
    ReconciledRows(existing, parsed);
    MergeMultiplicity(existing, parsed);
    forall r | r in parsed && r.id !in CuratedIds(existing) ensures r in out {
      assert r in FreshRows(existing, parsed);
      assert multiset(out)[r] == 1;
    }
    forall y | y in out
      ensures || (y.id !in CuratedIds(existing) && y in parsed)
              || (y.id in CuratedIds(existing) && y == MergedRow(existing, parsed, y.id))
    {
      assert multiset(out)[y] > 0;
    }
  }

  /**
   * An existing row that is not curated and whose id the batch does not hold is dropped:
   * the merge keeps only curated and freshly parsed rows.
   */
  lemma MergeDropsStaleRows(existing: seq<Row>, parsed: seq<Row>, e: Row)
    requires e in existing && e.id !in CuratedIds(existing)
    requires forall r :: r in parsed ==> r.id != e.id
    ensures e !in Merge(existing, parsed)
  {
    MergeFreshRows(existing, parsed);
  }

  /** Merging a batch into a catalog without curated rows keeps every row of the batch, and nothing else. */
  lemma MergeWithoutCurated(existing: seq<Row>, parsed: seq<Row>)
    requires CuratedIds(existing) == {}
    ensures forall y :: y in Merge(existing, parsed) <==> y in parsed
  {
    MergeFreshRows(existing, parsed);
  }

  /** When every row has one id and it is curated, every row of the merge is its reconciled row. */
  lemma MergeOneId(existing: seq<Row>, parsed: seq<Row>, x: string)
    requires x in CuratedIds(existing)
    requires forall y :: y in existing ==> y.id == x
    requires forall y :: y in parsed ==> y.id == x
    ensures forall y :: y in Merge(existing, parsed) ==> y == MergedRow(existing, parsed, x)
  {
    assert forall id :: id in CuratedIds(existing) ==> id == x;
    MergeFreshRows(existing, parsed);
  }

  /** When every row has one id and it is curated, the merge holds a single row. */
  lemma MergeSingleId(existing: seq<Row>, parsed: seq<Row>, x: string)
    requires x in CuratedIds(existing)
    requires forall y :: y in existing ==> y.id == x
    requires forall y :: y in parsed ==> y.id == x
    ensures |Merge(existing, parsed)| <= 1
  {
    MergeOneId(existing, parsed, x);
    MergeNoDuplicates(existing, parsed);
    NoDupSingleValue(Merge(existing, parsed), MergedRow(existing, parsed, x));
  }

  /**
   * The merge is not idempotent: a batch holding two different rows for one id, both with
   * `ignore == 1`, yields both rows on a first merge into an empty catalog, and on merging
   * the same batch again those rows are curated and collapse into one.
   */
  lemma MergeNotIdempotent(r1: Row, r2: Row)
    requires r1.id == r2.id && r1 != r2 && r1.ignore == Some(1) && r2.ignore == Some(1)
    ensures var once := Merge([], [r1, r2]); Merge(once, [r1, r2]) != once
  {
    var batch := [r1, r2];
    var once := Merge([], batch);
    MergeWithoutCurated([], batch);
    assert r1 in once && r2 in once;
    TwoDistinct(once, r1, r2);
    assert r1.id in CuratedIds(once);
    MergeSingleId(once, batch, r1.id);
  }

  /** Line 204: no two rows of the merge are identical. */
  lemma MergeNoDuplicates(existing: seq<Row>, parsed: seq<Row>)
    ensures NoDup(Merge(existing, parsed))
  {
    MergeMultiplicity(existing, parsed);
    MultiplicityOneNoDup(Merge(existing, parsed));
  }

  /** Reordering rows does not change whether some row holds a parsed date. */
  lemma TextDatesPermutation(s: seq<Row>, t: seq<Row>)
    requires multiset(s) == multiset(t)
    ensures TextDates(s) == TextDates(t)
  {
    forall r ensures r in s <==> r in t {
      assert r in s <==> r in multiset(s);
      assert r in t <==> r in multiset(t);
    }
  }

  /**
   * Lines 206-209: the merge is sorted by the multi-key order, with `upload_date` read as
   * text when some merged row holds a parsed date; in particular `ignore` never increases
   * along it, and within equal `ignore` neither does `publish`, with missing values last.
   */
  lemma MergeSorted(existing: seq<Row>, parsed: seq<Row>)
    ensures var out := Merge(existing, parsed); SortedBy(out, RowLe(TextDates(out)))
    ensures var out := Merge(existing, parsed);
      forall i, j :: 0 <= i < j < |out| ==>
        && (out[j].ignore.Some? ==> out[i].ignore.Some? && out[i].ignore.value >= out[j].ignore.value)
        && (out[i].ignore == out[j].ignore && out[j].publish.Some? ==>
              out[i].publish.Some? && out[i].publish.value >= out[j].publish.value)
  {
    var t := Combined(existing, parsed);
    var textual := TextDates(t);
    RowLeIsPreorder(textual);
    SortBySorted(t, RowLe(textual));
    var out := Merge(existing, parsed);
    TextDatesPermutation(t, out);
    forall i, j | 0 <= i < j < |out|
      ensures && (out[j].ignore.Some? ==> out[i].ignore.Some? && out[i].ignore.value >= out[j].ignore.value)
              && (out[i].ignore == out[j].ignore && out[j].publish.Some? ==>
                    out[i].publish.Some? && out[i].publish.value >= out[j].publish.value)
    {
      RowLeKeys(textual, out[i], out[j]);
    }
  }

  /** The two rows tie on the five keys before `upload_date`. */
  predicate SameLeadingKeys(a: Row, b: Row) {
    a.ignore == b.ignore && a.publish == b.publish && a.track == b.track && a.album == b.album && a.artists == b.artists
  }

  predicate HasParsedDate(r: Row) {
    r.uploadDate.Some? && r.uploadDate.value.ParsedDate?
  }

  /** Rows that tie on the leading keys are ordered by their dates alone. */
  lemma LeadingKeysTie(textual: bool, a: Row, b: Row)
    requires SameLeadingKeys(a, b)
    ensures SortOrder(textual)(a, b) == DateOrder(textual)(a, b)
  {
    CaselessPreorder();
    IntDescPreorder();
    var c6 := DateOrder(textual);
    var c5 := Then(On(ArtistsKey, NoneLast(Caseless)), c6);
    var c4 := Then(On(AlbumKey, NoneLast(Caseless)), c5);
    var c3 := Then(On(TrackKey, NoneLast(Caseless)), c4);
    var c2 := Then(On(PublishKey, NoneLast(IntDesc)), c3);
    var c1 := On(IgnoreKey, NoneLast(IntDesc));
    assert SortOrder(textual) == Then(c1, c2);
    assert c5(a, b) == c6(a, b) by {
      if a.artists.Some? { assert Caseless(a.artists.value, a.artists.value) == 0; }
    }
    assert c4(a, b) == c5(a, b) by {
      if a.album.Some? { assert Caseless(a.album.value, a.album.value) == 0; }
    }
    assert c3(a, b) == c4(a, b) by {
      if a.track.Some? { assert Caseless(a.track.value, a.track.value) == 0; }
    }
    assert c2(a, b) == c3(a, b) by {
      if a.publish.Some? { assert IntDesc(a.publish.value, a.publish.value) == 0; }
    }
    assert c1(a, b) == 0 by {
      if a.ignore.Some? { assert IntDesc(a.ignore.value, a.ignore.value) == 0; }
    }
  }

  /**
   * Line 208 on an `object` column: among rows that tie on the leading keys, a parsed date
   * comes strictly before a date loaded from the catalog, which `str.lower()` turns into NaN.
   */
  lemma ParsedDatesFirst(a: Row, b: Row)
    requires SameLeadingKeys(a, b) && HasParsedDate(a) && !HasParsedDate(b)
    ensures RowLe(true)(a, b) && !RowLe(true)(b, a)
  {
    LeadingKeysTie(true, a, b);
    LeadingKeysTie(true, b, a);
    assert TextDateKey(a).Some? && TextDateKey(b).None?;
    assert DateOrder(true)(a, b) == NoneLast(Caseless)(TextDateKey(a), TextDateKey(b)) == -1;
    assert DateOrder(true)(b, a) == NoneLast(Caseless)(TextDateKey(b), TextDateKey(a)) == 1;
  }

  /** Line 208 on an `object` column: two loaded or missing dates tie, so their rows keep their order. */
  lemma LoadedDatesTie(a: Row, b: Row)
    requires SameLeadingKeys(a, b) && !HasParsedDate(a) && !HasParsedDate(b)
    ensures RowLe(true)(a, b) && RowLe(true)(b, a)
  {
    LeadingKeysTie(true, a, b);
    LeadingKeysTie(true, b, a);
    assert TextDateKey(a).None? && TextDateKey(b).None?;
    assert DateOrder(true)(a, b) == NoneLast(Caseless)(TextDateKey(a), TextDateKey(b)) == 0;
    assert DateOrder(true)(b, a) == NoneLast(Caseless)(TextDateKey(b), TextDateKey(a)) == 0;
  }

  /**
   * When the merge holds a parsed date, rows that tie on the leading keys put every parsed
   * date before every date loaded from the catalog, whatever the dates' values.
   */
  lemma MergeLoadedDatesLast(existing: seq<Row>, parsed: seq<Row>)
    ensures var out := Merge(existing, parsed);
      TextDates(out) ==>
        forall i, j :: 0 <= i < j < |out| && SameLeadingKeys(out[i], out[j]) && HasParsedDate(out[j]) ==>
          HasParsedDate(out[i])
  {
    var out := Merge(existing, parsed);
    MergeSorted(existing, parsed);
    if TextDates(out) {
      forall i, j | 0 <= i < j < |out| && SameLeadingKeys(out[i], out[j]) && HasParsedDate(out[j])
        ensures HasParsedDate(out[i])
      {
        assert RowLe(true)(out[i], out[j]);
        if !HasParsedDate(out[i]) {
          ParsedDatesFirst(out[j], out[i]);
        }
      }
    }
  }

  /** What `RowLe` says about the two leading keys. */
  lemma RowLeKeys(textual: bool, a: Row, b: Row)
    requires RowLe(textual)(a, b)
    ensures b.ignore.Some? ==> a.ignore.Some? && a.ignore.value >= b.ignore.value
    ensures a.ignore == b.ignore && b.publish.Some? ==> a.publish.Some? && a.publish.value >= b.publish.value
  {
    var c6 := DateOrder(textual);
    var c5 := Then(On(ArtistsKey, NoneLast(Caseless)), c6);
    var c4 := Then(On(AlbumKey, NoneLast(Caseless)), c5);
    var c3 := Then(On(TrackKey, NoneLast(Caseless)), c4);
    var c2 := Then(On(PublishKey, NoneLast(IntDesc)), c3);
    var c1 := On(IgnoreKey, NoneLast(IntDesc));
    assert SortOrder(textual) == Then(c1, c2);
    var k1 := NoneLast(IntDesc)(a.ignore, b.ignore);
    var k2 := NoneLast(IntDesc)(a.publish, b.publish);
    assert c1(a, b) == k1;
    assert c2(a, b) == if k2 != 0 then k2 else c3(a, b);
    assert SortOrder(textual)(a, b) == if k1 != 0 then k1 else c2(a, b);
    if a.ignore == b.ignore {
      assert k1 == 0 by {
        if a.ignore.Some? {
          assert IntDesc(a.ignore.value, b.ignore.value) == 0;
        }
      }
      assert SortOrder(textual)(a, b) == c2(a, b);
      if b.publish.Some? {
        assert a.publish.Some? && IntDesc(a.publish.value, b.publish.value) <= 0;
      }
    }
    if b.ignore.Some? {
      assert a.ignore.Some? && IntDesc(a.ignore.value, b.ignore.value) <= 0;
    }
  }

  // ---------------------------------------------------------------- sort order

  /** A missing value sorts after every present one (`na_position='last'`). */
  function NoneLast<T>(cmp: (T, T) -> int): (Option<T>, Option<T>) -> int {
    (a: Option<T>, b: Option<T>) =>
      if a.None? && b.None? then 0
      else if a.None? then 1
      else if b.None? then -1
      else cmp(a.value, b.value)
  }

  /** Numbers in ascending order. */
  function IntAsc(x: int, y: int): int {
    if x < y then -1 else if x > y then 1 else 0
  }

  /** Numbers in descending order. */
  function IntDesc(x: int, y: int): int {
    if x > y then -1 else if x < y then 1 else 0
  }

  /** Strings compared by their lower-case forms (`col.str.lower()`). */
  function Caseless(x: string, y: string): int {
    CmpStr(Lower(x), Lower(y))
  }

  function IgnoreKey(r: Row): Option<int> { r.ignore }
  function PublishKey(r: Row): Option<int> { r.publish }
  function TrackKey(r: Row): Option<string> { r.track }
  function AlbumKey(r: Row): Option<string> { r.album }
  function ArtistsKey(r: Row): Option<string> { r.artists }

  /** Some row holds a parsed date: `pd.concat` then makes `upload_date` an `object` column. */
  predicate TextDates(rows: seq<Row>) {
    exists r :: r in rows && r.uploadDate.Some? && r.uploadDate.value.ParsedDate?
  }

  /** In an `object` column `col.str.lower()` keeps the text dates; a loaded number becomes NaN. */
  function TextDateKey(r: Row): Option<string> {
    match r.uploadDate
    case Some(ParsedDate(t)) => Some(t)
    case _ => None
  }

  /** In a numeric column the key is the column itself. */
  function NumberDateKey(r: Row): Option<int> {
    match r.uploadDate
    case Some(LoadedDate(n)) => Some(n)
    case _ => None
  }

  /** Line 208: how `upload_date` compares, by the type of its column. */
  function DateOrder(textual: bool): (Row, Row) -> int {
    if textual then On(TextDateKey, NoneLast(Caseless)) else On(NumberDateKey, NoneLast(IntAsc))
  }

  /**
   * Lines 206-209: ignore and publish descending, then track, album and artists ascending
   * and case-insensitive, then upload_date ascending by its column's type; a missing value
   * last in each key.
   */
  function SortOrder(textual: bool): (Row, Row) -> int {
    Then(On(IgnoreKey, NoneLast(IntDesc)),
    Then(On(PublishKey, NoneLast(IntDesc)),
    Then(On(TrackKey, NoneLast(Caseless)),
    Then(On(AlbumKey, NoneLast(Caseless)),
    Then(On(ArtistsKey, NoneLast(Caseless)),
         DateOrder(textual))))))
  }

  function RowLe(textual: bool): (Row, Row) -> bool {
    (a: Row, b: Row) => SortOrder(textual)(a, b) <= 0
  }

  lemma NoneLastPreorder<T(!new)>(cmp: (T, T) -> int)
    requires IsPreorder(cmp)
    ensures IsPreorder(NoneLast(cmp))
  {
  }

  lemma IntDescPreorder()
    ensures IsPreorder(IntDesc)
  {
  }

  lemma IntAscPreorder()
    ensures IsPreorder(IntAsc)
  {
  }

  lemma DateOrderPreorder(textual: bool)
    ensures IsPreorder(DateOrder(textual))
  {
    if textual {
      CaselessPreorder();
      KeyPreorder(TextDateKey, Caseless);
    } else {
      IntAscPreorder();
      KeyPreorder(NumberDateKey, IntAsc);
    }
  }

  lemma CaselessPreorder()
    ensures IsPreorder(Caseless)
  {
    CmpStrIsTotalOrder();
  }

  lemma KeyPreorder<K(!new)>(key: Row -> Option<K>, cmp: (K, K) -> int)
    requires IsPreorder(cmp)
    ensures IsPreorder(On(key, NoneLast(cmp)))
  {
    NoneLastPreorder(cmp);
    OnPreorder(key, NoneLast(cmp));
  }

  lemma SortOrderPreorder(textual: bool)
    ensures IsPreorder(SortOrder(textual))
  {
    var c6 := DateOrder(textual);
    var c5 := Then(On(ArtistsKey, NoneLast(Caseless)), c6);
    var c4 := Then(On(AlbumKey, NoneLast(Caseless)), c5);
    var c3 := Then(On(TrackKey, NoneLast(Caseless)), c4);
    var c2 := Then(On(PublishKey, NoneLast(IntDesc)), c3);
    assert IsPreorder(c4) by {
      CaselessPreorder();
      DateOrderPreorder(textual);
      KeyPreorder(ArtistsKey, Caseless);
      ThenPreorder(On(ArtistsKey, NoneLast(Caseless)), c6);
      KeyPreorder(AlbumKey, Caseless);
      ThenPreorder(On(AlbumKey, NoneLast(Caseless)), c5);
    }
    assert IsPreorder(c2) by {
      CaselessPreorder();
      KeyPreorder(TrackKey, Caseless);
      ThenPreorder(On(TrackKey, NoneLast(Caseless)), c4);
      IntDescPreorder();
      KeyPreorder(PublishKey, IntDesc);
      ThenPreorder(On(PublishKey, NoneLast(IntDesc)), c3);
    }
    IntDescPreorder();
    KeyPreorder(IgnoreKey, IntDesc);
    ThenPreorder(On(IgnoreKey, NoneLast(IntDesc)), c2);
  }

  /** The multi-key order is a total preorder, so sorting by it sorts. */
  lemma RowLeIsPreorder(textual: bool)
    ensures Total(RowLe(textual)) && Transitive(RowLe(textual))
  {
    SortOrderPreorder(textual);
    var c := SortOrder(textual);
    forall a, b ensures RowLe(textual)(a, b) || RowLe(textual)(b, a) {
      assert c(a, b) == -c(b, a);
    }
    forall a, b, d | RowLe(textual)(a, b) && RowLe(textual)(b, d) ensures RowLe(textual)(a, d) {
      assert c(a, b) <= 0 && c(b, d) <= 0;
    }
  }
}
