/**
 * The field extractor of the catalog updater (`Updater._extract_info` in
 * scripts/update-data.py): it cleans a video title into track, album and artists,
 * reads chords, album, artists and composers out of the description, and picks
 * the song language.
 *
 * The regular expressions whose matching is not modelled are parameters: a
 * `Patterns` value says what each of them returns. The pipe-collapsing
 * substitution and the parenthesised-album pattern `\((.*)\)` are simple enough to
 * be modelled exactly, and they are.
 */
module Extraction {
  import opened Wrappers
  import opened Text

  /** What each uninterpreted pattern of the extractor produces. */
  datatype Patterns = Patterns(
    // TITLE_RE.subn('|', title): every noise phrase of the title replaced by a pipe
    stripNoise: string -> string,
    // CHORDS_RE.search(description), group 1
    chordsIn: string -> Option<string>,
    // SONG_INFO_RE.subn(',\n\2', description): song-information labels moved onto their own line
    markSongInfo: string -> string,
    // ALBUM2_RE.search(description), group 1
    albumIn: string -> Option<string>,
    // ARTISTS_RE.search(description), group 1
    artistsIn: string -> Option<string>,
    // COMPOSERS_RE.search(description), group 1
    composersIn: string -> Option<string>)

  // ---------------------------------------------------------------- collapsing pipes

  /** A character the collapsing pattern `\s*\|+(\s*\|)*\s*` can consume. */
  predicate IsSep(c: char) {
    c == '|' || IsSpace(c)
  }

  /** The length of the longest prefix of `s` made of whitespace and pipes. */
  function SepRun(s: string): (n: nat)
    ensures n <= |s|
    ensures forall i :: 0 <= i < n ==> IsSep(s[i])
    ensures n < |s| ==> !IsSep(s[n])
  {
    if s != [] && IsSep(s[0]) then 1 + SepRun(s[1..]) else 0
  }

  /**
   * `re.subn('\s*\|+(\s*\|)*\s*', '|', title)`: every maximal run of whitespace and pipes
   * that holds at least one pipe becomes a single pipe; runs of whitespace alone stay.
   */
  function CollapsePipes(s: string): string
    decreases |s|
  {
    if s == [] then []
    else if IsSep(s[0]) then
      var n := SepRun(s);
      (if '|' in s[..n] then "|" else s[..n]) + CollapsePipes(s[n..])
    else [s[0]] + CollapsePipes(s[1..])
  }

  /** Every pipe stands alone: no whitespace and no other pipe on either side of it. */
  predicate WellCollapsed(t: string) {
    forall i :: 0 <= i < |t| && t[i] == '|' ==>
      (i == 0 || !IsSep(t[i - 1])) && (i == |t| - 1 || !IsSep(t[i + 1]))
  }

  lemma WellCollapsedSuffix(t: string, k: nat)
    requires WellCollapsed(t) && k <= |t|
    ensures WellCollapsed(t[k..])
  {
    var u := t[k..];
    forall i | 0 <= i < |u| && u[i] == '|'
      ensures (i == 0 || !IsSep(u[i - 1])) && (i == |u| - 1 || !IsSep(u[i + 1]))
    {
      assert t[k + i] == '|';
    }
  }

  /** The collapse leaves every pipe standing alone. */
  lemma {:induction false} CollapseWellCollapsed(s: string)
    ensures WellCollapsed(CollapsePipes(s))
    decreases |s|
  {
    if s != [] && IsSep(s[0]) {
      var n := SepRun(s);
      var chunk := if '|' in s[..n] then "|" else s[..n];
      var rest := s[n..];
      CollapseWellCollapsed(rest);
      var r := CollapsePipes(rest);
      if rest != [] {
        assert !IsSep(rest[0]);
        assert r == [rest[0]] + CollapsePipes(rest[1..]);
      }
      var t := chunk + r;
      assert CollapsePipes(s) == t;
      forall i | 0 <= i < |t| && t[i] == '|'
        ensures (i == 0 || !IsSep(t[i - 1])) && (i == |t| - 1 || !IsSep(t[i + 1]))
      {
        if i < |chunk| {
          assert chunk == "|" && i == 0;
          assert i == |t| - 1 || t[i + 1] == r[0];
        } else {
          assert t[i] == r[i - |chunk|];
          assert i - |chunk| != 0;
          assert t[i - 1] == r[i - 1 - |chunk|];
        }
      }
    } else if s != [] {
      CollapseWellCollapsed(s[1..]);
      var r := CollapsePipes(s[1..]);
      var t := [s[0]] + r;
      assert CollapsePipes(s) == t;
      forall i | 0 <= i < |t| && t[i] == '|'
        ensures (i == 0 || !IsSep(t[i - 1])) && (i == |t| - 1 || !IsSep(t[i + 1]))
      {
        assert t[i] == r[i - 1];
        assert i - 1 == 0 || t[i - 1] == r[i - 2];
      }
    }
  }

  /** A title whose pipes already stand alone is left unchanged by the collapse. */
  lemma {:induction false} CollapseFixedPoint(t: string)
    requires WellCollapsed(t)
    ensures CollapsePipes(t) == t
    decreases |t|
  {
    if t != [] {
      if IsSep(t[0]) {
        var n := SepRun(t);
        if '|' in t[..n] {
          var k :| 0 <= k < n && t[..n][k] == '|';
          forall m | 0 < m < n ensures t[m] != '|' {
            assert IsSep(t[m - 1]);
          }
          assert t[0] == '|';
          assert |t| == 1 || !IsSep(t[1]);
          assert n == 1;
        }
        WellCollapsedSuffix(t, n);
        CollapseFixedPoint(t[n..]);
        assert t[..n] + t[n..] == t;
      } else {
        WellCollapsedSuffix(t, 1);
        CollapseFixedPoint(t[1..]);
        assert [t[0]] + t[1..] == t;
      }
    }
  }

  /** Collapsing twice is collapsing once. */
  lemma CollapseIdempotent(s: string)
    ensures CollapsePipes(CollapsePipes(s)) == CollapsePipes(s)
  {
    CollapseWellCollapsed(s);
    CollapseFixedPoint(CollapsePipes(s));
  }

  /** A title without pipes comes through the collapse unchanged, whitespace included. */
  lemma CollapseWithoutPipes(s: string)
    requires '|' !in s
    ensures CollapsePipes(s) == s
  {
    CollapseFixedPoint(s);
  }

  // ---------------------------------------------------------------- title fields

  datatype TitleFields = TitleFields(track: string, album: string, artists: string)

  /** `(title.split('|', 3) + [''] * 3)[:3]`: the first three pipe-separated fields, `''` for missing ones. */
  function SplitTitle(t: string): TitleFields {
    var parts := Split(t, '|');
    TitleFields(parts[0], if |parts| > 1 then parts[1] else "", if |parts| > 2 then parts[2] else "")
  }

  /**
   * The fields of a collapsed title: a field after a pipe does not start with whitespace,
   * a field before a pipe does not end with whitespace, and a field between two pipes is
   * never empty (`afterPipe` says whether `t` itself follows a pipe).
   */
  lemma {:induction false} CollapsedParts(t: string, afterPipe: bool)
    requires WellCollapsed(t)
    requires afterPipe && t != [] ==> !IsSep(t[0])
    ensures var parts := Split(t, '|');
      forall i :: 0 <= i < |parts| ==>
        && ((0 < i || afterPipe) && parts[i] != [] ==> !IsSpace(parts[i][0]))
        && (i < |parts| - 1 && parts[i] != [] ==> !IsSpace(parts[i][|parts[i]| - 1]))
        && ((0 < i || afterPipe) && i < |parts| - 1 ==> parts[i] != [])
    decreases |t|
  {
    if '|' !in t {
      SplitNoSep(t, '|');
    } else {
      var k := IndexOf(t, '|');
      var u := t[k + 1..];
      assert t == t[..k] + ['|'] + u;
      SplitAfterPiece(t[..k], '|', u);
      WellCollapsedSuffix(t, k + 1);
      assert u != [] ==> u[0] == t[k + 1];
      CollapsedParts(u, true);
      assert afterPipe ==> k > 0;
      assert k > 0 ==> t[..k][k - 1] == t[k - 1];
    }
  }

  /** Track, album and artists as cut from a collapsed title. */
  lemma CollapsedTitleFields(t: string)
    requires WellCollapsed(t)
    ensures var f := SplitTitle(t); var n := |Split(t, '|')|;
      && '|' !in f.track && '|' !in f.album && '|' !in f.artists
      && (f.album != [] ==> !IsSpace(f.album[0]))
      && (f.artists != [] ==> !IsSpace(f.artists[0]))
      && (n >= 2 && f.track != [] ==> !IsSpace(f.track[|f.track| - 1]))
      && (n >= 3 ==> f.album != [] && !IsSpace(f.album[|f.album| - 1]))
      && (n >= 4 ==> f.artists != [] && !IsSpace(f.artists[|f.artists| - 1]))
  {
    CollapsedParts(t, false);
  }

  /** A title with at most two pipes is exactly its fields joined by pipes: nothing is lost or added. */
  lemma TitleFieldsRebuild(t: string)
    requires |Split(t, '|')| <= 3
    ensures var f := SplitTitle(t);
      Join([f.track, f.album, f.artists][..|Split(t, '|')|], '|') == t
  {
    var parts := Split(t, '|');
    assert [SplitTitle(t).track, SplitTitle(t).album, SplitTitle(t).artists][..|parts|] == parts;
    JoinSplit(t, '|');
  }

  // ---------------------------------------------------------------- the parenthesised album

  /** The index of the first line break at or after `k`, or the end of `s`. */
  function LineEnd(s: string, k: nat): (e: nat)
    requires k <= |s|
    ensures k <= e <= |s|
    ensures e < |s| ==> s[e] == '\n'
    ensures forall i :: k <= i < e ==> s[i] != '\n'
    decreases |s| - k
  {
    if k == |s| || s[k] == '\n' then k else LineEnd(s, k + 1)
  }

  /** The last `)` in `s[lo..hi]`, if any. */
  function LastClose(s: string, lo: nat, hi: nat): (j: Option<nat>)
    requires lo <= hi <= |s|
    ensures j.Some? ==> lo <= j.value < hi && s[j.value] == ')' && forall i :: j.value < i < hi ==> s[i] != ')'
    ensures j.None? ==> forall i :: lo <= i < hi ==> s[i] != ')'
    decreases hi - lo
  {
    if lo == hi then None
    else if s[hi - 1] == ')' then Some(hi - 1)
    else LastClose(s, lo, hi - 1)
  }

  /** The position of `(` and of `)` in a match of `\((.*)\)`. */
  datatype Span = Span(open: nat, close: nat)

  /**
   * `ALBUM1_RE.search(s, from)`: the leftmost `(` from which the greedy `.*` (which stops at
   * a line break) reaches a `)`; the match closes at the last `)` on that line.
   */
  function SearchParen(s: string, from: nat): (m: Option<Span>)
    requires from <= |s|
    ensures m.Some? ==> from <= m.value.open < m.value.close < |s|
    decreases |s| - from
  {
    if from == |s| then None
    else if s[from] == '(' && LastClose(s, from + 1, LineEnd(s, from + 1)).Some? then
      Some(Span(from, LastClose(s, from + 1, LineEnd(s, from + 1)).value))
    else SearchParen(s, from + 1)
  }

  /** `ALBUM1_RE.search(s).group(1)`. */
  function ParenGroup(s: string): Option<string> {
    match SearchParen(s, 0)
    case Some(m) => Some(s[m.open + 1..m.close])
    case None => None
  }

  /** `ALBUM1_RE.sub('', s[from..])`: every match removed, scanning left to right. */
  function RemoveParens(s: string, from: nat): string
    requires from <= |s|
    decreases |s| - from
  {
    match SearchParen(s, from)
    case None => s[from..]
    case Some(m) => s[from..m.open] + RemoveParens(s, m.close + 1)
  }

  /** Lines 217-223: a track holding `(` gives its parenthesised clause to the album. */
  function MoveParenToAlbum(f: TitleFields): TitleFields {
    if '(' in f.track then
      var album := match ParenGroup(f.track) case Some(g) => Strip(g) case None => "";
      f.(track := Strip(RemoveParens(f.track, 0)), album := album)
    else f
  }

  lemma {:induction false} SearchSkips(s: string, from: nat, i: nat)
    requires from <= i <= |s|
    requires forall k :: from <= k < i ==> s[k] != '('
    ensures SearchParen(s, from) == SearchParen(s, i)
    decreases i - from
  {
    if from < i {
      SearchSkips(s, from + 1, i);
    }
  }

  lemma {:induction false} SearchWithoutClose(s: string, from: nat)
    requires from <= |s|
    requires forall k :: from <= k < |s| ==> s[k] != ')'
    ensures SearchParen(s, from).None?
    decreases |s| - from
  {
    if from < |s| {
      SearchWithoutClose(s, from + 1);
      if s[from] == '(' {
        assert LastClose(s, from + 1, LineEnd(s, from + 1)).None?;
      }
    }
  }

  /** On one line, the leftmost match opens at the first `(` and closes at the last `)`. */
  lemma {:induction false} ParenMatch(s: string, i: nat, j: nat)
    requires '\n' !in s
    requires i < j < |s| && s[i] == '(' && s[j] == ')'
    requires forall k :: 0 <= k < i ==> s[k] != '('
    requires forall k :: j < k < |s| ==> s[k] != ')'
    ensures ParenGroup(s) == Some(s[i + 1..j])
    ensures RemoveParens(s, 0) == s[..i] + s[j + 1..]
  {
    SearchSkips(s, 0, i);
    assert LineEnd(s, i + 1) == |s|;
    assert LastClose(s, i + 1, |s|) == Some(j);
    assert SearchParen(s, i) == Some(Span(i, j));
    SearchWithoutClose(s, j + 1);
    assert RemoveParens(s, j + 1) == s[j + 1..];
  }

  /**
   * On a one-line track whose first `(` is followed by a `)`, the album becomes the text
   * between that `(` and the last `)`, and the whole clause leaves the track.
   */
  lemma ParenClauseMoves(f: TitleFields, i: nat, j: nat)
    requires '\n' !in f.track
    requires i < j < |f.track| && f.track[i] == '(' && f.track[j] == ')'
    requires forall k :: 0 <= k < i ==> f.track[k] != '('
    requires forall k :: j < k < |f.track| ==> f.track[k] != ')'
    ensures MoveParenToAlbum(f) ==
      f.(album := Strip(f.track[i + 1..j]), track := Strip(f.track[..i] + f.track[j + 1..]))
  {
    assert '(' in f.track;
    ParenMatch(f.track, i, j);
  }

  /** When no `)` follows the first `(`, the album becomes empty and the track is only stripped. */
  lemma {:induction false} UnclosedParen(f: TitleFields, i: nat)
    requires i < |f.track| && f.track[i] == '('
    requires forall k :: 0 <= k < i ==> f.track[k] != '('
    requires forall k :: i < k < |f.track| ==> f.track[k] != ')'
    ensures MoveParenToAlbum(f) == f.(album := "", track := Strip(f.track))
  {
    var s := f.track;
    SearchSkips(s, 0, i);
    SearchWithoutClose(s, i);
    assert s[0..] == s;
  }

  // ---------------------------------------------------------------- description fields

  /** Lines 227-232: the cleanup of a matched chord list. */
  function CleanChords(m: string): string {
    var r := ReplaceAll(ReplaceAll(ReplaceAll(ReplaceAll(Strip(m), " and ", ","), ".", ","), ", ", ","), " ,", ",");
    Title(Strip(StripChar(r, ',')))
  }

  /** A cleaned chord list has no `.`, no whitespace at either end, and is title-cased. */
  lemma CleanChordsShape(m: string)
    ensures var c := CleanChords(m);
      && '.' !in c
      && (c != [] ==> !IsSpace(c[0]) && !IsSpace(c[|c| - 1]))
      && IsTitleCased(c)
  {
    var a := ReplaceAll(Strip(m), " and ", ",");
    var b := ReplaceAll(a, ".", ",");
    ReplaceCharRemoves(a, '.', ',');
    var c := ReplaceAll(b, ", ", ",");
    ReplaceAllChars(b, ", ", ",", '.');
    var d := ReplaceAll(c, " ,", ",");
    ReplaceAllChars(c, " ,", ",", '.');
    StripRemovesOnly(d, '.');
    var e := StripChar(d, ',');
    StripRemovesOnly(e, '.');
    TitleKeepsUncased(Strip(e), '.');
    TitleKeepsEnds(Strip(e));
    TitleIsTitleCased(Strip(e));
  }

  /** Lines 243 and 247: the cleanup of a matched artist or composer list. */
  function CleanNames(m: string): string {
    ReplaceAll(StripChar(Strip(m), ','), " &", ",")
  }

  /** No `&` is left directly after a space. */
  predicate NoSpaceAmp(s: string) {
    forall i :: 0 <= i < |s| - 1 ==> !(s[i] == ' ' && s[i + 1] == '&')
  }

  lemma {:induction false} ReplaceSpaceAmp(s: string)
    ensures NoSpaceAmp(ReplaceAll(s, " &", ","))
    ensures s != [] ==>
      ReplaceAll(s, " &", ",") != [] && (ReplaceAll(s, " &", ",")[0] == s[0] || ReplaceAll(s, " &", ",")[0] == ',')
    decreases |s|
  {
    if |s| >= 2 {
      var r := ReplaceAll(s, " &", ",");
      if s[..2] == " &" {
        ReplaceSpaceAmp(s[2..]);
        var t := ReplaceAll(s[2..], " &", ",");
        assert r == "," + t;
        forall i | 0 <= i < |r| - 1 ensures !(r[i] == ' ' && r[i + 1] == '&') {
          if i > 0 {
            assert r[i] == t[i - 1] && r[i + 1] == t[i];
          }
        }
      } else {
        ReplaceSpaceAmp(s[1..]);
        var t := ReplaceAll(s[1..], " &", ",");
        assert r == [s[0]] + t;
        forall i | 0 <= i < |r| - 1 ensures !(r[i] == ' ' && r[i + 1] == '&') {
          if i == 0 {
            assert r[1] == t[0];
            assert s[1] == s[1..][0];
          } else {
            assert r[i] == t[i - 1] && r[i + 1] == t[i];
          }
        }
      }
    }
  }

  /** A cleaned name list keeps no ` &`, also after `str.title()`. */
  lemma CleanNamesShape(m: string)
    ensures NoSpaceAmp(CleanNames(m)) && NoSpaceAmp(Title(CleanNames(m)))
  {
    ReplaceSpaceAmp(StripChar(Strip(m), ','));
  }

  // ---------------------------------------------------------------- language

  const Languages: set<string> :=
    {"hindi", "english", "telugu", "tamil", "malayalam", "kannada", "bengali", "bangla", "punjabi"}

  /** `bangla` is reported as `bengali`. */
  function Alias(w: string): string {
    if w == "bangla" then "bengali" else w
  }

  /** The languages named in a title: the alias of every language word its lower-cased form contains. */
  function Mentioned(rawTitle: string): set<string> {
    set w | w in Languages && Contains(Lower(rawTitle), w) :: Alias(w)
  }

  /** A channel entry of `channels.yml`; either key may be absent. */
  datatype Channel = Channel(id: Option<string>, songLanguage: Option<string>)

  datatype ExtractError =
    | NoSuchChannel        // IndexError: no channel has the entry's channel id
    | NoSongLanguage       // KeyError: the fallback channel has no `song_language`

  /**
   * What the language loop may produce: one of the languages the title names (which one
   * depends on the iteration order of a Python set), or else the channel's default.
   */
  predicate LanguageOutcome(rawTitle: string, channel: Channel, r: Result<string, ExtractError>) {
    if Mentioned(rawTitle) != {} then r.Ok? && r.value in Mentioned(rawTitle)
    else match channel.songLanguage
      case Some(l) => r == Ok(l)
      case None => r == Err(NoSongLanguage)
  }

  /** Lines 252-260: the `for ... else` over the language words. */
  method DetectLanguage(rawTitle: string, channel: Channel) returns (r: Result<string, ExtractError>)
    ensures LanguageOutcome(rawTitle, channel, r)
  {
    var t := Lower(rawTitle);
    var remaining := Languages;
    while remaining != {}
      invariant remaining <= Languages
      invariant forall w :: w in Languages - remaining ==> !Contains(t, w)
      decreases remaining
    {
      var language :| language in remaining;
      if Contains(t, language) {
        assert Alias(language) in Mentioned(rawTitle);
        if language == "bangla" {
          language := "bengali";
        }
        return Ok(language);
      }
      remaining := remaining - {language};
    }
    assert Mentioned(rawTitle) == {};
    match channel.songLanguage
    case Some(l) => return Ok(l);
    case None => return Err(NoSongLanguage);
  }

  /** The language found in a title is never the alias `bangla`, and is one of the known language names. */
  lemma MentionedNames(rawTitle: string)
    ensures Mentioned(rawTitle) <= Languages - {"bangla"}
  {
  }

  /** A title naming exactly one language (counting `bangla` and `bengali` as one) determines it. */
  lemma {:induction false} SingleLanguage(rawTitle: string, w: string)
    requires w in Languages && Contains(Lower(rawTitle), w)
    requires forall v :: v in Languages && Alias(v) != Alias(w) ==> !Contains(Lower(rawTitle), v)
    ensures Mentioned(rawTitle) == {Alias(w)}
  {
    assert Alias(w) in Mentioned(rawTitle);
  }

  // ---------------------------------------------------------------- the whole extraction

  /** A harvested video entry; the extractor rewrites its description in place. */
  class Entry {
    const title: string
    const channelId: string
    var description: string

    constructor (title: string, channelId: string, description: string)
      ensures this.title == title && this.channelId == channelId && this.description == description
    {
      this.title := title;
      this.channelId := channelId;
      this.description := description;
    }
  }

  /** The fields `_extract_info` returns. */
  datatype Info = Info(
    ignore: int, track: string, artists: string, album: string, composers: string,
    chords: Option<string>, key: string, baritone: int, language: string)

  /** The title after noise removal and pipe collapsing. */
  function CleanTitle(rawTitle: string, rx: Patterns): string {
    CollapsePipes(rx.stripNoise(rawTitle))
  }

  /** The first channel whose id is the entry's channel id. */
  function FindChannel(channels: seq<Channel>, id: string): (c: Option<Channel>)
    ensures c.Some? <==> exists i :: 0 <= i < |channels| && channels[i].id == Some(id)
    ensures c.Some? ==> c.value in channels && c.value.id == Some(id)
  {
    if channels == [] then None
    else if channels[0].id == Some(id) then Some(channels[0])
    else
      var c := FindChannel(channels[1..], id);
      assert forall i :: 1 <= i < |channels| ==> channels[i] == channels[1..][i - 1];
      c
  }

  /** Lines 225-232: the chord list of the original description, cleaned. */
  function ChordsOf(description: string, rx: Patterns): Option<string> {
    match rx.chordsIn(description)
    case Some(m) => Some(CleanChords(m))
    case None => None
  }

  /** Lines 237-249: a field read from the marked description, or `default` when its pattern does not match. */
  function DescriptionField(found: Option<string>, clean: string -> string, default: string): string {
    match found
    case Some(m) => clean(m)
    case None => default
  }

  /** Line 270: whether the cleaned title mentions a baritone ukulele. */
  function BaritoneFlag(title: string): int {
    if Contains(Lower(title), "baritone") then 1 else 0
  }

  /** The extracted fields for a title, the original description and the chosen language. */
  function InfoOf(rawTitle: string, description: string, rx: Patterns, language: string): Info {
    var title := CleanTitle(rawTitle, rx);
    var f := MoveParenToAlbum(SplitTitle(title));
    var marked := rx.markSongInfo(description);
    Info(
      ignore := if title == [] then 1 else 0,
      track := Title(f.track),
      artists := Title(DescriptionField(rx.artistsIn(marked), CleanNames, f.artists)),
      album := Title(DescriptionField(rx.albumIn(marked), Strip, f.album)),
      composers := Title(DescriptionField(rx.composersIn(marked), CleanNames, "")),
      chords := ChordsOf(description, rx),
      key := "",
      baritone := BaritoneFlag(title),
      language := Title(language))
  }

  /** The fields computed step by step by `ExtractInfo` are those of `InfoOf`. */
  lemma InfoAssembled(rawTitle: string, description: string, rx: Patterns, language: string,
                      title: string, fields: TitleFields, chords: Option<string>,
                      album: string, artists: string, composers: string)
    requires title == CleanTitle(rawTitle, rx) && fields == MoveParenToAlbum(SplitTitle(title))
    requires chords == (if rx.chordsIn(description).Some? then Some(CleanChords(rx.chordsIn(description).value)) else None)
    requires var m := rx.albumIn(rx.markSongInfo(description)); album == if m.Some? then Strip(m.value) else fields.album
    requires var m := rx.artistsIn(rx.markSongInfo(description)); artists == if m.Some? then CleanNames(m.value) else fields.artists
    requires var m := rx.composersIn(rx.markSongInfo(description)); composers == if m.Some? then CleanNames(m.value) else ""
    ensures InfoOf(rawTitle, description, rx, language) == Info(
      ignore := if title == [] then 1 else 0,
      track := Title(fields.track), artists := Title(artists), album := Title(album),
      composers := Title(composers), chords := chords, key := "",
      baritone := BaritoneFlag(title),
      language := Title(language))
  {
  }

  /**
   * `_extract_info`: the description is rewritten before the channel lookup, so it is
   * rewritten even when the lookup fails.
   */
  method ExtractInfo(entry: Entry, channels: seq<Channel>, rx: Patterns) returns (r: Result<Info, ExtractError>)
    modifies entry
    ensures entry.description == rx.markSongInfo(old(entry.description))
    ensures FindChannel(channels, entry.channelId).None? ==> r == Err(NoSuchChannel)
    ensures FindChannel(channels, entry.channelId).Some? ==>
      var channel := FindChannel(channels, entry.channelId).value;
      && (r.Err? ==> LanguageOutcome(entry.title, channel, Err(r.error)))
      && (r.Ok? ==> exists language :: LanguageOutcome(entry.title, channel, Ok(language))
                      && r.value == InfoOf(entry.title, old(entry.description), rx, language))
  {
    var title := CleanTitle(entry.title, rx);
    var fields := MoveParenToAlbum(SplitTitle(title));
    var track, album, artists := fields.track, fields.album, fields.artists;

    ghost var description := entry.description;
    var chordsMatch := rx.chordsIn(entry.description);
    var chords := if chordsMatch.Some? then Some(CleanChords(chordsMatch.value)) else None;

    entry.description := rx.markSongInfo(entry.description);

    var albumMatch := rx.albumIn(entry.description);
    if albumMatch.Some? {
      album := Strip(albumMatch.value);
    }
    var artistsMatch := rx.artistsIn(entry.description);
    if artistsMatch.Some? {
      artists := CleanNames(artistsMatch.value);
    }
    var composersMatch := rx.composersIn(entry.description);
    var composers := if composersMatch.Some? then CleanNames(composersMatch.value) else "";

    var channel := FindChannel(channels, entry.channelId);
    if channel.None? {
      return Err(NoSuchChannel);
    }
    var language := DetectLanguage(entry.title, channel.value);
    if language.Err? {
      return Err(language.error);
    }
    r := Ok(Info(
      ignore := if title == [] then 1 else 0,
      track := Title(track), artists := Title(artists), album := Title(album),
      composers := Title(composers), chords := chords, key := "",
      baritone := BaritoneFlag(title),
      language := Title(language.value)));
    InfoAssembled(entry.title, description, rx, language.value, title, fields, chords, album, artists, composers);
    assert LanguageOutcome(entry.title, channel.value, Ok(language.value));
  }

  /** The text fields of an extraction are title-cased, and `ignore` is set exactly for an empty cleaned title. */
  lemma InfoShape(rawTitle: string, description: string, rx: Patterns, language: string)
    ensures var info := InfoOf(rawTitle, description, rx, language);
      && IsTitleCased(info.track) && IsTitleCased(info.album) && IsTitleCased(info.artists)
      && IsTitleCased(info.composers) && IsTitleCased(info.language)
      && (info.ignore == 1 <==> CleanTitle(rawTitle, rx) == [])
      && info.ignore in {0, 1} && info.baritone in {0, 1}
  {
    var f := MoveParenToAlbum(SplitTitle(CleanTitle(rawTitle, rx)));
    var marked := rx.markSongInfo(description);
    TitleIsTitleCased(f.track);
    TitleIsTitleCased(DescriptionField(rx.albumIn(marked), Strip, f.album));
    TitleIsTitleCased(DescriptionField(rx.artistsIn(marked), CleanNames, f.artists));
    TitleIsTitleCased(DescriptionField(rx.composersIn(marked), CleanNames, ""));
    TitleIsTitleCased(language);
  }
}
