/**
 * The keyword policy that decides whether a harvested video stays out of the catalog
 * (`Updater._ignore_video` in scripts/update-data.py).
 */
module Classifier {
  import opened Text

  /** Words that mark a video as a lesson worth cataloguing. */
  const SelectWords: set<string> := {"tutorial", "playalong", "lesson", "with chords"}

  /** Words that mark a video as out of scope, whatever else its title says. */
  const DropWords: set<string> :=
    {"mashup", "medley", "unboxing", "how to practise", "what is", "ukebox", "introduction"}

  /** Some word of `words` occurs in `text`. */
  predicate Mentions(text: string, words: set<string>) {
    exists w :: w in words && Contains(text, w)
  }

  /**
   * The policy, stated without loops: a drop word in the lower-cased title means ignore;
   * otherwise a select word means keep; anything else is ignored by default.
   */
  predicate ShouldIgnore(title: string) {
    var t := Lower(title);
    Mentions(t, DropWords) || !Mentions(t, SelectWords)
  }

  /**
   * `_ignore_video`: scans the drop words, then the select words, returning at the first
   * hit. Python iterates the two sets in an unspecified order; here each step picks any
   * word not yet tried.
   */
  method IgnoreVideo(title: string) returns (ignore: bool)
    ensures ignore == ShouldIgnore(title)
  {
    var t := Lower(title);
    var words := DropWords;
    while words != {}
      invariant words <= DropWords
      invariant forall w :: w in DropWords - words ==> !Contains(t, w)
      decreases words
    {
      var w :| w in words;
      if Contains(t, w) {
        return true;
      }
      words := words - {w};
    }
    words := SelectWords;
    while words != {}
      invariant words <= SelectWords
      invariant !Mentions(t, DropWords)
      invariant forall w :: w in SelectWords - words ==> !Contains(t, w)
      decreases words
    {
      var w :| w in words;
      if Contains(t, w) {
        return false;
      }
      words := words - {w};
    }
    return true;
  }

  /** A drop word decides the outcome even when a select word is present as well. */
  lemma DropWordWins(title: string, drop: string, select: string)
    requires drop in DropWords && Contains(Lower(title), drop)
    requires select in SelectWords && Contains(Lower(title), select)
    ensures ShouldIgnore(title)
  {
  }

  /** The classification looks only at the lower-cased title: titles that differ only in case get the same verdict. */
  lemma {:induction false} CaseInsensitive(a: string, b: string)
    requires Lower(a) == Lower(b)
    ensures ShouldIgnore(a) == ShouldIgnore(b)
  {
  }
}
