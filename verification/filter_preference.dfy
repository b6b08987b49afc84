/**
 * The stored form shared by the tag filter and the NSFW filter settings: a list of words kept in
 * one preference string, written as the words merged with single spaces and trimmed, and read
 * back by trimming and splitting on single spaces.
 */
module FilterPreference {
  import opened JavaStrings

  /** Reading a stored value: blank gives no words, anything else its trimmed text split on " ". */
  function Parse(stored: string): (r: seq<string>)
    ensures Trim(stored) == [] <==> r == []
    ensures forall i :: 0 <= i < |r| ==> ' ' !in r[i]
  {
    var t := Trim(stored);
    if t == [] then []
    else
      assert t[|t| - 1] != ' ';
      LastPieceNonEmpty(t, ' ');
      Split(t, ' ')
  }

  /** Writing the list: mergeStringArray(list, " ").trim(). */
  function Persist(words: seq<string>): (r: string)
    ensures Untrimmed(r)
  {
    Trim(Join(words, " "))
  }

  /** A word that survives a round trip: non-empty, no space, and nothing trim() would cut off. */
  predicate Clean(w: string) {
    w != [] && ' ' !in w && Untrimmed(w)
  }

  /** Persisting a list of clean words and reading it back gives the same list. */
  lemma PersistThenParse(words: seq<string>)
    requires forall i :: 0 <= i < |words| ==> Clean(words[i])
    ensures Parse(Persist(words)) == words
  {
    if words != [] {
      var last := words[|words| - 1];
      JoinUntrimmed(words, " ");
      JoinLast(words, " ");
      assert " " == [' '];
      SplitJoin(words, ' ');
    }
  }

  /** Reading a stored value and persisting it again only trims it. */
  lemma ParseThenPersist(stored: string)
    ensures Persist(Parse(stored)) == Trim(stored)
  {
    var t := Trim(stored);
    TrimIdempotent(stored);
    if t != [] {
      assert " " == [' '];
      SplitThenJoin(t, ' ');
    }
  }
}
