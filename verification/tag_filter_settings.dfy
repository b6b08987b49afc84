/**
 * TagFilterSettingsActivity (third generation): the list of tags whose images are hidden from
 * search results, kept in the tag filter preference.
 */
module TagFilterSettings {
  import opened Wrappers
  import opened JavaStrings
  import opened FilterPreference
  import AddTagFilterDialog

  /** The activity: its tag list, and the preference (null until first written). */
  datatype Screen = Screen(tags: seq<string>, stored: Option<string>)

  /** The preference holds the persisted form of the list shown. */
  predicate Saved(s: Screen) {
    s.stored == Some(Persist(s.tags))
  }

  /** onCreate: no preference means no tags; otherwise the stored value, trimmed and split. */
  function Open(stored: Option<string>): (s: Screen)
    ensures s.stored == stored
    ensures stored.None? ==> s.tags == []
    ensures stored.Some? ==> s.tags == Parse(stored.value)
  {
    Screen(if stored.Some? then Parse(stored.value) else [], stored)
  }

  /** addTag: the tag goes at the end, duplicates allowed, and the list is persisted. */
  function AddTag(s: Screen, tag: string): (r: Screen)
    ensures r.tags == s.tags + [tag]
    ensures Saved(r)
  {
    var tags := s.tags + [tag];
    Screen(tags, Some(Persist(tags)))
  }

  /** The remove button at a position: that tag goes, the others keep their order; a bad position throws. */
  function Remove(s: Screen, position: int): (r: Result<Screen>)
    ensures r.Ok? <==> 0 <= position < |s.tags|
    ensures r.Ok? ==> |r.value.tags| == |s.tags| - 1 && Saved(r.value)
    ensures r.Ok? ==> forall i :: 0 <= i < |r.value.tags| ==>
                        r.value.tags[i] == s.tags[if i < position then i else i + 1]
  {
    if 0 <= position < |s.tags| then
      var tags := s.tags[..position] + s.tags[position + 1..];
      Ok(Screen(tags, Some(Persist(tags))))
    else Err(IndexOutOfBounds)
  }

  /** The adapter: one row per tag, the row id is the position. */
  function Count(s: Screen): (n: nat)
    ensures n == |s.tags|
  {
    |s.tags|
  }

  /**
   * A list of clean tags opens again exactly as it was left: after any change the preference
   * holds the list, and reading it back gives the list.
   */
  lemma ReopenAfterChange(s: Screen)
    requires Saved(s)
    requires forall i :: 0 <= i < |s.tags| ==> Clean(s.tags[i])
    ensures Open(s.stored).tags == s.tags
  {
    PersistThenParse(s.tags);
  }

  /** Opening a stored list and persisting it unchanged only trims the stored value. */
  lemma OpenThenPersist(stored: string)
    ensures Persist(Open(Some(stored)).tags) == Trim(stored)
  {
    ParseThenPersist(stored);
  }

  // ---------------------------------------------------------------------------------------------
  // Adding a tag through the dialog

  /**
   * As written: the dialog accepts " b" (it trims before checking) and hands on the untrimmed
   * text, so the list ["a", " b", "c"] is stored as "a  b c", and reopening shows an empty tag.
   */
  lemma UntrimmedTagReopensWithEmpty()
    ensures AddTagFilterDialog.Accepted(" b")
    ensures var added := AddTagFilterDialog.OnClickAsWritten(" b", true).added.value;
            var s := AddTag(AddTag(Open(Some("a")), added), "c");
            s.stored == Some("a  b c") && Open(s.stored).tags == ["a", "", "b", "c"]
  {
    TrimExamples();
    assert AddTagFilterDialog.Accepted(" b");
    assert Open(Some("a")).tags == ["a"] by {
      assert ' ' !in "a";
    }
    assert AddTagFilterDialog.OnClickAsWritten(" b", true).added.value == " b";
    JoinExample();
    SplitExample();
  }

  lemma TrimExamples()
    ensures Trim(" b") == "b" && Trim("a") == "a" && Trim("a  b c") == "a  b c"
  {
    TrimLeadingSpace();
    TrimOfUntrimmed("a");
    TrimOfUntrimmed("a  b c");
  }

  lemma TrimLeadingSpace()
    ensures Trim(" b") == "b"
  {
    var s := " b";
    assert Trimmable(s[0]);
    assert s[1..] == "b";
    assert !Trimmable("b"[0]);
    assert TrimStart("b") == "b";
    assert TrimStart(s) == "b";
    assert TrimEnd("b") == "b";
  }

  lemma JoinExample()
    ensures Join(["a", " b", "c"], " ") == "a  b c"
  {
    assert ["a", " b", "c"][1..] == [" b", "c"];
    assert [" b", "c"][1..] == ["c"];
    assert Join(["c"], " ") == "c";
    assert Join([" b", "c"], " ") == " b" + " " + "c";
  }

  /** The pieces of a string that starts with a character other than the separator. */
  lemma PiecesCons(x: char, rest: string, c: char)
    requires x != c
    ensures Pieces([x] + rest, c) == [[x] + Pieces(rest, c)[0]] + Pieces(rest, c)[1..]
  {
    assert ([x] + rest)[1..] == rest;
  }

  /** The pieces of a string that starts with the separator. */
  lemma PiecesSep(rest: string, c: char)
    ensures Pieces([c] + rest, c) == [""] + Pieces(rest, c)
  {
    assert ([c] + rest)[1..] == rest;
  }

  lemma SplitExample()
    ensures Split("a  b c", ' ') == ["a", "", "b", "c"]
  {
    PiecesExample();
    assert "a  b c"[1] == ' ';
    assert DropTrailingEmpty(["a", "", "b", "c"]) == ["a", "", "b", "c"];
  }

  lemma PiecesExample()
    ensures Pieces("a  b c", ' ') == ["a", "", "b", "c"]
  {
    PiecesExampleSpaces();
    PiecesCons('a', "  b c", ' ');
    assert ['a'] + "  b c" == "a  b c" && ['a'] + "" == "a";
  }

  lemma PiecesExampleSpaces()
    ensures Pieces("  b c", ' ') == ["", "", "b", "c"]
  {
    PiecesExampleWords();
    PiecesSep("b c", ' ');
    assert [' '] + "b c" == " b c";
    PiecesSep(" b c", ' ');
    assert [' '] + " b c" == "  b c";
  }

  lemma PiecesExampleWords()
    ensures Pieces("b c", ' ') == ["b", "c"]
  {
    PiecesExampleLast();
    PiecesCons('b', " c", ' ');
    assert ['b'] + " c" == "b c" && ['b'] + "" == "b";
  }

  lemma PiecesExampleLast()
    ensures Pieces(" c", ' ') == ["", "c"]
  {
    assert Pieces("", ' ') == [""];
    PiecesCons('c', "", ' ');
    assert ['c'] + "" == "c";
    PiecesSep("c", ' ');
    assert [' '] + "c" == " c";
  }

  /**
   * Corrected: tags added through the dialog are trimmed, so a list built from clean tags by
   * accepted dialogs reopens exactly as it was.
   */
  lemma DialogTagsReopen(s: Screen, text: string)
    requires forall i :: 0 <= i < |s.tags| ==> Clean(s.tags[i])
    requires AddTagFilterDialog.Accepted(text)
    ensures var r := AddTag(s, AddTagFilterDialog.OnClick(text, true).added.value);
            Open(r.stored).tags == r.tags
  {
    AddTagFilterDialog.AcceptedIsClean(text);
    var tag := AddTagFilterDialog.OnClick(text, true).added.value;
    CleanAppended(s.tags, tag);
    ReopenAfterChange(AddTag(s, tag));
  }

  lemma CleanAppended(tags: seq<string>, tag: string)
    requires forall i :: 0 <= i < |tags| ==> Clean(tags[i])
    requires Clean(tag)
    ensures forall i :: 0 <= i < |tags + [tag]| ==> Clean((tags + [tag])[i])
  {
  }
}
