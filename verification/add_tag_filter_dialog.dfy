/**
 * AddTagFilterDialogFragment (third generation): the dialog that asks for one tag to filter
 * out. The text is accepted when, once trimmed, it is one or more non-whitespace characters
 * (the pattern ^\S+$).
 */
module AddTagFilterDialog {
  import opened Wrappers
  import opened JavaStrings
  import opened FilterPreference

  /** The characters \s matches in a Java regular expression. */
  predicate RegexWhitespace(c: char) {
    c == ' ' || c == '\t' || c == '\n' || c == '\U{B}' || c == '\U{C}' || c == '\r'
  }

  /** The OK button's check: the trimmed text is not empty and matches ^\S+$. */
  predicate Accepted(text: string) {
    var t := Trim(text);
    t != [] && forall i :: 0 <= i < |t| ==> !RegexWhitespace(t[i])
  }

  /** What pressing OK did: the tag handed to the listener, and whether the dialog closed. */
  datatype Outcome = Outcome(added: Option<string>, dismissed: bool)

  /**
   * onClick as written: with a listener and a text field, an accepted text is handed to the
   * listener as typed, untrimmed, and the dialog closes; anything else does nothing.
   */
  function OnClickAsWritten(text: string, ready: bool): (r: Outcome)
    ensures r.dismissed <==> ready && Accepted(text)
    ensures r.added.Some? <==> r.dismissed
    ensures r.added.Some? ==> r.added.value == text
  {
    if ready && Accepted(text) then Outcome(Some(text), true) else Outcome(None, false)
  }

  /** onClick as intended: the tag handed on is the text that was checked, the trimmed one. */
  function OnClick(text: string, ready: bool): (r: Outcome)
    ensures r.dismissed <==> ready && Accepted(text)
    ensures r.added.Some? <==> r.dismissed
    ensures r.added.Some? ==> r.added.value == Trim(text)
  {
    if ready && Accepted(text) then Outcome(Some(Trim(text)), true) else Outcome(None, false)
  }

  /** Every tag the corrected dialog hands on survives the filter preference's round trip. */
  lemma AcceptedIsClean(text: string)
    requires Accepted(text)
    ensures Clean(OnClick(text, true).added.value)
  {
  }

  /** onSaveInstanceState keeps the text only when there is some. */
  function Save(text: string): (saved: Option<string>)
    ensures saved.Some? <==> text != []
  {
    if text != [] then Some(text) else None
  }

  /** onCreateDialog restores a saved text verbatim; without one the field keeps its own text. */
  function Restore(saved: Option<string>, initial: string): (text: string)
    ensures saved.Some? ==> text == saved.value
    ensures saved.None? ==> text == initial
  {
    if saved.Some? then saved.value else initial
  }

  /** A rotation keeps whatever was typed, on an initially empty field. */
  lemma SaveRestore(text: string)
    ensures Restore(Save(text), "") == text
  {
  }
}
