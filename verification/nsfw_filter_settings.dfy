/**
 * NSFWFilterSettingsActivity (third generation): one checkbox per obscenity rating; the ratings
 * checked are the ones whose images are hidden, kept in the NSFW filter preference.
 */
module NsfwFilterSettings {
  import opened Wrappers
  import opened FilterPreference

  /**
   * The activity: the rating labels and the values they store (two string-array resources), the
   * values currently filtered, and the preference (null until first written).
   */
  datatype Screen = Screen(entries: seq<string>, values: seq<string>, filtered: seq<string>, stored: Option<string>)

  predicate NoDuplicates(xs: seq<string>) {
    forall i, j :: 0 <= i < j < |xs| ==> xs[i] != xs[j]
  }

  /**
   * onCreate: with the preference present, its value trimmed and split (blank gives nothing);
   * without it, the default-values resource.
   */
  function Open(stored: Option<string>, defaults: seq<string>, entries: seq<string>, values: seq<string>): (s: Screen)
    ensures s.entries == entries && s.values == values && s.stored == stored
    ensures stored.None? ==> s.filtered == defaults
    ensures stored.Some? ==> s.filtered == Parse(stored.value)
  {
    Screen(entries, values, if stored.Some? then Parse(stored.value) else defaults, stored)
  }

  /** List.indexOf: the first position holding the value, or -1. */
  function FirstIndex(xs: seq<string>, v: string): (k: int)
    ensures v !in xs <==> k == -1
    ensures v in xs ==> 0 <= k < |xs| && xs[k] == v && v !in xs[..k]
  {
    if xs == [] then -1
    else if xs[0] == v then 0
    else
      var k := FirstIndex(xs[1..], v);
      assert v in xs <==> v in xs[1..];
      if k == -1 then -1
      else
        assert xs[..k + 1] == [xs[0]] + xs[1..][..k];
        k + 1
  }

  /** List.remove(Object): the first occurrence goes, everything else keeps its order. */
  function RemoveFirst(xs: seq<string>, v: string): (r: seq<string>)
    ensures v !in xs ==> r == xs
    ensures v in xs ==> |r| == |xs| - 1
    ensures v in xs ==> forall i :: 0 <= i < |r| ==> r[i] == xs[if i < FirstIndex(xs, v) then i else i + 1]
  {
    var k := FirstIndex(xs, v);
    if k == -1 then xs else xs[..k] + xs[k + 1..]
  }

  /**
   * onCheckedChanged: checking adds the value at the end when it is absent, unchecking removes
   * it when present, and either way the list is persisted.
   */
  function OnCheckedChanged(s: Screen, value: string, checked: bool): (r: Screen)
    ensures r.entries == s.entries && r.values == s.values
    ensures checked && value !in s.filtered ==> r.filtered == s.filtered + [value]
    ensures !(checked && value !in s.filtered) && !(!checked && value in s.filtered) ==> r.filtered == s.filtered
    ensures r.stored == Some(Persist(r.filtered))
  {
    var filtered :=
      if checked && value !in s.filtered then s.filtered + [value]
      else if !checked && value in s.filtered then RemoveFirst(s.filtered, value)
      else s.filtered;
    Screen(s.entries, s.values, filtered, Some(Persist(filtered)))
  }

  /**
   * After a change, on a list without repeats, the value is in the list exactly when it was
   * checked, no other value comes or goes, and there are still no repeats.
   */
  lemma CheckedChangeMembership(s: Screen, value: string, checked: bool)
    requires NoDuplicates(s.filtered)
    ensures var r := OnCheckedChanged(s, value, checked);
            (value in r.filtered <==> checked)
            && (forall x :: x != value ==> (x in r.filtered <==> x in s.filtered))
            && NoDuplicates(r.filtered)
  {
    var r := OnCheckedChanged(s, value, checked);
    if !checked && value in s.filtered {
      RemovedMembership(s.filtered, value);
    }
  }

  /** Removing the first occurrence from a list without repeats takes out that value and no other. */
  lemma RemovedMembership(xs: seq<string>, v: string)
    requires NoDuplicates(xs) && v in xs
    ensures var r := RemoveFirst(xs, v);
            v !in r && (forall x :: x != v ==> (x in r <==> x in xs)) && NoDuplicates(r)
  {
    var r := RemoveFirst(xs, v);
    var k := FirstIndex(xs, v);
    forall x ensures x in r <==> x in xs && x != v {
      if x in r {
        var i :| 0 <= i < |r| && r[i] == x;
        var j := if i < k then i else i + 1;
        assert xs[j] == x && j != k;
      }
      if x in xs && x != v {
        var j :| 0 <= j < |xs| && xs[j] == x;
        assert r[if j < k then j else j - 1] == x;
      }
    }
    forall i, j | 0 <= i < j < |r| ensures r[i] != r[j] {
      assert r[i] == xs[if i < k then i else i + 1] && r[j] == xs[if j < k then j else j + 1];
    }
  }

  /** Checking a value that was not filtered and unchecking it again restores the list. */
  lemma CheckThenUncheck(s: Screen, value: string)
    requires value !in s.filtered
    ensures OnCheckedChanged(OnCheckedChanged(s, value, true), value, false) == s.(stored := Some(Persist(s.filtered)))
  {
    var xs := s.filtered + [value];
    assert forall i :: 0 <= i < |s.filtered| ==> xs[i] == s.filtered[i] && xs[i] != value;
    assert FirstIndex(xs, value) == |s.filtered|;
    assert RemoveFirst(xs, value) == s.filtered;
  }

  /** The checkbox at a position is checked when its value is filtered; beyond the values it throws. */
  function Checked(s: Screen, position: int): (r: Result<bool>)
    ensures r.Ok? <==> 0 <= position < |s.values|
    ensures r.Ok? ==> (r.value <==> s.values[position] in s.filtered)
  {
    if 0 <= position < |s.values| then Ok(s.values[position] in s.filtered) else Err(IndexOutOfBounds)
  }

  /** The adapter: one row per rating label, the row id is the position. */
  function Count(s: Screen): (n: nat)
    ensures n == |s.entries|
  {
    |s.entries|
  }

  /** Toggling a checkbox and drawing it again shows the state it was toggled to. */
  lemma ToggleShows(s: Screen, position: int, checked: bool)
    requires NoDuplicates(s.filtered) && 0 <= position < |s.values|
    ensures Checked(OnCheckedChanged(s, s.values[position], checked), position) == Ok(checked)
  {
    CheckedChangeMembership(s, s.values[position], checked);
  }

  /** A list of clean values, once changed, opens again as it was left. */
  lemma ReopenAfterChange(s: Screen, value: string, checked: bool, defaults: seq<string>)
    requires forall i :: 0 <= i < |s.filtered| ==> Clean(s.filtered[i])
    requires Clean(value)
    ensures var r := OnCheckedChanged(s, value, checked);
            Open(r.stored, defaults, s.entries, s.values).filtered == r.filtered
  {
    var r := OnCheckedChanged(s, value, checked);
    forall i | 0 <= i < |r.filtered| ensures Clean(r.filtered[i]) {
      if !checked && value in s.filtered {
        var k := FirstIndex(s.filtered, value);
        assert r.filtered[i] == s.filtered[if i < k then i else i + 1];
      }
    }
    PersistThenParse(r.filtered);
  }
}
