/** StringUtils.mergeStringArray: the join that the settings screens use to persist lists. */
module StringUtils {
  import opened Wrappers
  import opened JavaStrings

  /** Sum of the lengths of the strings in xs. */
  function TotalLength(xs: seq<string>): nat
  {
    if xs == [] then 0 else |xs[0]| + TotalLength(xs[1..])
  }

  lemma {:induction false} JoinSnoc(xs: seq<string>, x: string, sep: string)
    requires |xs| >= 1
    ensures Join(xs + [x], sep) == Join(xs, sep) + sep + x
    decreases |xs|
  {
    if |xs| == 1 {
      assert (xs + [x])[1..] == [x];
    } else {
      assert (xs + [x])[1..] == xs[1..] + [x];
      JoinSnoc(xs[1..], x, sep);
    }
  }

  /**
   * mergeStringArray(array, separator): "" for a null or empty array, otherwise every element
   * in order with the separator after each one except the last.
   */
  method MergeStringArray(arr: Option<seq<string>>, sep: string) returns (r: string)
    ensures arr.None? ==> r == ""
    ensures arr.Some? ==> r == Join(arr.value, sep)
    ensures arr.Some? && |arr.value| == 1 ==> r == arr.value[0]
  {
    if arr.None? || |arr.value| == 0 {
      return "";
    }
    var a := arr.value;
    var sb := "";
    var i := 0;
    while i < |a|
      invariant 0 <= i <= |a|
      invariant i == 0 ==> sb == ""
      invariant 0 < i < |a| ==> sb == Join(a[..i], sep) + sep
      invariant i == |a| ==> sb == Join(a, sep)
    {
      if i > 0 {
        JoinSnoc(a[..i], a[i], sep);
        assert a[..i + 1] == a[..i] + [a[i]];
      }
      sb := sb + a[i];
      if i != |a| - 1 {
        sb := sb + sep;
      }
      i := i + 1;
      assert i == |a| ==> a[..i] == a;
    }
    r := sb;
  }

  /** The merged length is the element lengths plus one separator between each neighbouring pair. */
  lemma {:induction false} JoinLength(xs: seq<string>, sep: string)
    requires |xs| >= 1
    ensures |Join(xs, sep)| == TotalLength(xs) + (|xs| - 1) * |sep|
    decreases |xs|
  {
    if |xs| > 1 {
      JoinLength(xs[1..], sep);
    }
  }

  /**
   * Merging with a one-character separator and splitting on it gives the array back, for a
   * non-empty array of non-empty elements that do not contain the separator.
   */
  lemma MergeThenSplit(xs: seq<string>, c: char)
    requires |xs| >= 1
    requires forall i :: 0 <= i < |xs| ==> c !in xs[i] && xs[i] != ""
    ensures Split(Join(xs, [c]), c) == xs
  {
    SplitJoin(xs, c);
  }

  /** The empty array is where "opposite of split" fails: its merge splits to one empty string. */
  lemma MergeEmptyNotInverted(c: char)
    ensures Split(Join([], [c]), c) == [""]
    ensures Split(Join([], [c]), c) != []
  {
  }

  /** An empty element also breaks the inversion: ["a", ""] merges to "a " which splits to ["a"]. */
  lemma MergeEmptyLastNotInverted()
    ensures Join(["a", ""], " ") == "a "
    ensures Split("a ", ' ') == ["a"]
  {
    assert Join(["a", ""], " ") == "a" + " " + "";
    assert Pieces("", ' ') == [""];
    assert " "[1..] == "";
    assert Pieces(" ", ' ') == ["", ""];
    assert "a "[1..] == " ";
    assert ['a'] + "" == "a";
    assert ["a"] + ["", ""][1..] == ["a", ""];
    assert Pieces("a ", ' ') == ["a", ""];
    assert DropTrailingEmpty(["a", ""]) == ["a"];
  }
}
