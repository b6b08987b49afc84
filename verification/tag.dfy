/**
 * Tag (second generation, com.cuddlesoft.nori.api): a name and a type. Identity is the name
 * alone: equality, hash code and ordering all look only at the name.
 */
module Tags {
  import opened Wrappers
  import opened JavaInts
  import opened JavaStrings
  import opened UriEncode
  import opened Parcels
  import opened Seqs
  import StringUtils

  datatype TagType = General | Artist | Character | Copyright

  /** Type.ordinal(), the declaration order of the enum. */
  function Ordinal(t: TagType): (i: nat)
    ensures i < 4
  {
    match t
    case General => 0
    case Artist => 1
    case Character => 2
    case Copyright => 3
  }

  /** Type.values()[i]; any other index throws ArrayIndexOutOfBoundsException. */
  function TypeFromOrdinal(i: int): (r: Result<TagType>)
    ensures r.Ok? <==> 0 <= i < 4
    ensures r.Ok? ==> Ordinal(r.value) == i
  {
    if i == 0 then Ok(General)
    else if i == 1 then Ok(Artist)
    else if i == 2 then Ok(Character)
    else if i == 3 then Ok(Copyright)
    else Err(IndexOutOfBounds)
  }

  datatype Tag = Tag(name: string, kind: TagType)

  /** Tag(name): a tag of the general type. */
  function NewTag(name: string): (t: Tag)
    ensures t.kind == General && t.name == name
  {
    Tag(name, General)
  }

  /** equals(o): false for null, otherwise a comparison of the names only. */
  predicate Equals(a: Tag, o: Option<Tag>) {
    o.Some? && a.name == o.value.name
  }

  // ---------------------------------------------------------------------------------------------
  // hashCode: String.hashCode of the name, over its UTF-16 code units with int overflow.

  /** The polynomial s[0]*31^(n-1) + ... + s[n-1] over the code units, without overflow. */
  function Poly(us: seq<CodeUnit>): int
  {
    if us == [] then 0 else Poly(us[..|us| - 1]) * 31 + us[|us| - 1]
  }

  /** Wrapping between the steps of the polynomial gives the wrapped polynomial. */
  lemma WrapStep(x: int, c: int)
    ensures Wrap(31 * Wrap(x) + c) == Wrap(31 * x + c)
  {
    var k := (Wrap(x) - x) / 0x1_0000_0000;
    assert Wrap(x) == x + k * 0x1_0000_0000;
    assert 31 * Wrap(x) + c == (31 * x + c) + (31 * k) * 0x1_0000_0000;
    WrapShift(31 * x + c, 31 * k);
  }

  /**
   * String.hashCode: h = 31 * h + unit for every code unit, in int arithmetic.
   * The result is the polynomial of the units reduced to a Java int.
   */
  method StringHashCode(s: string) returns (h: Int32)
    ensures h == Wrap(Poly(Units(s)))
  {
    var us := Units(s);
    h := 0;
    var i := 0;
    while i < |us|
      invariant 0 <= i <= |us|
      invariant h == Wrap(Poly(us[..i]))
    {
      assert us[..i + 1][..i] == us[..i];
      WrapStep(Poly(us[..i]), us[i]);
      h := Wrap(31 * h + us[i]);
      i := i + 1;
    }
    assert us[..i] == us;
  }

  /** hashCode(): the name's hash; the empty name hashes to 0 and a one-unit name to that unit. */
  function HashCode(t: Tag): (h: Int32)
    ensures Units(t.name) == [] ==> h == 0
    ensures |Units(t.name)| == 1 ==> h == Units(t.name)[0]
  {
    var us := Units(t.name);
    if |us| == 1 then
      assert us[..0] == [];
      assert Poly(us) == us[0];
      Wrap(Poly(us))
    else Wrap(Poly(us))
  }

  /** Equal tags hash alike, whatever their types. */
  lemma EqualsHash(a: Tag, b: Tag)
    requires Equals(a, Some(b))
    ensures HashCode(a) == HashCode(b)
  {
  }

  // ---------------------------------------------------------------------------------------------
  // compareTo: String.compareTo of the names, over UTF-16 code units.

  /**
   * The difference of the first differing units, or the difference of the lengths when one is a
   * prefix of the other.
   */
  function CompareUnits(a: seq<CodeUnit>, b: seq<CodeUnit>): (r: int)
    ensures r == 0 <==> a == b
    ensures a != [] && b != [] && a[0] != b[0] ==> r == a[0] as int - b[0] as int
  {
    if a == [] || b == [] then |a| - |b|
    else if a[0] != b[0] then a[0] as int - b[0] as int
    else
      var r := CompareUnits(a[1..], b[1..]);
      assert a == [a[0]] + a[1..] && b == [b[0]] + b[1..];
      r
  }

  lemma {:induction false} CompareAntisymmetric(a: seq<CodeUnit>, b: seq<CodeUnit>)
    ensures CompareUnits(a, b) == -CompareUnits(b, a)
    decreases |a|
  {
    if a != [] && b != [] && a[0] == b[0] {
      CompareAntisymmetric(a[1..], b[1..]);
    }
  }

  lemma {:induction false} CompareTransitive(a: seq<CodeUnit>, b: seq<CodeUnit>, c: seq<CodeUnit>)
    requires CompareUnits(a, b) < 0 && CompareUnits(b, c) < 0
    ensures CompareUnits(a, c) < 0
    decreases |a|
  {
    if a != [] && b != [] && c != [] && a[0] == b[0] && b[0] == c[0] {
      CompareTransitive(a[1..], b[1..], c[1..]);
    }
  }

  /**
   * compareTo(another): the names' comparison, zero exactly for equal names and the negation of
   * the comparison the other way round.
   */
  function CompareTo(a: Tag, b: Tag): (r: int)
    ensures r == 0 <==> a.name == b.name
    ensures r == -CompareUnits(Units(b.name), Units(a.name))
  {
    CompareAntisymmetric(Units(a.name), Units(b.name));
    if CompareUnits(Units(a.name), Units(b.name)) == 0 then
      UnitsInjective(a.name, b.name);
      CompareUnits(Units(a.name), Units(b.name))
    else CompareUnits(Units(a.name), Units(b.name))
  }

  /** The ordering is consistent with equals: zero exactly for equal names. */
  lemma CompareConsistentWithEquals(a: Tag, b: Tag)
    ensures CompareTo(a, b) == 0 <==> Equals(a, Some(b))
  {
    if CompareTo(a, b) == 0 {
      UnitsInjective(a.name, b.name);
    }
  }

  /** The ordering is a strict total order on names. */
  lemma CompareOrder(a: Tag, b: Tag, c: Tag)
    ensures CompareTo(a, b) == -CompareTo(b, a)
    ensures CompareTo(a, b) < 0 && CompareTo(b, c) < 0 ==> CompareTo(a, c) < 0
  {
    CompareAntisymmetric(Units(a.name), Units(b.name));
    if CompareTo(a, b) < 0 && CompareTo(b, c) < 0 {
      CompareTransitive(Units(a.name), Units(b.name), Units(c.name));
    }
  }

  // ---------------------------------------------------------------------------------------------
  // Parcel: the name, then the type's ordinal.

  function WriteTag<T>(t: Tag): (r: seq<Slot<T>>)
    ensures |r| == 2
  {
    [StrSlot(Some(t.name)), IntSlot(Ordinal(t.kind))]
  }

  /**
   * Tag(Parcel): readString then Type.values()[readInt()]. A null name is reported as an error,
   * since the model's tags always have one.
   */
  function ReadTag<T>(p: seq<Slot<T>>, pos: nat): (r: Result<(Tag, nat)>)
    ensures r.Ok? ==> r.value.1 == pos + 2
  {
    match ReadString(p, pos)
    case Err(e) => Err(e)
    case Ok((name, next)) =>
      match ReadInt(p, next)
      case Err(e) => Err(e)
      case Ok((ordinal, after)) =>
        if name.None? then Err(NullPointer)
        else
          match TypeFromOrdinal(ordinal)
          case Err(e) => Err(e)
          case Ok(kind) => Ok((Tag(name.value, kind), after))
  }

  /** Reading a written tag gives the same name and type. */
  lemma TagRoundTrip<T>(t: Tag, p: seq<Slot<T>>, pos: nat)
    requires pos + 2 <= |p| && p[pos..pos + 2] == WriteTag(t)
    ensures ReadTag(p, pos) == Ok((t, pos + 2))
  {
    assert p[pos] == p[pos..pos + 2][0];
    assert p[pos + 1] == p[pos..pos + 2][1];
  }

  /** An ordinal outside the enum fails the read. */
  lemma BadOrdinal<T>(name: string, i: Int32)
    requires i < 0 || i >= 4
    ensures ReadTag<T>([StrSlot(Some(name)), IntSlot(i)], 0) == Err(IndexOutOfBounds)
  {
  }

  /** writeTypedArray: the length, then a non-null marker and the tag for each element. */
  function WriteTags<T>(ts: seq<Tag>): (r: seq<Slot<T>>)
    ensures |r| == 3 * |ts|
  {
    if ts == [] then [] else [IntSlot(1)] + WriteTag(ts[0]) + WriteTags(ts[1..])
  }

  function WriteTagArray<T>(ts: seq<Tag>): (r: seq<Slot<T>>)
    requires |ts| < 0x8000_0000
    ensures |r| == 1 + 3 * |ts|
  {
    [IntSlot(|ts|)] + WriteTags(ts)
  }

  /**
   * n elements of a typed array; a null element is reported as an error. Each element is a
   * non-null marker followed by the tag that reads from the next two slots (ReadTagsElement).
   */
  function ReadTags<T>(p: seq<Slot<T>>, pos: nat, n: nat): (r: Result<(seq<Tag>, nat)>)
    ensures r.Ok? ==> |r.value.0| == n && r.value.1 == pos + 3 * n
    decreases n
  {
    if n == 0 then Ok(([], pos))
    else
      match ReadInt(p, pos)
      case Err(e) => Err(e)
      case Ok((marker, next)) =>
        if marker == 0 then Err(NullPointer)
        else
          match ReadTag(p, next)
          case Err(e) => Err(e)
          case Ok((t, after)) =>
            match ReadTags(p, after, n - 1)
            case Err(e) => Err(e)
            case Ok((rest, last)) => Ok(([t] + rest, last))
  }

  /** createTypedArray: a negative length is a null array. */
  function ReadTagArray<T>(p: seq<Slot<T>>, pos: nat): (r: Result<(Option<seq<Tag>>, nat)>)
    ensures r.Ok? && r.value.0.None? ==> r.value.1 == pos + 1
    ensures r.Ok? && r.value.0.Some? ==> |r.value.0.value| < 0x8000_0000 && r.value.1 == pos + 1 + 3 * |r.value.0.value|
  {
    match ReadInt(p, pos)
    case Err(e) => Err(e)
    case Ok((n, next)) =>
      if n < 0 then Ok((None, next))
      else
        match ReadTags(p, next, n)
        case Err(e) => Err(e)
        case Ok((ts, after)) => Ok((Some(ts), after))
  }

  lemma {:induction false} TagsRoundTrip<T>(ts: seq<Tag>, p: seq<Slot<T>>, pos: nat)
    requires pos + 3 * |ts| <= |p| && p[pos..pos + 3 * |ts|] == WriteTags(ts)
    ensures ReadTags(p, pos, |ts|) == Ok((ts, pos + 3 * |ts|))
    decreases |ts|
  {
    if ts != [] {
      WrittenTagsHead(ts, p, pos);
      TagRoundTrip(ts[0], p, pos + 1);
      TagsRoundTrip(ts[1..], p, pos + 3);
      ReadTagsStep(p, pos, |ts|, ts[0], ts[1..], pos + 3 * |ts|);
      assert [ts[0]] + ts[1..] == ts;
    }
  }

  /** The first element read: a non-null marker and a tag, then the remaining elements from the slot after. */
  lemma ReadTagsHead<T>(p: seq<Slot<T>>, pos: nat, n: nat)
    requires ReadTags(p, pos, n).Ok? && n > 0
    ensures var ts := ReadTags(p, pos, n).value.0;
            pos < |p| && p[pos].IntSlot? && p[pos].i != 0 && ReadTag(p, pos + 1) == Ok((ts[0], pos + 3))
            && ReadTags(p, pos + 3, n - 1) == Ok((ts[1..], ReadTags(p, pos, n).value.1))
  {
  }

  /** Element i of a read array is a non-null marker at pos + 3i and the tag read from the two slots after it. */
  lemma {:induction false} ReadTagsElement<T>(p: seq<Slot<T>>, pos: nat, n: nat, i: nat)
    requires ReadTags(p, pos, n).Ok? && i < n
    ensures pos + 3 * i < |p| && p[pos + 3 * i].IntSlot? && p[pos + 3 * i].i != 0
    ensures ReadTag(p, pos + 3 * i + 1) == Ok((ReadTags(p, pos, n).value.0[i], pos + 3 * i + 3))
    decreases i
  {
    ReadTagsHead(p, pos, n);
    if i > 0 {
      var ts := ReadTags(p, pos, n).value.0;
      ReadTagsElement(p, pos + 3, n - 1, i - 1);
      assert ReadTags(p, pos + 3, n - 1).value.0[i - 1] == ts[1..][i - 1] == ts[i];
      assert pos + 3 + 3 * (i - 1) == pos + 3 * i;
    }
  }

  /** Where the first element of written tags sits: its marker, its tag, then the others. */
  lemma WrittenTagsHead<T>(ts: seq<Tag>, p: seq<Slot<T>>, pos: nat)
    requires ts != []
    requires pos + 3 * |ts| <= |p| && p[pos..pos + 3 * |ts|] == WriteTags(ts)
    ensures p[pos] == IntSlot(1)
    ensures p[pos + 1..pos + 3] == WriteTag(ts[0])
    ensures p[pos + 3..pos + 3 + 3 * |ts[1..]|] == WriteTags(ts[1..])
  {
    var n := 3 * |ts|;
    var h, r := WriteTag<T>(ts[0]), WriteTags<T>(ts[1..]);
    var w := [IntSlot(1)] + h + r;
    assert WriteTags<T>(ts) == w;
    assert w[1..3] == h && w[3..] == r;
    SliceOfSlice(p, pos, pos + n, 1, 3);
    SliceOfSlice(p, pos, pos + n, 3, n);
    assert p[pos] == p[pos..pos + n][0];
  }

  /** One element read: its marker, its tag, then the remaining elements. */
  lemma ReadTagsStep<T>(p: seq<Slot<T>>, pos: nat, n: nat, t: Tag, rest: seq<Tag>, last: nat)
    requires n > 0 && pos < |p| && p[pos] == IntSlot(1)
    requires ReadTag(p, pos + 1) == Ok((t, pos + 3))
    requires ReadTags(p, pos + 3, n - 1) == Ok((rest, last))
    ensures ReadTags(p, pos, n) == Ok(([t] + rest, last))
  {
  }

  /** Reading a written tag array gives the same tags, in order, and stops right after them. */
  lemma TagArrayRoundTrip<T>(ts: seq<Tag>, p: seq<Slot<T>>, pos: nat)
    requires |ts| < 0x8000_0000
    requires pos + 1 + 3 * |ts| <= |p| && p[pos..pos + 1 + 3 * |ts|] == WriteTagArray(ts)
    ensures ReadTagArray(p, pos) == Ok((Some(ts), pos + 1 + 3 * |ts|))
  {
    var w := WriteTagArray<T>(ts);
    assert p[pos] == w[0];
    assert p[pos + 1..pos + 1 + 3 * |ts|] == w[1..] == WriteTags(ts);
    TagsRoundTrip(ts, p, pos + 1);
  }

  // ---------------------------------------------------------------------------------------------
  // arrayAsString

  function Names(ts: seq<Tag>): (r: seq<string>)
    ensures |r| == |ts|
    ensures forall i :: 0 <= i < |ts| ==> r[i] == ts[i].name
  {
    if ts == [] then [] else [ts[0].name] + Names(ts[1..])
  }

  /** Each name followed by one space: the builder's contents before trim(). */
  function Spaced(ts: seq<Tag>): string
  {
    if ts == [] then "" else Spaced(ts[..|ts| - 1]) + ts[|ts| - 1].name + " "
  }

  lemma {:induction false} SpacedIsJoin(ts: seq<Tag>)
    requires ts != []
    ensures Spaced(ts) == Join(Names(ts), " ") + " "
    decreases |ts|
  {
    var init := ts[..|ts| - 1];
    if init != [] {
      SpacedIsJoin(init);
      assert Names(ts) == Names(init) + [ts[|ts| - 1].name];
      StringUtils.JoinSnoc(Names(init), ts[|ts| - 1].name, " ");
    } else {
      assert Names(ts) == [ts[0].name];
    }
  }

  /**
   * arrayAsString(tags): every name followed by a space, then trim(). The result is the names
   * joined by single spaces, trimmed; no tags give "".
   */
  method ArrayAsString(tags: seq<Tag>) returns (r: string)
    ensures r == Trim(Join(Names(tags), " "))
    ensures tags == [] ==> r == ""
  {
    var sb := "";
    for i := 0 to |tags|
      invariant sb == Spaced(tags[..i])
    {
      assert tags[..i + 1][..i] == tags[..i];
      sb := sb + tags[i].name + " ";
    }
    assert tags[..|tags|] == tags;
    r := Trim(sb);
    if tags != [] {
      SpacedIsJoin(tags);
      TrimDropsTrailingSpace(Join(Names(tags), " "));
    }
  }

  /** Tags with non-empty names free of trimmable characters come back from the string by split(" "). */
  lemma ArrayAsStringSplits(tags: seq<Tag>)
    requires tags != []
    requires forall i, k :: 0 <= i < |tags| && 0 <= k < |tags[i].name| ==> !Trimmable(tags[i].name[k])
    requires forall i :: 0 <= i < |tags| ==> tags[i].name != ""
    ensures Split(Trim(Join(Names(tags), " ")), ' ') == Names(tags)
  {
    var ns := Names(tags);
    assert ns[0][0] == tags[0].name[0];
    var last := tags[|tags| - 1].name;
    assert ns[|ns| - 1][|ns[|ns| - 1]| - 1] == last[|last| - 1];
    JoinUntrimmed(ns, " ");
    forall i | 0 <= i < |ns|
      ensures ' ' !in ns[i] && ns[i] != ""
    {
      assert forall k :: 0 <= k < |ns[i]| ==> !Trimmable(ns[i][k]);
    }
    StringUtils.MergeThenSplit(ns, ' ');
  }
}
