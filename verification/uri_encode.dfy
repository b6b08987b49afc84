/**
 * Percent-encoding of a string for use inside a URI component.
 *
 * This is ECMAScript's encodeURIComponent (section 19.2.6.5 of ECMA-262) and, with the same
 * unreserved set and upper-case hex digits, Android's Uri.encode used by every API client:
 * each UTF-16 code unit outside A-Z a-z 0-9 - _ . ! ~ * ' ( ) is replaced by the UTF-8 bytes
 * (RFC 3629) of its code point, each written as "%XY" (section 2.1 of RFC 3986).
 * A lone surrogate makes encodeURIComponent throw URIError.
 * Decode is decodeURIComponent, its inverse.
 */
module UriEncode {
  import opened Wrappers

  type CodeUnit = x: int | 0 <= x < 0x1_0000
  type Byte = x: int | 0 <= x < 0x100

  predicate IsHigh(u: int) { 0xD800 <= u < 0xDC00 }
  predicate IsLow(u: int) { 0xDC00 <= u < 0xE000 }

  /** A Unicode scalar value: what one Dafny char or one decoded UTF-8 sequence holds. */
  predicate IsScalar(v: int) {
    (0 <= v < 0xD800) || (0xE000 <= v < 0x11_0000)
  }

  /** A string of code units in which every surrogate belongs to a high-low pair. */
  predicate WellFormed(s: seq<CodeUnit>)
    decreases |s|
  {
    if s == [] then true
    else if IsHigh(s[0]) then |s| >= 2 && IsLow(s[1]) && WellFormed(s[2..])
    else !IsLow(s[0]) && WellFormed(s[1..])
  }

  /** The code point of a surrogate pair. */
  function Combine(hi: int, lo: int): (cp: int)
    requires IsHigh(hi) && IsLow(lo)
    ensures 0x1_0000 <= cp < 0x11_0000
  {
    (hi - 0xD800) * 0x400 + (lo - 0xDC00) + 0x1_0000
  }

  /** The UTF-16 code units of one scalar value. */
  function Utf16Of(cp: int): (r: seq<CodeUnit>)
    requires IsScalar(cp)
    ensures 1 <= |r| <= 2
    ensures |r| == 1 <==> cp < 0x1_0000
  {
    if cp < 0x1_0000 then [cp]
    else [0xD800 + (cp - 0x1_0000) / 0x400, 0xDC00 + (cp - 0x1_0000) % 0x400]
  }

  lemma PairOfCombine(hi: int, lo: int)
    requires IsHigh(hi) && IsLow(lo)
    ensures Utf16Of(Combine(hi, lo)) == [hi, lo]
  {
    var v := (hi - 0xD800) * 0x400 + (lo - 0xDC00);
    assert Combine(hi, lo) - 0x1_0000 == v;
    assert v / 0x400 == hi - 0xD800;
    assert v % 0x400 == lo - 0xDC00;
  }

  /** The code units of a Java string: each character in UTF-16. */
  function Units(s: string): (r: seq<CodeUnit>)
    ensures WellFormed(r)
  {
    if s == [] then []
    else
      var c := s[0] as int;
      var rest := Units(s[1..]);
      if c < 0x1_0000 then [c] + rest
      else
        var u := Utf16Of(c);
        assert u[2..] == [];
        assert (u + rest)[2..] == rest;
        u + rest
  }

  lemma CombineOfUtf16(cp: int)
    requires IsScalar(cp) && cp >= 0x1_0000
    ensures IsHigh(Utf16Of(cp)[0]) && IsLow(Utf16Of(cp)[1])
    ensures Combine(Utf16Of(cp)[0], Utf16Of(cp)[1]) == cp
  {
    var v := cp - 0x1_0000;
    assert v == (v / 0x400) * 0x400 + v % 0x400;
  }

  /** A string's first code unit is a high surrogate exactly when its first character is supplementary. */
  lemma FirstUnit(s: string)
    requires s != []
    ensures IsHigh(Units(s)[0]) <==> s[0] as int >= 0x1_0000
  {
    if s[0] as int >= 0x1_0000 {
      CombineOfUtf16(s[0] as int);
    }
  }

  /** Different strings have different code units, so comparing units decides string equality. */
  lemma {:induction false} UnitsInjective(a: string, b: string)
    requires Units(a) == Units(b)
    ensures a == b
    decreases |a|
  {
    if a != [] && b != [] {
      var ca := a[0] as int;
      var cb := b[0] as int;
      if ca < 0x1_0000 && cb < 0x1_0000 {
        assert Units(a)[1..] == Units(a[1..]);
        assert Units(b)[1..] == Units(b[1..]);
        UnitsInjective(a[1..], b[1..]);
      } else if ca >= 0x1_0000 && cb >= 0x1_0000 {
        var ua := Utf16Of(ca);
        var ub := Utf16Of(cb);
        assert Units(a) == ua + Units(a[1..]);
        assert Units(b) == ub + Units(b[1..]);
        assert ua[0] == Units(a)[0] && ua[1] == Units(a)[1];
        assert ub[0] == Units(b)[0] && ub[1] == Units(b)[1];
        CombineOfUtf16(ca);
        CombineOfUtf16(cb);
        assert Units(a)[2..] == Units(a[1..]);
        assert Units(b)[2..] == Units(b[1..]);
        UnitsInjective(a[1..], b[1..]);
        assert a[0] == b[0];
      } else {
        FirstUnit(a);
        FirstUnit(b);
      }
    }
  }

  /** The ASCII code of a character of the unreserved set. */
  predicate Unreserved(u: int) {
    ('A' as int <= u <= 'Z' as int) || ('a' as int <= u <= 'z' as int)
    || ('0' as int <= u <= '9' as int)
    || u == '-' as int || u == '_' as int || u == '.' as int || u == '!' as int
    || u == '~' as int || u == '*' as int || u == '\'' as int || u == '(' as int || u == ')' as int
  }

  predicate UnreservedChar(c: char) {
    Unreserved(c as int)
  }

  /** The UTF-8 encoding of a scalar value (section 3 of RFC 3629). */
  function Utf8(cp: int): (r: seq<Byte>)
    requires 0 <= cp < 0x11_0000
    ensures 1 <= |r| <= 4
  {
    if cp < 0x80 then [cp]
    else if cp < 0x800 then [0xC0 + cp / 64, 0x80 + cp % 64]
    else if cp < 0x1_0000 then [0xE0 + cp / 4096, 0x80 + (cp / 64) % 64, 0x80 + cp % 64]
    else [0xF0 + cp / 262144, 0x80 + (cp / 4096) % 64, 0x80 + (cp / 64) % 64, 0x80 + cp % 64]
  }

  function HexDigit(d: int): (c: char)
    requires 0 <= d < 16
  {
    "0123456789ABCDEF"[d]
  }

  predicate UpperHex(c: char) {
    ('0' <= c <= '9') || ('A' <= c <= 'F')
  }

  predicate AnyHex(c: char) {
    UpperHex(c) || ('a' <= c <= 'f')
  }

  function HexValue(c: char): (d: int)
    requires AnyHex(c)
    ensures 0 <= d < 16
  {
    if '0' <= c <= '9' then c as int - '0' as int
    else if 'A' <= c <= 'F' then c as int - 'A' as int + 10
    else c as int - 'a' as int + 10
  }

  lemma HexRoundTrip(d: int)
    requires 0 <= d < 16
    ensures UpperHex(HexDigit(d)) && HexValue(HexDigit(d)) == d
  {
  }

  /** "%XY" for each byte, with upper-case hex digits. */
  function Pct(bs: seq<Byte>): (r: string)
    ensures |r| == 3 * |bs|
  {
    if bs == [] then ""
    else ['%', HexDigit(bs[0] / 16), HexDigit(bs[0] % 16)] + Pct(bs[1..])
  }

  /**
   * encodeURIComponent over UTF-16 code units: unreserved units are copied, every other code
   * point is written as the percent-encoded bytes of its UTF-8 form, and a lone surrogate
   * raises URIError.
   */
  function Encode(s: seq<CodeUnit>): (r: Result<string>)
    ensures r.Err? ==> r.error == UriError
    ensures r.Ok? ==> |r.value| >= |s|
    ensures (forall i :: 0 <= i < |s| ==> Unreserved(s[i])) ==> r.Ok? && |r.value| == |s|
    decreases |s|
  {
    if s == [] then Ok("")
    else
      var u := s[0];
      if Unreserved(u) then
        var rest := Encode(s[1..]);
        if rest.Ok? then Ok([u as char] + rest.value) else rest
      else if IsLow(u) then Err(UriError)
      else if IsHigh(u) then
        if |s| >= 2 && IsLow(s[1]) then
          var rest := Encode(s[2..]);
          if rest.Ok? then Ok(Pct(Utf8(Combine(u, s[1]))) + rest.value) else rest
        else Err(UriError)
      else
        var rest := Encode(s[1..]);
        if rest.Ok? then Ok(Pct(Utf8(u)) + rest.value) else rest
  }

  /**
   * Text made only of unreserved characters and "%XY" triplets with upper-case hex digits.
   */
  predicate PercentEncoded(t: string)
    decreases |t|
  {
    if t == [] then true
    else if UnreservedChar(t[0]) then PercentEncoded(t[1..])
    else |t| >= 3 && t[0] == '%' && UpperHex(t[1]) && UpperHex(t[2]) && PercentEncoded(t[3..])
  }

  lemma {:induction false} PercentEncodedAppend(a: string, b: string)
    requires PercentEncoded(a) && PercentEncoded(b)
    ensures PercentEncoded(a + b)
    decreases |a|
  {
    if a != [] {
      assert (a + b)[0] == a[0];
      if UnreservedChar(a[0]) {
        assert (a + b)[1..] == a[1..] + b;
        PercentEncodedAppend(a[1..], b);
      } else {
        assert (a + b)[1] == a[1] && (a + b)[2] == a[2];
        assert (a + b)[3..] == a[3..] + b;
        PercentEncodedAppend(a[3..], b);
      }
    } else {
      assert a + b == b;
    }
  }

  lemma {:induction false} PctIsPercentEncoded(bs: seq<Byte>)
    ensures PercentEncoded(Pct(bs))
    decreases |bs|
  {
    if bs != [] {
      PctIsPercentEncoded(bs[1..]);
      var t := Pct(bs);
      assert t[3..] == Pct(bs[1..]);
      HexRoundTrip(bs[0] / 16);
      HexRoundTrip(bs[0] % 16);
    }
  }

  /** Every character the encoder emits is unreserved or part of a "%XY" triplet. */
  lemma {:induction false} EncodeIsPercentEncoded(s: seq<CodeUnit>)
    requires Encode(s).Ok?
    ensures PercentEncoded(Encode(s).value)
    decreases |s|
  {
    if s != [] {
      var u := s[0];
      if Unreserved(u) {
        EncodeIsPercentEncoded(s[1..]);
        assert ([u as char] + Encode(s[1..]).value)[1..] == Encode(s[1..]).value;
      } else if IsHigh(u) {
        EncodeIsPercentEncoded(s[2..]);
        PctIsPercentEncoded(Utf8(Combine(u, s[1])));
        PercentEncodedAppend(Pct(Utf8(Combine(u, s[1]))), Encode(s[2..]).value);
      } else {
        EncodeIsPercentEncoded(s[1..]);
        PctIsPercentEncoded(Utf8(u));
        PercentEncodedAppend(Pct(Utf8(u)), Encode(s[1..]).value);
      }
    }
  }

  /** Encoding succeeds exactly on well-formed strings: a lone surrogate is a URIError. */
  lemma {:induction false} EncodeOkIffWellFormed(s: seq<CodeUnit>)
    ensures Encode(s).Ok? <==> WellFormed(s)
    ensures Encode(s).Err? ==> Encode(s).error == UriError
    decreases |s|
  {
    if s != [] {
      if IsHigh(s[0]) {
        if |s| >= 2 && IsLow(s[1]) {
          EncodeOkIffWellFormed(s[2..]);
        }
      } else {
        EncodeOkIffWellFormed(s[1..]);
      }
    }
  }

  /** A "%XY" triplet at the start of t, read with hex digits of either case. */
  function PctByte(t: string): (r: Option<Byte>)
  {
    if |t| >= 3 && t[0] == '%' && AnyHex(t[1]) && AnyHex(t[2])
    then Some(HexValue(t[1]) * 16 + HexValue(t[2]))
    else None
  }

  /** Reads k consecutive triplets from the start of t. */
  function ReadBytes(t: string, k: nat): (r: Option<seq<Byte>>)
    ensures r.Some? ==> |r.value| == k && |t| >= 3 * k
    decreases k
  {
    if k == 0 then Some([])
    else
      match PctByte(t)
      case None => None
      case Some(b) =>
        match ReadBytes(t[3..], k - 1)
        case None => None
        case Some(rest) => Some([b] + rest)
  }

  /** The length of the UTF-8 sequence a lead byte starts, or 0 for a byte that cannot lead. */
  function SequenceLength(b: Byte): nat
  {
    if b < 0x80 then 1
    else if 0xC0 <= b < 0xE0 then 2
    else if 0xE0 <= b < 0xF0 then 3
    else if 0xF0 <= b < 0xF8 then 4
    else 0
  }

  predicate Continuation(b: Byte) { 0x80 <= b < 0xC0 }

  /**
   * The scalar value of one complete UTF-8 sequence, rejecting bad continuation bytes,
   * overlong forms, surrogates and values above U+10FFFF.
   */
  function Utf8Decode(bs: seq<Byte>): (r: Option<int>)
    ensures r.Some? ==> IsScalar(r.value)
  {
    if |bs| == 1 && bs[0] < 0x80 then Some(bs[0])
    else if |bs| == 2 && 0xC0 <= bs[0] < 0xE0 && Continuation(bs[1]) then
      var cp: int := (bs[0] as int - 0xC0) * 64 + (bs[1] as int - 0x80);
      if cp >= 0x80 then Some(cp) else None
    else if |bs| == 3 && 0xE0 <= bs[0] < 0xF0 && Continuation(bs[1]) && Continuation(bs[2]) then
      var cp: int := (bs[0] as int - 0xE0) * 4096 + (bs[1] as int - 0x80) * 64 + (bs[2] as int - 0x80);
      if cp >= 0x800 && !(0xD800 <= cp < 0xE000) then Some(cp) else None
    else if |bs| == 4 && 0xF0 <= bs[0] < 0xF8 && Continuation(bs[1]) && Continuation(bs[2])
      && Continuation(bs[3]) then
      var cp: int := (bs[0] as int - 0xF0) * 262144 + (bs[1] as int - 0x80) * 4096
        + (bs[2] as int - 0x80) * 64 + (bs[3] as int - 0x80);
      if 0x1_0000 <= cp < 0x11_0000 then Some(cp) else None
    else None
  }

  function Prepend(x: seq<CodeUnit>, r: Result<seq<CodeUnit>>): Result<seq<CodeUnit>>
  {
    if r.Ok? then Ok(x + r.value) else r
  }

  /**
   * decodeURIComponent: characters other than '%' are copied as their UTF-16 units; a "%XY"
   * starts a UTF-8 sequence whose remaining bytes must follow as further triplets; anything
   * malformed is a URIError.
   */
  function Decode(t: string): (r: Result<seq<CodeUnit>>)
    decreases |t|
  {
    if t == [] then Ok([])
    else if t[0] != '%' then Prepend(Utf16Of(t[0] as int), Decode(t[1..]))
    else
      match PctByte(t)
      case None => Err(UriError)
      case Some(b) =>
        var n := SequenceLength(b);
        if n == 0 then Err(UriError)
        else
          match ReadBytes(t, n)
          case None => Err(UriError)
          case Some(bs) =>
            match Utf8Decode(bs)
            case None => Err(UriError)
            case Some(cp) => Prepend(Utf16Of(cp), Decode(t[3 * n..]))
  }

  lemma {:induction false} ReadPct(bs: seq<Byte>, t: string)
    ensures ReadBytes(Pct(bs) + t, |bs|) == Some(bs)
    decreases |bs|
  {
    if bs != [] {
      PctHead(bs, t);
      ReadPct(bs[1..], t);
      assert [bs[0]] + bs[1..] == bs;
    }
  }

  /** The first triplet reads back as the first byte, and the rest follows it. */
  lemma PctHead(bs: seq<Byte>, t: string)
    requires bs != []
    ensures PctByte(Pct(bs) + t) == Some(bs[0])
    ensures (Pct(bs) + t)[3..] == Pct(bs[1..]) + t
  {
    var hi, lo := bs[0] / 16, bs[0] % 16;
    var head := ['%', HexDigit(hi), HexDigit(lo)];
    PctCons(bs);
    assert Pct(bs) + t == head + (Pct(bs[1..]) + t);
    TripletByte(head, Pct(bs[1..]) + t, bs[0]);
  }

  lemma PctCons(bs: seq<Byte>)
    requires bs != []
    ensures Pct(bs) == ['%', HexDigit(bs[0] / 16), HexDigit(bs[0] % 16)] + Pct(bs[1..])
  {
  }

  lemma TripletByte(head: string, rest: string, b: Byte)
    requires head == ['%', HexDigit(b / 16), HexDigit(b % 16)]
    ensures PctByte(head + rest) == Some(b)
    ensures (head + rest)[3..] == rest
  {
    var T := head + rest;
    HexRoundTrip(b / 16);
    HexRoundTrip(b % 16);
    assert T[0] == '%' && T[1] == HexDigit(b / 16) && T[2] == HexDigit(b % 16);
  }

  lemma Utf8RoundTrip(cp: int)
    requires IsScalar(cp)
    ensures SequenceLength(Utf8(cp)[0]) == |Utf8(cp)|
    ensures Utf8Decode(Utf8(cp)) == Some(cp)
  {
    if cp < 0x80 {
    } else if cp < 0x800 {
      Utf8RoundTrip2(cp);
    } else if cp < 0x1_0000 {
      Utf8RoundTrip3(cp);
    } else {
      Utf8RoundTrip4(cp);
    }
  }

  lemma Utf8RoundTrip2(cp: int)
    requires 0x80 <= cp < 0x800
    ensures SequenceLength(Utf8(cp)[0]) == 2 && Utf8Decode(Utf8(cp)) == Some(cp)
  {
    assert (cp / 64) * 64 + cp % 64 == cp;
  }

  lemma Utf8RoundTrip3(cp: int)
    requires 0x800 <= cp < 0x1_0000 && IsScalar(cp)
    ensures SequenceLength(Utf8(cp)[0]) == 3 && Utf8Decode(Utf8(cp)) == Some(cp)
  {
    assert (cp / 4096) * 64 + (cp / 64) % 64 == cp / 64;
    assert (cp / 64) * 64 + cp % 64 == cp;
  }

  lemma Utf8RoundTrip4(cp: int)
    requires 0x1_0000 <= cp < 0x11_0000
    ensures SequenceLength(Utf8(cp)[0]) == 4 && Utf8Decode(Utf8(cp)) == Some(cp)
  {
    assert (cp / 262144) * 64 + (cp / 4096) % 64 == cp / 4096;
    assert (cp / 4096) * 64 + (cp / 64) % 64 == cp / 64;
    assert (cp / 64) * 64 + cp % 64 == cp;
  }

  /** Decoding the triplets of one code point yields its UTF-16 units, then carries on. */
  lemma DecodeCodePoint(cp: int, t: string)
    requires IsScalar(cp)
    ensures Decode(Pct(Utf8(cp)) + t) == Prepend(Utf16Of(cp), Decode(t))
  {
    var bs := Utf8(cp);
    var T := Pct(bs) + t;
    Utf8RoundTrip(cp);
    ReadPct(bs, t);
    HexRoundTrip(bs[0] / 16);
    HexRoundTrip(bs[0] % 16);
    assert PctByte(T) == Some(bs[0]);
    assert T[3 * |bs|..] == t;
  }

  /** Percent-decoding and UTF-8-decoding the encoding gives back every well-formed string. */
  lemma {:induction false} DecodeEncode(s: seq<CodeUnit>)
    requires WellFormed(s)
    ensures Encode(s).Ok? && Decode(Encode(s).value) == Ok(s)
    decreases |s|
  {
    EncodeOkIffWellFormed(s);
    if s != [] {
      var u := s[0];
      if Unreserved(u) {
        DecodeEncode(s[1..]);
        DecodeUnreserved(s);
      } else if IsHigh(u) {
        DecodeEncode(s[2..]);
        DecodePair(s);
      } else {
        DecodeEncode(s[1..]);
        DecodeOther(s);
      }
    }
  }

  /** An unreserved unit is copied and read back as itself. */
  lemma DecodeUnreserved(s: seq<CodeUnit>)
    requires s != [] && Unreserved(s[0]) && Encode(s[1..]).Ok? && Decode(Encode(s[1..]).value) == Ok(s[1..])
    ensures Encode(s).Ok? && Decode(Encode(s).value) == Ok(s)
  {
    var u := s[0];
    var t := [u as char] + Encode(s[1..]).value;
    assert Encode(s) == Ok(t);
    assert t[1..] == Encode(s[1..]).value;
    assert [u] + s[1..] == s;
  }

  /** A surrogate pair is encoded as the triplets of its code point and read back as the pair. */
  lemma DecodePair(s: seq<CodeUnit>)
    requires |s| >= 2 && IsHigh(s[0]) && IsLow(s[1]) && Encode(s[2..]).Ok? && Decode(Encode(s[2..]).value) == Ok(s[2..])
    ensures Encode(s).Ok? && Decode(Encode(s).value) == Ok(s)
  {
    EncodePair(s);
    DecodePairAt(s[0], s[1], Encode(s[2..]).value, s[2..]);
    assert [s[0], s[1]] + s[2..] == s;
  }

  /** The triplets of a surrogate pair's code point, before text that decodes, decode to the pair first. */
  lemma DecodePairAt(hi: CodeUnit, lo: CodeUnit, rest: string, units: seq<CodeUnit>)
    requires IsHigh(hi) && IsLow(lo) && Decode(rest) == Ok(units)
    ensures Decode(Pct(Utf8(Combine(hi, lo))) + rest) == Ok([hi, lo] + units)
  {
    DecodeCodePoint(Combine(hi, lo), rest);
    PairOfCombine(hi, lo);
  }

  lemma EncodePair(s: seq<CodeUnit>)
    requires |s| >= 2 && IsHigh(s[0]) && IsLow(s[1]) && Encode(s[2..]).Ok?
    ensures Encode(s) == Ok(Pct(Utf8(Combine(s[0], s[1]))) + Encode(s[2..]).value)
  {
  }

  /** Any other unit is encoded as the triplets of its code point and read back as itself. */
  lemma DecodeOther(s: seq<CodeUnit>)
    requires s != [] && !Unreserved(s[0]) && !IsHigh(s[0]) && !IsLow(s[0])
    requires Encode(s[1..]).Ok? && Decode(Encode(s[1..]).value) == Ok(s[1..])
    ensures Encode(s).Ok? && Decode(Encode(s).value) == Ok(s)
  {
    var u := s[0];
    assert Encode(s) == Ok(Pct(Utf8(u)) + Encode(s[1..]).value);
    DecodeCodePoint(u, Encode(s[1..]).value);
    assert [u] + s[1..] == s;
  }

  /** Android's Uri.encode of a Java string: never fails, since Java strings here are well formed. */
  function EncodeString(s: string): (r: string)
    ensures PercentEncoded(r)
    ensures Decode(r) == Ok(Units(s))
  {
    DecodeEncode(Units(s));
    EncodeIsPercentEncoded(Units(s));
    Encode(Units(s)).value
  }

  /** Characters that delimit URI query parameters never appear in encoded text. */
  lemma {:induction false} NoDelimiters(t: string)
    requires PercentEncoded(t)
    ensures '?' !in t && '&' !in t && '=' !in t && '#' !in t && ' ' !in t
    decreases |t|
  {
    if t != [] {
      if UnreservedChar(t[0]) {
        NoDelimiters(t[1..]);
        assert t == [t[0]] + t[1..];
      } else {
        NoDelimiters(t[3..]);
        assert t == t[..3] + t[3..];
      }
    }
  }
}
