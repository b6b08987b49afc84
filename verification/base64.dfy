/**
 * Base64 (section 4 of RFC 4648) as Android's Base64.encodeToString(bytes, Base64.DEFAULT)
 * writes it: padded with '=', and broken into lines of at most 76 characters, each ended by a
 * line feed (the last one included). Decode is the inverse of the unwrapped encoding.
 */
module Base64 {
  import opened Wrappers
  import opened UriEncode

  type Sextet = x: int | 0 <= x < 64

  /** The alphabet of Table 1 of RFC 4648. */
  function Symbol(d: Sextet): (c: char)
  {
    if d < 26 then (('A' as int) + d) as char
    else if d < 52 then (('a' as int) + d - 26) as char
    else if d < 62 then (('0' as int) + d - 52) as char
    else if d == 62 then '+'
    else '/'
  }

  /** The value a character stands for, or None for a character outside the alphabet. */
  function SymbolValue(c: char): (r: Option<Sextet>)
    ensures r.Some? ==> Symbol(r.value) == c
  {
    if 'A' <= c <= 'Z' then Some((c as int - 'A' as int) as Sextet)
    else if 'a' <= c <= 'z' then Some((c as int - 'a' as int + 26) as Sextet)
    else if '0' <= c <= '9' then Some((c as int - '0' as int + 52) as Sextet)
    else if c == '+' then Some(62)
    else if c == '/' then Some(63)
    else None
  }

  lemma SymbolRoundTrip(d: Sextet)
    ensures SymbolValue(Symbol(d)) == Some(d)
    ensures Symbol(d) != '=' && Symbol(d) != '\n'
  {
  }

  /** The four characters of three bytes. */
  function Quad(b0: Byte, b1: Byte, b2: Byte): string
  {
    [Symbol(b0 / 4), Symbol((b0 % 4) * 16 + b1 / 16), Symbol((b1 % 16) * 4 + b2 / 64), Symbol(b2 % 64)]
  }

  /** The padded encoding of the last one or two bytes. */
  function Tail(bs: seq<Byte>): string
    requires 1 <= |bs| <= 2
  {
    if |bs| == 1 then [Symbol(bs[0] / 4), Symbol((bs[0] % 4) * 16), '=', '=']
    else [Symbol(bs[0] / 4), Symbol((bs[0] % 4) * 16 + bs[1] / 16), Symbol((bs[1] % 16) * 4), '=']
  }

  /** The unwrapped encoding: four characters for every three bytes, the last group padded. */
  function Encode(bs: seq<Byte>): (r: string)
    ensures |r| == 4 * ((|bs| + 2) / 3)
    ensures '\n' !in r
  {
    if |bs| == 0 then ""
    else if |bs| <= 2 then Tail(bs)
    else Quad(bs[0], bs[1], bs[2]) + Encode(bs[3..])
  }

  /** The bytes of four characters, or None when one is not in the alphabet or misplaced padding. */
  function Unquad(q: string): (r: Option<seq<Byte>>)
    requires |q| == 4
    ensures r.Some? ==> 1 <= |r.value| <= 3
  {
    match (SymbolValue(q[0]), SymbolValue(q[1]), SymbolValue(q[2]), SymbolValue(q[3]))
    case (Some(d0), Some(d1), Some(d2), Some(d3)) => Some(Unpack(d0, d1, d2, d3))
    case (Some(d0), Some(d1), Some(d2), None) =>
      if q[3] == '=' then Some(Unpack(d0, d1, d2, 0)[..2]) else None
    case (Some(d0), Some(d1), None, None) =>
      if q[2] == '=' && q[3] == '=' then Some(Unpack(d0, d1, 0, 0)[..1]) else None
    case _ => None
  }

  /** The three bytes four sextets hold. */
  function Unpack(d0: Sextet, d1: Sextet, d2: Sextet, d3: Sextet): (r: seq<Byte>)
    ensures |r| == 3
  {
    var a: int, b: int, c: int, d: int := d0, d1, d2, d3;
    [a * 4 + b / 16, (b % 16) * 16 + c / 4, (c % 4) * 64 + d]
  }

  /** Decoding of an unwrapped encoding; only the last group may carry padding. */
  function Decode(t: string): (r: Option<seq<Byte>>)
    decreases |t|
  {
    if t == "" then Some([])
    else if |t| < 4 then None
    else
      match Unquad(t[..4])
      case None => None
      case Some(head) =>
        if |head| < 3 && |t| > 4 then None
        else
          match Decode(t[4..])
          case None => None
          case Some(rest) => Some(head + rest)
  }

  lemma QuadRoundTrip(b0: Byte, b1: Byte, b2: Byte)
    ensures Unquad(Quad(b0, b1, b2)) == Some([b0, b1, b2])
  {
    var d0: Sextet, d1: Sextet, d2: Sextet, d3: Sextet := b0 / 4, (b0 % 4) * 16 + b1 / 16, (b1 % 16) * 4 + b2 / 64, b2 % 64;
    SymbolRoundTrip(d0);
    SymbolRoundTrip(d1);
    SymbolRoundTrip(d2);
    SymbolRoundTrip(d3);
    UnquadFull(Quad(b0, b1, b2), d0, d1, d2, d3);
    UnpackQuad(b0, b1, b2);
  }

  /** Four symbols decode to the bytes their sextets pack. */
  lemma UnquadFull(q: string, d0: Sextet, d1: Sextet, d2: Sextet, d3: Sextet)
    requires |q| == 4
    requires SymbolValue(q[0]) == Some(d0) && SymbolValue(q[1]) == Some(d1)
    requires SymbolValue(q[2]) == Some(d2) && SymbolValue(q[3]) == Some(d3)
    ensures Unquad(q) == Some(Unpack(d0, d1, d2, d3))
  {
  }

  /** The sextets Quad takes out of three bytes pack back into them. */
  lemma UnpackQuad(b0: Byte, b1: Byte, b2: Byte)
    ensures Unpack(b0 / 4, (b0 % 4) * 16 + b1 / 16, (b1 % 16) * 4 + b2 / 64, b2 % 64) == [b0, b1, b2]
  {
    var x0: int, x1: int, x2: int := b0, b1, b2;
    assert ((x0 % 4) * 16 + x1 / 16) / 16 == x0 % 4;
    assert ((x0 % 4) * 16 + x1 / 16) % 16 == x1 / 16;
    assert ((x1 % 16) * 4 + x2 / 64) / 4 == x1 % 16;
    assert ((x1 % 16) * 4 + x2 / 64) % 4 == x2 / 64;
  }

  lemma TailRoundTrip(bs: seq<Byte>)
    requires 1 <= |bs| <= 2
    ensures Unquad(Tail(bs)) == Some(bs)
  {
    SymbolRoundTrip(bs[0] / 4);
    var b0: int := bs[0];
    if |bs| == 1 {
      SymbolRoundTrip((bs[0] % 4) * 16);
      assert SymbolValue('=') == None;
      assert (b0 / 4) * 4 + ((b0 % 4) * 16) / 16 == b0;
      assert Unpack(b0 / 4, (b0 % 4) * 16, 0, 0)[..1] == bs;
    } else {
      SymbolRoundTrip((bs[0] % 4) * 16 + bs[1] / 16);
      SymbolRoundTrip((bs[1] % 16) * 4);
      assert SymbolValue('=') == None;
      var b1: int := bs[1];
      assert (b0 / 4) * 4 + ((b0 % 4) * 16 + b1 / 16) / 16 == b0;
      assert (((b0 % 4) * 16 + b1 / 16) % 16) * 16 + ((b1 % 16) * 4) / 4 == b1;
      assert Unpack(b0 / 4, (b0 % 4) * 16 + b1 / 16, (b1 % 16) * 4, 0)[..2] == bs;
    }
  }

  /** A full group in front of a decodable rest. */
  lemma DecodeGroup(t: string, head: seq<Byte>, rest: seq<Byte>)
    requires |t| >= 4 && Unquad(t[..4]) == Some(head) && |head| == 3 && Decode(t[4..]) == Some(rest)
    ensures Decode(t) == Some(head + rest)
  {
  }

  /** A last group on its own. */
  lemma DecodeLast(t: string, head: seq<Byte>)
    requires |t| == 4 && Unquad(t) == Some(head)
    ensures Decode(t) == Some(head)
  {
    assert t[..4] == t;
    assert t[4..] == "";
    assert head + [] == head;
  }

  /** Decoding undoes encoding, for every byte string. */
  lemma {:induction false} DecodeEncode(bs: seq<Byte>)
    ensures Decode(Encode(bs)) == Some(bs)
    decreases |bs|
  {
    if |bs| == 0 {
    } else if |bs| <= 2 {
      TailRoundTrip(bs);
      DecodeLast(Tail(bs), bs);
    } else {
      var t := Encode(bs);
      EncodeGroup(bs);
      QuadRoundTrip(bs[0], bs[1], bs[2]);
      DecodeEncode(bs[3..]);
      DecodeGroup(t, [bs[0], bs[1], bs[2]], bs[3..]);
      SplitGroup(bs);
    }
  }

  /** The encoding of more than two bytes: the first group's four characters, then the rest's. */
  lemma EncodeGroup(bs: seq<Byte>)
    requires |bs| > 2
    ensures Encode(bs)[..4] == Quad(bs[0], bs[1], bs[2]) && Encode(bs)[4..] == Encode(bs[3..])
  {
    assert Encode(bs) == Quad(bs[0], bs[1], bs[2]) + Encode(bs[3..]);
  }

  lemma SplitGroup(bs: seq<Byte>)
    requires |bs| > 2
    ensures bs == [bs[0], bs[1], bs[2]] + bs[3..]
  {
  }

  const LineLength: nat := 76

  /** Line wrapping: every 76 characters a line feed, and one after the last line. */
  function Lines(t: string): (r: string)
    decreases |t|
  {
    if t == "" then ""
    else if |t| <= LineLength then t + "\n"
    else t[..LineLength] + "\n" + Lines(t[LineLength..])
  }

  /** The text with its line feeds removed. */
  function Unwrap(t: string): (r: string)
    ensures '\n' !in r
  {
    if t == "" then ""
    else if t[0] == '\n' then Unwrap(t[1..])
    else [t[0]] + Unwrap(t[1..])
  }

  lemma {:induction false} UnwrapAppend(a: string, b: string)
    ensures Unwrap(a + b) == Unwrap(a) + Unwrap(b)
    decreases |a|
  {
    if a == "" {
      assert a + b == b;
    } else {
      assert (a + b)[0] == a[0];
      assert (a + b)[1..] == a[1..] + b;
      UnwrapAppend(a[1..], b);
      if a[0] == '\n' {
        assert Unwrap(a + b) == Unwrap(a[1..] + b);
        assert Unwrap(a) == Unwrap(a[1..]);
      } else {
        assert Unwrap(a + b) == [a[0]] + Unwrap(a[1..] + b);
        assert Unwrap(a) == [a[0]] + Unwrap(a[1..]);
      }
    }
  }

  lemma {:induction false} UnwrapClean(t: string)
    requires '\n' !in t
    ensures Unwrap(t) == t
    decreases |t|
  {
    if t != "" {
      UnwrapClean(t[1..]);
    }
  }

  /**
   * Wrapping only adds line feeds, ends the text with one unless it is empty, and keeps every
   * line at most 76 characters long.
   */
  lemma LinesUnwrap(t: string)
    requires '\n' !in t
    ensures Unwrap(Lines(t)) == t
    ensures t != "" ==> |Lines(t)| > 0 && Lines(t)[|Lines(t)| - 1] == '\n'
    ensures forall i, j :: 0 <= i <= j <= |Lines(t)| && j - i > LineLength ==> '\n' in Lines(t)[i..j]
  {
    UnwrapLines(t);
    LinesEnd(t);
    LinesShort(t);
  }

  /** A text longer than a line: its first line, a line feed, and the wrapping of the rest. */
  lemma LinesLong(t: string)
    requires |t| > LineLength
    ensures Lines(t) == (t[..LineLength] + "\n") + Lines(t[LineLength..])
  {
  }

  lemma {:induction false} UnwrapLines(t: string)
    requires '\n' !in t
    ensures Unwrap(Lines(t)) == t
    decreases |t|
  {
    assert Unwrap("\n") == "";
    if t == "" {
    } else if |t| <= LineLength {
      UnwrapAppend(t, "\n");
      UnwrapClean(t);
    } else {
      var head, rest := t[..LineLength], t[LineLength..];
      assert '\n' !in head && '\n' !in rest;
      UnwrapLines(rest);
      LinesLong(t);
      UnwrapAppend(head + "\n", Lines(rest));
      UnwrapAppend(head, "\n");
      UnwrapClean(head);
      assert head + rest == t;
    }
  }

  lemma {:induction false} LinesEnd(t: string)
    ensures t != "" ==> |Lines(t)| > 0 && Lines(t)[|Lines(t)| - 1] == '\n'
    decreases |t|
  {
    if |t| > LineLength {
      LinesEnd(t[LineLength..]);
      LinesLong(t);
    }
  }

  lemma {:induction false} LinesShort(t: string)
    ensures forall i, j :: 0 <= i <= j <= |Lines(t)| && j - i > LineLength ==> '\n' in Lines(t)[i..j]
    decreases |t|
  {
    var l := Lines(t);
    if t == "" {
    } else if |t| <= LineLength {
      forall i, j | 0 <= i <= j <= |l| && j - i > LineLength
        ensures '\n' in l[i..j]
      {
        assert l[i..j][j - 1 - i] == l[j - 1] == '\n';
      }
    } else {
      var rest := t[LineLength..];
      LinesShort(rest);
      LinesLong(t);
      assert l[LineLength] == '\n';
      forall i, j | 0 <= i <= j <= |l| && j - i > LineLength
        ensures '\n' in l[i..j]
      {
        if i <= LineLength < j {
          assert l[i..j][LineLength - i] == l[LineLength];
        } else {
          assert l[i..j] == Lines(rest)[i - LineLength - 1..j - LineLength - 1];
        }
      }
    }
  }

  /** Base64.encodeToString(bytes, Base64.DEFAULT). */
  function EncodeToString(bs: seq<Byte>): (r: string)
    ensures Decode(Unwrap(r)) == Some(bs)
    ensures bs != [] ==> |r| > 0 && r[|r| - 1] == '\n'
  {
    LinesUnwrap(Encode(bs));
    DecodeEncode(bs);
    Lines(Encode(bs))
  }
}
