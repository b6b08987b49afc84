/**
 * The parts of java.lang.String and java.lang.Long that the client code leans on:
 * trim(), split(" "), lastIndexOf, and decimal parsing and printing.
 * Java strings are Dafny strings here; see Utf16 in uri_encode.dfy for the code-unit view.
 */
module JavaStrings {
  import opened Wrappers
  import opened JavaInts

  /** trim() removes every character at or below U+0020 from both ends. */
  predicate Trimmable(c: char) {
    c as int <= 0x20
  }

  /** The suffix left after dropping leading trimmable characters. */
  function TrimStart(s: string): (r: string)
    ensures |r| <= |s| && r == s[|s| - |r|..]
    ensures r == [] || !Trimmable(r[0])
    ensures forall k :: 0 <= k < |s| - |r| ==> Trimmable(s[k])
  {
    if |s| > 0 && Trimmable(s[0]) then TrimStart(s[1..]) else s
  }

  /** The prefix left after dropping trailing trimmable characters. */
  function TrimEnd(s: string): (r: string)
    ensures |r| <= |s| && r == s[..|r|]
    ensures r == [] || !Trimmable(r[|r| - 1])
    ensures forall k :: |r| <= k < |s| ==> Trimmable(s[k])
  {
    if |s| > 0 && Trimmable(s[|s| - 1]) then TrimEnd(s[..|s| - 1]) else s
  }

  /** String.trim(). */
  function Trim(s: string): (r: string)
    ensures |r| <= |s|
    ensures r == [] || (!Trimmable(r[0]) && !Trimmable(r[|r| - 1]))
  {
    TrimEnd(TrimStart(s))
  }

  /** A string that trim() leaves alone. */
  predicate Untrimmed(s: string) {
    s == [] || (!Trimmable(s[0]) && !Trimmable(s[|s| - 1]))
  }

  lemma TrimOfUntrimmed(s: string)
    requires Untrimmed(s)
    ensures Trim(s) == s
  {
  }

  lemma TrimIdempotent(s: string)
    ensures Trim(Trim(s)) == Trim(s)
  {
    TrimOfUntrimmed(Trim(s));
  }

  /** A trailing space never survives trim(). */
  lemma {:induction false} TrimDropsTrailingSpace(s: string)
    ensures Trim(s + " ") == Trim(s)
  {
    var t := TrimStart(s);
    if t == [] {
      assert forall k :: 0 <= k < |s| ==> Trimmable(s[k]);
      TrimStartAllTrimmable(s + " ");
    } else {
      TrimStartKeepsTail(s, " ");
      assert TrimStart(s + " ") == t + " ";
      assert (t + " ")[..|t|] == t;
      assert TrimEnd(t + " ") == TrimEnd(t);
    }
  }

  lemma {:induction false} TrimStartAllTrimmable(s: string)
    requires forall k :: 0 <= k < |s| ==> Trimmable(s[k])
    ensures TrimStart(s) == []
  {
    if |s| > 0 {
      TrimStartAllTrimmable(s[1..]);
    }
  }

  /** Leading trimming only looks at the head once something untrimmable is found. */
  lemma {:induction false} TrimStartKeepsTail(s: string, tail: string)
    requires TrimStart(s) != []
    ensures TrimStart(s + tail) == TrimStart(s) + tail
  {
    if |s| > 0 && Trimmable(s[0]) {
      assert (s + tail)[1..] == s[1..] + tail;
      TrimStartKeepsTail(s[1..], tail);
    }
  }

  /** The elements of xs with sep between consecutive ones: what mergeStringArray builds. */
  function Join(xs: seq<string>, sep: string): string
  {
    if |xs| == 0 then ""
    else if |xs| == 1 then xs[0]
    else xs[0] + sep + Join(xs[1..], sep)
  }

  /** A join ends with the end of its last element. */
  lemma {:induction false} JoinLast(xs: seq<string>, sep: string)
    requires |xs| >= 1 && xs[|xs| - 1] != []
    ensures var j := Join(xs, sep); j != [] && j[|j| - 1] == xs[|xs| - 1][|xs[|xs| - 1]| - 1]
    decreases |xs|
  {
    if |xs| > 1 {
      JoinLast(xs[1..], sep);
    }
  }

  /** trim() leaves a join alone when its outer ends are not trimmable. */
  lemma JoinUntrimmed(xs: seq<string>, sep: string)
    requires |xs| >= 1 && xs[0] != [] && xs[|xs| - 1] != []
    requires !Trimmable(xs[0][0]) && !Trimmable(xs[|xs| - 1][|xs[|xs| - 1]| - 1])
    ensures Trim(Join(xs, sep)) == Join(xs, sep)
  {
    JoinLast(xs, sep);
    TrimOfUntrimmed(Join(xs, sep));
  }

  /**
   * Every maximal run between occurrences of c, including empty ones:
   * the pieces a literal one-character split finds before trailing empties are removed.
   */
  function Pieces(s: string, c: char): (r: seq<string>)
    ensures |r| >= 1
    ensures forall i :: 0 <= i < |r| ==> c !in r[i]
    decreases |s|
  {
    if s == [] then [""]
    else
      var p := Pieces(s[1..], c);
      if s[0] == c then [""] + p
      else [[s[0]] + p[0]] + p[1..]
  }

  /** Joining the pieces with the separator gives back the string. */
  lemma {:induction false} JoinPieces(s: string, c: char)
    ensures Join(Pieces(s, c), [c]) == s
    decreases |s|
  {
    if s != [] {
      var p := Pieces(s[1..], c);
      JoinPieces(s[1..], c);
      if s[0] == c {
        assert ([""] + p)[1..] == p;
        assert s == [c] + s[1..];
      } else {
        var q := [[s[0]] + p[0]] + p[1..];
        assert q[1..] == p[1..];
        if |p| == 1 {
          assert s == [s[0]] + s[1..];
        } else {
          assert Join(p, [c]) == p[0] + [c] + Join(p[1..], [c]);
          assert s == [s[0]] + s[1..];
        }
      }
    }
  }

  lemma {:induction false} PiecesOfClean(a: string, c: char)
    requires c !in a
    ensures Pieces(a, c) == [a]
    decreases |a|
  {
    if a != [] {
      PiecesOfClean(a[1..], c);
      assert [a[0]] + a[1..] == a;
    }
  }

  lemma {:induction false} PiecesOfCleanPrefix(a: string, c: char, t: string)
    requires c !in a
    ensures Pieces(a + [c] + t, c) == [a] + Pieces(t, c)
    decreases |a|
  {
    if a == [] {
      assert a + [c] + t == [c] + t;
      assert ([c] + t)[1..] == t;
    } else {
      assert (a + [c] + t)[1..] == a[1..] + [c] + t;
      PiecesOfCleanPrefix(a[1..], c, t);
      assert [a[0]] + a[1..] == a;
    }
  }

  /** Pieces is a left inverse of Join for separator-free elements. */
  lemma {:induction false} PiecesOfJoin(xs: seq<string>, c: char)
    requires |xs| >= 1
    requires forall i :: 0 <= i < |xs| ==> c !in xs[i]
    ensures Pieces(Join(xs, [c]), c) == xs
    decreases |xs|
  {
    if |xs| == 1 {
      PiecesOfClean(xs[0], c);
    } else {
      PiecesOfJoin(xs[1..], c);
      PiecesOfCleanPrefix(xs[0], c, Join(xs[1..], [c]));
      assert [xs[0]] + xs[1..] == xs;
    }
  }

  /** Drops the empty strings at the end of a list, as String.split does. */
  function DropTrailingEmpty(xs: seq<string>): (r: seq<string>)
    ensures |r| <= |xs| && r == xs[..|r|]
    ensures r == [] || r[|r| - 1] != ""
    ensures forall k :: |r| <= k < |xs| ==> xs[k] == ""
  {
    if |xs| > 0 && xs[|xs| - 1] == "" then DropTrailingEmpty(xs[..|xs| - 1]) else xs
  }

  /**
   * String.split with a one-character literal separator: the whole string when the separator
   * does not occur, otherwise the pieces with trailing empty strings removed.
   */
  function Split(s: string, c: char): (r: seq<string>)
    ensures c !in s ==> r == [s]
    ensures forall i :: 0 <= i < |r| ==> c !in r[i]
  {
    if c !in s then [s] else DropTrailingEmpty(Pieces(s, c))
  }

  /** split is undone by join exactly when it removed no trailing empty piece. */
  lemma SplitThenJoin(s: string, c: char)
    requires s == [] || s[|s| - 1] != c
    ensures Join(Split(s, c), [c]) == s
  {
    JoinPieces(s, c);
    if c in s {
      var p := Pieces(s, c);
      LastPieceNonEmpty(s, c);
      assert DropTrailingEmpty(p) == p;
    }
  }

  lemma {:induction false} LastPieceNonEmpty(s: string, c: char)
    requires s != [] && s[|s| - 1] != c
    ensures var p := Pieces(s, c); p[|p| - 1] != ""
    decreases |s|
  {
    var p := Pieces(s[1..], c);
    if |s| > 1 {
      LastPieceNonEmpty(s[1..], c);
    } else {
      assert s[1..] == [];
    }
  }

  /** Splitting a join of non-empty, separator-free strings gives them back. */
  lemma SplitJoin(xs: seq<string>, c: char)
    requires |xs| >= 1
    requires forall i :: 0 <= i < |xs| ==> c !in xs[i] && xs[i] != ""
    ensures Split(Join(xs, [c]), c) == xs
  {
    PiecesOfJoin(xs, c);
    var s := Join(xs, [c]);
    if c !in s {
      PiecesOfClean(s, c);
    }
  }

  /** The index of the last c in s, or -1: String.lastIndexOf(char). */
  function LastIndexOf(s: string, c: char): (r: int)
    ensures -1 <= r < |s|
    ensures r == -1 <==> c !in s
    ensures r >= 0 ==> s[r] == c && c !in s[r + 1..]
  {
    if s == [] then -1
    else if s[|s| - 1] == c then |s| - 1
    else LastIndexOf(s[..|s| - 1], c)
  }

  /** The index of the first c in s, or -1: String.indexOf(char). */
  function IndexOf(s: string, c: char): (r: int)
    ensures -1 <= r < |s|
    ensures r == -1 <==> c !in s
    ensures r >= 0 ==> s[r] == c && c !in s[..r]
  {
    if s == [] then -1
    else if s[0] == c then 0
    else
      var k := IndexOf(s[1..], c);
      assert k >= 0 ==> s[..k + 1] == [s[0]] + s[1..][..k];
      if k == -1 then -1 else k + 1
  }

  lemma IndexOfAfterClean(a: string, c: char, b: string)
    requires c !in a
    ensures IndexOf(a + [c] + b, c) == |a|
  {
    var s := a + [c] + b;
    assert s[|a|] == c;
    assert s[..|a|] == a;
  }

  predicate IsDigit(c: char) {
    '0' <= c <= '9'
  }

  function DigitValue(c: char): (d: nat)
    requires IsDigit(c)
    ensures d < 10
  {
    c as int - '0' as int
  }

  function DigitChar(d: nat): (c: char)
    requires d < 10
    ensures IsDigit(c) && DigitValue(c) == d
  {
    ('0' as int + d) as char
  }

  predicate AllDigits(s: string) {
    forall i :: 0 <= i < |s| ==> IsDigit(s[i])
  }

  /** The value of a string of decimal digits, most significant first. */
  function DigitsValue(s: string): nat
    requires AllDigits(s)
  {
    if s == [] then 0 else DigitsValue(s[..|s| - 1]) * 10 + DigitValue(s[|s| - 1])
  }

  /** Long.toString of a non-negative value: no leading zeros, "0" for zero. */
  function NatToDecimal(n: nat): (r: string)
    ensures |r| >= 1 && AllDigits(r)
    ensures |r| > 1 ==> r[0] != '0'
  {
    if n < 10 then [DigitChar(n)] else NatToDecimal(n / 10) + [DigitChar(n % 10)]
  }

  lemma {:induction false} DigitsOfNat(n: nat)
    ensures DigitsValue(NatToDecimal(n)) == n
  {
    if n >= 10 {
      DigitsOfNat(n / 10);
      var r := NatToDecimal(n);
      assert r[..|r| - 1] == NatToDecimal(n / 10);
    }
  }

  /** Long.toString and Integer.toString: an optional minus sign, then the digits. */
  function IntToDecimal(n: int): (r: string)
    ensures |r| >= 1
    ensures n >= 0 ==> AllDigits(r)
  {
    if n < 0 then "-" + NatToDecimal(-n) else NatToDecimal(n)
  }

  const IntMin: int := -0x8000_0000
  const IntMax: int := 0x7FFF_FFFF
  const LongMin: int := -0x8000_0000_0000_0000
  const LongMax: int := 0x7FFF_FFFF_FFFF_FFFF

  /**
   * Long.parseLong / Integer.parseInt with ASCII digits: an optional sign, at least one digit,
   * and a value inside [lo, hi]; anything else throws NumberFormatException.
   */
  function ParseDecimal(s: string, lo: int, hi: int): (r: Result<int>)
    ensures r.Ok? ==> lo <= r.value <= hi
    ensures r.Ok? && |s| >= 1 && AllDigits(s) ==> r.value == DigitsValue(s)
    ensures |s| >= 1 && AllDigits(s) && lo <= DigitsValue(s) <= hi ==> r == Ok(DigitsValue(s))
  {
    if |s| >= 1 && (s[0] == '-' || s[0] == '+') then
      var body := s[1..];
      if |body| >= 1 && AllDigits(body) then
        var v: int := if s[0] == '-' then -(DigitsValue(body) as int) else DigitsValue(body);
        if lo <= v <= hi then Ok(v) else Err(NumberFormat)
      else Err(NumberFormat)
    else if |s| >= 1 && AllDigits(s) then
      var v := DigitsValue(s);
      if lo <= v <= hi then Ok(v) else Err(NumberFormat)
    else Err(NumberFormat)
  }

  function ParseLong(s: string): (r: Result<int>)
    ensures r.Ok? ==> LongMin <= r.value <= LongMax
  {
    ParseDecimal(s, LongMin, LongMax)
  }

  function ParseInt(s: string): (r: Result<int>)
    ensures r.Ok? ==> IntMin <= r.value <= IntMax
  {
    ParseDecimal(s, IntMin, IntMax)
  }

  /** Integer.parseInt, stored in an int field. */
  function ParseInt32(s: string): (r: Result<Int32>)
    ensures r.Ok? <==> ParseInt(s).Ok?
    ensures r.Ok? ==> r.value as int == ParseInt(s).value
  {
    match ParseInt(s)
    case Ok(v) => Ok(v as Int32)
    case Err(e) => Err(e)
  }

  /** Printing a value and parsing it back gives the value whenever it lies in range. */
  lemma ParsePrinted(n: int, lo: int, hi: int)
    requires lo <= n <= hi
    ensures ParseDecimal(IntToDecimal(n), lo, hi) == Ok(n)
  {
    if n < 0 {
      DigitsOfNat(-n);
      assert IntToDecimal(n)[1..] == NatToDecimal(-n);
    } else {
      DigitsOfNat(n);
    }
  }

  /** String.toLowerCase restricted to ASCII letters. */
  function ToLowerAscii(s: string): (r: string)
    ensures |r| == |s|
    ensures forall i :: 0 <= i < |s| ==> r[i] == LowerAscii(s[i])
  {
    seq(|s|, i requires 0 <= i < |s| => LowerAscii(s[i]))
  }

  function LowerAscii(c: char): char {
    if 'A' <= c <= 'Z' then (c as int - 'A' as int + 'a' as int) as char else c
  }
}
