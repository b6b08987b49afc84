/**
 * The query part of the request URLs the API clients build, and a reader for it. The reader
 * is the partner of every URL builder: reading a built URL back gives the path and the exact
 * parameters, in order, which shows that no user text can add, drop or reorder a parameter.
 */
module Urls {
  import opened Wrappers
  import opened JavaStrings
  import opened UriEncode

  datatype Param = Param(key: string, value: string)

  /** key=value */
  function Field(p: Param): (r: string)
    ensures |r| == |p.key| + 1 + |p.value|
    ensures r[|p.key|] == '='
  {
    p.key + "=" + p.value
  }

  function Fields(ps: seq<Param>): (r: seq<string>)
    ensures |r| == |ps|
    ensures forall i :: 0 <= i < |ps| ==> r[i] == Field(ps[i])
  {
    seq(|ps|, i requires 0 <= i < |ps| => Field(ps[i]))
  }

  /** The fields joined with '&'. */
  function Query(ps: seq<Param>): string
  {
    Join(Fields(ps), "&")
  }

  /** A base followed by '?' and the query. */
  function Url(base: string, ps: seq<Param>): string
  {
    base + "?" + Query(ps)
  }

  /** A query with a first field and more after it: that field, '&', and the query of the rest. */
  lemma QueryCons(p: Param, ps: seq<Param>)
    requires ps != []
    ensures Query([p] + ps) == Field(p) + "&" + Query(ps)
  {
    var fs := Fields([p] + ps);
    assert fs[1..] == Fields(ps);
  }

  /** One field: the key is everything before the first '=', the value everything after it. */
  function ParseParam(piece: string): (p: Param)
    ensures '=' !in p.key
  {
    var i := IndexOf(piece, '=');
    if i < 0 then Param(piece, "") else Param(piece[..i], piece[i + 1..])
  }

  function ParseQuery(q: string): (ps: seq<Param>)
    ensures |ps| >= 1
  {
    var pieces := Pieces(q, '&');
    seq(|pieces|, i requires 0 <= i < |pieces| => ParseParam(pieces[i]))
  }

  /** Splits a URL at its first '?' into the part before it and the parameters after it. */
  function ParseUrl(u: string): (r: Option<(string, seq<Param>)>)
    ensures r.None? <==> '?' !in u
    ensures r.Some? ==> '?' !in r.value.0
  {
    var i := IndexOf(u, '?');
    if i < 0 then None else Some((u[..i], ParseQuery(u[i + 1..])))
  }

  /** A parameter the reader gets back intact: no '&' anywhere, no '=' in the key. */
  predicate Safe(p: Param) {
    '&' !in p.key && '=' !in p.key && '&' !in p.value
  }

  predicate AllSafe(ps: seq<Param>) {
    forall i :: 0 <= i < |ps| ==> Safe(ps[i])
  }

  lemma AllSafeConcat(a: seq<Param>, b: seq<Param>)
    requires AllSafe(a) && AllSafe(b)
    ensures AllSafe(a + b)
  {
    forall i | 0 <= i < |a + b| ensures Safe((a + b)[i]) {
      if i >= |a| {
        assert (a + b)[i] == b[i - |a|];
      }
    }
  }

  lemma ParseField(p: Param)
    requires '=' !in p.key
    ensures ParseParam(Field(p)) == p
  {
    IndexOfAfterClean(p.key, '=', p.value);
    var f := Field(p);
    assert f == p.key + ['='] + p.value;
    assert f[..|p.key|] == p.key;
    assert f[|p.key| + 1..] == p.value;
  }

  /** Reading a query built from safe parameters gives back exactly those parameters. */
  lemma QueryRoundTrip(ps: seq<Param>)
    requires |ps| >= 1
    requires forall i :: 0 <= i < |ps| ==> Safe(ps[i])
    ensures ParseQuery(Query(ps)) == ps
  {
    var fs := Fields(ps);
    forall i | 0 <= i < |fs|
      ensures '&' !in fs[i]
    {
      assert fs[i] == ps[i].key + "=" + ps[i].value;
    }
    PiecesOfJoin(fs, '&');
    assert Pieces(Query(ps), '&') == fs;
    forall i | 0 <= i < |ps|
      ensures ParseQuery(Query(ps))[i] == ps[i]
    {
      ParseField(ps[i]);
    }
  }

  /** A URL built from a '?'-free base and safe parameters reads back as that base and those parameters. */
  lemma UrlRoundTrip(base: string, ps: seq<Param>)
    requires '?' !in base
    requires |ps| >= 1
    requires forall i :: 0 <= i < |ps| ==> Safe(ps[i])
    ensures ParseUrl(Url(base, ps)) == Some((base, ps))
  {
    var u := Url(base, ps);
    IndexOfAfterClean(base, '?', Query(ps));
    assert u == base + ['?'] + Query(ps);
    assert u[..|base|] == base;
    assert u[|base| + 1..] == Query(ps);
    QueryRoundTrip(ps);
  }

  /** A decimal printed by %d contains no query delimiter. */
  lemma DecimalIsSafe(n: int)
    ensures '&' !in IntToDecimal(n) && '=' !in IntToDecimal(n) && '?' !in IntToDecimal(n)
  {
    var d := NatToDecimal(if n < 0 then -n else n);
    assert forall i :: 0 <= i < |d| ==> IsDigit(d[i]);
    if n < 0 {
      assert IntToDecimal(n) == "-" + d;
    }
  }

  /** Uri.encode output is a safe parameter value. */
  lemma EncodedIsSafe(s: string)
    ensures '&' !in EncodeString(s) && '=' !in EncodeString(s) && '?' !in EncodeString(s)
  {
    NoDelimiters(EncodeString(s));
  }
}
