/**
 * SearchSuggestionProvider (third generation): the content provider the search box asks for tag
 * suggestions. A content URI is its authority and path segments; the URI matcher recognises the
 * suggest-query and shortcut-refresh paths, each alone or with one more segment.
 */
module SearchSuggestionProvider {
  import opened Wrappers
  import opened JavaStrings
  import opened SearchSuggestionDatabase

  const Authority: string := "com.cuddlesoft.nori.SearchSuggestionProvider"
  /** SearchManager.SUGGEST_URI_PATH_QUERY and SUGGEST_URI_PATH_SHORTCUT. */
  const SuggestPath: string := "search_suggest_query"
  const ShortcutPath: string := "search_suggest_shortcut"
  /** SearchManager.SUGGEST_MIME_TYPE and SHORTCUT_MIME_TYPE. */
  const SuggestMimeType: string := "vnd.android.cursor.dir/vnd.android.search.suggest"
  const ShortcutMimeType: string := "vnd.android.cursor.item/vnd.android.search.suggest"

  datatype ContentUri = ContentUri(authority: string, segments: seq<string>)

  datatype Match = SearchSuggest | ShortcutRefresh | NoMatch

  /** The URI matcher: the path alone, or the path and one non-empty segment (its "*" pattern). */
  function MatchUri(u: ContentUri): (m: Match)
    ensures m == SearchSuggest <==> u.authority == Authority && 1 <= |u.segments| <= 2 && u.segments[0] == SuggestPath
                                    && (|u.segments| == 2 ==> u.segments[1] != [])
    ensures m == ShortcutRefresh <==> u.authority == Authority && 1 <= |u.segments| <= 2 && u.segments[0] == ShortcutPath
                                      && (|u.segments| == 2 ==> u.segments[1] != [])
  {
    if u.authority != Authority || !(1 <= |u.segments| <= 2) || (|u.segments| == 2 && u.segments[1] == []) then NoMatch
    else if u.segments[0] == SuggestPath then SearchSuggest
    else if u.segments[0] == ShortcutPath then ShortcutRefresh
    else NoMatch
  }

  // ---------------------------------------------------------------------------------------------
  // SQLite LIKE

  /**
   * SQLite's LIKE without an ESCAPE clause: '%' matches any run of characters, '_' any one
   * character, and other characters match themselves, ASCII letters regardless of case.
   */
  predicate Like(pattern: string, s: string)
    decreases |pattern| + |s|
  {
    if pattern == [] then s == []
    else if pattern[0] == '%' then Like(pattern[1..], s) || (s != [] && Like(pattern, s[1..]))
    else if pattern[0] == '_' then s != [] && Like(pattern[1..], s[1..])
    else s != [] && LowerAscii(pattern[0]) == LowerAscii(s[0]) && Like(pattern[1..], s[1..])
  }

  /** '%' matches every string. */
  lemma {:induction false} PercentMatchesAll(s: string)
    ensures Like("%", s)
    decreases |s|
  {
    if s != [] {
      PercentMatchesAll(s[1..]);
    }
  }

  /** s starts with q, ignoring the case of ASCII letters. */
  predicate StartsWithIgnoringCase(s: string, q: string) {
    |q| <= |s| && ToLowerAscii(q) == ToLowerAscii(s[..|q|])
  }

  /** Every name that starts with the prefix matches prefix + "%", whatever the prefix holds. */
  lemma {:induction false} PrefixMatches(q: string, s: string)
    requires StartsWithIgnoringCase(s, q)
    ensures Like(q + "%", s)
    decreases |q|
  {
    if q == [] {
      assert q + "%" == "%";
      PercentMatchesAll(s);
    } else {
      assert LowerAscii(q[0]) == ToLowerAscii(q)[0] == ToLowerAscii(s[..|q|])[0] == LowerAscii(s[0]);
      assert ToLowerAscii(q[1..]) == ToLowerAscii(q)[1..];
      assert ToLowerAscii(s[1..][..|q| - 1]) == ToLowerAscii(s[..|q|])[1..];
      PrefixMatches(q[1..], s[1..]);
      var p := q + "%";
      assert p[1..] == q[1..] + "%";
      if q[0] == '%' {
        // The pattern's '%' skips the name's '%' and then stops.
        assert Like(p[1..], s[1..]);
        assert Like(p, s[1..]);
      }
    }
  }

  predicate NoWildcards(q: string) {
    forall i :: 0 <= i < |q| ==> q[i] != '%' && q[i] != '_'
  }

  /** Without wildcards in the prefix, matching prefix + "%" is exactly starting with it. */
  lemma {:induction false} PlainPrefixMatchesOnly(q: string, s: string)
    requires NoWildcards(q) && Like(q + "%", s)
    ensures StartsWithIgnoringCase(s, q)
    decreases |q|
  {
    if q != [] {
      LikePlainHead(q, s);
      PlainPrefixMatchesOnly(q[1..], s[1..]);
      StartsWithCons(s, q);
    }
  }

  /** A plain first character of the pattern matches the name's first character, and the rest the rest. */
  lemma LikePlainHead(q: string, s: string)
    requires q != [] && NoWildcards(q) && Like(q + "%", s)
    ensures s != [] && LowerAscii(q[0]) == LowerAscii(s[0])
    ensures NoWildcards(q[1..]) && Like(q[1..] + "%", s[1..])
  {
    var p := q + "%";
    assert p[0] == q[0] && p[1..] == q[1..] + "%";
  }

  /** Starting with a prefix, one character at a time. */
  lemma StartsWithCons(s: string, q: string)
    requires q != [] && s != [] && LowerAscii(q[0]) == LowerAscii(s[0])
    requires StartsWithIgnoringCase(s[1..], q[1..])
    ensures StartsWithIgnoringCase(s, q)
  {
    var a, b := ToLowerAscii(q), ToLowerAscii(s[..|q|]);
    forall i | 0 <= i < |q|
      ensures a[i] == b[i]
    {
      if i > 0 {
        assert ToLowerAscii(q[1..])[i - 1] == ToLowerAscii(s[1..][..|q| - 1])[i - 1];
      }
    }
    assert a == b;
  }

  /** A wildcard in the prefix lets through a name that does not start with it. */
  lemma UnderscoreIsWildcard()
    ensures Like("a_c" + "%", "abcd") && !StartsWithIgnoringCase("abcd", "a_c")
  {
    assert "a_c" + "%" == "a_c%";
    assert "abcd"[1..] == "bcd" && "bcd"[1..] == "cd" && "cd"[1..] == "d" && "d"[1..] == [];
    assert "a_c%"[1..] == "_c%" && "_c%"[1..] == "c%" && "c%"[1..] == "%" && "%"[1..] == [];
    PercentMatchesAll("d");
    assert Like("c%", "cd");
    assert Like("_c%", "bcd");
    assert "abcd"[..3] == "abc";
    assert ToLowerAscii("abc")[1] == 'b';
  }

  // ---------------------------------------------------------------------------------------------
  // query, getType and the mutators

  /** getSuggestions: every row for a null query, else the rows whose name is LIKE query + "%". */
  function Suggestions(rows: seq<Row>, query: Option<string>): (r: seq<Row>)
    ensures forall x :: x in r <==> x in rows && (query.None? || Like(query.value + "%", x.name))
  {
    if rows == [] then []
    else
      var keep := query.None? || Like(query.value + "%", rows[0].name);
      assert forall x :: x in rows <==> x == rows[0] || x in rows[1..];
      (if keep then [rows[0]] else []) + Suggestions(rows[1..], query)
  }

  /**
   * query: a suggest URI with more than one segment looks up its last segment, lower-cased; a
   * bare suggest URI lists every row; a shortcut refresh gives null; anything else throws.
   */
  function Query(t: Table, u: ContentUri): (r: Result<Option<seq<Row>>>)
    ensures r.Err? <==> MatchUri(u) == NoMatch
    ensures r.Err? ==> r.error == IllegalArgument
    ensures MatchUri(u) == ShortcutRefresh ==> r == Ok(None)
    ensures MatchUri(u) == SearchSuggest && |u.segments| == 1 ==> r == Ok(Some(t.rows))
    ensures MatchUri(u) == SearchSuggest && |u.segments| == 2 ==>
              r.Ok? && r.value.Some?
              && forall x :: x in r.value.value <==> x in t.rows && Like(ToLowerAscii(u.segments[1]) + "%", x.name)
  {
    match MatchUri(u)
    case SearchSuggest =>
      var query := if |u.segments| > 1 then Some(ToLowerAscii(u.segments[|u.segments| - 1])) else None;
      SuggestionsOfNone(t.rows);
      Ok(Some(Suggestions(t.rows, query)))
    case ShortcutRefresh => Ok(None)
    case NoMatch => Err(IllegalArgument)
  }

  lemma {:induction false} SuggestionsOfNone(rows: seq<Row>)
    ensures Suggestions(rows, None) == rows
  {
    if rows != [] {
      SuggestionsOfNone(rows[1..]);
      assert rows == [rows[0]] + rows[1..];
    }
  }

  /**
   * Typing a prefix lists every stored tag that starts with it, whatever the case of its ASCII
   * letters; without wildcards in the prefix it lists only those.
   */
  lemma QueryFindsPrefix(t: Table, typed: string, x: Row)
    requires x in t.rows && typed != []
    ensures var r := Query(t, ContentUri(Authority, [SuggestPath, typed]));
            r.Ok? && r.value.Some?
            && (StartsWithIgnoringCase(x.name, typed) ==> x in r.value.value)
            && (NoWildcards(typed) && x in r.value.value ==> StartsWithIgnoringCase(x.name, typed))
  {
    var q := ToLowerAscii(typed);
    assert ToLowerAscii(q) == ToLowerAscii(typed) by {
      forall i | 0 <= i < |q| ensures LowerAscii(q[i]) == LowerAscii(typed[i]) {
      }
    }
    if StartsWithIgnoringCase(x.name, typed) {
      PrefixMatches(q, x.name);
    }
    if NoWildcards(typed) && Like(q + "%", x.name) {
      assert NoWildcards(q);
      PlainPrefixMatchesOnly(q, x.name);
    }
  }

  /** getType: the suggest and shortcut MIME types; anything else throws. */
  function GetType(u: ContentUri): (r: Result<string>)
    ensures r.Err? <==> MatchUri(u) == NoMatch
    ensures r == Ok(SuggestMimeType) <==> MatchUri(u) == SearchSuggest
    ensures r == Ok(ShortcutMimeType) <==> MatchUri(u) == ShortcutRefresh
  {
    match MatchUri(u)
    case SearchSuggest => Ok(SuggestMimeType)
    case ShortcutRefresh => Ok(ShortcutMimeType)
    case NoMatch => Err(IllegalArgument)
  }

  datatype Mutation = InsertValues | DeleteRows | UpdateRows

  /** insert, delete and update are not offered: the database's own methods are used instead. */
  function Mutate(t: Table, m: Mutation): (r: Result<Table>)
    ensures r == Err(UnsupportedOperation)
  {
    Err(UnsupportedOperation)
  }
}
