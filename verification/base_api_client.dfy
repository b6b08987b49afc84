/**
 * BaseAPIClient (second generation): the page size, the default query and the Pixiv id found in
 * an image's source URL.
 *
 * The id comes from the first match (Matcher.find) of the pattern
 *   http://(?:www|i\d)\.pixiv\.net/.+?(?:illust_id=|img/.+?/)(\d+)
 * Here it is matched by hand, following the order in which a backtracking matcher tries the
 * alternatives: the leftmost start, then the shortest lazy run, then "illust_id=" before
 * "img/.../", then the shortest inner lazy run. '.' matches anything but a line terminator.
 */
module BaseApiClient {
  import opened Wrappers
  import opened JavaStrings
  import opened Seqs

  /** DEFAULT_LIMIT: images fetched per page. */
  const DefaultLimit: nat := 100

  /** getDefaultQuery(). */
  function DefaultQuery(): (q: string)
    ensures q == "rating:safe"
  {
    "rating:safe"
  }

  /** The characters '.' does not match in java.util.regex without DOTALL. */
  predicate LineTerminator(c: char) {
    c == '\n' || c == '\r' || c == '\U{85}' || c == '\U{2028}' || c == '\U{2029}'
  }

  predicate NoLineTerminator(u: string, a: nat, b: nat)
    requires a <= b <= |u|
  {
    forall k :: a <= k < b ==> !LineTerminator(u[k])
  }

  /** A line terminator at k stops every lazy run that would cross it. */
  lemma TerminatorBlocks(u: string, a: nat, k: nat)
    requires a <= k < |u| && LineTerminator(u[k])
    ensures forall b: nat :: k < b <= |u| ==> !NoLineTerminator(u, a, b)
  {
  }

  /** w occurs in u at index i. */
  predicate At(u: string, i: nat, w: string) {
    i + |w| <= |u| && u[i..i + |w|] == w
  }

  /** Where "http://www.pixiv.net/" or "http://i<digit>.pixiv.net/" starting at s ends. */
  function HostEnd(u: string, s: nat): (r: Option<nat>)
    ensures r.Some? ==> s + 20 <= r.value <= |u|
  {
    if At(u, s, "http://www.pixiv.net/") then Some(s + 21)
    else if At(u, s, "http://i") && s + 8 < |u| && IsDigit(u[s + 8]) && At(u, s + 9, ".pixiv.net/") then Some(s + 20)
    else None
  }

  /** "illust_id=" then a digit at q. */
  predicate IllustAt(u: string, q: nat) {
    At(u, q, "illust_id=") && q + 10 < |u| && IsDigit(u[q + 10])
  }

  /** "img/", a non-empty run without line terminators, then "/" at r and a digit, from q. */
  predicate ImgAt(u: string, q: nat, r: nat) {
    At(u, q, "img/") && q + 5 <= r && r + 1 < |u| && NoLineTerminator(u, q + 4, r)
    && u[r] == '/' && IsDigit(u[r + 1])
  }

  /** After the host ending at p, a lazy run up to q, then one alternative with its digits at d. */
  predicate BodyMatch(u: string, p: nat, q: nat, d: nat) {
    p < q <= |u| && NoLineTerminator(u, p, q)
    && ((IllustAt(u, q) && d == q + 10) || (d >= 1 && ImgAt(u, q, d - 1)))
  }

  /** A match of the whole pattern starting at s whose group begins at d. */
  predicate Matches(u: string, s: nat, q: nat, d: nat) {
    HostEnd(u, s).Some? && BodyMatch(u, HostEnd(u, s).value, q, d)
  }

  /** The inner lazy run of "img/.+?/": the first r from the given one that closes it. */
  function ScanImg(u: string, q: nat, r: nat): (x: Option<nat>)
    requires At(u, q, "img/") && q + 5 <= r <= |u| && NoLineTerminator(u, q + 4, r - 1)
    ensures x.Some? ==> r <= x.value && ImgAt(u, q, x.value)
    ensures x.Some? ==> forall r': nat :: r <= r' < x.value ==> !ImgAt(u, q, r')
    ensures x.None? ==> forall r': nat :: r <= r' ==> !ImgAt(u, q, r')
    decreases |u| - r
  {
    if r + 1 >= |u| then None
    else if LineTerminator(u[r - 1]) then
      TerminatorBlocks(u, q + 4, r - 1);
      None
    else if u[r] == '/' && IsDigit(u[r + 1]) then Some(r)
    else ScanImg(u, q, r + 1)
  }

  /** The outer lazy run: the first q from the given one at which an alternative matches. */
  function ScanBody(u: string, p: nat, q: nat): (x: Option<(nat, nat)>)
    requires p < q <= |u| + 1 && NoLineTerminator(u, p, q - 1)
    ensures x.Some? ==> q <= x.value.0 && BodyMatch(u, p, x.value.0, x.value.1)
    ensures x.Some? ==> forall q': nat, d': nat :: q <= q' < x.value.0 ==> !BodyMatch(u, p, q', d')
    ensures x.Some? && IllustAt(u, x.value.0) ==> x.value.1 == x.value.0 + 10
    ensures x.Some? && x.value.1 != x.value.0 + 10 ==>
              forall r': nat :: x.value.0 + 5 <= r' < x.value.1 - 1 ==> !ImgAt(u, x.value.0, r')
    ensures x.None? ==> forall q': nat, d': nat :: q <= q' ==> !BodyMatch(u, p, q', d')
    decreases |u| + 1 - q
  {
    if q > |u| then None
    else if LineTerminator(u[q - 1]) then None
    else
      assert NoLineTerminator(u, p, q);
      if IllustAt(u, q) then Some((q, q + 10))
      else if At(u, q, "img/") && q + 5 <= |u| && ScanImg(u, q, q + 5).Some? then
        Some((q, ScanImg(u, q, q + 5).value + 1))
      else
        assert forall d': nat :: !BodyMatch(u, p, q, d') by {
          if At(u, q, "img/") && q + 5 <= |u| {
            var none := ScanImg(u, q, q + 5);
          }
        }
        ScanBody(u, p, q + 1)
  }

  /** Matcher.find from start s: the match start, the end of the lazy run, and the group start. */
  function Find(u: string, s: nat): (x: Option<(nat, nat, nat)>)
    ensures x.Some? ==> s <= x.value.0 && Matches(u, x.value.0, x.value.1, x.value.2)
    ensures x.Some? ==> forall s': nat, q': nat, d': nat :: s <= s' < x.value.0 ==> !Matches(u, s', q', d')
    ensures x.Some? ==> forall q': nat, d': nat :: q' < x.value.1 ==> !Matches(u, x.value.0, q', d')
    ensures x.Some? && IllustAt(u, x.value.1) ==> x.value.2 == x.value.1 + 10
    ensures x.Some? && x.value.2 != x.value.1 + 10 ==>
              forall r': nat :: x.value.1 + 5 <= r' < x.value.2 - 1 ==> !ImgAt(u, x.value.1, r')
    ensures x.None? ==> forall s': nat, q': nat, d': nat :: s <= s' ==> !Matches(u, s', q', d')
    decreases |u| - s
  {
    if s >= |u| then None
    else
      match HostEnd(u, s)
      case None =>
        assert forall q': nat, d': nat :: !Matches(u, s, q', d');
        Find(u, s + 1)
      case Some(p) =>
        match ScanBody(u, p, p + 1)
        case Some((q, d)) => Some((s, q, d))
        case None =>
          assert forall q': nat, d': nat :: !Matches(u, s, q', d') by {
            forall q': nat, d': nat ensures !BodyMatch(u, p, q', d') {
              if p + 1 > q' {
                assert !(p < q');
              }
            }
          }
          Find(u, s + 1)
  }

  /** \d+ at d: every digit from d on. */
  function DigitRun(u: string, d: nat): (g: string)
    ensures AllDigits(g)
    ensures d < |u| && IsDigit(u[d]) ==> g != [] && g[0] == u[d]
    ensures d + |g| <= |u| || g == []
    decreases |u| - d
  {
    if d < |u| && IsDigit(u[d]) then [u[d]] + DigitRun(u, d + 1) else ""
  }

  /**
   * getPixivIDFromUrl(url): null for a null or empty URL; otherwise group 1 of the first match,
   * or null when the pattern does not occur.
   */
  function PixivIdFromUrl(url: Option<string>): (r: Option<string>)
    ensures url.None? || url.value == "" ==> r.None?
    ensures r.Some? ==> r.value != "" && AllDigits(r.value)
    ensures r.Some? ==> exists s: nat :: HostEnd(url.value, s).Some?
    ensures r.None? && url.Some? ==> forall s: nat, q: nat, d: nat :: !Matches(url.value, s, q, d)
  {
    if url.None? || |url.value| == 0 then None
    else
      var u := url.value;
      match Find(u, 0)
      case None => None
      case Some((s, q, d)) =>
        assert d < |u| && IsDigit(u[d]);
        Some(DigitRun(u, d))
  }

  /** The Pixiv page URL of an illustration, http://www.pixiv.net/member_illust.php?mode=medium&illust_id=123, gives its id. */
  lemma IllustPageId()
    ensures PixivIdFromUrl(Some(PixivHost + PagePath + IllustKey + "123")) == Some("123")
  {
    var u := PixivHost + PagePath + IllustKey + "123";
    ExampleFind(u);
    ExampleDigits(u);
  }

  /** The first match starts at the host, runs lazily up to illust_id= and takes its digits. */
  lemma ExampleFind(u: string)
    requires u == PixivHost + PagePath + IllustKey + "123"
    ensures Find(u, 0) == Some((0, 51, 61))
  {
    ExampleMatch(u);
    ExampleFirstAlternative(u);
    var x := Find(u, 0);
    assert x.Some?;
    assert x.value.0 == 0;
    assert x.value.1 == 51;
  }

  const PixivHost: string := "http://www.pixiv.net/"
  const PagePath: string := "member_illust.php?mode=medium&"
  const IllustKey: string := "illust_id="

  lemma ExampleMatch(u: string)
    requires u == PixivHost + PagePath + IllustKey + "123"
    ensures Matches(u, 0, 51, 61)
  {
    ConcatSlices(PixivHost, PagePath, IllustKey, "123");
    assert At(u, 0, "http://www.pixiv.net/");
    assert HostEnd(u, 0) == Some(21);
    assert u[61] == '1';
    assert IllustAt(u, 51);
    forall k | 21 <= k < 51
      ensures !LineTerminator(u[k])
    {
      assert u[k] == PagePath[k - 21];
    }
  }

  lemma ExampleFirstAlternative(u: string)
    requires u == PixivHost + PagePath + IllustKey + "123"
    ensures forall q: nat, e: nat :: q < 51 ==> !BodyMatch(u, 21, q, e)
  {
    forall q: nat, e: nat | q < 51
      ensures !BodyMatch(u, 21, q, e)
    {
      if 21 < q {
        NotIllustBefore(u, q);
        NoImg(u, q);
      }
    }
  }

  lemma ExampleDigits(u: string)
    requires u == PixivHost + PagePath + IllustKey + "123"
    ensures DigitRun(u, 61) == "123"
  {
    assert |u| == 64 && u[61] == '1' && u[62] == '2' && u[63] == '3';
    assert DigitRun(u, 64) == "";
    assert DigitRun(u, 63) == "3";
    assert DigitRun(u, 62) == "23";
  }

  lemma NotIllustBefore(u: string, q: nat)
    requires u == PixivHost + PagePath + IllustKey + "123"
    requires 21 < q < 51
    ensures !IllustAt(u, q)
  {
    if q == 34 {
      ExampleChar(u, q);
      assert PagePath[13] == '.';
      if q + 10 <= |u| {
        assert u[q..q + 10][0] == u[q];
      }
    } else {
      ExampleChar(u, q + 9);
      if q + 9 < 51 {
        EqualsOnceInPath(q - 12);
      } else {
        assert IllustKey[q - 42] != '=';
      }
      if q + 10 <= |u| {
        assert u[q..q + 10][9] == u[q + 9];
      }
    }
  }

  /** The characters of the example URL after the host. */
  lemma ExampleChar(u: string, k: nat)
    requires u == PixivHost + PagePath + IllustKey + "123"
    requires 21 <= k < 61
    ensures k < 51 ==> u[k] == PagePath[k - 21]
    ensures k >= 51 ==> u[k] == IllustKey[k - 51]
  {
    ConcatSlices(PixivHost, PagePath, IllustKey, "123");
    if k < 51 {
      assert u[21..51][k - 21] == u[k];
    } else {
      assert u[51..61][k - 51] == u[k];
    }
  }

  lemma EqualsOnceInPath(j: nat)
    requires j < |PagePath| && j != 22
    ensures PagePath[j] != '='
  {
  }

  lemma NoImg(u: string, q: nat)
    requires u == PixivHost + PagePath + IllustKey + "123"
    ensures !At(u, q, "img/")
  {
    assert 'g' !in PixivHost && 'g' !in PagePath && 'g' !in IllustKey && 'g' !in "123";
    assert 'g' !in u;
    if q + 4 <= |u| {
      assert u[q..q + 4][2] == u[q + 2];
    }
  }

  /** A URL without a Pixiv host never yields an id. */
  lemma NoHostNoId(u: string)
    requires forall s: nat :: HostEnd(u, s).None?
    ensures PixivIdFromUrl(Some(u)).None?
  {
  }
}
