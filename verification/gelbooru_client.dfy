/**
 * The Gelbooru client of the second generation (a DanbooruLegacy subclass): the search URL,
 * whose page numbers count from 0, and the web page of a post.
 */
module GelbooruClient {
  import opened Wrappers
  import opened JavaInts
  import opened JavaStrings
  import opened UriEncode
  import opened Urls

  /**
   * createSearchURL(tags, pid, limit): the format
   * "%s/index.php?page=dapi&s=post&q=index&tags=%s&pid=%d&limit=%d" filled with the endpoint,
   * Uri.encode(tags), pid and limit.
   */
  function SearchUrl(endpoint: string, tags: string, pid: Int32, limit: Int32): (r: string)
    ensures '?' !in endpoint ==> ParseUrl(r) == Some((endpoint + "/index.php", SearchParams(tags, pid, limit)))
  {
    var ps := SearchParams(tags, pid, limit);
    if '?' in endpoint then Url(endpoint + "/index.php", ps)
    else
      IndexPathPlain(endpoint);
      SearchParamsSafe(tags, pid, limit);
      UrlRoundTrip(endpoint + "/index.php", ps);
      Url(endpoint + "/index.php", ps)
  }

  function SearchParams(tags: string, pid: Int32, limit: Int32): seq<Param>
  {
    [Param("page", "dapi"), Param("s", "post"), Param("q", "index"),
     Param("tags", EncodeString(tags)), Param("pid", IntToDecimal(pid)), Param("limit", IntToDecimal(limit))]
  }

  /**
   * Reading the search URL back gives the endpoint's index.php and exactly six parameters:
   * page, s, q, the encoded tags, pid as given (page numbers count from 0) and the limit.
   * The tags value decodes back to the tags, whatever characters they hold.
   */
  lemma SearchUrlParams(endpoint: string, tags: string, pid: Int32, limit: Int32)
    requires '?' !in endpoint
    ensures ParseUrl(SearchUrl(endpoint, tags, pid, limit)) == Some((endpoint + "/index.php", SearchParams(tags, pid, limit)))
    ensures Decode(SearchParams(tags, pid, limit)[3].value) == Ok(Units(tags))
    ensures ParseInt(SearchParams(tags, pid, limit)[4].value) == Ok(pid as int)
  {
    IndexPathPlain(endpoint);
    SearchParamsSafe(tags, pid, limit);
    UrlRoundTrip(endpoint + "/index.php", SearchParams(tags, pid, limit));
    ParsePrinted(pid, IntMin, IntMax);
  }

  lemma IndexPathPlain(endpoint: string)
    requires '?' !in endpoint
    ensures '?' !in endpoint + "/index.php"
  {
    var path := "/index.php";
    forall i | 0 <= i < |path| ensures path[i] != '?' { }
  }

  lemma SearchParamsSafe(tags: string, pid: Int32, limit: Int32)
    ensures AllSafe(SearchParams(tags, pid, limit))
  {
    EncodedIsSafe(tags);
    DecimalIsSafe(pid);
    DecimalIsSafe(limit);
    var ps := SearchParams(tags, pid, limit);
    forall i | 0 <= i < |ps| ensures Safe(ps[i]) {
      if i < 3 {
        FixedParamSafe(ps[i]);
      }
    }
  }

  /** The first three parameters are fixed words. */
  lemma FixedParamSafe(p: Param)
    requires p in [Param("page", "dapi"), Param("s", "post"), Param("q", "index")]
    ensures Safe(p)
  {
  }

  /** webUrlFromId(id): the format "%s/index.php?page=post&s=view&id=%s". */
  function WebUrl(endpoint: string, id: string): (r: string)
    ensures '?' !in endpoint && '&' !in id ==>
              ParseUrl(r) == Some((endpoint + "/index.php", [Param("page", "post"), Param("s", "view"), Param("id", id)]))
  {
    var ps := [Param("page", "post"), Param("s", "view"), Param("id", id)];
    if '?' in endpoint || '&' in id then Url(endpoint + "/index.php", ps)
    else
      IndexPathPlain(endpoint);
      UrlRoundTrip(endpoint + "/index.php", ps);
      Url(endpoint + "/index.php", ps)
  }

  /** The web URL carries the id as its only id parameter, unchanged when it holds no '&'. */
  lemma WebUrlParams(endpoint: string, id: string)
    requires '?' !in endpoint && '&' !in id
    ensures ParseUrl(WebUrl(endpoint, id))
         == Some((endpoint + "/index.php", [Param("page", "post"), Param("s", "view"), Param("id", id)]))
  {
    UrlRoundTrip(endpoint + "/index.php", [Param("page", "post"), Param("s", "view"), Param("id", id)]);
  }
}
