/**
 * The first generation's Gelbooru client: a fixed endpoint that already carries page=dapi,
 * search URLs counting pages from 0, and a response of attribute-only <post> tags read
 * without any fix-up and without a fallback for unknown ratings.
 */
module PeGelbooruClient {
  import opened Wrappers
  import opened JavaInts
  import opened JavaStrings
  import opened UriEncode
  import opened Urls
  import opened XmlEvents
  import opened PeImages
  import opened PostAttributes
  import opened AttributeResponses

  const Host: string := "http://gelbooru.com/index.php"

  /** API_ENDPOINT. */
  const ApiEndpoint: string := "http://gelbooru.com/index.php?page=dapi"

  const DefaultLimit: Int32 := 100

  function TailParams(tags: string, pid: Option<Int32>): seq<Param>
  {
    [Param("s", "post"), Param("q", "index"), Param("tags", EncodeString(tags))]
    + (if pid.Some? then [Param("pid", IntToDecimal(pid.value))] else [])
    + [Param("limit", IntToDecimal(DefaultLimit))]
  }

  /**
   * searchRequest(tags, pid) with pid given, searchRequest(tags) without: API_ENDPOINT followed
   * by "&s=post&q=index&tags=%s&pid=%d&limit=%d" (or without the pid field).
   */
  function SearchUrl(tags: string, pid: Option<Int32>): (r: string)
    ensures ParseUrl(r) == Some((Host, SearchParams(tags, pid)))
  {
    EndpointQuery(tags, pid);
    SearchParamsRead(tags, pid);
    ApiEndpoint + "&" + Query(TailParams(tags, pid))
  }

  /** The endpoint already holds the first field, so the search URL is a URL over all the parameters. */
  lemma EndpointQuery(tags: string, pid: Option<Int32>)
    ensures ApiEndpoint + "&" + Query(TailParams(tags, pid)) == Url(Host, SearchParams(tags, pid))
  {
    QueryCons(Param("page", "dapi"), TailParams(tags, pid));
    EndpointSplit();
  }

  /** A URL over the search parameters reads back as them. */
  lemma SearchParamsRead(tags: string, pid: Option<Int32>)
    ensures ParseUrl(Url(Host, SearchParams(tags, pid))) == Some((Host, SearchParams(tags, pid)))
  {
    SafeParams(tags, pid);
    assert '?' !in Host;
    UrlRoundTrip(Host, SearchParams(tags, pid));
  }

  /** The parameters the search URL carries, page=dapi first. */
  function SearchParams(tags: string, pid: Option<Int32>): seq<Param>
  {
    [Param("page", "dapi")] + TailParams(tags, pid)
  }

  lemma EndpointSplit()
    ensures ApiEndpoint == Host + "?" + Field(Param("page", "dapi"))
  {
  }

  lemma SafeParams(tags: string, pid: Option<Int32>)
    ensures forall i :: 0 <= i < |SearchParams(tags, pid)| ==> Urls.Safe(SearchParams(tags, pid)[i])
  {
    var fixed := [Param("page", "dapi"), Param("s", "post"), Param("q", "index")];
    FixedSafe();
    var tagsParam := [Param("tags", EncodeString(tags))];
    TagsSafe(tags);
    var page := if pid.Some? then [Param("pid", IntToDecimal(pid.value))] else [];
    PageSafe(pid);
    var limit := [Param("limit", IntToDecimal(DefaultLimit))];
    LimitSafe();
    AllSafeConcat(fixed, tagsParam);
    AllSafeConcat(fixed + tagsParam, page);
    AllSafeConcat(fixed + tagsParam + page, limit);
    assert SearchParams(tags, pid) == fixed + tagsParam + page + limit;
  }

  lemma FixedSafe()
    ensures AllSafe([Param("page", "dapi"), Param("s", "post"), Param("q", "index")])
  {
  }

  lemma TagsSafe(tags: string)
    ensures AllSafe([Param("tags", EncodeString(tags))])
  {
    EncodedIsSafe(tags);
  }

  lemma PageSafe(pid: Option<Int32>)
    ensures AllSafe(if pid.Some? then [Param("pid", IntToDecimal(pid.value))] else [])
  {
    if pid.Some? {
      DecimalIsSafe(pid.value);
    }
  }

  lemma LimitSafe()
    ensures AllSafe([Param("limit", IntToDecimal(DefaultLimit))])
  {
    DecimalIsSafe(DefaultLimit);
  }

  /**
   * The search URL reads back as index.php with page=dapi, s, q, the tags, the page as given
   * (pages count from 0) and the limit; the tags decode to the caller's text.
   */
  lemma SearchUrlRead(tags: string, pid: Option<Int32>)
    ensures ParseUrl(SearchUrl(tags, pid)) == Some((Host, SearchParams(tags, pid)))
    ensures Decode(SearchParams(tags, pid)[3].value) == Ok(Units(tags))
    ensures pid.Some? ==> SearchParams(tags, pid)[4].key == "pid" && ParseInt(SearchParams(tags, pid)[4].value) == Ok(pid.value as int)
  {
    ParamsAt(tags, pid);
    if pid.Some? {
      ParsePrinted(pid.value, IntMin, IntMax);
    }
  }

  /** Where the tags and the page sit among the parameters. */
  lemma ParamsAt(tags: string, pid: Option<Int32>)
    ensures |SearchParams(tags, pid)| >= 5
    ensures SearchParams(tags, pid)[3] == Param("tags", EncodeString(tags))
    ensures pid.Some? ==> SearchParams(tags, pid)[4] == Param("pid", IntToDecimal(pid.value))
  {
  }

  /** The attribute loop with no prefix, no rating fallback and dates read as text. */
  const GelbooruDialect: Dialect := Dialect("", false, false)

  /**
   * One <post>: the attribute loop over a blank image. Only a malformed number fails it, no
   * rating letter makes the image UNDEFINED, and a post with no known attribute stays blank.
   */
  function PostImage(attrs: seq<Attribute>): (r: Result<PeImage>)
    ensures r.Err? ==> r.error == NumberFormat
    ensures r.Ok? ==> r.value.rating != Some(Undefined)
    ensures (forall i :: 0 <= i < |attrs| ==> attrs[i].name !in KnownNames) ==> r == Ok(Blank)
  {
    var r := ApplyAttributes(Blank, attrs, GelbooruDialect);
    if forall i :: 0 <= i < |attrs| ==> attrs[i].name !in KnownNames then
      UnknownAttributesIgnored(Blank, attrs, GelbooruDialect);
      r
    else if r.Err? then r
    else
      NoUndefinedWithoutFallback(Blank, attrs, GelbooruDialect);
      r
  }

  /**
   * parseSearchResultXML(data): null only for a null body (an empty one is parsed); one image
   * per <post> in document order; count and offset only from the root, which in practice
   * leaves them 0, since a value "count" or "offset" fails the request.
   */
  function ParseSearchResult(body: Option<string>, evs: seq<XmlEvent>): (r: Result<Option<PeResult>>)
    ensures body.None? <==> r == Ok(None)
    ensures r.Ok? && r.value.Some? ==>
              var res := r.value.value;
              |res.images| == |StartsNamed(evs, "post")| && res.count == 0 && res.offset == 0
              && forall k :: 0 <= k < |res.images| ==> PostImage(StartsNamed(evs, "post")[k]) == Ok(res.images[k])
  {
    ParseResponse(body, false, evs, Plain, PostImage)
  }

  /** No image of a Gelbooru response has the UNDEFINED rating: an unknown letter leaves it null. */
  lemma NoUndefinedRating(body: Option<string>, evs: seq<XmlEvent>)
    requires ParseSearchResult(body, evs).Ok? && ParseSearchResult(body, evs).value.Some?
    ensures forall im :: im in ParseSearchResult(body, evs).value.value.images ==> im.rating != Some(Undefined)
  {
    var imgs := ParseSearchResult(body, evs).value.value.images;
    forall im | im in imgs
      ensures im.rating != Some(Undefined)
    {
      var k :| 0 <= k < |imgs| && imgs[k] == im;
      NoUndefinedWithoutFallback(Blank, StartsNamed(evs, "post")[k], GelbooruDialect);
    }
  }
}
