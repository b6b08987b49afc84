/**
 * DanbooruLegacy (first generation): the client for Danbooru 1.x style APIs, in three dialects.
 * It builds the search URLs and reads the XML response, in which every <post> start tag carries
 * one image as attributes.
 */
module LegacyClient {
  import opened Wrappers
  import opened JavaInts
  import opened JavaStrings
  import opened UriEncode
  import opened Urls
  import opened XmlEvents
  import opened PeImages
  import opened PostAttributes
  import opened AttributeResponses

  /** ApiSubtype. */
  datatype Subtype = Shimmie2 | Gelbooru | Danbooru

  const DefaultLimit: Int32 := 100

  /** requiresAuthentication(): both credentials were given. */
  function RequiresAuthentication(username: Option<string>, password: Option<string>): (r: bool)
    ensures r <==> username.Some? && password.Some?
  {
    username != None && password != None
  }

  // ---------------------------------------------------------------------------------------------
  // Search URLs

  /** The path each dialect searches. */
  function Base(endpoint: string, st: Subtype): string
  {
    endpoint + Path(st)
  }

  function Path(st: Subtype): string
  {
    match st
    case Danbooru => "/post.xml"
    case Gelbooru => "/index.php"
    case Shimmie2 => "/api/danbooru/find_posts/index.xml"
  }

  /** The fixed parameters in front of the tags: only Gelbooru has them. */
  function Leading(st: Subtype): seq<Param>
  {
    if st == Gelbooru then [Param("page", "dapi"), Param("s", "post"), Param("q", "index")] else []
  }

  /**
   * The page parameter: Danbooru and Shimmie2 count pages from 1 and send pid + 1 (in int
   * arithmetic); Gelbooru counts from 0 and sends pid. Shimmie2 calls it page, the others pid.
   */
  function PageParam(st: Subtype, pid: Int32): Param
  {
    match st
    case Danbooru => Param("pid", IntToDecimal(Wrap(pid + 1)))
    case Gelbooru => Param("pid", IntToDecimal(pid))
    case Shimmie2 => Param("page", IntToDecimal(Wrap(pid + 1)))
  }

  function FirstPageParams(st: Subtype, tags: string): seq<Param>
  {
    Leading(st) + [Param("tags", EncodeString(tags)), Param("limit", IntToDecimal(DefaultLimit))]
  }

  function PagedParams(st: Subtype, tags: string, pid: Int32): seq<Param>
  {
    Leading(st) + [Param("tags", EncodeString(tags)), PageParam(st, pid), Param("limit", IntToDecimal(DefaultLimit))]
  }

  /**
   * searchRequest(tags, pid): for DANBOORU "/post.xml?tags=%s&pid=%d&limit=%d" with pid + 1,
   * for GELBOORU "/index.php?page=dapi&s=post&q=index&tags=%s&pid=%d&limit=%d" with pid, for
   * SHIMMIE2 "/api/danbooru/find_posts/index.xml?tags=%s&page=%d&limit=%d" with pid + 1.
   */
  function PagedUrl(endpoint: string, st: Subtype, tags: string, pid: Int32): (r: string)
    ensures '?' !in endpoint ==> ParseUrl(r) == Some((Base(endpoint, st), PagedParams(st, tags, pid)))
  {
    if '?' in endpoint then Url(Base(endpoint, st), PagedParams(st, tags, pid))
    else
      ParamsSafe(st, tags, pid);
      BaseNoQuery(endpoint, st);
      UrlRoundTrip(Base(endpoint, st), PagedParams(st, tags, pid));
      Url(Base(endpoint, st), PagedParams(st, tags, pid))
  }

  /** searchRequest(tags): the same URLs without the page parameter. */
  function FirstPageUrl(endpoint: string, st: Subtype, tags: string): (r: string)
    ensures '?' !in endpoint ==> ParseUrl(r) == Some((Base(endpoint, st), FirstPageParams(st, tags)))
  {
    if '?' in endpoint then Url(Base(endpoint, st), FirstPageParams(st, tags))
    else
      ParamsSafe(st, tags, 0);
      BaseNoQuery(endpoint, st);
      UrlRoundTrip(Base(endpoint, st), FirstPageParams(st, tags));
      Url(Base(endpoint, st), FirstPageParams(st, tags))
  }

  /** The first-page parameters are the paged ones with the page parameter taken out. */
  lemma FirstPageDropsPage(st: Subtype, tags: string, pid: Int32)
    ensures var p := PagedParams(st, tags, pid);
            var n := |Leading(st)|;
            |p| == n + 3 && p[n + 1] == PageParam(st, pid)
            && FirstPageParams(st, tags) == p[..n + 1] + p[n + 2..]
  {
  }

  /**
   * Both URLs read back as the dialect's path and exactly their parameters, the tags decode to
   * the caller's text, and the page parameter reads as pid + 1 (Danbooru, Shimmie2) or pid
   * (Gelbooru).
   */
  lemma SearchUrlsRead(endpoint: string, st: Subtype, tags: string, pid: Int32)
    requires '?' !in endpoint
    ensures ParseUrl(PagedUrl(endpoint, st, tags, pid)) == Some((Base(endpoint, st), PagedParams(st, tags, pid)))
    ensures ParseUrl(FirstPageUrl(endpoint, st, tags)) == Some((Base(endpoint, st), FirstPageParams(st, tags)))
    ensures Decode(PagedParams(st, tags, pid)[|Leading(st)|].value) == Ok(Units(tags))
    ensures ParseInt(PageParam(st, pid).value) == Ok(if st == Gelbooru then pid as int else Wrap(pid + 1) as int)
  {
    assert PagedParams(st, tags, pid)[|Leading(st)|] == Param("tags", EncodeString(tags));
    PageReads(st, pid);
  }

  lemma BaseNoQuery(endpoint: string, st: Subtype)
    requires '?' !in endpoint
    ensures '?' !in Base(endpoint, st)
  {
    PathPlain(st);
    NoQueryIn(endpoint, Path(st));
  }

  lemma PathPlain(st: Subtype)
    ensures '?' !in Path(st)
  {
    var path := Path(st);
    forall i | 0 <= i < |path| ensures path[i] != '?' { }
  }

  lemma NoQueryIn(a: string, b: string)
    requires '?' !in a && '?' !in b
    ensures '?' !in a + b
  {
  }

  lemma PageReads(st: Subtype, pid: Int32)
    ensures ParseInt(PageParam(st, pid).value) == Ok(if st == Gelbooru then pid as int else Wrap(pid + 1) as int)
  {
    if st == Gelbooru {
      ParsePrinted(pid, IntMin, IntMax);
    } else {
      ParsePrinted(Wrap(pid + 1), IntMin, IntMax);
    }
  }

  lemma ParamsSafe(st: Subtype, tags: string, pid: Int32)
    ensures |PagedParams(st, tags, pid)| >= 1 && |FirstPageParams(st, tags)| >= 1
    ensures forall i :: 0 <= i < |PagedParams(st, tags, pid)| ==> Urls.Safe(PagedParams(st, tags, pid)[i])
    ensures forall i :: 0 <= i < |FirstPageParams(st, tags)| ==> Urls.Safe(FirstPageParams(st, tags)[i])
  {
    PagedSafe(st, tags, pid);
    FirstSafe(st, tags);
  }

  lemma PagedSafe(st: Subtype, tags: string, pid: Int32)
    ensures AllSafe(PagedParams(st, tags, pid))
  {
    var lead := Leading(st);
    LeadingSafe(st);
    TagsLimitSafe(tags);
    var t := [Param("tags", EncodeString(tags))];
    var l := [Param("limit", IntToDecimal(DefaultLimit))];
    var pg := [PageParam(st, pid)];
    PageSafe(st, pid);
    AllSafeConcat(lead, t);
    AllSafeConcat(lead + t, pg);
    AllSafeConcat(lead + t + pg, l);
    assert PagedParams(st, tags, pid) == lead + t + pg + l;
  }

  lemma FirstSafe(st: Subtype, tags: string)
    ensures AllSafe(FirstPageParams(st, tags))
  {
    var lead := Leading(st);
    LeadingSafe(st);
    TagsLimitSafe(tags);
    var t := [Param("tags", EncodeString(tags))];
    var l := [Param("limit", IntToDecimal(DefaultLimit))];
    AllSafeConcat(lead, t);
    AllSafeConcat(lead + t, l);
    assert FirstPageParams(st, tags) == lead + t + l;
  }

  lemma TagsLimitSafe(tags: string)
    ensures AllSafe([Param("tags", EncodeString(tags))]) && AllSafe([Param("limit", IntToDecimal(DefaultLimit))])
  {
    EncodedIsSafe(tags);
    DecimalIsSafe(DefaultLimit);
  }

  lemma PageSafe(st: Subtype, pid: Int32)
    ensures AllSafe([PageParam(st, pid)])
  {
    DecimalIsSafe(pid);
    DecimalIsSafe(Wrap(pid + 1));
  }

  lemma LeadingSafe(st: Subtype)
    ensures AllSafe(Leading(st))
  {
  }

  // ---------------------------------------------------------------------------------------------
  // parseSearchResultXML

  function DialectOf(st: Subtype): Dialect
  {
    Dialect("", true, st == Danbooru)
  }

  /** The GELBOORU fix-up after the attribute loop. */
  function GelbooruFixup(im: PeImage): (r: PeImage)
    ensures r.sampleUrl == im.fileUrl && r.sampleWidth == im.width && r.sampleHeight == im.height
    ensures r.previewWidth == 150 && r.previewHeight == 150
    ensures r.parentId == -1 && !r.hasComments
    ensures r.fileUrl == im.fileUrl && r.id == im.id && r.rating == im.rating && r.generalTags == im.generalTags
  {
    im.(sampleUrl := im.fileUrl, sampleHeight := im.height, sampleWidth := im.width,
        previewHeight := 150, previewWidth := 150, parentId := -1, hasComments := false)
  }

  /** The image one <post> start tag gives. */
  function PostImage(attrs: seq<Attribute>, st: Subtype): (r: Result<PeImage>)
    ensures r.Ok? <==> ApplyAttributes(Blank, attrs, DialectOf(st)).Ok?
    ensures r.Ok? && st != Gelbooru ==> r.value == ApplyAttributes(Blank, attrs, DialectOf(st)).value
    ensures r.Ok? && st == Gelbooru ==> r.value == GelbooruFixup(ApplyAttributes(Blank, attrs, DialectOf(st)).value)
  {
    match ApplyAttributes(Blank, attrs, DialectOf(st))
    case Err(e) => Err(e)
    case Ok(im) => Ok(if st == Gelbooru then GelbooruFixup(im) else im)
  }

  /** SHIMMIE2 forces count and offset on every pass of the root's attribute loop. */
  function Rule(st: Subtype): RootRule
  {
    if st == Shimmie2 then ForceEachAttribute else Plain
  }

  /**
   * parseSearchResultXML(data): null for a null or empty body; otherwise one image per <post>
   * in document order, each built by PostImage; count and offset 200 and 0 for SHIMMIE2 when a
   * root has attributes, else 0 (a value "count" or "offset" fails the request).
   */
  function ParseSearchResult(body: Option<string>, evs: seq<XmlEvent>, st: Subtype): (r: Result<Option<PeResult>>)
    ensures body.None? || body == Some("") ==> r == Ok(None)
    ensures r.Ok? && r.value.Some? ==>
              var res := r.value.value;
              |res.images| == |StartsNamed(evs, "post")|
              && (forall k :: 0 <= k < |res.images| ==> PostImage(StartsNamed(evs, "post")[k], st) == Ok(res.images[k]))
              && (res.count, res.offset) == if st == Shimmie2 && HasForcedRoot(evs, ForceEachAttribute) then (200, 0) else (0, 0)
  {
    ParseResponse(body, true, evs, Rule(st), a => PostImage(a, st))
  }

  /** For GELBOORU every image has its sample set to the file, a 150x150 preview, no parent and no comments. */
  lemma GelbooruImagesFixed(body: Option<string>, evs: seq<XmlEvent>)
    requires ParseSearchResult(body, evs, Gelbooru).Ok? && ParseSearchResult(body, evs, Gelbooru).value.Some?
    ensures forall im :: im in ParseSearchResult(body, evs, Gelbooru).value.value.images ==>
              im.sampleUrl == im.fileUrl && im.sampleWidth == im.width && im.sampleHeight == im.height
              && im.previewWidth == 150 && im.previewHeight == 150 && im.parentId == -1 && !im.hasComments
  {
    var imgs := ParseSearchResult(body, evs, Gelbooru).value.value.images;
    forall im | im in imgs
      ensures im.sampleUrl == im.fileUrl && im.previewWidth == 150 && im.parentId == -1 && !im.hasComments
    {
      var k :| 0 <= k < |imgs| && imgs[k] == im;
      assert PostImage(StartsNamed(evs, "post")[k], Gelbooru) == Ok(im);
    }
  }
}
