/**
 * The first generation's Shimmie client, a DanbooruLegacy subclass: the SHIMMIE2 search URLs,
 * and a response reader that prefixes image URLs with the endpoint, forces paging when the
 * root carries no attributes, and fixes up every image after its attribute loop.
 * getPixivIdFromSourceUrl is not part of this model; the Pixiv id it derives from the source
 * is a parameter.
 */
module ShimmieClient {
  import opened Wrappers
  import opened JavaInts
  import opened JavaStrings
  import opened XmlEvents
  import opened PeImages
  import opened PostAttributes
  import opened AttributeResponses
  import LegacyClient
  import Urls
  import UriEncode

  /** The find_posts path every Shimmie search URL is built on. */
  function FindPosts(endpoint: string): string
  {
    endpoint + "/api/danbooru/find_posts/index.xml"
  }

  /**
   * searchRequest(query, pid): the URL DanbooruLegacy builds for SHIMMIE2, which reads back as
   * the find_posts path with the tags, page = pid + 1 and the limit.
   */
  function PagedUrl(endpoint: string, tags: string, pid: Int32): (r: string)
    ensures var t, l := Urls.Param("tags", UriEncode.EncodeString(tags)), Urls.Param("limit", IntToDecimal(100));
            '?' !in endpoint ==>
              Urls.ParseUrl(r) == Some((FindPosts(endpoint), [t, Urls.Param("page", IntToDecimal(Wrap(pid + 1))), l]))
  {
    ShimmieParams(endpoint, tags, pid);
    LegacyClient.PagedUrl(endpoint, LegacyClient.Shimmie2, tags, pid)
  }

  /** searchRequest(query): the same URL without the page. */
  function FirstPageUrl(endpoint: string, tags: string): (r: string)
    ensures var t, l := Urls.Param("tags", UriEncode.EncodeString(tags)), Urls.Param("limit", IntToDecimal(100));
            '?' !in endpoint ==> Urls.ParseUrl(r) == Some((FindPosts(endpoint), [t, l]))
  {
    ShimmieParams(endpoint, tags, 0);
    LegacyClient.FirstPageUrl(endpoint, LegacyClient.Shimmie2, tags)
  }

  /** The SHIMMIE2 dialect has no leading parameters and the find_posts path. */
  lemma ShimmieParams(endpoint: string, tags: string, pid: Int32)
    ensures var st := LegacyClient.Shimmie2;
            var t, l := Urls.Param("tags", UriEncode.EncodeString(tags)), Urls.Param("limit", IntToDecimal(100));
            LegacyClient.PagedParams(st, tags, pid) == [t, Urls.Param("page", IntToDecimal(Wrap(pid + 1))), l]
            && LegacyClient.FirstPageParams(st, tags) == [t, l]
            && LegacyClient.Base(endpoint, st) == FindPosts(endpoint)
  {
    var st := LegacyClient.Shimmie2;
    var t, l := Urls.Param("tags", UriEncode.EncodeString(tags)), Urls.Param("limit", IntToDecimal(100));
    assert LegacyClient.Leading(st) == [];
    assert LegacyClient.PageParam(st, pid) == Urls.Param("page", IntToDecimal(Wrap(pid + 1)));
    assert LegacyClient.PagedParams(st, tags, pid) == [t, LegacyClient.PageParam(st, pid), l];
  }

  /** The attribute loop: file and preview URLs prefixed with the endpoint, unknown ratings UNDEFINED. */
  function ShimmieDialect(endpoint: string): Dialect
  {
    Dialect(endpoint, true, false)
  }

  /**
   * The fix-up after each post's attribute loop: the sample is the file, there is no parent,
   * the preview is 150x150 unless both preview dimensions were given, there are no comments,
   * and the web URL is "%s/post/view/%d" with the endpoint and the id.
   */
  function Fixup(im: PeImage, attrs: seq<Attribute>, endpoint: string, pixivId: Option<string> -> int): PeImage
  {
    var sized := if AttributeValue(attrs, "preview_height").None? || AttributeValue(attrs, "preview_width").None?
                 then im.(previewHeight := 150, previewWidth := 150) else im;
    sized.(sampleUrl := im.fileUrl, sampleHeight := im.height, sampleWidth := im.width, parentId := -1,
           hasComments := false, webUrl := Some(endpoint + "/post/view/" + IntToDecimal(im.id)),
           pixivId := pixivId(im.source))
  }

  /**
   * One <post>: the attribute loop, then the fix-up. Only a malformed number fails it, and every
   * image it builds has the Shimmie shape.
   */
  function PostImage(attrs: seq<Attribute>, endpoint: string, pixivId: Option<string> -> int): (r: Result<PeImage>)
    ensures r.Err? ==> r.error == NumberFormat
    ensures r.Ok? ==> ShimmieImage(r.value, attrs, endpoint)
  {
    match ApplyAttributes(Blank, attrs, ShimmieDialect(endpoint))
    case Err(e) => Err(e)
    case Ok(im) =>
      UrlsPrefixed(attrs, ShimmieDialect(endpoint));
      Ok(Fixup(im, attrs, endpoint, pixivId))
  }

  /**
   * What every image of a Shimmie response satisfies: its file, preview and sample URLs start
   * with the endpoint, the sample is the file, the parent is -1, there are no comments, the
   * web URL is the post's page, and a preview without both dimensions is 150x150.
   */
  predicate ShimmieImage(im: PeImage, attrs: seq<Attribute>, endpoint: string)
  {
    Prefixed(im, endpoint) && im.sampleUrl == im.fileUrl && im.sampleWidth == im.width && im.sampleHeight == im.height
    && im.parentId == -1 && !im.hasComments
    && im.webUrl == Some(endpoint + "/post/view/" + IntToDecimal(im.id))
    && (AttributeValue(attrs, "preview_height").None? || AttributeValue(attrs, "preview_width").None? ==>
          im.previewWidth == 150 && im.previewHeight == 150)
  }

  /**
   * parseResultResponse(data): null for a null or empty body; one image per <post> in document
   * order, each satisfying ShimmieImage; count and offset 200 and 0 exactly when some root tag
   * has no attributes, else 0.
   */
  function ParseSearchResult(body: Option<string>, evs: seq<XmlEvent>, endpoint: string, pixivId: Option<string> -> int)
    : (r: Result<Option<PeResult>>)
    ensures body.None? || body == Some("") ==> r == Ok(None)
    ensures r.Ok? && r.value.Some? ==>
              var res := r.value.value;
              |res.images| == |StartsNamed(evs, "post")|
              && (forall k :: 0 <= k < |res.images| ==> PostImage(StartsNamed(evs, "post")[k], endpoint, pixivId) == Ok(res.images[k]))
              && (res.count, res.offset) == if HasForcedRoot(evs, ForceWhenBare) then (200, 0) else (0, 0)
  {
    ParseResponse(body, true, evs, ForceWhenBare, a => PostImage(a, endpoint, pixivId))
  }

  /** Every image of a parsed response has the Shimmie shape. */
  lemma ImagesHaveShimmieShape(body: Option<string>, evs: seq<XmlEvent>, endpoint: string, pixivId: Option<string> -> int)
    requires ParseSearchResult(body, evs, endpoint, pixivId).Ok? && ParseSearchResult(body, evs, endpoint, pixivId).value.Some?
    ensures var imgs := ParseSearchResult(body, evs, endpoint, pixivId).value.value.images;
            forall k :: 0 <= k < |imgs| ==> ShimmieImage(imgs[k], StartsNamed(evs, "post")[k], endpoint)
  {
    var imgs := ParseSearchResult(body, evs, endpoint, pixivId).value.value.images;
    forall k | 0 <= k < |imgs|
      ensures ShimmieImage(imgs[k], StartsNamed(evs, "post")[k], endpoint)
    {
      assert PostImage(StartsNamed(evs, "post")[k], endpoint, pixivId) == Ok(imgs[k]);
    }
  }
}
