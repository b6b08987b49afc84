/**
 * The first generation's Danbooru 2 client: a fixed endpoint, HTTP basic credentials in an
 * Authorization header, search URLs counting pages from 1, and a response whose posts hold one
 * child element per field.
 */
module DanbooruClient {
  import opened Wrappers
  import opened JavaInts
  import opened JavaStrings
  import opened UriEncode
  import opened Urls
  import opened XmlEvents
  import opened PeImages
  import Base64

  /** DEFAULT_API_ENDPOINT. */
  const Endpoint: string := "http://danbooru.donmai.us"

  const DefaultLimit: Int32 := 100

  // ---------------------------------------------------------------------------------------------
  // Authentication

  /** String.getBytes() with UTF-8 as the platform charset. */
  function Utf8Bytes(s: string): (r: seq<Byte>)
    ensures s == "" ==> r == []
  {
    if s == "" then [] else Utf8(s[0] as int) + Utf8Bytes(s[1..])
  }

  lemma {:induction false} Utf8BytesAppend(a: string, b: string)
    ensures Utf8Bytes(a + b) == Utf8Bytes(a) + Utf8Bytes(b)
    decreases |a|
  {
    if a == "" {
      assert a + b == b;
    } else {
      assert (a + b)[0] == a[0] && (a + b)[1..] == a[1..] + b;
      Utf8BytesAppend(a[1..], b);
    }
  }

  /** Only a ':' itself encodes to the byte 0x3A: every byte of a longer sequence is 0x80 or more. */
  lemma {:induction false} NoColonByte(s: string)
    requires ':' !in s
    ensures 0x3A !in Utf8Bytes(s)
    decreases |s|
  {
    if s != "" {
      NoColonByte(s[1..]);
      assert 0x3A !in Utf8(s[0] as int);
    }
  }

  /**
   * getHeaders(): an Authorization header holding the Base64 of "username:apiKey" when both are
   * set, no header otherwise.
   */
  function Headers(username: Option<string>, apiKey: Option<string>): (r: map<string, string>)
    ensures "Authorization" in r <==> username.Some? && apiKey.Some?
    ensures r.Keys <= {"Authorization"}
    ensures "Authorization" in r ==>
              Base64.Decode(Base64.Unwrap(r["Authorization"])) == Some(Utf8Bytes(username.value + ":" + apiKey.value))
  {
    if username.Some? && apiKey.Some? then
      map["Authorization" := Base64.EncodeToString(Utf8Bytes(username.value + ":" + apiKey.value))]
    else map[]
  }

  /**
   * The header's bytes are the username's, one ':' and the key's, and when the username has no
   * ':' the first 0x3A byte marks where it ends: the server can take the credentials apart.
   */
  lemma CredentialsRecoverable(username: string, apiKey: string)
    requires ':' !in username
    ensures var bs := Base64.Decode(Base64.Unwrap(Headers(Some(username), Some(apiKey))["Authorization"])).value;
            bs == Utf8Bytes(username) + [0x3A] + Utf8Bytes(apiKey)
            && 0x3A !in Utf8Bytes(username)
  {
    CredentialBytes(username, apiKey);
    NoColonByte(username);
  }

  lemma CredentialBytes(username: string, apiKey: string)
    ensures Utf8Bytes(username + ":" + apiKey) == Utf8Bytes(username) + [0x3A] + Utf8Bytes(apiKey)
  {
    assert username + ":" + apiKey == username + (":" + apiKey);
    Utf8BytesAppend(username, ":" + apiKey);
    Utf8BytesAppend(":", apiKey);
    ColonBytes();
  }

  lemma ColonBytes()
    ensures Utf8Bytes(":") == [0x3A]
  {
    assert ":"[1..] == "";
    assert Utf8(':' as int) == [0x3A];
  }

  // ---------------------------------------------------------------------------------------------
  // Search URLs

  const SearchBase: string := Endpoint + "/posts.xml"

  function PagedParams(tags: string, pid: Int32): seq<Param>
  {
    [Param("tags", EncodeString(tags)), Param("page", IntToDecimal(Wrap(pid + 1))), Param("limit", IntToDecimal(DefaultLimit))]
  }

  function FirstPageParams(tags: string): seq<Param>
  {
    [Param("tags", EncodeString(tags)), Param("limit", IntToDecimal(DefaultLimit))]
  }

  /**
   * searchRequest(tags, pid): "/posts.xml?tags=%s&page=%d&limit=%d" with pid + 1 in int arithmetic;
   * the URL reads back as the search path and exactly these three parameters.
   */
  function PagedUrl(tags: string, pid: Int32): (r: string)
    ensures ParseUrl(r) == Some((SearchBase, PagedParams(tags, pid)))
  {
    EncodedIsSafe(tags);
    DecimalIsSafe(Wrap(pid + 1));
    DecimalIsSafe(DefaultLimit);
    SearchBaseClean();
    UrlRoundTrip(SearchBase, PagedParams(tags, pid));
    Url(SearchBase, PagedParams(tags, pid))
  }

  /** searchRequest(tags): "/posts.xml?tags=%s&limit=%d", which reads back as the path, the tags and the limit. */
  function FirstPageUrl(tags: string): (r: string)
    ensures ParseUrl(r) == Some((SearchBase, FirstPageParams(tags)))
  {
    EncodedIsSafe(tags);
    DecimalIsSafe(DefaultLimit);
    SearchBaseClean();
    UrlRoundTrip(SearchBase, FirstPageParams(tags));
    Url(SearchBase, FirstPageParams(tags))
  }

  /** Both URLs read back as their parameters; the page is pid + 1 and the tags decode to the caller's text. */
  lemma SearchUrlsRead(tags: string, pid: Int32)
    ensures ParseUrl(PagedUrl(tags, pid)) == Some((SearchBase, PagedParams(tags, pid)))
    ensures ParseUrl(FirstPageUrl(tags)) == Some((SearchBase, FirstPageParams(tags)))
    ensures ParseInt(PagedParams(tags, pid)[1].value) == Ok(Wrap(pid + 1) as int)
    ensures Decode(PagedParams(tags, pid)[0].value) == Ok(Units(tags))
  {
    ParsePrinted(Wrap(pid + 1), IntMin, IntMax);
  }

  lemma SearchBaseClean()
    ensures '?' !in SearchBase
  {
    assert forall i :: 0 <= i < |SearchBase| ==> SearchBase[i] != '?';
  }

  // ---------------------------------------------------------------------------------------------
  // parseSearchResultXML

  const ElementNames: set<string> :=
    {"large-file-url", "image-width", "image-height", "preview-file-url", "file-url",
     "tag-string-general", "tag-string-artist", "tag-string-character", "tag-string-copyright",
     "id", "parent-id", "pixiv-id", "rating", "score", "source", "md5", "last-commented-at", "created-at"}

  const NumberNames: set<string> := {"image-width", "image-height", "id", "parent-id", "pixiv-id", "score"}

  function Tags(text: string): seq<string>
  {
    Split(Trim(text), ' ')
  }

  /** The field one child element sets from its text; only the number fields can fail. */
  function ApplyElement(im: PeImage, name: string, text: string): (r: Result<PeImage>)
    ensures r.Err? ==> r.error == NumberFormat && name in NumberNames
  {
    match name
    case "large-file-url" => Ok(im.(fileUrl := Some(Endpoint + text)))
    case "image-width" => (match ParseInt32(text) case Ok(n) => Ok(im.(width := n)) case Err(e) => Err(e))
    case "image-height" => (match ParseInt32(text) case Ok(n) => Ok(im.(height := n)) case Err(e) => Err(e))
    case "preview-file-url" => Ok(im.(previewUrl := Some(Endpoint + text), previewWidth := 150, previewHeight := 150))
    case "file-url" => Ok(im.(sampleUrl := Some(Endpoint + text), sampleWidth := 850, sampleHeight := 850))
    case "tag-string-general" => Ok(im.(generalTags := Some(Tags(text))))
    case "tag-string-artist" => Ok(im.(artistTags := Some(Tags(text))))
    case "tag-string-character" => Ok(im.(characterTags := Some(Tags(text))))
    case "tag-string-copyright" => Ok(im.(copyrightTags := Some(Tags(text))))
    case "id" => (match ParseLong(text) case Ok(n) => Ok(im.(id := n)) case Err(e) => Err(e))
    case "parent-id" => (match ParseLong(text) case Ok(n) => Ok(im.(parentId := n)) case Err(e) => Err(e))
    case "pixiv-id" => (match ParseLong(text) case Ok(n) => Ok(im.(pixivId := n)) case Err(e) => Err(e))
    case "rating" => Ok(im.(rating := Some(if RatingCode(text).Some? then RatingCode(text).value else Undefined)))
    case "score" => (match ParseInt32(text) case Ok(n) => Ok(im.(score := n)) case Err(e) => Err(e))
    case "source" => Ok(im.(source := Some(text)))
    case "md5" => Ok(im.(md5 := Some(text)))
    case "last-commented-at" => Ok(im.(hasComments := text != ""))
    case "created-at" => Ok(im.(createdAt := Some(text)))
    case _ => Ok(im)
  }

  /**
   * The URL elements are prefixed with the endpoint and fix the preview at 150x150 and the sample
   * at 850x850; a rating is always set, UNDEFINED exactly for a letter other than s, q and e; a
   * post has comments exactly when its last-commented-at is not empty; ids go through
   * Long.parseLong; an element the loop does not know changes nothing.
   */
  lemma ElementFields(im: PeImage, name: string, text: string)
    ensures name !in ElementNames ==> ApplyElement(im, name, text) == Ok(im)
    ensures var r := ApplyElement(im, "preview-file-url", text);
            r.Ok? && r.value.previewUrl == Some(Endpoint + text) && r.value.previewWidth == 150 && r.value.previewHeight == 150
    ensures var r := ApplyElement(im, "file-url", text);
            r.Ok? && r.value.sampleUrl == Some(Endpoint + text) && r.value.sampleWidth == 850 && r.value.sampleHeight == 850
    ensures var r := ApplyElement(im, "large-file-url", text);
            r.Ok? && r.value.fileUrl == Some(Endpoint + text)
    ensures var r := ApplyElement(im, "rating", text);
            r.Ok? && r.value.rating.Some? && (r.value.rating.value == Undefined <==> text !in {"s", "q", "e"})
    ensures var r := ApplyElement(im, "last-commented-at", text);
            r.Ok? && (r.value.hasComments <==> text != "")
    ensures ApplyElement(im, "id", text).Ok? == ParseLong(text).Ok?
    ensures ApplyElement(im, "parent-id", text).Ok? == ParseLong(text).Ok?
    ensures ApplyElement(im, "pixiv-id", text).Ok? == ParseLong(text).Ok?
  {
    UnknownElement(im, name, text);
    UrlElements(im, text);
    RatingElement(im, text);
    IdElements(im, text);
  }

  lemma UnknownElement(im: PeImage, name: string, text: string)
    ensures name !in ElementNames ==> ApplyElement(im, name, text) == Ok(im)
  {
  }

  lemma UrlElements(im: PeImage, text: string)
    ensures var r := ApplyElement(im, "preview-file-url", text);
            r.Ok? && r.value.previewUrl == Some(Endpoint + text) && r.value.previewWidth == 150 && r.value.previewHeight == 150
    ensures var r := ApplyElement(im, "file-url", text);
            r.Ok? && r.value.sampleUrl == Some(Endpoint + text) && r.value.sampleWidth == 850 && r.value.sampleHeight == 850
    ensures var r := ApplyElement(im, "large-file-url", text);
            r.Ok? && r.value.fileUrl == Some(Endpoint + text)
  {
  }

  lemma RatingElement(im: PeImage, text: string)
    ensures var r := ApplyElement(im, "rating", text);
            r.Ok? && r.value.rating.Some? && (r.value.rating.value == Undefined <==> text !in {"s", "q", "e"})
    ensures var r := ApplyElement(im, "last-commented-at", text);
            r.Ok? && (r.value.hasComments <==> text != "")
  {
  }

  lemma IdElements(im: PeImage, text: string)
    ensures ApplyElement(im, "id", text).Ok? == ParseLong(text).Ok?
    ensures ApplyElement(im, "parent-id", text).Ok? == ParseLong(text).Ok?
    ensures ApplyElement(im, "pixiv-id", text).Ok? == ParseLong(text).Ok?
  {
  }

  /** Whether a failure to parse the text depends on the image: it never does. */
  lemma ApplyElementFailsAlike(a: PeImage, b: PeImage, name: string, text: string)
    ensures ApplyElement(a, name, text).Ok? == ApplyElement(b, name, text).Ok?
  {
  }

  /** parent-id and pixiv-id marked nil="true": -1, without reading the text. */
  function NilElement(im: PeImage, name: string): PeImage
    requires name == "parent-id" || name == "pixiv-id"
  {
    if name == "parent-id" then im.(parentId := -1) else im.(pixivId := -1)
  }

  /**
   * The loop's state: the results so far, the Image variable (null before the first post), and
   * whether that Image is the object last added to the results, which every later assignment
   * also changes (the list holds a reference to it).
   */
  datatype Cursor = Cursor(res: PeResult, image: Option<PeImage>, added: bool)

  const Start: Cursor := Cursor(EmptyResult, None, false)

  /** Whether a cursor is coherent: an added image is the last of the results. */
  predicate Coherent(c: Cursor) {
    c.added ==> c.image.Some? && |c.res.images| > 0 && c.res.images[|c.res.images| - 1] == c.image.value
  }

  /** Assigning a field of the Image variable: a NullPointerException while it is null. */
  function Assign(c: Cursor, im: PeImage): (r: Result<Cursor>)
    requires Coherent(c)
    ensures r.Ok? <==> c.image.Some?
    ensures r.Ok? ==> Coherent(r.value) && r.value.image == Some(im) && r.value.added == c.added
    ensures r.Ok? ==> |r.value.res.images| == |c.res.images| && r.value.res.count == c.res.count && r.value.res.offset == c.res.offset
  {
    if c.image.None? then Err(NullPointer)
    else if c.added then
      Ok(Cursor(c.res.(images := c.res.images[..|c.res.images| - 1] + [im]), Some(im), true))
    else Ok(c.(image := Some(im)))
  }

  /** The number of </post> end tags. */
  function PostEnds(evs: seq<XmlEvent>): nat
  {
    if evs == [] then 0 else (if evs[0] == EndTag("post") then 1 else 0) + PostEnds(evs[1..])
  }

  /**
   * The loop from the event at the front of evs: a <post> start tag begins a new Image, a field
   * element sets a field (reading its text with nextText, which leaves the parser on the element's
   * end tag), and a </post> end tag adds the Image to the results. A pull parser reports an end
   * tag only after its start tag, so an end tag with no Image is an XmlPullParserException.
   */
  function Loop(evs: seq<XmlEvent>, c: Cursor): (r: Result<Cursor>)
    requires Coherent(c)
    ensures r.Ok? ==> Coherent(r.value)
    ensures r.Ok? ==> |r.value.res.images| == |c.res.images| + PostEnds(evs)
    ensures r.Ok? ==> r.value.res.count == c.res.count && r.value.res.offset == c.res.offset
    decreases |evs|
  {
    if evs == [] then Ok(c)
    else
      match evs[0]
      case StartTag(name, attrs) =>
        (if name == "post" then Loop(evs[1..], Cursor(c.res, Some(Blank), false))
        else if name !in ElementNames then Loop(evs[1..], c)
        else if (name == "parent-id" || name == "pixiv-id") && AttributeValue(attrs, "nil").Some? then
          match Assign(c, NilElement(if c.image.Some? then c.image.value else Blank, name))
          case Err(e) => Err(e)
          case Ok(c') => Loop(evs[1..], c')
        else
          match NextText(evs, 0)
          case Err(e) => Err(e)
          case Ok((text, j)) =>
            SkippedNoPostEnd(evs, j);
            match ApplyElement(if c.image.Some? then c.image.value else Blank, name, text)
            case Err(e) => Err(e)
            case Ok(im) =>
              match Assign(c, im)
              case Err(e) => Err(e)
              case Ok(c') => Loop(evs[j + 1..], c'))
      case EndTag(name) =>
        if name != "post" then Loop(evs[1..], c)
        else if c.image.None? then Err(XmlFormat)
        else Loop(evs[1..], Cursor(c.res.(images := c.res.images + [c.image.value]), c.image, true))
      case Text(_) => Loop(evs[1..], c)
  }

  /** What nextText passes over (the text and the element's own end tag) holds no </post>. */
  lemma SkippedNoPostEnd(evs: seq<XmlEvent>, j: nat)
    requires 1 <= j <= 2 && j < |evs| && evs[0].StartTag? && evs[0].name != "post"
    requires evs[j] == EndTag(evs[0].name) && (j == 2 ==> evs[1].Text?)
    ensures PostEnds(evs) == PostEnds(evs[j + 1..])
  {
    assert evs[1..][1..] == evs[2..];
    assert PostEnds(evs) == PostEnds(evs[1..]);
    if j == 2 {
      assert evs[2..][1..] == evs[3..];
      assert PostEnds(evs[1..]) == PostEnds(evs[2..]);
      assert PostEnds(evs[2..]) == PostEnds(evs[3..]);
    } else {
      assert PostEnds(evs[1..]) == PostEnds(evs[2..]);
    }
  }

  /**
   * parseSearchResultXML(data): null for a null or empty body; otherwise one image per </post>,
   * and count and offset left at 0 (this API does not report them).
   */
  function Parse(body: Option<string>, evs: seq<XmlEvent>): (r: Result<Option<PeResult>>)
    ensures body.None? || body == Some("") ==> r == Ok(None)
    ensures r.Ok? && r.value.Some? ==>
              |r.value.value.images| == PostEnds(evs) && r.value.value.count == 0 && r.value.value.offset == 0
  {
    if body.None? || body.value == "" then Ok(None)
    else
      match Loop(evs, Start)
      case Err(e) => Err(e)
      case Ok(c) => Ok(Some(c.res))
  }

  // ---------------------------------------------------------------------------------------------
  // The response as the API writes it

  /** A field element: its name and its text. */
  datatype Element = Element(name: string, text: string)

  /** One field element's events. */
  function ElementEvents(e: Element): seq<XmlEvent>
  {
    [StartTag(e.name, []), Text(e.text), EndTag(e.name)]
  }

  function ChildEvents(cs: seq<Element>): seq<XmlEvent>
  {
    if cs == [] then [] else ElementEvents(cs[0]) + ChildEvents(cs[1..])
  }

  function PostEvents(cs: seq<Element>): seq<XmlEvent>
  {
    [StartTag("post", [])] + ChildEvents(cs) + [EndTag("post")]
  }

  function AllPostEvents(posts: seq<seq<Element>>): seq<XmlEvent>
  {
    if posts == [] then [] else PostEvents(posts[0]) + AllPostEvents(posts[1..])
  }

  /** <posts> holding one <post> per element list. */
  function Document(posts: seq<seq<Element>>): seq<XmlEvent>
  {
    [StartTag("posts", [])] + AllPostEvents(posts) + [EndTag("posts")]
  }

  /** The image a post's field elements describe, field by field from a new Image. */
  function BuildImage(cs: seq<Element>): (r: Result<PeImage>)
  {
    Fields(Blank, cs)
  }

  function Fields(im: PeImage, cs: seq<Element>): Result<PeImage>
    decreases |cs|
  {
    if cs == [] then Ok(im)
    else
      match ApplyElement(im, cs[0].name, cs[0].text)
      case Err(e) => Err(e)
      case Ok(im') => Fields(im', cs[1..])
  }

  predicate NoPostChild(cs: seq<Element>) {
    forall k :: 0 <= k < |cs| ==> cs[k].name != "post"
  }

  /** One field element inside a post that is not yet added. */
  lemma LoopElement(e: Element, rest: seq<XmlEvent>, res: PeResult, im: PeImage)
    requires e.name != "post" && ApplyElement(im, e.name, e.text).Ok?
    ensures Loop(ElementEvents(e) + rest, Cursor(res, Some(im), false))
         == Loop(rest, Cursor(res, Some(ApplyElement(im, e.name, e.text).value), false))
  {
    var evs := ElementEvents(e) + rest;
    assert evs[0] == StartTag(e.name, []) && evs[1] == Text(e.text) && evs[2] == EndTag(e.name);
    assert evs[3..] == rest;
    assert AttributeValue([], "nil") == None;
    if e.name in ElementNames {
      assert NextText(evs, 0) == Ok((e.text, 2));
    } else {
      ElementFields(im, e.name, e.text);
      var c := Cursor(res, Some(im), false);
      assert evs[1..][1..] == evs[2..];
      assert evs[2..][1..] == evs[3..];
      assert Loop(evs, c) == Loop(evs[1..], c);
      assert Loop(evs[1..], c) == Loop(evs[2..], c);
      assert Loop(evs[2..], c) == Loop(evs[3..], c);
    }
  }

  /** The field elements of a post set the Image the way Fields does. */
  lemma {:induction false} LoopChildren(cs: seq<Element>, rest: seq<XmlEvent>, res: PeResult, im: PeImage)
    requires NoPostChild(cs) && Fields(im, cs).Ok?
    ensures Loop(ChildEvents(cs) + rest, Cursor(res, Some(im), false))
         == Loop(rest, Cursor(res, Some(Fields(im, cs).value), false))
    decreases |cs|
  {
    if cs == [] {
      assert ChildEvents(cs) + rest == rest;
    } else {
      var e := cs[0];
      assert ChildEvents(cs) + rest == ElementEvents(e) + (ChildEvents(cs[1..]) + rest);
      LoopElement(e, ChildEvents(cs[1..]) + rest, res, im);
      assert NoPostChild(cs[1..]);
      LoopChildren(cs[1..], rest, res, ApplyElement(im, e.name, e.text).value);
    }
  }

  /**
   * A document in the API's shape yields exactly the images its posts describe, in order, when
   * every post's fields parse.
   */
  lemma LoopPostStart(evs: seq<XmlEvent>, c: Cursor)
    requires Coherent(c) && evs != [] && evs[0] == StartTag("post", [])
    ensures Loop(evs, c) == Loop(evs[1..], Cursor(c.res, Some(Blank), false))
  {
  }

  lemma LoopPostEnd(evs: seq<XmlEvent>, c: Cursor)
    requires Coherent(c) && evs != [] && evs[0] == EndTag("post") && c.image.Some?
    ensures Loop(evs, c) == Loop(evs[1..], Cursor(c.res.(images := c.res.images + [c.image.value]), c.image, true))
  {
  }

  /** One whole post: its image is added to the results. */
  lemma LoopPost(cs: seq<Element>, rest: seq<XmlEvent>, c: Cursor)
    requires NoPostChild(cs) && BuildImage(cs).Ok? && Coherent(c)
    ensures var im := BuildImage(cs).value;
            Loop(PostEvents(cs) + rest, c) == Loop(rest, Cursor(c.res.(images := c.res.images + [im]), Some(im), true))
  {
    var evs := PostEvents(cs) + rest;
    var after := [EndTag("post")] + rest;
    assert evs == [StartTag("post", [])] + (ChildEvents(cs) + after);
    assert evs[1..] == ChildEvents(cs) + after;
    LoopPostStart(evs, c);
    LoopChildren(cs, after, c.res, Blank);
    var im := BuildImage(cs).value;
    assert after[0] == EndTag("post") && after[1..] == rest;
    LoopPostEnd(after, Cursor(c.res, Some(im), false));
  }

  /** Every post's children are field elements, and every post's fields parse. */
  predicate Buildable(posts: seq<seq<Element>>) {
    posts == [] || (NoPostChild(posts[0]) && BuildImage(posts[0]).Ok? && Buildable(posts[1..]))
  }

  /** The images the posts describe, in order. */
  function Built(posts: seq<seq<Element>>): (r: seq<PeImage>)
    requires Buildable(posts)
    ensures |r| == |posts|
  {
    if posts == [] then [] else [BuildImage(posts[0]).value] + Built(posts[1..])
  }

  lemma {:induction false} DocumentImages(posts: seq<seq<Element>>, res: PeResult, c: Cursor)
    requires Buildable(posts)
    requires Coherent(c) && c.res == res
    ensures Loop(AllPostEvents(posts), c).Ok?
    ensures Loop(AllPostEvents(posts), c).value.res.images == res.images + Built(posts)
  {
    DocumentLoop(posts, c);
    FinalImages(posts, c);
  }

  /** The cursor after the posts: each post's image added in turn. */
  function Final(posts: seq<seq<Element>>, c: Cursor): Cursor
    requires Buildable(posts)
  {
    if posts == [] then c
    else
      var im := BuildImage(posts[0]).value;
      Final(posts[1..], Cursor(c.res.(images := c.res.images + [im]), Some(im), true))
  }

  lemma {:induction false} DocumentLoop(posts: seq<seq<Element>>, c: Cursor)
    requires Buildable(posts) && Coherent(c)
    ensures Loop(AllPostEvents(posts), c) == Ok(Final(posts, c))
    decreases |posts|
  {
    if posts != [] {
      var im := BuildImage(posts[0]).value;
      DocumentStep(posts, c);
      DocumentLoop(posts[1..], Cursor(c.res.(images := c.res.images + [im]), Some(im), true));
    }
  }

  lemma {:induction false} FinalImages(posts: seq<seq<Element>>, c: Cursor)
    requires Buildable(posts)
    ensures Final(posts, c).res.images == c.res.images + Built(posts)
    decreases |posts|
  {
    if posts == [] {
      assert c.res.images + [] == c.res.images;
    } else {
      var im := BuildImage(posts[0]).value;
      FinalImages(posts[1..], Cursor(c.res.(images := c.res.images + [im]), Some(im), true));
      assert c.res.images + [im] + Built(posts[1..]) == c.res.images + ([im] + Built(posts[1..]));
    }
  }

  /** The first post is added, and the rest of the document is read from there. */
  lemma DocumentStep(posts: seq<seq<Element>>, c: Cursor)
    requires Buildable(posts) && posts != [] && Coherent(c)
    ensures var im := BuildImage(posts[0]).value;
            Loop(AllPostEvents(posts), c) == Loop(AllPostEvents(posts[1..]), Cursor(c.res.(images := c.res.images + [im]), Some(im), true))
    ensures Buildable(posts[1..])
  {
    assert AllPostEvents(posts) == PostEvents(posts[0]) + AllPostEvents(posts[1..]);
    LoopPost(posts[0], AllPostEvents(posts[1..]), c);
  }

  /** The whole response: the images of the posts in order, count and offset 0. */
  lemma DocumentParses(posts: seq<seq<Element>>)
    requires Buildable(posts)
    ensures Parse(Some("<posts/>"), Document(posts)) == Ok(Some(PeResult(Built(posts), 0, 0)))
  {
    var evs := Document(posts);
    DocumentOpens(posts);
    DocumentImages(posts, EmptyResult, Start);
    var c := Loop(AllPostEvents(posts), Start).value;
    assert c.res.images == [] + Built(posts) == Built(posts);
    assert c.res == PeResult(Built(posts), 0, 0);
    assert Some("<posts/>").value != "";
    assert Parse(Some("<posts/>"), evs) == Ok(Some(c.res));
  }

  /** The <posts> start tag and the </posts> end tag change nothing. */
  lemma DocumentOpens(posts: seq<seq<Element>>)
    ensures Loop(AllPostEvents(posts), Start).Ok? ==> Loop(Document(posts), Start) == Loop(AllPostEvents(posts), Start)
  {
    var evs := Document(posts);
    assert evs[0] == StartTag("posts", []);
    assert evs[1..] == AllPostEvents(posts) + [EndTag("posts")];
    assert "posts" !in ElementNames;
    assert Loop(evs, Start) == Loop(evs[1..], Start);
    LoopSuffix(AllPostEvents(posts), [EndTag("posts")], Start);
  }

  /** A trailing </posts> changes nothing. */
  lemma {:induction false} LoopSuffix(evs: seq<XmlEvent>, tail: seq<XmlEvent>, c: Cursor)
    requires Coherent(c) && tail == [EndTag("posts")]
    ensures Loop(evs, c).Ok? ==> Loop(evs + tail, c) == Loop(evs, c)
    decreases |evs|, 1
  {
    if evs == [] {
      assert evs + tail == tail;
    } else if Loop(evs, c).Ok? {
      var all := evs + tail;
      assert all[0] == evs[0] && all[1..] == evs[1..] + tail;
      match evs[0]
      case StartTag(_, _) =>
        LoopSuffixStart(evs, tail, c);
      case EndTag(name) =>
        if name != "post" {
          LoopSuffix(evs[1..], tail, c);
        } else {
          LoopSuffix(evs[1..], tail, Cursor(c.res.(images := c.res.images + [c.image.value]), c.image, true));
        }
      case Text(_) =>
        LoopSuffix(evs[1..], tail, c);
    }
  }

  /** LoopSuffix when the first event is a start tag. */
  lemma {:induction false} LoopSuffixStart(evs: seq<XmlEvent>, tail: seq<XmlEvent>, c: Cursor)
    requires Coherent(c) && tail == [EndTag("posts")]
    requires evs != [] && evs[0].StartTag? && Loop(evs, c).Ok?
    ensures Loop(evs + tail, c) == Loop(evs, c)
    decreases |evs|, 0
  {
    var all := evs + tail;
    assert all[0] == evs[0] && all[1..] == evs[1..] + tail;
    var name, attrs := evs[0].name, evs[0].attrs;
    if name == "post" {
      LoopSuffix(evs[1..], tail, Cursor(c.res, Some(Blank), false));
    } else if name !in ElementNames {
      LoopSuffix(evs[1..], tail, c);
    } else if (name == "parent-id" || name == "pixiv-id") && AttributeValue(attrs, "nil").Some? {
      var c' := Assign(c, NilElement(if c.image.Some? then c.image.value else Blank, name)).value;
      LoopSuffix(evs[1..], tail, c');
    } else {
      var (text, j) := NextText(evs, 0).value;
      assert NextText(all, 0) == NextText(evs, 0);
      assert all[j + 1..] == evs[j + 1..] + tail;
      var im := ApplyElement(if c.image.Some? then c.image.value else Blank, name, text).value;
      LoopSuffix(evs[j + 1..], tail, Assign(c, im).value);
    }
  }

  /**
   * After a post has been added, a stray field element still changes it: the results hold the
   * same object the Image variable names.
   */
  lemma FieldAfterPostChangesIt(text: string)
    ensures var evs := PostEvents([]) + ElementEvents(Element("source", text));
            Loop(evs, Start).Ok? && Loop(evs, Start).value.res.images == [Blank.(source := Some(text))]
  {
    var evs := PostEvents([]) + ElementEvents(Element("source", text));
    assert evs == [StartTag("post", []), EndTag("post"), StartTag("source", []), Text(text), EndTag("source")];
    var c1 := Cursor(EmptyResult, Some(Blank), false);
    var c2 := Cursor(PeResult([Blank], 0, 0), Some(Blank), true);
    assert Loop(evs, Start) == Loop(evs[1..], c1);
    assert Loop(evs[1..], c1) == Loop(evs[2..], c2);
    SourceAfterPost(text, c2);
  }

  /** The stray source element replaces the image already added. */
  lemma SourceAfterPost(text: string, c2: Cursor)
    requires c2 == Cursor(PeResult([Blank], 0, 0), Some(Blank), true)
    ensures var im := Blank.(source := Some(text));
            Loop([StartTag("source", []), Text(text), EndTag("source")], c2) == Ok(Cursor(PeResult([im], 0, 0), Some(im), true))
  {
    var evs := [StartTag("source", []), Text(text), EndTag("source")];
    var im := Blank.(source := Some(text));
    var c3 := Cursor(PeResult([im], 0, 0), Some(im), true);
    assert NextText(evs, 0) == Ok((text, 2));
    assert evs[3..] == [];
    assert ApplyElement(Blank, "source", text) == Ok(im);
    assert c2.res.images[..0] + [im] == [im];
    assert Assign(c2, im) == Ok(c3);
  }
}
