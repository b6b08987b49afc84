/**
 * The attribute loop the first generation's attribute-based clients (DanbooruLegacy, Gelbooru,
 * Shimmie) run over a <post> start tag: each recognised attribute name sets one field of a new
 * Image. The three loops differ only in the points a Dialect records.
 */
module PostAttributes {
  import opened Wrappers
  import opened JavaInts
  import opened JavaStrings
  import opened XmlEvents
  import opened PeImages

  /**
   * prefix: what file_url and preview_url are prefixed with (Shimmie: the endpoint);
   * ratingFallback: whether an unknown rating letter gives UNDEFINED (Gelbooru leaves the field);
   * intDates: whether created_at is read with Integer.parseInt (DanbooruLegacy's DANBOORU subtype).
   */
  datatype Dialect = Dialect(prefix: string, ratingFallback: bool, intDates: bool)

  const IntNames: set<string> :=
    {"width", "height", "preview_width", "preview_height", "sample_width", "sample_height", "score"}

  const KnownNames: set<string> :=
    IntNames + {"file_url", "preview_url", "sample_url", "id", "parent_id", "tags", "rating",
                "source", "md5", "created_at", "has_comments"}

  /** parent_id: "" means no parent (-1); anything else goes through Long.parseLong. */
  function ParentId(value: string): (r: Result<int>)
    ensures value == "" ==> r == Ok(-1)
    ensures value != "" ==> r == ParseLong(value)
  {
    if value == "" then Ok(-1) else ParseLong(value)
  }

  /** The field an attribute name selects. */
  datatype Selected =
    | FileUrl | Width | Height | PreviewUrl | PreviewWidth | PreviewHeight | SampleUrl | SampleWidth
    | SampleHeight | Id | ParentIdField | Tags | Rating | Score | Source | Md5 | CreatedAt | HasComments
    | NoField

  /** The loop's if-chain over the attribute name. */
  function SelectedField(name: string): (f: Selected)
    ensures f == NoField <==> name !in KnownNames
    ensures f in {Width, Height, PreviewWidth, PreviewHeight, SampleWidth, SampleHeight, Score} <==> name in IntNames
    ensures f == FileUrl <==> name == "file_url"
    ensures f == PreviewUrl <==> name == "preview_url"
    ensures f == Id <==> name == "id"
    ensures f == ParentIdField <==> name == "parent_id"
    ensures f == Tags <==> name == "tags"
    ensures f == Rating <==> name == "rating"
    ensures f == CreatedAt <==> name == "created_at"
    ensures f == HasComments <==> name == "has_comments"
  {
    match name
    case "file_url" => FileUrl
    case "width" => Width
    case "height" => Height
    case "preview_url" => PreviewUrl
    case "preview_width" => PreviewWidth
    case "preview_height" => PreviewHeight
    case "sample_url" => SampleUrl
    case "sample_width" => SampleWidth
    case "sample_height" => SampleHeight
    case "id" => Id
    case "parent_id" => ParentIdField
    case "tags" => Tags
    case "rating" => Rating
    case "score" => Score
    case "source" => Source
    case "md5" => Md5
    case "created_at" => CreatedAt
    case "has_comments" => HasComments
    case _ => NoField
  }

  /** One pass of the loop body: the field the attribute's name selects, or nothing. */
  function ApplyAttribute(img: PeImage, a: Attribute, d: Dialect): (r: Result<PeImage>)
    ensures a.name !in KnownNames ==> r == Ok(img)
    ensures r.Err? ==> r.error == NumberFormat
    ensures r.Err? ==> a.name in IntNames || a.name == "id" || a.name == "parent_id" || (a.name == "created_at" && d.intDates)
    ensures a.name == "rating" && d.ratingFallback ==>
              r.Ok? && r.value.rating.Some? && (r.value.rating.value == Undefined <==> a.value !in {"s", "q", "e"})
    ensures a.name == "rating" && !d.ratingFallback && a.value !in {"s", "q", "e"} ==> r == Ok(img)
    ensures a.name == "has_comments" ==> r.Ok? && (r.value.hasComments <==> a.value == "true")
    ensures a.name == "parent_id" ==> r.Ok? == ParentId(a.value).Ok?
    ensures a.name == "parent_id" && r.Ok? ==> r.value.parentId == ParentId(a.value).value
  {
    SetSelected(img, SelectedField(a.name), a.value, d)
  }

  /** Setting the selected field from the attribute's value. */
  function SetSelected(img: PeImage, f: Selected, v: string, d: Dialect): (r: Result<PeImage>)
    ensures f == NoField ==> r == Ok(img)
    ensures r.Err? ==> r.error == NumberFormat
    ensures r.Err? ==> f in {Width, Height, PreviewWidth, PreviewHeight, SampleWidth, SampleHeight, Score, Id, ParentIdField}
                       || (f == CreatedAt && d.intDates)
    ensures r.Ok? && !d.ratingFallback && r.value.rating == Some(Undefined) ==> img.rating == Some(Undefined)
    ensures r.Ok? && f != FileUrl ==> r.value.fileUrl == img.fileUrl
    ensures r.Ok? && f != PreviewUrl ==> r.value.previewUrl == img.previewUrl
  {
    match f
    case FileUrl => Ok(img.(fileUrl := Some(d.prefix + v)))
    case Width => (match ParseInt32(v) case Ok(n) => Ok(img.(width := n)) case Err(e) => Err(e))
    case Height => (match ParseInt32(v) case Ok(n) => Ok(img.(height := n)) case Err(e) => Err(e))
    case PreviewUrl => Ok(img.(previewUrl := Some(d.prefix + v)))
    case PreviewWidth => (match ParseInt32(v) case Ok(n) => Ok(img.(previewWidth := n)) case Err(e) => Err(e))
    case PreviewHeight => (match ParseInt32(v) case Ok(n) => Ok(img.(previewHeight := n)) case Err(e) => Err(e))
    case SampleUrl => Ok(img.(sampleUrl := Some(v)))
    case SampleWidth => (match ParseInt32(v) case Ok(n) => Ok(img.(sampleWidth := n)) case Err(e) => Err(e))
    case SampleHeight => (match ParseInt32(v) case Ok(n) => Ok(img.(sampleHeight := n)) case Err(e) => Err(e))
    case Id => (match ParseLong(v) case Ok(n) => Ok(img.(id := n)) case Err(e) => Err(e))
    case ParentIdField => (match ParentId(v) case Ok(n) => Ok(img.(parentId := n)) case Err(e) => Err(e))
    case Tags => Ok(img.(generalTags := Some(Split(Trim(v), ' '))))
    case Rating =>
      var code := RatingCode(v);
      if code.Some? then Ok(img.(rating := code))
      else if d.ratingFallback then Ok(img.(rating := Some(Undefined)))
      else Ok(img)
    case Score => (match ParseInt32(v) case Ok(n) => Ok(img.(score := n)) case Err(e) => Err(e))
    case Source => Ok(img.(source := Some(v)))
    case Md5 => Ok(img.(md5 := Some(v)))
    case CreatedAt =>
      if d.intDates && ParseInt(v).Err? then Err(NumberFormat) else Ok(img.(createdAt := Some(v)))
    case HasComments => Ok(img.(hasComments := v == "true"))
    case NoField => Ok(img)
  }

  /** The whole loop, attribute by attribute; the first exception ends it. */
  function ApplyAttributes(img: PeImage, attrs: seq<Attribute>, d: Dialect): (r: Result<PeImage>)
    ensures r.Err? ==> r.error == NumberFormat
    decreases |attrs|
  {
    if attrs == [] then Ok(img)
    else
      match ApplyAttributes(img, attrs[..|attrs| - 1], d)
      case Err(e) => Err(e)
      case Ok(im) => ApplyAttribute(im, attrs[|attrs| - 1], d)
  }

  /** Attributes the loop does not recognise change nothing. */
  lemma {:induction false} UnknownAttributesIgnored(img: PeImage, attrs: seq<Attribute>, d: Dialect)
    requires forall i :: 0 <= i < |attrs| ==> attrs[i].name !in KnownNames
    ensures ApplyAttributes(img, attrs, d) == Ok(img)
    decreases |attrs|
  {
    if attrs != [] {
      UnknownAttributesIgnored(img, attrs[..|attrs| - 1], d);
    }
  }

  /** Only numeric attributes can make the loop fail; a list without them always succeeds. */
  lemma {:induction false} TextAttributesSucceed(img: PeImage, attrs: seq<Attribute>, d: Dialect)
    requires forall i :: 0 <= i < |attrs| ==>
               attrs[i].name !in IntNames && attrs[i].name != "id" && attrs[i].name != "parent_id"
               && attrs[i].name != "created_at"
    ensures ApplyAttributes(img, attrs, d).Ok?
    decreases |attrs|
  {
    if attrs != [] {
      TextAttributesSucceed(img, attrs[..|attrs| - 1], d);
    }
  }

  /** A tags attribute holding single-space-separated tags gives exactly those tags. */
  lemma TagsAttribute(img: PeImage, names: seq<string>, d: Dialect)
    requires |names| >= 1
    requires forall i :: 0 <= i < |names| ==> names[i] != "" && forall k :: 0 <= k < |names[i]| ==> !Trimmable(names[i][k])
    ensures ApplyAttribute(img, Attribute("tags", Join(names, " ")), d)
         == Ok(img.(generalTags := Some(names)))
  {
    assert forall i, k :: 0 <= i < |names| && 0 <= k < |names[i]| ==> names[i][k] != ' ';
    JoinUntrimmed(names, " ");
    SplitJoin(names, ' ');
  }

  /** The image's file and preview URLs, when set, start with the dialect's prefix. */
  predicate Prefixed(im: PeImage, prefix: string) {
    (im.fileUrl.Some? ==> prefix <= im.fileUrl.value) && (im.previewUrl.Some? ==> prefix <= im.previewUrl.value)
  }

  /** One attribute keeps the URLs prefixed. */
  lemma UrlAttribute(img: PeImage, a: Attribute, d: Dialect)
    requires Prefixed(img, d.prefix) && ApplyAttribute(img, a, d).Ok?
    ensures Prefixed(ApplyAttribute(img, a, d).value, d.prefix)
  {
    var f := SelectedField(a.name);
    if f == FileUrl || f == PreviewUrl {
      assert d.prefix <= d.prefix + a.value;
    }
  }

  /** Every file_url and preview_url the loop stores carries the prefix (Shimmie: the endpoint). */
  lemma {:induction false} UrlsPrefixed(attrs: seq<Attribute>, d: Dialect)
    requires ApplyAttributes(Blank, attrs, d).Ok?
    ensures Prefixed(ApplyAttributes(Blank, attrs, d).value, d.prefix)
    decreases |attrs|
  {
    if attrs != [] {
      UrlsPrefixed(attrs[..|attrs| - 1], d);
      UrlAttribute(ApplyAttributes(Blank, attrs[..|attrs| - 1], d).value, attrs[|attrs| - 1], d);
    }
  }

  /** Without the fallback the rating is never UNDEFINED: an unknown letter leaves it null. */
  lemma {:induction false} NoUndefinedWithoutFallback(img: PeImage, attrs: seq<Attribute>, d: Dialect)
    requires !d.ratingFallback && img.rating != Some(Undefined)
    requires ApplyAttributes(img, attrs, d).Ok?
    ensures ApplyAttributes(img, attrs, d).value.rating != Some(Undefined)
    decreases |attrs|
  {
    if attrs != [] {
      NoUndefinedWithoutFallback(img, attrs[..|attrs| - 1], d);
    }
  }
}
