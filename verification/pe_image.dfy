/**
 * The first generation's Image and SearchResult records (pe.moe.nori.api). A new Image has every
 * reference field null, every number 0 and hasComments false. The clients also set webUrl and
 * pixivId, which the shown record lacks; both are kept here with Java's defaults.
 * createdAt keeps the text of the date; parsing dates is not part of this model.
 */
module PeImages {
  import opened Wrappers
  import opened JavaInts

  datatype PeRating = Undefined | Safe | Questionable | Explicit

  datatype PeImage = PeImage(
    fileUrl: Option<string>,
    width: Int32,
    height: Int32,
    previewUrl: Option<string>,
    previewWidth: Int32,
    previewHeight: Int32,
    sampleUrl: Option<string>,
    sampleWidth: Int32,
    sampleHeight: Int32,
    generalTags: Option<seq<string>>,
    artistTags: Option<seq<string>>,
    characterTags: Option<seq<string>>,
    copyrightTags: Option<seq<string>>,
    id: int,
    parentId: int,
    pixivId: int,
    rating: Option<PeRating>,
    score: Int32,
    source: Option<string>,
    md5: Option<string>,
    hasComments: bool,
    createdAt: Option<string>,
    webUrl: Option<string>)

  /** new Image(). */
  const Blank: PeImage := PeImage(None, 0, 0, None, 0, 0, None, 0, 0, None, None, None, None,
                                  0, 0, 0, None, 0, None, None, false, None, None)

  /** The first generation's SearchResult: the images, and count and offset as longs. */
  datatype PeResult = PeResult(images: seq<PeImage>, count: int, offset: int)

  /** new SearchResult(). */
  const EmptyResult: PeResult := PeResult([], 0, 0)

  /** The rating letters every client recognises: s, q and e; None for anything else. */
  function RatingCode(value: string): (r: Option<PeRating>)
    ensures r == Some(Safe) <==> value == "s"
    ensures r == Some(Questionable) <==> value == "q"
    ensures r == Some(Explicit) <==> value == "e"
    ensures r != Some(Undefined)
  {
    if value == "s" then Some(Safe)
    else if value == "q" then Some(Questionable)
    else if value == "e" then Some(Explicit)
    else None
  }
}
