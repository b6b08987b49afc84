/**
 * ImageFragment (second and third generation): one page of the image viewer. It picks the
 * sample or the full-size file to load, offers the image's web page for sharing, hides "View on
 * Pixiv" for images without a Pixiv id, and names downloads after the file URL.
 *
 * The third generation's network heuristic lives in its own NetworkUtils class, which is not part
 * of this model: its answer is a parameter.
 */
module ImageFragments {
  import opened Wrappers
  import opened SearchResults
  import opened NetworkUtils
  import opened Downloads

  const ShareType: string := "text/plain"

  /** The share intent: the image's web page, as plain text. */
  datatype Share = Share(text: string, mimeType: string)

  function ShareIntent(image: Image): (r: Share)
    ensures r.text == image.webUrl && r.mimeType == ShareType
  {
    Share(image.webUrl, ShareType)
  }

  /** The URL loaded when samples are (or are not) to be used. */
  function ChooseUrl(image: Image, samples: bool): (url: string)
    ensures samples ==> url == image.sampleUrl
    ensures !samples ==> url == image.fileUrl
  {
    if samples then image.sampleUrl else image.fileUrl
  }

  /** onCreateView (second generation): the sample exactly when the network heuristic says so; it may throw. */
  function ImageUrl(image: Image, d: Device): (r: Result<string>)
    ensures r.Err? <==> ShouldFetchImageSamples(d).Err?
    ensures r == Ok(image.sampleUrl) || r == Ok(image.fileUrl) || r.Err?
    ensures r.Ok? ==> (r.value == image.sampleUrl <== ShouldFetchImageSamples(d) == Ok(true))
    ensures r.Ok? ==> (r.value == image.fileUrl <== ShouldFetchImageSamples(d) == Ok(false))
  {
    var samples := ShouldFetchImageSamples(d);
    if samples.Err? then Err(samples.error) else Ok(ChooseUrl(image, samples.value))
  }

  /** A low-density screen always gets the full-size file. */
  lemma LowDensityLoadsFile(image: Image, d: Device)
    requires !d.highDensity
    ensures ImageUrl(image, d) == Ok(image.fileUrl)
  {
    LowDensityNeverSamples(d);
  }

  /**
   * shouldLoadImageSamples (third generation): the conserve-bandwidth preference (default off),
   * or else the network heuristic, which is not consulted when the preference is on.
   */
  function ShouldLoadImageSamples(conserveBandwidth: bool, heuristic: Result<bool>): (r: Result<bool>)
    ensures conserveBandwidth ==> r == Ok(true)
    ensures !conserveBandwidth ==> r == heuristic
  {
    if conserveBandwidth then Ok(true) else heuristic
  }

  /** With the preference off, the third generation loads what the second would. */
  lemma PreferenceOffMatchesHeuristic(image: Image, d: Device)
    ensures var s := ShouldLoadImageSamples(false, ShouldFetchImageSamples(d));
            s.Err? <==> ImageUrl(image, d).Err?
    ensures var s := ShouldLoadImageSamples(false, ShouldFetchImageSamples(d));
            s.Ok? ==> Ok(ChooseUrl(image, s.value)) == ImageUrl(image, d)
  {
  }

  /** "View on Pixiv" is hidden for a null or empty Pixiv id and shown otherwise. */
  predicate PixivVisible(image: Image) {
    image.pixivId.Some? && image.pixivId.value != []
  }

  /** The Pixiv page: the prefix and the id as text ("null" for a null id). */
  function PixivUrl(image: Image): (r: string)
    ensures PixivVisible(image) ==> r == PixivPrefix + image.pixivId.value && |r| > |PixivPrefix|
  {
    PixivPrefix + (if image.pixivId.Some? then image.pixivId.value else "null")
  }

  /** Whenever the item is offered, the page it opens names exactly the image's Pixiv id. */
  lemma PixivUrlNamesId(image: Image)
    requires PixivVisible(image)
    ensures PixivUrl(image)[..|PixivPrefix|] == PixivPrefix && PixivUrl(image)[|PixivPrefix|..] == image.pixivId.value
  {
  }

  /** downloadImage: the request is for the file URL, titled and stored under its file name. */
  datatype Download = Download(url: string, title: string, destination: string)

  function DownloadImage(image: Image): (r: Download)
    ensures r.url == image.fileUrl && r.title == r.destination
    ensures '/' !in r.title && |r.title| <= |image.fileUrl|
    ensures r.title == image.fileUrl[|image.fileUrl| - |r.title|..]
  {
    var name := FileName(image.fileUrl);
    Download(image.fileUrl, name, name)
  }

  /** canScroll (second generation): true while there is no image view yet, else the view decides. */
  function CanScroll(viewScrolls: Option<bool>): (r: bool)
    ensures viewScrolls.None? ==> r
    ensures viewScrolls.Some? ==> r == viewScrolls.value
  {
    if viewScrolls.None? then true else viewScrolls.value
  }

  /** The third-generation fragment: its image and its listener (the activity while attached). */
  datatype Fragment = Fragment(image: Image, attached: bool)

  /**
   * showTagListDialog: the dialog gets the image and the listener's client settings; with no
   * listener (after onDetach) it throws.
   */
  function ShowTagListDialog<S>(f: Fragment, settings: S): (r: Result<(Image, S)>)
    ensures r.Ok? <==> f.attached
    ensures r.Ok? ==> r.value == (f.image, settings)
  {
    if f.attached then Ok((f.image, settings)) else Err(NullPointer)
  }

  function OnAttach(f: Fragment): (r: Fragment)
    ensures r.attached && r.image == f.image
  {
    f.(attached := true)
  }

  function OnDetach(f: Fragment): (r: Fragment)
    ensures !r.attached && r.image == f.image
  {
    f.(attached := false)
  }

  /** A detached fragment can show the tag list again once it is attached. */
  lemma ReattachRestoresTagList<S>(f: Fragment, settings: S)
    ensures ShowTagListDialog(OnDetach(f), settings).Err?
    ensures ShowTagListDialog(OnAttach(OnDetach(f)), settings) == Ok((f.image, settings))
  {
  }
}
