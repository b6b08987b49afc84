/**
 * ImageViewerActivity (first generation): a full-screen pager over the images of a search
 * result. Selecting an image sets the title, the share text and the "View on Pixiv" item, and
 * queues the next page when the image is one of the last three; touching the pager without
 * swiping toggles the action bar. As in the first-generation search activity, the result members
 * it reads (query, pageNumber, hasMore) are the fields of Shown and its extend is a parameter.
 */
module PeImageViewer {
  import opened Wrappers
  import opened JavaStrings
  import opened UriEncode
  import opened PeImages
  import opened ServiceSettingsProvider
  import opened PeSearchActivity
  import ImageViewer
  import opened Downloads

  /** Fetch when at most this many images are left from the selected one to the end. */
  const Threshold: int := 3
  /** The title is cut when longer than TitleLimit code units, to TitleCut of them and "…". */
  const TitleLimit: int := 25
  const TitleCut: int := 24

  /**
   * The activity: the result (from the intent, possibly null), the client (null for an unknown
   * API), the Volley requests made and the pending one, the selected index, the "View on Pixiv"
   * menu item's visibility (None until the menu exists), the share text, the title, the
   * should-toggle flag of the scroll-state listener, and whether the action bar is showing.
   */
  datatype Viewer = Viewer(result: Option<Shown>, client: Option<Client>, requests: seq<PeRequest>, pending: Option<nat>,
                           current: int, pixivVisible: Option<bool>, share: Option<Option<string>>,
                           title: seq<CodeUnit>, shouldToggle: bool, barShowing: bool)

  predicate Valid(v: Viewer) {
    v.pending.Some? ==> v.pending.value < |v.requests|
  }

  // ---------------------------------------------------------------------------------------------
  // What one image shows

  /** Each general tag followed by a space. */
  function Spaced(tags: seq<string>): (r: string)
    ensures tags == [] ==> r == []
    ensures tags != [] ==> r == tags[0] + " " + Spaced(tags[1..])
  {
    if tags == [] then [] else tags[0] + " " + Spaced(tags[1..])
  }

  /** The title before truncation: the id, ": ", and every general tag followed by a space. */
  function TitleText(image: PeImage): (r: Result<string>)
    ensures r.Err? <==> image.generalTags.None?
    ensures r.Ok? ==> r.value == IntToDecimal(image.id) + ": " + Spaced(image.generalTags.value)
  {
    if image.generalTags.None? then Err(NullPointer)
    else Ok(IntToDecimal(image.id) + ": " + Spaced(image.generalTags.value))
  }

  /** The title set: longer than 25 code units, it keeps the first 24 and gains "…". A null tag array throws. */
  function Title(image: PeImage): (r: Result<seq<CodeUnit>>)
    ensures r.Err? <==> image.generalTags.None?
    ensures r.Ok? ==> |r.value| <= TitleLimit
    ensures r.Ok? ==> var t := Units(TitleText(image).value);
                      (|t| <= TitleLimit ==> r.value == t)
                      && (|t| > TitleLimit ==> r.value == t[..TitleCut] + [ImageViewer.Ellipsis])
  {
    var text := TitleText(image);
    if text.Err? then Err(text.error)
    else
      var r := ImageViewer.Ellipsize(Units(text.value), TitleLimit, TitleCut);
      assert r.Ok?;
      r
  }

  /** The code units of two strings joined are the code units of each, joined. */
  lemma {:induction false} UnitsAppend(a: string, b: string)
    ensures Units(a + b) == Units(a) + Units(b)
    decreases |a|
  {
    if a != [] {
      var ab := a + b;
      assert ab[0] == a[0] && ab[1..] == a[1..] + b;
      UnitsAppend(a[1..], b);
      UnitsStep(a, ab, Units(b));
    } else {
      assert a + b == b;
    }
  }

  /** The code units of one character. */
  function UnitsOf(c: char): seq<CodeUnit>
  {
    if c as int < 0x1_0000 then [c as int] else Utf16Of(c as int)
  }

  lemma UnitsStep(a: string, ab: string, ub: seq<CodeUnit>)
    requires a != [] && ab != [] && ab[0] == a[0] && Units(ab[1..]) == Units(a[1..]) + ub
    ensures Units(ab) == Units(a) + ub
  {
    UnitsHead(a);
    UnitsHead(ab);
    Associative(UnitsOf(a[0]), Units(a[1..]), ub);
  }

  lemma Associative(x: seq<CodeUnit>, y: seq<CodeUnit>, z: seq<CodeUnit>)
    ensures (x + y) + z == x + (y + z)
  {
  }

  lemma UnitsHead(s: string)
    requires s != []
    ensures Units(s) == UnitsOf(s[0]) + Units(s[1..])
  {
  }

  /** The title always begins with the image's id and ": " when those fit before the cut. */
  lemma TitleStartsWithId(image: PeImage)
    requires image.generalTags.Some?
    requires |Units(IntToDecimal(image.id) + ": ")| <= TitleCut
    ensures var head := Units(IntToDecimal(image.id) + ": ");
            |head| <= |Title(image).value| && Title(image).value[..|head|] == head
  {
    var head := IntToDecimal(image.id) + ": ";
    var tail := Spaced(image.generalTags.value);
    UnitsAppend(head, tail);
    var t := Units(head + tail);
    var title := Title(image).value;
    if |t| > TitleLimit {
      assert title[..|Units(head)|] == t[..TitleCut][..|Units(head)|];
    }
  }

  /** The download's file name: whatever follows the last '/' of the file URL; a null URL throws. */
  function FileName(fileUrl: Option<string>): (r: Result<string>)
    ensures r.Err? <==> fileUrl.None?
    ensures r.Ok? ==> r.value == Downloads.FileName(fileUrl.value)
  {
    if fileUrl.None? then Err(NullPointer) else Ok(Downloads.FileName(fileUrl.value))
  }

  /** "View on Pixiv" is offered when the image has a Pixiv id, which is not -1. */
  predicate HasPixiv(image: PeImage) {
    image.pixivId != -1
  }

  /** The Pixiv page opened: the fixed prefix and the id in decimal. */
  function PixivUrl(image: PeImage): (r: string)
    ensures |r| > |PixivPrefix| && r[..|PixivPrefix|] == PixivPrefix
  {
    PixivPrefix + IntToDecimal(image.pixivId)
  }

  /** The Pixiv id can be read back from the page URL. */
  lemma PixivUrlNamesTheImage(image: PeImage)
    requires LongMin <= image.pixivId <= LongMax
    ensures ParseLong(PixivUrl(image)[|PixivPrefix|..]) == Ok(image.pixivId)
  {
    assert PixivUrl(image)[|PixivPrefix|..] == IntToDecimal(image.pixivId);
    ParsePrinted(image.pixivId, LongMin, LongMax);
  }

  // ---------------------------------------------------------------------------------------------
  // Selecting an image

  /** The pager's count and the image at a position; a null result or a bad position throws. */
  function PagerCount(v: Viewer): (r: Result<nat>)
    ensures r.Err? <==> v.result.None?
    ensures r.Ok? ==> r.value == |v.result.value.images|
  {
    if v.result.None? then Err(NullPointer) else Ok(|v.result.value.images|)
  }

  function ImageAt(v: Viewer, position: int): (r: Result<PeImage>)
    ensures r.Ok? <==> v.result.Some? && 0 <= position < |v.result.value.images|
    ensures r.Ok? ==> r.value == v.result.value.images[position]
  {
    if v.result.None? then Err(NullPointer)
    else if 0 <= position < |v.result.value.images| then Ok(v.result.value.images[position])
    else Err(IndexOutOfBounds)
  }

  predicate ShouldFetch(v: Viewer, position: int)
    requires v.result.Some?
  {
    v.pending.None? && |v.result.value.images| - position <= Threshold && v.result.value.hasMore
  }

  /**
   * onPageSelected: the image at the position is looked up first; near the end, with nothing
   * pending and more pages, the next page of the same query is queued and becomes the pending
   * request (a null client throws there); then the Pixiv item follows the image's Pixiv id when
   * the menu exists, the share text is the image's web URL and the title is set.
   */
  function OnPageSelected(v: Viewer, position: int): (r: Result<Viewer>)
    requires Valid(v)
    ensures ImageAt(v, position).Err? ==> r.Err?
    ensures r.Ok? ==> ImageAt(v, position).Ok? && Valid(r.value)
    ensures ImageAt(v, position).Ok? ==>
              (r.Ok? <==> (ShouldFetch(v, position) ==> v.client.Some?) && v.result.value.images[position].generalTags.Some?)
    ensures r.Ok? ==>
              var image := v.result.value.images[position];
              && r.value.result == v.result && r.value.current == v.current
              && r.value.share == Some(image.webUrl)
              && r.value.title == Title(image).value
              && r.value.pixivVisible == (if v.pixivVisible.Some? then Some(HasPixiv(image)) else None)
    ensures r.Ok? && ShouldFetch(v, position) ==>
              r.value.requests == v.requests + [PeRequest(v.result.value.query, Some(v.result.value.pageNumber + 1), true, false)]
              && r.value.pending == Some(|v.requests|)
    ensures r.Ok? && !ShouldFetch(v, position) ==> r.value.requests == v.requests && r.value.pending == v.pending
  {
    var image := ImageAt(v, position);
    if image.Err? then Err(image.error)
    else
      var fetch := ShouldFetch(v, position);
      if fetch && v.client.None? then Err(NullPointer)
      else
        var title := Title(image.value);
        if title.Err? then Err(title.error)
        else
          var s := v.result.value;
          var w := if fetch then v.(requests := v.requests + [PeRequest(s.query, Some(s.pageNumber + 1), true, false)],
                                    pending := Some(|v.requests|))
                   else v;
          Ok(w.(pixivVisible := if v.pixivVisible.Some? then Some(HasPixiv(image.value)) else None,
                share := Some(image.value.webUrl), title := title.value))
  }

  /** The activity as onCreate builds it: the action bar hidden, nothing pending or selected yet. */
  function Fresh(result: Option<Shown>, client: Option<Client>): (v: Viewer)
    ensures Valid(v) && v.requests == [] && v.pending.None? && !v.barShowing && v.pixivVisible.None?
  {
    Viewer(result, client, [], None, 0, None, None, [], false, false)
  }

  /**
   * ViewPager.setCurrentItem before the first layout: the position is clamped into the pages, and
   * the listener hears of it only when that moves the pager off page 0 (with no pages, nothing).
   */
  function PagerTarget(count: nat, position: int): (p: int)
    ensures count > 0 ==> 0 <= p < count
    ensures count > 0 && 0 <= position < count ==> p == position
    ensures count == 0 ==> p == 0
  {
    if count == 0 then 0 else if position < 0 then 0 else if position >= count then count - 1 else position
  }

  /**
   * onCreate: unless restoring, the intent's position (default 0) is selected. The pager reports
   * a move to any other page itself; for position 0, which it already shows and so reports nothing
   * for, onPageSelected is called directly.
   */
  function OnCreate(result: Option<Shown>, client: Option<Client>, restoring: bool, position: Option<int>): (r: Result<Viewer>)
    ensures restoring ==> r == Ok(Fresh(result, client))
    ensures !restoring && (position.None? || position == Some(0)) ==> r == OnPageSelected(Fresh(result, client), 0)
    ensures !restoring && position.Some? && position.value != 0 && result.Some? && 0 <= position.value < |result.value.images| ==>
              r == OnPageSelected(Fresh(result, client).(current := position.value), position.value)
    ensures !restoring && position.Some? && position.value != 0 && (result.None? || result.value.images == []) ==>
              (r.Err? <==> result.None?)
  {
    var index := if position.Some? then position.value else 0;
    var v := Fresh(result, client);
    if restoring then Ok(v)
    else if index == 0 then OnPageSelected(v, 0)
    else if result.None? then Err(NullPointer)
    else
      var target := PagerTarget(|result.value.images|, index);
      if target == 0 then Ok(v)
      else OnPageSelected(v.(current := target), target)
  }

  /** Opened on the first image of a result with no images, the viewer throws at once. */
  lemma EmptyResultFailsToOpen(query: string, pageNumber: int, hasMore: bool, client: Option<Client>)
    ensures OnCreate(Some(Shown(query, pageNumber, hasMore, [])), client, false, None).Err?
  {
  }

  /** Opened on the first image, the viewer shows its title at once. */
  lemma FirstImageTitled(result: Shown, client: Option<Client>)
    requires result.images != [] && result.images[0].generalTags.Some?
    requires |result.images| - 0 <= Threshold && result.hasMore ==> client.Some?
    ensures var r := OnCreate(Some(result), client, false, Some(0));
            r.Ok? && r.value.title == Title(result.images[0]).value && r.value.current == 0
  {
  }

  /** Opened on any image of the result, the viewer shows that image: its page, title and share text. */
  lemma OpenedImageShown(result: Shown, client: Client, position: int)
    requires 0 <= position < |result.images| && result.images[position].generalTags.Some?
    ensures var r := OnCreate(Some(result), Some(client), false, Some(position));
            r.Ok? && r.value.current == position && r.value.title == Title(result.images[position]).value
            && r.value.share == Some(result.images[position].webUrl)
  {
  }

  /** The response listener: the pending request is cleared and the result extended by the response. */
  function OnResponse(v: Viewer, response: Shown, extend: (Shown, Shown) -> Shown): (r: Result<Viewer>)
    ensures r.Err? <==> v.result.None?
    ensures r.Ok? ==> r.value.pending.None? && r.value.result == Some(extend(v.result.value, response))
                      && r.value.requests == v.requests && r.value.current == v.current
  {
    if v.result.None? then Err(NullPointer)
    else Ok(v.(pending := None, result := Some(extend(v.result.value, response))))
  }

  /** The error listener only shows a toast: the pending request stays set. */
  function OnErrorResponse(v: Viewer): (r: Viewer)
    ensures r.pending == v.pending && r.requests == v.requests && r.result == v.result
  {
    v
  }

  /** After a failed page no selection fetches again: the request stays pending forever. */
  lemma ErrorStopsFetching(v: Viewer, position: int)
    requires Valid(v) && v.pending.Some?
    ensures var r := OnPageSelected(OnErrorResponse(v), position);
            r.Ok? ==> r.value.requests == v.requests && r.value.pending == v.pending
  {
  }

  /** A response answered makes the next selection near the end fetch again, if more pages remain. */
  lemma ResponseAllowsNextFetch(v: Viewer, response: Shown, extend: (Shown, Shown) -> Shown, position: int)
    requires Valid(v) && v.result.Some?
    ensures var w := OnResponse(v, response, extend).value;
            Valid(w) && ShouldFetch(w, position) == (|w.result.value.images| - position <= Threshold && w.result.value.hasMore)
  {
  }

  // ---------------------------------------------------------------------------------------------
  // Toggling the action bar

  /** ViewPager scroll states. */
  const ScrollIdle: int := 0
  const ScrollDragging: int := 1
  const ScrollSettling: int := 2

  /**
   * onPageScrollStateChanged: a touch sets the flag, a swipe settling clears it, and going idle
   * with the flag set toggles the action bar (the flag stays set).
   */
  function OnPageScrollStateChanged(v: Viewer, state: int): (r: Viewer)
    ensures state == ScrollDragging ==> r == v.(shouldToggle := true)
    ensures state == ScrollSettling ==> r == v.(shouldToggle := false)
    ensures state == ScrollIdle ==> r.shouldToggle == v.shouldToggle && (r.barShowing != v.barShowing <==> v.shouldToggle)
    ensures state == ScrollIdle ==> r == v.(barShowing := r.barShowing)
    ensures state != ScrollDragging && state != ScrollSettling && state != ScrollIdle ==> r == v
  {
    if state == ScrollDragging then v.(shouldToggle := true)
    else if state == ScrollSettling then v.(shouldToggle := false)
    else if state == ScrollIdle && v.shouldToggle then v.(barShowing := !v.barShowing)
    else v
  }

  /** Touching and letting go without a swipe toggles the action bar. */
  lemma TouchToggles(v: Viewer)
    ensures var r := OnPageScrollStateChanged(OnPageScrollStateChanged(v, ScrollDragging), ScrollIdle);
            r.barShowing != v.barShowing && r.result == v.result
  {
  }

  /** A swipe (touch, settle, idle) leaves the action bar as it was. */
  lemma SwipeKeepsBar(v: Viewer)
    ensures var r := OnPageScrollStateChanged(OnPageScrollStateChanged(OnPageScrollStateChanged(v, ScrollDragging), ScrollSettling), ScrollIdle);
            r.barShowing == v.barShowing
  {
  }
}
