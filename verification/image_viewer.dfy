/**
 * ImageViewerActivity (second and third generation): a full-screen pager over the images of a
 * search result, which fetches the next page of the same search when the user comes within three
 * images of the end. The two generations differ in three places, each a parameter here: the third
 * hides the action bar on creation, filters each new page by obscenity rating before appending it,
 * and toggles the action bar on a single tap.
 *
 * A title is a Java string, so its length and substring count UTF-16 code units. The title's
 * format and its maximum length are resources; they are parameters here.
 */
module ImageViewer {
  import opened Wrappers
  import opened Tags
  import opened SearchResults
  import opened SearchCallbacks
  import opened JavaInts
  import opened UriEncode

  /** INFINITE_SCROLLING_THRESHOLD: fetch when the selected image is this close to the last one. */
  const Threshold: int := 3

  /** The horizontal ellipsis, U+2026, a single code unit. */
  const Ellipsis: CodeUnit := 0x2026

  /**
   * The activity: the search bookkeeping (its shown result is the viewer's searchResult, which the
   * infinite-scrolling callback extends in place), the selected index and whether the action bar
   * is showing.
   */
  datatype Viewer = Viewer(searches: Searches, current: int, barShowing: bool)

  /**
   * A saved instance state or an intent: the image index, the search result (the outer Option is
   * whether the key is there at all, the inner one a stored null) and whether the client settings
   * are there.
   */
  datatype Bundle = Bundle(index: Option<int>, result: Option<Option<SearchResult>>, hasSettings: bool)

  function Flatten(r: Option<Option<SearchResult>>): Option<SearchResult> {
    if r.Some? then r.value else None
  }

  /**
   * onCreate: a saved state is used only when it holds both the index and the result key;
   * otherwise the intent, whose index defaults to 0. A missing client settings object throws.
   * Nothing is pending yet.
   */
  function Restore(saved: Option<Bundle>, intent: Bundle, hideBar: bool): (r: Result<Viewer>)
    ensures var fromSaved := saved.Some? && saved.value.index.Some? && saved.value.result.Some?;
            var b := if fromSaved then saved.value else intent;
            && (r.Err? <==> !b.hasSettings)
            && (r.Ok? ==> r.value.searches == Searches([], None, [], Flatten(b.result)) && r.value.barShowing == !hideBar)
            && (r.Ok? && fromSaved ==> r.value.current == saved.value.index.value)
            && (r.Ok? && !fromSaved ==> r.value.current == (if intent.index.Some? then intent.index.value else 0))
  {
    var fromSaved := saved.Some? && saved.value.index.Some? && saved.value.result.Some?;
    var b := if fromSaved then saved.value else intent;
    var index := if fromSaved then saved.value.index.value else if intent.index.Some? then intent.index.value else 0;
    if !b.hasSettings then Err(NullPointer)
    else Ok(Viewer(Searches([], None, [], Flatten(b.result)), index, !hideBar))
  }

  /** onSaveInstanceState: the result (even a null one), the pager's current item and the client settings. */
  function Save(v: Viewer): (b: Bundle)
    ensures b.index.Some? && b.result.Some? && b.hasSettings
  {
    Bundle(Some(v.current), Some(v.searches.shown), true)
  }

  /**
   * A rotation brings back the image that was selected and the result that was shown, whatever
   * the intent says; only the pending fetch and the action bar's state are lost.
   */
  lemma SaveThenRestore(v: Viewer, intent: Bundle, hideBar: bool)
    ensures var r := Restore(Some(Save(v)), intent, hideBar);
            r.Ok? && r.value.current == v.current && r.value.searches.shown == v.searches.shown
            && r.value.searches.pending.None?
  {
  }

  // ---------------------------------------------------------------------------------------------
  // The title

  /**
   * Truncation with an ellipsis: a text longer than the limit keeps its first cut code units and
   * gains "…"; a cut past the text or below zero throws.
   */
  function Ellipsize(t: seq<CodeUnit>, limit: int, cut: int): (r: Result<seq<CodeUnit>>)
    ensures |t| <= limit ==> r == Ok(t)
    ensures |t| > limit ==> (r.Ok? <==> 0 <= cut <= |t|)
    ensures |t| > limit && r.Ok? ==> |r.value| == cut + 1 && r.value[..cut] == t[..cut] && r.value[cut] == Ellipsis
  {
    if |t| <= limit then Ok(t)
    else if 0 <= cut <= |t| then Ok(t[..cut] + [Ellipsis])
    else Err(IndexOutOfBounds)
  }

  /** setTitle: the formatted title, cut to the maximum length plus "…" when longer. */
  function Title(formatted: seq<CodeUnit>, maxLength: int): (r: Result<seq<CodeUnit>>)
    ensures r.Err? <==> |formatted| > maxLength && maxLength < 0
    ensures r.Ok? ==> |r.value| <= |formatted| && (maxLength >= 0 ==> |r.value| <= maxLength + 1)
    ensures r.Ok? && |formatted| > maxLength ==> 0 <= maxLength && r.value == formatted[..maxLength] + [Ellipsis]
  {
    Ellipsize(formatted, maxLength, maxLength)
  }

  /** A title already set is set again unchanged: the ellipsis stands in for what was cut. */
  lemma TitleIdempotent(formatted: seq<CodeUnit>, maxLength: int)
    requires Title(formatted, maxLength).Ok?
    ensures Title(Title(formatted, maxLength).value, maxLength) == Title(formatted, maxLength)
  {
    var t := Title(formatted, maxLength).value;
    if |formatted| > maxLength {
      assert t[..maxLength] == formatted[..maxLength];
    }
  }

  // ---------------------------------------------------------------------------------------------
  // Paging

  /** The pager adapter's count: none without a result. */
  function PagerCount(v: Viewer): (n: nat)
    ensures v.searches.shown.None? ==> n == 0
    ensures v.searches.shown.Some? ==> n == |v.searches.shown.value.images|
  {
    if v.searches.shown.None? then 0 else |v.searches.shown.value.images|
  }

  /** The pager adapter's item: the image at the position; a null result or a bad position throws. */
  function PagerItem(v: Viewer, position: int): (r: Result<Image>)
    ensures r.Ok? <==> 0 <= position < PagerCount(v)
    ensures r.Ok? ==> r.value == v.searches.shown.value.images[position]
  {
    if v.searches.shown.None? then Err(NullPointer)
    else if 0 <= position < |v.searches.shown.value.images| then Ok(v.searches.shown.value.images[position])
    else Err(IndexOutOfBounds)
  }

  /** Whether selecting the position asks for the next page. */
  predicate ShouldFetch(v: Viewer, position: int)
    requires v.searches.shown.Some?
  {
    v.searches.pending.None? && v.searches.shown.value.hasNextPage
    && |v.searches.shown.value.images| - position <= Threshold
  }

  /** What selecting a page did: the new state and the title set. */
  datatype Selected = Selected(viewer: Viewer, title: seq<CodeUnit>)

  /**
   * onPageSelected: the pager's current item becomes the position; the title of the image there
   * is set, then fetchMoreImages runs when nothing is pending, the result may have another page
   * and at most three images are left from the position to the end. fetchMoreImages also shows
   * the action bar.
   */
  function OnPageSelected(v: Viewer, position: int, format: Image -> seq<CodeUnit>, maxLength: int): (r: Result<Selected>)
    ensures r.Ok? ==> PagerItem(v, position).Ok?
    ensures PagerItem(v, position).Ok? ==> (r.Ok? <==> Title(format(PagerItem(v, position).value), maxLength).Ok?)
    ensures r.Ok? ==> r.value.title == Title(format(PagerItem(v, position).value), maxLength).value
    ensures r.Ok? ==> r.value.viewer.searches.shown == v.searches.shown && r.value.viewer.current == position
    ensures r.Ok? && ShouldFetch(v, position) ==>
              var result := v.searches.shown.value;
              && r.value.viewer.searches.pending == Some(|v.searches.callbacks|)
              && r.value.viewer.searches.requests == v.searches.requests + [Request(OfTags(result.query), Some(result.offset as int + 1), |v.searches.callbacks|)]
              && r.value.viewer.barShowing
    ensures r.Ok? && !ShouldFetch(v, position) ==> r.value.viewer == v.(current := position)
  {
    var item := PagerItem(v, position);
    if item.Err? then Err(item.error)
    else
      var title := Title(format(item.value), maxLength);
      var selected := v.(current := position);
      if title.Err? then Err(title.error)
      else if ShouldFetch(v, position) then
        Ok(Selected(selected.(searches := FetchMoreImages(v.searches, v.searches.shown.value), barShowing := true), title.value))
      else Ok(Selected(selected, title.value))
  }

  /**
   * A rotation after a swipe brings back the page swiped to: the state saved is the pager's
   * current item, which selecting the page set.
   */
  lemma SelectedPageSurvivesRotation(v: Viewer, position: int, format: Image -> seq<CodeUnit>, maxLength: int,
                                     intent: Bundle, hideBar: bool)
    requires OnPageSelected(v, position, format, maxLength).Ok?
    ensures var w := OnPageSelected(v, position, format, maxLength).value.viewer;
            var r := Restore(Some(Save(w)), intent, hideBar);
            r.Ok? && r.value.current == position && PagerItem(r.value, position) == PagerItem(v, position)
  {
  }

  /** onFailure: the pending callback is cleared; the result is untouched. */
  function OnFailure(v: Viewer): (r: Viewer)
    ensures r.searches.pending.None?
    ensures r.searches.shown == v.searches.shown && r.searches.requests == v.searches.requests && r.current == v.current
  {
    v.(searches := v.searches.(pending := None))
  }

  /**
   * onSuccess (third generation): the pending callback is cleared; a page without images ends the
   * paging, any other is filtered by rating and appended with its offset.
   */
  function OnSuccess(v: Viewer, page: SearchResult, keep: Image -> bool): (r: Viewer)
    requires v.searches.shown.Some?
    ensures r.searches.pending.None? && r.searches.shown.Some?
    ensures page.images == [] ==> r.searches.shown.value.images == v.searches.shown.value.images && !r.searches.shown.value.hasNextPage
    ensures page.images != [] ==> r.searches.shown.value.images == v.searches.shown.value.images + Keep(page.images, keep)
                                  && r.searches.shown.value.offset == page.offset
    ensures r.searches.requests == v.searches.requests && r.current == v.current && r.barShowing == v.barShowing
  {
    var filtered := page.(images := Keep(page.images, keep));
    var shown := Extend(v.searches.shown.value, |page.images|, filtered);
    v.(searches := v.searches.(pending := None, shown := Some(shown)))
  }

  /**
   * onSuccess (second generation): the page is appended as it came. The viewer's result was read
   * from a parcel (the intent's or the saved state's), whose list is growable, so the append
   * succeeds here where it throws in the search activity.
   */
  function OnSuccessUnfiltered(v: Viewer, page: SearchResult): (r: Viewer)
    requires v.searches.shown.Some?
    ensures r.searches.pending.None? && r.searches.shown.Some?
    ensures page.images == [] ==> r.searches.shown.value.images == v.searches.shown.value.images && !r.searches.shown.value.hasNextPage
    ensures page.images != [] ==> r.searches.shown.value.images == v.searches.shown.value.images + page.images
  {
    v.(searches := v.searches.(pending := None, shown := Some(Extend(v.searches.shown.value, |page.images|, page))))
  }

  /** On the viewer's growable list the source's append succeeds and gives what the model appends. */
  lemma ParcelledResultAppends(v: Viewer, page: SearchResult)
    requires v.searches.shown.Some?
    ensures ExtendAsWritten(v.searches.shown.value, Growable, |page.images|, page) == Ok(OnSuccessUnfiltered(v, page).searches.shown.value)
  {
  }

  /** With a filter that keeps every image, the third generation appends exactly what the second does. */
  lemma KeepingAllIsUnfiltered(v: Viewer, page: SearchResult, keep: Image -> bool)
    requires v.searches.shown.Some?
    requires forall x :: keep(x)
    ensures OnSuccess(v, page, keep) == OnSuccessUnfiltered(v, page)
  {
    KeepAll(page.images, keep);
  }

  /** While a page is being fetched, selecting any page asks for nothing more. */
  lemma OneFetchAtATime(v: Viewer, position: int, format: Image -> seq<CodeUnit>, maxLength: int)
    requires v.searches.pending.Some?
    ensures var r := OnPageSelected(v, position, format, maxLength);
            r.Ok? ==> r.value.viewer == v.(current := position)
  {
  }

  /**
   * After a page came back empty no selection fetches again, and after a page came back at all
   * the next selection near the end may fetch again.
   */
  lemma EmptyPageStopsFetching(v: Viewer, page: SearchResult, keep: Image -> bool, position: int,
                               format: Image -> seq<CodeUnit>, maxLength: int)
    requires v.searches.shown.Some? && page.images == []
    ensures var w := OnSuccess(v, page, keep);
            var r := OnPageSelected(w, position, format, maxLength);
            r.Ok? ==> r.value.viewer == w.(current := position)
  {
  }

  /**
   * A fetch started by a selection and answered by a non-empty page keeps every image already
   * shown at its position, so the selected image stays where it was.
   */
  lemma FetchKeepsSelectedImage(v: Viewer, position: int, format: Image -> seq<CodeUnit>, maxLength: int,
                                page: SearchResult, keep: Image -> bool)
    requires var r := OnPageSelected(v, position, format, maxLength); r.Ok?
    ensures var w := OnPageSelected(v, position, format, maxLength).value.viewer;
            PagerItem(OnSuccess(w, page, keep), position) == PagerItem(v, position)
  {
    var w := OnPageSelected(v, position, format, maxLength).value.viewer;
    var s := OnSuccess(w, page, keep);
    assert s.searches.shown.value.images[..|v.searches.shown.value.images|] == v.searches.shown.value.images;
  }

  /** onSingleTapConfirmed (third generation): the action bar is toggled. */
  function OnSingleTap(v: Viewer): (r: Viewer)
    ensures r.barShowing != v.barShowing
    ensures r.searches == v.searches && r.current == v.current
  {
    v.(barShowing := !v.barShowing)
  }
}
