/**
 * SearchResultGridFragment (second and third generation, alike in everything modelled here except
 * what a click reports): the thumbnail grid of a search result, which asks its activity for more
 * images as the user nears the end.
 */
module SearchResultGrid {
  import opened Wrappers
  import opened SearchResults
  import opened SearchCallbacks
  import opened JavaInts

  /** The fragment: the result shown (null for none) and whether an activity is attached as listener. */
  datatype Grid = Grid(result: Option<SearchResult>, attached: bool)

  /** Items hidden below the last visible one at which more images are fetched, counted from the first visible one. */
  const ScrollMargin: int := 10

  /** getCount: no images without a result. */
  function Count(g: Grid): (n: nat)
    ensures g.result.None? ==> n == 0
    ensures g.result.Some? ==> n == |g.result.value.images|
  {
    if g.result.None? then 0 else |g.result.value.images|
  }

  /** getItem: the image at that position; with no result, or past the images, it throws. */
  function GetItem(g: Grid, position: int): (r: Result<Image>)
    ensures r.Ok? <==> 0 <= position < Count(g)
    ensures g.result.None? ==> r == Err(NullPointer)
    ensures r.Ok? ==> r.value == g.result.value.images[position]
  {
    if g.result.None? then Err(NullPointer)
    else if 0 <= position < |g.result.value.images| then Ok(g.result.value.images[position])
    else Err(IndexOutOfBounds)
  }

  /** getItemId: the id of the image at that position. */
  function GetItemId(g: Grid, position: int): (r: Result<int>)
    ensures r.Ok? <==> 0 <= position < Count(g)
    ensures r.Ok? ==> r.value == g.result.value.images[position].id
  {
    var item := GetItem(g, position);
    if item.Err? then Err(item.error) else Ok(item.value.id)
  }

  /** setSearchResult: null hides the result, anything else replaces it. */
  function SetSearchResult(g: Grid, result: Option<SearchResult>): (r: Grid)
    ensures r.result == result && r.attached == g.attached
    ensures result.None? ==> Count(r) == 0
  {
    g.(result := result)
  }

  /**
   * onScroll: the result is handed to the activity for more images exactly when at most ten
   * items past the first visible one are hidden below, a result is shown and may have another
   * page, and an activity is attached.
   */
  function OnScroll(g: Grid, first: int, visible: int, total: int): (asked: Option<SearchResult>)
    ensures asked.Some? <==> total - visible <= first + ScrollMargin && g.result.Some?
                             && g.result.value.hasNextPage && g.attached
    ensures asked.Some? ==> asked == g.result
  {
    if total - visible <= first + ScrollMargin && g.result.Some? && g.result.value.hasNextPage && g.attached
    then g.result else None
  }

  /** onItemClick (third generation): the image and its position go to the attached activity. */
  function OnItemClick(g: Grid, position: int): (r: Result<Option<(Image, int)>>)
    ensures !g.attached ==> r == Ok(None)
    ensures g.attached ==> (r.Ok? <==> 0 <= position < Count(g))
    ensures g.attached && r.Ok? ==> r.value == Some((g.result.value.images[position], position))
  {
    if !g.attached then Ok(None)
    else
      var item := GetItem(g, position);
      if item.Err? then Err(item.error) else Ok(Some((item.value, position)))
  }

  /** onItemClick (second generation): only the image goes to the attached activity. */
  function OnItemClickImageOnly(g: Grid, position: int): (r: Result<Option<Image>>)
    ensures !g.attached ==> r == Ok(None)
    ensures g.attached ==> (r.Ok? <==> 0 <= position < Count(g))
    ensures g.attached && r.Ok? ==> r.value == Some(g.result.value.images[position])
  {
    if !g.attached then Ok(None)
    else
      var item := GetItem(g, position);
      if item.Err? then Err(item.error) else Ok(Some(item.value))
  }

  /** The preview sizes the thumbnail preference names. */
  datatype PreviewSize = Small | Medium | Large

  /** getGridViewColumnWidth: "small", "medium" and "large" name their size; any other value means medium. */
  function ColumnWidth(preference: string): (size: PreviewSize)
    ensures size == Small <==> preference == "small"
    ensures size == Large <==> preference == "large"
    ensures size == Medium <==> preference != "small" && preference != "large"
  {
    if preference == "small" then Small
    else if preference == "large" then Large
    else Medium
  }

  /**
   * Scrolling near the end of the shown result, with nothing pending, makes the activity ask
   * for the page after the result's offset, of the result's own tags.
   */
  lemma ScrollAsksForNextPage(g: Grid, s: Searches, first: int, visible: int, total: int)
    requires g.result.Some? && g.result.value.hasNextPage && g.attached
    requires total - visible <= first + ScrollMargin && s.pending.None?
    ensures var r := FetchMoreImages(s, OnScroll(g, first, visible, total).value);
            r.requests == s.requests + [Request(OfTags(g.result.value.query), Some(g.result.value.offset as int + 1), |s.callbacks|)]
  {
  }

  /** A result on its last page never asks for more, however far the grid scrolls. */
  lemma LastPageNeverAsks(g: Grid, first: int, visible: int, total: int)
    requires g.result.Some? && !g.result.value.hasNextPage
    ensures OnScroll(g, first, visible, total).None?
  {
  }
}
