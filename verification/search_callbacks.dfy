/**
 * The search bookkeeping shared by the second- and third-generation search activity and image
 * viewer: every search hands the client a fresh callback object; the activity remembers the one
 * it is waiting for, and a cancelled callback ignores whatever it is told.
 */
module SearchCallbacks {
  import opened Wrappers
  import opened Tags
  import opened SearchResults
  import opened JavaInts

  /** What is searched for: typed text, or the tags of the result being extended. */
  datatype Query = Typed(text: string) | OfTags(tags: seq<Tag>)

  /** One call to the client's search: the query, the page (none for the first page) and the callback. */
  datatype Request = Request(query: Query, page: Option<int>, callback: nat)

  /** A callback object: the result it extends (null for a new search) and its cancelled flag. */
  datatype Callback = Callback(extending: Option<SearchResult>, cancelled: bool)

  /**
   * The callbacks ever created, by creation order; the one the activity waits for (searchCallback,
   * null when none); the requests sent to the client; and the result the grid shows.
   */
  datatype Searches = Searches(callbacks: seq<Callback>, pending: Option<nat>, requests: seq<Request>, shown: Option<SearchResult>)

  const Idle: Searches := Searches([], None, [], None)

  /** Every callback the activity refers to exists. */
  predicate Valid(s: Searches) {
    (s.pending.Some? ==> s.pending.value < |s.callbacks|)
    && forall i :: 0 <= i < |s.requests| ==> s.requests[i].callback < |s.callbacks|
  }

  /** A new callback becomes the pending one, and the client is asked with it. */
  function Issue(s: Searches, query: Query, page: Option<int>, extending: Option<SearchResult>): (r: Searches)
    ensures |r.callbacks| == |s.callbacks| + 1 && r.callbacks[..|s.callbacks|] == s.callbacks
    ensures r.callbacks[|s.callbacks|] == Callback(extending, false)
    ensures r.pending == Some(|s.callbacks|)
    ensures r.requests == s.requests + [Request(query, page, |s.callbacks|)]
    ensures r.shown == s.shown
    ensures Valid(s) ==> Valid(r)
  {
    var id := |s.callbacks|;
    Searches(s.callbacks + [Callback(extending, false)], Some(id), s.requests + [Request(query, page, id)], s.shown)
  }

  /** cancel() on one callback: only its flag changes. */
  function Cancel(s: Searches, id: nat): (r: Searches)
    requires id < |s.callbacks|
    ensures |r.callbacks| == |s.callbacks| && r.callbacks[id].cancelled
    ensures forall i :: 0 <= i < |s.callbacks| && i != id ==> r.callbacks[i] == s.callbacks[i]
    ensures r.callbacks[id].extending == s.callbacks[id].extending
    ensures r.pending == s.pending && r.requests == s.requests && r.shown == s.shown
  {
    s.(callbacks := s.callbacks[id := s.callbacks[id].(cancelled := true)])
  }

  /**
   * fetchMoreImages: ignored while a callback is pending; otherwise the next page of the same
   * query, one past the result's current offset, with a callback that extends that result.
   * getCurrentOffset() returns a long, so the page is the offset plus one without int wrap-around.
   */
  function FetchMoreImages(s: Searches, result: SearchResult): (r: Searches)
    ensures s.pending.Some? ==> r == s
    ensures s.pending.None? ==>
              r.pending == Some(|s.callbacks|) && |r.callbacks| == |s.callbacks| + 1
              && r.callbacks[..|s.callbacks|] == s.callbacks && r.callbacks[|s.callbacks|] == Callback(Some(result), false)
              && r.requests == s.requests + [Request(OfTags(result.query), Some(result.offset as int + 1), |s.callbacks|)]
    ensures Valid(s) ==> Valid(r)
  {
    if s.pending.Some? then s
    else Issue(s, OfTags(result.query), Some(result.offset as int + 1), Some(result))
  }

  /**
   * The page asked for is always the one after the result's offset: the sum is taken in long
   * arithmetic, so even the largest int offset asks for a page above the int range.
   */
  lemma NextPageNumber(s: Searches, result: SearchResult)
    requires s.pending.None?
    ensures var page := FetchMoreImages(s, result).requests[|s.requests|].page.value;
            page == result.offset + 1 && page > result.offset
            && (result.offset == 0x7FFF_FFFF ==> page == 0x8000_0000)
  {
  }

  /** onFailure: a cancelled callback does nothing; any other clears the pending callback. */
  function OnFailure(s: Searches, id: nat): (r: Searches)
    requires id < |s.callbacks|
    ensures s.callbacks[id].cancelled ==> r == s
    ensures !s.callbacks[id].cancelled ==> r == s.(pending := None)
  {
    if s.callbacks[id].cancelled then s else s.(pending := None)
  }

  /**
   * Extending a shown result with a page: a page that came back with no images ends the paging,
   * any other page is appended with its offset. The page's own size before any filtering decides.
   */
  function Extend(shown: SearchResult, rawCount: nat, page: SearchResult): (r: SearchResult)
    ensures rawCount == 0 ==> r.images == shown.images && !r.hasNextPage
    ensures rawCount != 0 ==> r.images == shown.images + page.images && r.offset == page.offset
                              && r.hasNextPage == shown.hasNextPage
    ensures r.query == shown.query && r.count == shown.count
  {
    if rawCount == 0 then OnLastPage(shown) else AddImages(shown, page.images, page.offset)
  }

  /** Once paging has ended, extending never brings it back. */
  lemma ExtendKeepsLastPage(shown: SearchResult, rawCount: nat, page: SearchResult)
    requires !shown.hasNextPage
    ensures !Extend(shown, rawCount, page).hasNextPage
  {
  }

  /**
   * Extending as the second-generation activity writes it: the empty-page branch is the same,
   * but the append goes through the result's own list, which refuses it when it is the
   * fixed-size list the array constructor made.
   */
  function ExtendAsWritten(shown: SearchResult, backing: Backing, rawCount: nat, page: SearchResult): (r: Result<SearchResult>)
    ensures r.Err? <==> rawCount != 0 && backing == FixedSize && page.images != []
    ensures r.Err? ==> r.error == UnsupportedOperation
    ensures r.Ok? ==> r.value == Extend(shown, rawCount, page)
  {
    if rawCount == 0 then Ok(OnLastPage(shown))
    else AddImagesAsWritten(shown, backing, page.images, page.offset)
  }

  /**
   * A sequence of pages only ever adds images at the end. As written, the extensions succeed on a
   * growable list and give what the corrected extension gives; on the constructor's fixed-size
   * list they succeed only while every page comes back empty.
   */
  lemma {:induction false} ExtendOnlyAppends(shown: SearchResult, backing: Backing, pages: seq<SearchResult>)
    ensures var r := ExtendAll(shown, pages);
            |shown.images| <= |r.images| && r.images[..|shown.images|] == shown.images
    ensures var w := ExtendAllAsWritten(shown, backing, pages);
            w.Ok? ==> w.value == ExtendAll(shown, pages)
    ensures backing == Growable ==> ExtendAllAsWritten(shown, backing, pages).Ok?
    ensures backing == FixedSize ==>
              (ExtendAllAsWritten(shown, backing, pages).Ok? <==> forall i :: 0 <= i < |pages| ==> pages[i].images == [])
    decreases |pages|
  {
    if pages != [] {
      var next := Extend(shown, |pages[0].images|, pages[0]);
      ExtendOnlyAppends(next, backing, pages[1..]);
      var r := ExtendAll(next, pages[1..]);
      assert r.images[..|shown.images|] == r.images[..|next.images|][..|shown.images|];
      if backing == FixedSize {
        assert (forall i :: 0 <= i < |pages| ==> pages[i].images == [])
               <==> pages[0].images == [] && forall i :: 0 <= i < |pages[1..]| ==> pages[1..][i].images == [];
      }
    }
  }

  /** Extending by each page in turn. */
  function ExtendAll(shown: SearchResult, pages: seq<SearchResult>): SearchResult
    decreases |pages|
  {
    if pages == [] then shown else ExtendAll(Extend(shown, |pages[0].images|, pages[0]), pages[1..])
  }

  /** The same, as written: the first refused append ends it with the exception. */
  function ExtendAllAsWritten(shown: SearchResult, backing: Backing, pages: seq<SearchResult>): Result<SearchResult>
    decreases |pages|
  {
    if pages == [] then Ok(shown)
    else
      match ExtendAsWritten(shown, backing, |pages[0].images|, pages[0])
      case Err(e) => Err(e)
      case Ok(next) => ExtendAllAsWritten(next, backing, pages[1..])
  }
}
