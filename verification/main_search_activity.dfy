/**
 * SearchActivity (second generation): searches Gelbooru and shows the results in the grid; a
 * new search cancels the one still running.
 */
module MainSearchActivity {
  import opened Wrappers
  import opened SearchResults
  import opened SearchCallbacks
  import BaseApiClient

  /** doSearch: the pending callback is cancelled and dropped, the grid cleared, and one new callback sent. */
  function DoSearch(s: Searches, query: string): (r: Searches)
    requires Valid(s)
    ensures Valid(r)
    ensures |r.callbacks| == |s.callbacks| + 1
    ensures s.pending.Some? ==> r.callbacks[s.pending.value].cancelled
    ensures forall i :: 0 <= i < |s.callbacks| && Some(i) != s.pending ==> r.callbacks[i] == s.callbacks[i]
    ensures r.callbacks[|s.callbacks|] == Callback(None, false) && r.pending == Some(|s.callbacks|)
    ensures r.requests == s.requests + [Request(Typed(query), None, |s.callbacks|)]
    ensures r.shown.None?
  {
    var cleared := if s.pending.Some? then Cancel(s, s.pending.value).(pending := None) else s;
    Issue(cleared.(shown := None), Typed(query), None, None)
  }

  /** onCreate: the default query is searched on a first launch only, not when state was saved. */
  function OnCreate(hasSavedState: bool): (r: Searches)
    ensures hasSavedState ==> r == Idle
    ensures !hasSavedState ==> r.requests == [Request(Typed(BaseApiClient.DefaultQuery()), None, 0)] && r.pending == Some(0)
  {
    if hasSavedState then Idle else DoSearch(Idle, BaseApiClient.DefaultQuery())
  }

  /**
   * onSuccess as written: a cancelled callback does nothing. Otherwise the pending callback is
   * cleared; a new search is shown as it came, even when empty; an extending callback ends its
   * result's paging on an empty page, or else appends the page through addImages, which throws
   * UnsupportedOperationException when the result's list is the fixed-size one the client's array
   * constructor made. `backing` says which list the extended result holds: FixedSize for a result
   * straight from the client, Growable for one read back from a parcel.
   */
  function OnSuccess(s: Searches, id: nat, page: SearchResult, backing: Backing): (r: Result<Searches>)
    requires id < |s.callbacks|
    ensures r.Err? <==> !s.callbacks[id].cancelled && s.callbacks[id].extending.Some? && page.images != [] && backing == FixedSize
    ensures r.Err? ==> r.error == UnsupportedOperation
    ensures r.Ok? ==> r.value == OnSuccessCorrected(s, id, page)
  {
    var cb := s.callbacks[id];
    if cb.cancelled then Ok(s)
    else if cb.extending.None? then Ok(s.(pending := None, shown := Some(page)))
    else
      match ExtendAsWritten(cb.extending.value, backing, |page.images|, page)
      case Err(e) => Err(e)
      case Ok(shown) => Ok(s.(pending := None, shown := Some(shown)))
  }

  /**
   * onSuccess with the append corrected to a growable list: a cancelled callback does nothing.
   * Otherwise the pending callback is cleared; an extending callback ends its result's paging on
   * an empty page or appends the page; a new search is shown as it came, even when empty.
   */
  function OnSuccessCorrected(s: Searches, id: nat, page: SearchResult): (r: Searches)
    requires id < |s.callbacks|
    ensures s.callbacks[id].cancelled ==> r == s
    ensures !s.callbacks[id].cancelled ==>
              r.pending.None? && r.callbacks == s.callbacks && r.requests == s.requests
              && r.shown == Some(if s.callbacks[id].extending.Some?
                                 then Extend(s.callbacks[id].extending.value, |page.images|, page) else page)
  {
    var cb := s.callbacks[id];
    if cb.cancelled then s
    else
      var shown := if cb.extending.Some? then Extend(cb.extending.value, |page.images|, page) else page;
      s.(pending := None, shown := Some(shown))
  }

  /** On a result read back from a parcel, the source's onSuccess is the corrected one. */
  lemma GrowableResultExtends(s: Searches, id: nat, page: SearchResult)
    requires id < |s.callbacks|
    ensures OnSuccess(s, id, page, Growable) == Ok(OnSuccessCorrected(s, id, page))
  {
  }

  /**
   * The first page a client returns is shown; scrolling to its end asks for the next page, and a
   * non-empty answer then throws, because the shown result is still on the client's fixed-size list.
   */
  lemma SecondPageThrows(s: Searches, query: string, first: SearchResult, second: SearchResult)
    requires Valid(s) && second.images != []
    ensures var searching := DoSearch(s, query);
            var shown := OnSuccess(searching, |s.callbacks|, first, FixedSize);
            && shown == Ok(OnSuccessCorrected(searching, |s.callbacks|, first))
            && var scrolled := FetchMoreImages(shown.value, first);
            && scrolled.pending == Some(|s.callbacks| + 1)
            && OnSuccess(scrolled, |s.callbacks| + 1, second, FixedSize) == Err(UnsupportedOperation)
  {
  }

  /** After a new search, the answer to the search it replaced, success or failure, changes nothing. */
  lemma ReplacedSearchIsIgnored(s: Searches, query: string, page: SearchResult, backing: Backing)
    requires Valid(s) && s.pending.Some?
    ensures var r := DoSearch(s, query);
            OnSuccess(r, s.pending.value, page, backing) == Ok(r) && OnFailure(r, s.pending.value) == r
  {
  }

  /** A first page is shown even when empty, and then still offers a next page if it did. */
  lemma FirstPageNeverEndsPaging(s: Searches, query: string, page: SearchResult, backing: Backing)
    requires Valid(s)
    ensures var r := DoSearch(s, query);
            var w := OnSuccess(r, |s.callbacks|, page, backing);
            w.Ok? && w.value.shown == Some(page)
  {
  }

  /** Scrolling while a search is running asks for nothing, whatever the result shown. */
  lemma NoFetchWhileSearching(s: Searches, query: string, result: SearchResult)
    requires Valid(s)
    ensures var r := DoSearch(s, query);
            FetchMoreImages(r, result) == r
  {
  }
}
