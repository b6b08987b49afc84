/**
 * SearchActivity (first generation): searches the service picked in the action bar through the
 * Volley request queue and pages through the results as the grid scrolls. The result members the
 * activity reads (query, pageNumber, hasMore) and the ones it calls (filter, extend) are not in
 * the first generation's SearchResult class; they are modelled as the fields of Shown and as
 * function parameters.
 */
module PeSearchActivity {
  import opened Wrappers
  import opened PeImages
  import opened ServiceSettingsProvider
  import ServiceDropdownAdapter

  /** What the activity reads of the result it shows. */
  datatype Shown = Shown(query: string, pageNumber: int, hasMore: bool, images: seq<PeImage>)

  /** A Volley request: its query and page, whether it was added to the queue, whether it was cancelled. */
  datatype PeRequest = PeRequest(query: string, page: Option<int>, queued: bool, cancelled: bool)

  /**
   * The activity: the API client (null when the settings name no known API), every request
   * object made, the one remembered as pending, the result shown, and the dropdown item id
   * remembered in the preferences.
   */
  datatype Activity = Activity(client: Option<Client>, requests: seq<PeRequest>, pending: Option<nat>,
                               result: Option<Shown>, lastItemId: int)

  predicate Valid(a: Activity) {
    a.pending.Some? ==> a.pending.value < |a.requests|
  }

  /** The distance from the end of the grid at which scrolling fetches the next page. */
  const ScrollMargin: int := 10

  /** The grid adapter's count: none without a result. */
  function Count(a: Activity): (n: nat)
    ensures a.result.None? ==> n == 0
    ensures a.result.Some? ==> n == |a.result.value.images|
  {
    if a.result.None? then 0 else |a.result.value.images|
  }

  /** Request.cancel() on the pending request, if there is one. */
  function CancelPending(a: Activity): (r: Activity)
    requires Valid(a)
    ensures |r.requests| == |a.requests| && Valid(r)
    ensures a.pending.Some? ==> r.requests[a.pending.value].cancelled
    ensures forall i :: 0 <= i < |a.requests| && Some(i) != a.pending ==> r.requests[i] == a.requests[i]
    ensures forall i :: 0 <= i < |a.requests| ==> r.requests[i].queued == a.requests[i].queued
    ensures r.pending == a.pending && r.client == a.client && r.result == a.result && r.lastItemId == a.lastItemId
  {
    if a.pending.None? then a
    else
      var p := a.pending.value;
      a.(requests := a.requests[p := a.requests[p].(cancelled := true)])
  }

  /**
   * doSearch as written: without a client nothing happens; otherwise the pending request is
   * cancelled and the result cleared, and then one request object is remembered as pending while
   * a second, separately built one is added to the queue.
   */
  function DoSearchAsWritten(a: Activity, query: string): (r: Activity)
    requires Valid(a)
    ensures a.client.None? ==> r == a
    ensures a.client.Some? ==>
              var n := |a.requests|;
              Valid(r) && |r.requests| == n + 2 && r.result.None? && r.pending == Some(n)
              && r.requests[n] == PeRequest(query, None, false, false)
              && r.requests[n + 1] == PeRequest(query, None, true, false)
              && r.requests[..n] == CancelPending(a).requests
  {
    if a.client.None? then a
    else
      var c := CancelPending(a);
      var n := |a.requests|;
      c.(requests := c.requests + [PeRequest(query, None, false, false), PeRequest(query, None, true, false)],
         pending := Some(n), result := None)
  }

  /** doSearch as intended: the request remembered as pending is the one queued. */
  function DoSearch(a: Activity, query: string): (r: Activity)
    requires Valid(a)
    ensures a.client.None? ==> r == a
    ensures a.client.Some? ==>
              var n := |a.requests|;
              Valid(r) && |r.requests| == n + 1 && r.result.None? && r.pending == Some(n)
              && r.requests[n] == PeRequest(query, None, true, false)
              && r.requests[..n] == CancelPending(a).requests
  {
    if a.client.None? then a
    else
      var c := CancelPending(a);
      c.(requests := c.requests + [PeRequest(query, None, true, false)], pending := Some(|a.requests|), result := None)
  }

  /**
   * onScroll: near the end of the grid (at most ten items past the first visible one are
   * hidden below) and with no request pending, the next page of the shown query is queued,
   * provided there is a client and a result with more pages.
   */
  function OnScroll(a: Activity, first: int, visible: int, total: int): (r: Activity)
    requires Valid(a)
    ensures Valid(r)
    ensures r != a <==> a.pending.None? && total - visible <= first + ScrollMargin
                        && a.client.Some? && a.result.Some? && a.result.value.hasMore
    ensures r != a ==>
              var n := |a.requests|;
              r.requests == a.requests + [PeRequest(a.result.value.query, Some(a.result.value.pageNumber + 1), true, false)]
              && r.pending == Some(n) && r.result == a.result
  {
    if a.pending.None? && total - visible <= first + ScrollMargin
       && a.client.Some? && a.result.Some? && a.result.value.hasMore then
      var s := a.result.value;
      a.(requests := a.requests + [PeRequest(s.query, Some(s.pageNumber + 1), true, false)], pending := Some(|a.requests|))
    else a
  }

  /**
   * Volley delivering a response: only a queued request that was not cancelled answers. The
   * listener clears the pending request; with no result shown the response is filtered and
   * becomes the result, otherwise the shown result is extended by it. A parser may deliver null
   * (the Danbooru client does for an empty body): filtering it throws, and what extend makes of
   * it is extend's own outcome.
   */
  function Deliver(a: Activity, id: nat, response: Option<Shown>, filter: Shown -> Shown,
                   extend: (Shown, Option<Shown>) -> Result<Shown>): (r: Result<Activity>)
    requires id < |a.requests|
    ensures !a.requests[id].queued || a.requests[id].cancelled ==> r == Ok(a)
    ensures a.requests[id].queued && !a.requests[id].cancelled && a.result.None? ==>
              (r.Err? <==> response.None?) && (r.Err? ==> r.error == NullPointer)
    ensures a.requests[id].queued && !a.requests[id].cancelled && a.result.Some? ==>
              (r.Err? <==> extend(a.result.value, response).Err?)
    ensures a.requests[id].queued && !a.requests[id].cancelled && r.Ok? ==>
              r.value.pending.None? && r.value.requests == a.requests && r.value.client == a.client
              && r.value.lastItemId == a.lastItemId
              && r.value.result == Some(if a.result.None? then filter(response.value) else extend(a.result.value, response).value)
  {
    var q := a.requests[id];
    if !q.queued || q.cancelled then Ok(a)
    else if a.result.None? then
      if response.None? then Err(NullPointer)
      else Ok(a.(pending := None, result := Some(filter(response.value))))
    else
      match extend(a.result.value, response)
      case Err(e) => Err(e)
      case Ok(extended) => Ok(a.(pending := None, result := Some(extended)))
  }

  /** A null response to a new search, the Danbooru client's answer to an empty body, throws. */
  lemma NullResponseToNewSearchThrows(a: Activity, query: string, filter: Shown -> Shown,
                                      extend: (Shown, Option<Shown>) -> Result<Shown>)
    requires Valid(a) && a.client.Some?
    ensures var b := DoSearch(a, query);
            Deliver(b, |a.requests|, None, filter, extend) == Err(NullPointer)
  {
  }

  /**
   * The error listener only reports the failure: the pending request stays set, so scrolling
   * fetches nothing more until the next search.
   */
  function OnErrorResponse(a: Activity, id: nat): (r: Activity)
    requires id < |a.requests|
    ensures r.pending == a.pending && r.result == a.result && r.requests == a.requests
  {
    a
  }

  lemma ErrorStopsPaging(a: Activity, id: nat, first: int, visible: int, total: int)
    requires Valid(a) && a.pending.Some? && id < |a.requests|
    ensures OnScroll(OnErrorResponse(a, id), first, visible, total) == a
  {
  }

  /**
   * As written: a second search cancels only the unqueued twin of the first search's request;
   * the first search's queued request still answers, and its result is shown for the second search.
   */
  lemma StaleResponseShownAsWritten(a: Activity, q1: string, q2: string, response: Shown,
                                    filter: Shown -> Shown, extend: (Shown, Option<Shown>) -> Result<Shown>)
    requires Valid(a) && a.client.Some?
    ensures var b := DoSearchAsWritten(DoSearchAsWritten(a, q1), q2);
            var firstQueued := |a.requests| + 1;
            b.requests[firstQueued].query == q1 && b.pending == Some(|a.requests| + 2)
            && Deliver(b, firstQueued, Some(response), filter, extend).Ok?
            && Deliver(b, firstQueued, Some(response), filter, extend).value.result == Some(filter(response))
            && Deliver(b, firstQueued, Some(response), filter, extend).value.pending.None?
  {
    var b1 := DoSearchAsWritten(a, q1);
    var b := DoSearchAsWritten(b1, q2);
    var n := |a.requests|;
    assert b.requests[..n + 2] == CancelPending(b1).requests;
    assert b.requests[n + 1] == CancelPending(b1).requests[n + 1] == b1.requests[n + 1];
  }

  /** Corrected: once a second search starts, the first search's request never answers. */
  lemma SupersededSearchIgnored(a: Activity, q1: string, q2: string, response: Option<Shown>,
                                filter: Shown -> Shown, extend: (Shown, Option<Shown>) -> Result<Shown>)
    requires Valid(a) && a.client.Some?
    ensures var b := DoSearch(DoSearch(a, q1), q2);
            Deliver(b, |a.requests|, response, filter, extend) == Ok(b)
  {
    var b1 := DoSearch(a, q1);
    var b := DoSearch(b1, q2);
    var n := |a.requests|;
    assert b.requests[..n + 1] == CancelPending(b1).requests;
    assert b.requests[n] == CancelPending(b1).requests[n];
  }

  // ---------------------------------------------------------------------------------------------
  // The service dropdown

  /**
   * onNavigationItemSelected: the client is made from the settings at that position (null for
   * an unknown API); the default query is searched when there is a client and either nothing is
   * shown or the item differs from the remembered one; the item id is remembered either way.
   */
  function OnNavigationItemSelected(a: Activity, items: seq<ServiceSettings>, position: int, itemId: int,
                                    defaultQuery: string): (r: Result<Activity>)
    requires Valid(a)
    ensures r.Ok? <==> 0 <= position < |items|
    ensures r.Ok? ==> r.value.lastItemId == itemId && r.value.client == CreateClient(Some(items[position])) && Valid(r.value)
    ensures r.Ok? ==>
              var searched := r.value.client.Some? && (a.result.None? || itemId != a.lastItemId);
              (searched ==> r.value.result.None? && r.value.pending == Some(|a.requests|)
                            && |r.value.requests| == |a.requests| + 2 && r.value.requests[|a.requests| + 1].query == defaultQuery)
              && (!searched ==> r.value.requests == a.requests && r.value.result == a.result)
  {
    if !(0 <= position < |items|) then Err(IndexOutOfBounds)
    else
      var b := a.(client := CreateClient(Some(items[position])));
      var c := if b.client.Some? && (a.result.None? || itemId != a.lastItemId) then DoSearchAsWritten(b, defaultQuery) else b;
      Ok(c.(lastItemId := itemId))
  }

  /**
   * onLoadFinished: the dropdown selects the position of the remembered item id, unless the list
   * is empty; with no matching id, the first item.
   */
  method OnLoadFinished(items: seq<ServiceSettings>, remembered: int) returns (selected: Option<int>)
    ensures selected.None? <==> items == []
    ensures selected.Some? ==> 0 <= selected.value < |items|
    ensures selected.Some? && (exists i :: 0 <= i < |items| && items[i].id == remembered) ==>
              items[selected.value].id == remembered
  {
    var p := ServiceDropdownAdapter.GetPositionByItemId(items, remembered);
    selected := if p != -1 then Some(p) else None;
  }
}
