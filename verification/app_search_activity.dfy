/**
 * SearchActivity (third generation): searches through the client made from the service picked in
 * the action bar, and shows the results in the grid, filtering out the ratings and tags the
 * user chose to hide. The client library's SearchResult is modelled by the second generation's.
 */
module AppSearchActivity {
  import opened Wrappers
  import opened SearchResults
  import opened SearchCallbacks

  /** What the activity reads from a SearchClient.Settings: the default query of its client. */
  datatype Service = Service(defaultQuery: string)

  /** The activity: the service picked, the client searching (null until made), and its searches. */
  datatype Activity = Activity(selected: Option<Service>, client: Option<Service>, searches: Searches)

  /** doSearch: a new callback replaces the pending one, which is NOT cancelled; nothing is cleared. */
  function DoSearch(a: Activity, query: string): (r: Result<Activity>)
    ensures r.Err? <==> a.client.None?
    ensures r.Ok? ==> r.value.searches == Issue(a.searches, Typed(query), None, None)
    ensures r.Ok? ==> r.value.selected == a.selected && r.value.client == a.client
  {
    if a.client.None? then Err(NullPointer)
    else Ok(a.(searches := Issue(a.searches, Typed(query), None, None)))
  }

  /**
   * onSearchAPISelected: a null service (an empty database) does nothing; otherwise it is
   * remembered, and only when no client exists and nothing is shown is a client made and its
   * default query searched.
   */
  function OnSearchApiSelected(a: Activity, settings: Option<Service>): (r: Activity)
    ensures settings.None? ==> r == a
    ensures settings.Some? ==> r.selected == settings
    ensures settings.Some? && a.client.None? && a.searches.shown.None? ==>
              r.client == settings
              && r.searches == Issue(a.searches, Typed(settings.value.defaultQuery), None, None)
    ensures settings.Some? && !(a.client.None? && a.searches.shown.None?) ==>
              r.client == a.client && r.searches == a.searches
  {
    if settings.None? then a
    else if a.client.None? && a.searches.shown.None? then
      Activity(settings, settings, Issue(a.searches, Typed(settings.value.defaultQuery), None, None))
    else a.(selected := settings)
  }

  /** Intent.ACTION_SEARCH. */
  const ActionSearch: string := "android.intent.action.SEARCH"

  /** The intent that started the activity: its action, and the client settings and query it carries. */
  datatype Launch = Launch(action: Option<string>, settings: Option<Service>, query: string)

  /**
   * onCreate: a search intent, while nothing is shown, makes the client from the settings it
   * carries and searches its query. An intent without an action throws, and so does a search
   * intent without settings.
   */
  function OnCreate(a: Activity, intent: Option<Launch>): (r: Result<Activity>)
    ensures r.Err? <==> intent.Some? && (intent.value.action.None?
                                         || (intent.value.action == Some(ActionSearch) && a.searches.shown.None?
                                             && intent.value.settings.None?))
    ensures r.Ok? && intent.Some? && intent.value.action == Some(ActionSearch) && a.searches.shown.None? ==>
              r.value.client == intent.value.settings && r.value.selected == a.selected
              && r.value.searches == Issue(a.searches, Typed(intent.value.query), None, None)
    ensures r.Ok? && !(intent.Some? && intent.value.action == Some(ActionSearch) && a.searches.shown.None?) ==> r == Ok(a)
  {
    if intent.None? then Ok(a)
    else if intent.value.action.None? then Err(NullPointer)
    else if intent.value.action.value != ActionSearch || a.searches.shown.Some? then Ok(a)
    else if intent.value.settings.None? then Err(NullPointer)
    else DoSearch(a.(client := intent.value.settings), intent.value.query)
  }

  /**
   * A search started by an intent keeps its client: picking a service in the action bar later
   * remembers the service but neither replaces the client nor searches again.
   */
  lemma SearchIntentKeepsClient(a: Activity, s: Service, query: string, picked: Service)
    requires a.searches.shown.None?
    ensures var b := OnCreate(a, Some(Launch(Some(ActionSearch), Some(s), query)));
            b.Ok? && var c := OnSearchApiSelected(b.value, Some(picked));
            c.client == Some(s) && c.searches == b.value.searches && c.selected == Some(picked)
  {
  }

  /**
   * onSuccess: a cancelled callback does nothing. Otherwise the pending callback is cleared, the
   * page is filtered (keep says which images survive the rating and tag filters), and whether it
   * was empty is judged on its size before filtering: an extending callback ends the paging of
   * its result or appends the filtered images; a new search is shown, ending paging at once when
   * it came back empty.
   */
  function OnSuccess(a: Activity, id: nat, page: SearchResult, keep: Image -> bool): (r: Activity)
    requires id < |a.searches.callbacks|
    ensures a.searches.callbacks[id].cancelled ==> r == a
    ensures !a.searches.callbacks[id].cancelled ==>
              var filtered := page.(images := Keep(page.images, keep));
              var cb := a.searches.callbacks[id];
              r.searches.pending.None? && r.searches.callbacks == a.searches.callbacks
              && r.searches.requests == a.searches.requests
              && r.searches.shown == Some(if cb.extending.Some? then Extend(cb.extending.value, |page.images|, filtered)
                                          else if page.images == [] then OnLastPage(filtered) else filtered)
    ensures r.selected == a.selected && r.client == a.client
  {
    var cb := a.searches.callbacks[id];
    if cb.cancelled then a
    else
      var rawCount := |page.images|;
      var filtered := page.(images := Keep(page.images, keep));
      var shown :=
        if cb.extending.Some? then Extend(cb.extending.value, rawCount, filtered)
        else if rawCount == 0 then OnLastPage(filtered) else filtered;
      a.(searches := a.searches.(pending := None, shown := Some(shown)))
  }

  /** onDestroy: the pending callback, if any, is cancelled. */
  function OnDestroy(a: Activity): (r: Activity)
    requires Valid(a.searches)
    ensures |r.searches.callbacks| == |a.searches.callbacks|
    ensures a.searches.pending.Some? ==> r.searches.callbacks[a.searches.pending.value].cancelled
    ensures r.searches.pending == a.searches.pending && r.searches.shown == a.searches.shown
  {
    if a.searches.pending.Some? then a.(searches := Cancel(a.searches, a.searches.pending.value)) else a
  }

  /**
   * A page whose every image is filtered out does not end the paging: the shown result keeps its
   * images and its next page, and takes the page's offset, so scrolling asks for the page after.
   */
  lemma FilteredOutPageKeepsPaging(a: Activity, id: nat, page: SearchResult, keep: Image -> bool)
    requires id < |a.searches.callbacks|
    requires !a.searches.callbacks[id].cancelled && a.searches.callbacks[id].extending.Some?
    requires page.images != [] && forall i :: 0 <= i < |page.images| ==> !keep(page.images[i])
    ensures var ext := a.searches.callbacks[id].extending.value;
            var shown := OnSuccess(a, id, page, keep).searches.shown.value;
            shown.images == ext.images && shown.hasNextPage == ext.hasNextPage && shown.offset == page.offset
  {
    KeepNone(page.images, keep);
  }

  lemma {:induction false} KeepNone(xs: seq<Image>, keep: Image -> bool)
    requires forall i :: 0 <= i < |xs| ==> !keep(xs[i])
    ensures Keep(xs, keep) == []
  {
    if xs != [] {
      KeepNone(xs[1..], keep);
    }
  }

  /**
   * doSearch does not cancel the callback it replaces: that callback still answers, and its
   * answer clears the pending callback although the new search has not been answered.
   */
  lemma ReplacedCallbackStillAnswers(a: Activity, query: string, page: SearchResult, keep: Image -> bool)
    requires a.client.Some? && Valid(a.searches) && a.searches.pending.Some?
    requires !a.searches.callbacks[a.searches.pending.value].cancelled
    ensures var b := DoSearch(a, query).value;
            var old_ := a.searches.pending.value;
            b.searches.pending == Some(|a.searches.callbacks|)
            && OnSuccess(b, old_, page, keep).searches.pending.None?
  {
  }

  // ---------------------------------------------------------------------------------------------
  // The service picker

  /** getCount: no rows before the settings are loaded. */
  function Count(settingsList: Option<seq<(int, Service)>>): (n: nat)
    ensures settingsList.None? ==> n == 0
    ensures settingsList.Some? ==> n == |settingsList.value|
  {
    LengthOrZero(settingsList)
  }

  /** getPositionByItemId: the first position with that row id, or 0 when none has it, even on an empty list. */
  method GetPositionByItemId(settingsList: Option<seq<(int, Service)>>, id: int) returns (p: int)
    ensures 0 <= p && (p > 0 ==> p < Count(settingsList))
    ensures forall i :: 0 <= i < Count(settingsList) && settingsList.value[i].0 == id ==>
              p <= i && settingsList.value[p].0 == id
    ensures (forall i :: 0 <= i < Count(settingsList) ==> settingsList.value[i].0 != id) ==> p == 0
  {
    var i := 0;
    var n := Count(settingsList);
    while i < n
      invariant 0 <= i <= n
      invariant forall j :: 0 <= j < i ==> settingsList.value[j].0 != id
    {
      if settingsList.value[i].0 == id {
        return i;
      }
      i := i + 1;
    }
    p := 0;
  }
}
