/**
 * EditAPISettingDialogFragment (third generation): the dialog that adds a service or edits one.
 * It holds the row id being edited, the four text fields and the visibility of the two
 * credential fields. Setting the URI text always fires onTextChanged, the way the URI field's
 * TextWatcher does.
 */
module EditApiSettingDialog {
  import opened Wrappers
  import ApiSettingsDatabase

  /** Only this service offers the optional credentials. */
  const DanbooruApiUrl: string := "http://danbooru.donmai.us"

  /** The row id of a dialog that adds a service. */
  const NoRow: int := -1

  datatype Visibility = Visible | Invisible | Gone

  datatype Dialog = Dialog(
    rowId: int,
    name: string,
    uri: string,
    username: string,
    passphrase: string,
    usernameVisibility: Visibility,
    passphraseVisibility: Visibility,
    dismissed: bool)

  /** The two credential fields are shown or hidden together. */
  predicate Synced(d: Dialog) {
    d.usernameVisibility == d.passphraseVisibility
  }

  /**
   * onTextChanged: a Danbooru URI shows both credential fields and keeps their text; any other
   * URI empties and hides them, unless the username field is already gone.
   */
  function OnTextChanged(d: Dialog): (r: Dialog)
    ensures DanbooruApiUrl <= d.uri ==> r == d.(usernameVisibility := Visible, passphraseVisibility := Visible)
    ensures !(DanbooruApiUrl <= d.uri) && d.usernameVisibility == Gone ==> r == d
    ensures !(DanbooruApiUrl <= d.uri) && d.usernameVisibility != Gone ==>
              r == d.(username := "", passphrase := "", usernameVisibility := Gone, passphraseVisibility := Gone)
  {
    if DanbooruApiUrl <= d.uri then d.(usernameVisibility := Visible, passphraseVisibility := Visible)
    else if d.usernameVisibility != Gone then
      d.(username := "", usernameVisibility := Gone, passphrase := "", passphraseVisibility := Gone)
    else d
  }

  /** uri.setText: the text changes, and the watcher runs. */
  function SetUri(d: Dialog, text: string): (r: Dialog)
    ensures r.uri == text && r.name == d.name && r.rowId == d.rowId && r.dismissed == d.dismissed
  {
    OnTextChanged(d.(uri := text))
  }

  /**
   * The watcher keeps the two fields in step, a second run changes nothing, and afterwards the
   * fields are visible exactly for a Danbooru URI; a non-Danbooru URI leaves them gone, and
   * empty unless they were gone already.
   */
  lemma TextChangedSettles(d: Dialog)
    requires Synced(d)
    ensures Synced(OnTextChanged(d))
    ensures OnTextChanged(OnTextChanged(d)) == OnTextChanged(d)
    ensures OnTextChanged(d).usernameVisibility == Visible <==> DanbooruApiUrl <= d.uri
    ensures !(DanbooruApiUrl <= d.uri) ==> OnTextChanged(d).usernameVisibility == Gone
    ensures !(DanbooruApiUrl <= d.uri) && d.usernameVisibility != Gone ==>
              OnTextChanged(d).username == "" && OnTextChanged(d).passphrase == ""
  {
  }

  /**
   * onFocusChange: focusing an empty URI field fills in "http://" (which fires the watcher);
   * anything else leaves the dialog alone.
   */
  function OnFocusChange(d: Dialog, hasFocus: bool): (r: Dialog)
    ensures hasFocus && d.uri == [] ==> r.uri == "http://" && r.name == d.name && r.rowId == d.rowId
    ensures !(hasFocus && d.uri == []) ==> r == d
  {
    if hasFocus && d.uri == [] then SetUri(d, "http://") else d
  }

  /** Focusing twice is focusing once: the filled-in prefix is not empty. */
  lemma FocusIdempotent(d: Dialog, hasFocus: bool)
    ensures OnFocusChange(OnFocusChange(d, hasFocus), hasFocus) == OnFocusChange(d, hasFocus)
  {
  }

  // ---------------------------------------------------------------------------------------------
  // Creation

  /** A row id from the arguments, when they carry one; otherwise the dialog adds a service. */
  function ArgumentRowId(args: Option<Option<int>>): (id: int)
    ensures args.Some? && args.value.Some? ==> id == args.value.value
    ensures !(args.Some? && args.value.Some?) ==> id == NoRow
  {
    if args.Some? && args.value.Some? then args.value.value else NoRow
  }

  /**
   * onCreateDialog: the row id from the arguments; the fields filled from the settings in the
   * arguments only on a first creation (no saved state). A null setting shows as an empty field.
   * The URI is set before the credentials, so its watcher runs before they are filled in.
   */
  function Create(blank: Dialog, args: Option<Option<int>>, settings: Option<ApiSettingsDatabase.Settings>, restored: bool): (r: Dialog)
    ensures r.rowId == ArgumentRowId(args)
    ensures restored || settings.None? ==> r == blank.(rowId := r.rowId)
    ensures !restored && settings.Some? ==>
              var s := settings.value;
              r.name == s.name.GetOr("") && r.uri == s.endpoint.GetOr("")
              && r.username == s.username.GetOr("") && r.passphrase == s.password.GetOr("")
  {
    var d := blank.(rowId := ArgumentRowId(args));
    if restored || settings.None? then d
    else
      var s := settings.value;
      SetUri(d.(name := s.name.GetOr("")), s.endpoint.GetOr("")).(username := s.username.GetOr(""), passphrase := s.password.GetOr(""))
  }

  datatype Title = AddServiceTitle | EditServiceTitle

  /** The dialog's title: "add" exactly for the row id -1. */
  function TitleOf(d: Dialog): (t: Title)
    ensures t == AddServiceTitle <==> d.rowId == NoRow
  {
    if d.rowId == -1 then AddServiceTitle else EditServiceTitle
  }

  // ---------------------------------------------------------------------------------------------
  // The OK button

  /** What the dialog asks of its listener. */
  datatype Call =
    | AddService(name: string, url: string, username: string, passphrase: string)
    | EditService(rowId: int, name: string, url: string, username: string, passphrase: string)

  /** The OK button's check: a name, a URI, and either both credentials or neither. */
  predicate Accepted(d: Dialog) {
    d.name != [] && d.uri != [] && (d.username == []) == (d.passphrase == [])
  }

  /**
   * onClick: a rejected form stays open and calls nobody; otherwise addService for a negative
   * row id, editService for any other, with the four texts, and the dialog is dismissed. Once
   * detached the listener is null, and calling it throws.
   */
  function OnClick(d: Dialog, attached: bool): (r: Result<(Dialog, Option<Call>)>)
    ensures !Accepted(d) ==> r == Ok((d, None))
    ensures Accepted(d) ==> (r.Ok? <==> attached)
    ensures r.Ok? && Accepted(d) ==>
              r.value.0 == d.(dismissed := true) && r.value.1.Some?
              && (r.value.1.value.AddService? <==> d.rowId < 0)
              && (r.value.1.value.EditService? ==> r.value.1.value.rowId == d.rowId)
              && r.value.1.value.name == d.name && r.value.1.value.url == d.uri
              && r.value.1.value.username == d.username && r.value.1.value.passphrase == d.passphrase
  {
    if !Accepted(d) then Ok((d, None))
    else if !attached then Err(NullPointer)
    else
      var call := if d.rowId < 0 then AddService(d.name, d.uri, d.username, d.passphrase)
                  else EditService(d.rowId, d.name, d.uri, d.username, d.passphrase);
      Ok((d.(dismissed := true), Some(call)))
  }

  /**
   * A dialog opened without arguments is titled "add" and, when accepted, adds; one opened on a
   * stored row (ids are positive) is titled "edit" and edits that row.
   */
  lemma TitleMatchesCall(blank: Dialog, args: Option<Option<int>>, settings: Option<ApiSettingsDatabase.Settings>, restored: bool)
    requires args.Some? && args.value.Some? ==> args.value.value > 0
    ensures var d := Create(blank, args, settings, restored);
            var r := OnClick(d, true);
            r.Ok? && r.value.1.Some? ==> (TitleOf(d) == AddServiceTitle <==> r.value.1.value.AddService?)
  {
  }

  /**
   * Opening a stored service and pressing OK unchanged sends back exactly its name, endpoint
   * and credentials, whatever the URI: the credentials are filled in after the URI's watcher has
   * run, so even those of a hidden field are kept.
   */
  lemma EditUnchangedResends(blank: Dialog, id: int, s: ApiSettingsDatabase.Settings)
    requires id > 0 && ApiSettingsDatabase.Storable(s) && s.name.value != [] && s.endpoint.value != []
    requires (s.username.GetOr("") == []) == (s.password.GetOr("") == [])
    ensures var r := OnClick(Create(blank, Some(Some(id)), Some(s), false), true);
            r.Ok? && r.value.1 == Some(EditService(id, s.name.value, s.endpoint.value, s.username.GetOr(""), s.password.GetOr("")))
  {
  }

  // ---------------------------------------------------------------------------------------------
  // Name suggestions

  /** The last index holding the picked name, or -1. */
  function LastMatch(names: seq<string>, picked: string): (k: int)
    ensures -1 <= k < |names|
    ensures k >= 0 ==> names[k] == picked
    ensures forall j :: k < j < |names| ==> names[j] != picked
  {
    if names == [] then -1
    else if names[|names| - 1] == picked then |names| - 1
    else LastMatch(names[..|names| - 1], picked)
  }

  /**
   * onItemClick: every suggestion whose name equals the picked one sets the URI to the
   * suggestion URI at the same index, so the last match wins. A match past the end of the URI
   * array throws. Without a match nothing changes.
   */
  method OnItemClick(d: Dialog, picked: string, names: seq<string>, uris: seq<string>) returns (r: Result<Dialog>)
    requires Synced(d)
    ensures r.Ok? <==> forall j :: 0 <= j < |names| && names[j] == picked ==> j < |uris|
    ensures r.Ok? && LastMatch(names, picked) == -1 ==> r.value == d
    ensures r.Ok? && LastMatch(names, picked) >= 0 ==>
              var e := r.value;
              e.uri == uris[LastMatch(names, picked)] && e.name == d.name && e.rowId == d.rowId
              && e.dismissed == d.dismissed && Synced(e)
              && (e.usernameVisibility == Visible <==> DanbooruApiUrl <= e.uri)
  {
    var cur := d;
    var i := 0;
    ghost var last := -1;
    while i < |names|
      invariant 0 <= i <= |names|
      invariant -1 <= last < i
      invariant forall j :: 0 <= j < i && names[j] == picked ==> j < |uris|
      invariant last >= 0 ==> names[last] == picked
      invariant forall j :: last < j < i ==> names[j] != picked
      invariant last == -1 ==> cur == d
      invariant Synced(cur) && cur.name == d.name && cur.rowId == d.rowId && cur.dismissed == d.dismissed
      invariant last >= 0 ==> cur.uri == uris[last] && (cur.usernameVisibility == Visible <==> DanbooruApiUrl <= cur.uri)
    {
      if names[i] == picked {
        if i >= |uris| {
          return Err(IndexOutOfBounds);
        }
        TextChangedSettles(cur.(uri := uris[i]));
        cur := SetUri(cur, uris[i]);
        last := i;
      }
      i := i + 1;
    }
    LastMatchIs(names, picked, last);
    return Ok(cur);
  }

  /** LastMatch is the one index that matches with no match after it. */
  lemma {:induction false} LastMatchIs(names: seq<string>, picked: string, k: int)
    requires -1 <= k < |names|
    requires k >= 0 ==> names[k] == picked
    requires forall j :: k < j < |names| ==> names[j] != picked
    ensures LastMatch(names, picked) == k
    decreases |names|
  {
    if names != [] && k != |names| - 1 {
      LastMatchIs(names[..|names| - 1], picked, k);
    }
  }
}
