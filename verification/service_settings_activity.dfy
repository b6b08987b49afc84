/**
 * ServiceSettingsActivity (first generation): the list of configured services and the dialog
 * that adds or edits one. The dialog's text fields and the visibility of the two credential
 * fields are a Form; the dialog hands its settings to type detection.
 */
module ServiceSettingsActivity {
  import opened Wrappers
  import opened JavaInts
  import opened ServiceSettingsProvider
  import opened ResourceTypeDetect
  import LegacyClient

  /** Only this service needs credentials. */
  const DanbooruUrl: string := "http://danbooru.donmai.us"

  datatype Form = Form(
    name: string,
    uri: string,
    username: string,
    passphrase: string,
    usernameVisible: bool,
    passphraseVisible: bool)

  predicate CredentialsShown(f: Form) {
    f.usernameVisible && f.passphraseVisible
  }

  /** onTextChanged: the credential fields are shown iff the URI starts with the Danbooru URL; no text is cleared. */
  function OnTextChanged(f: Form): (r: Form)
    ensures CredentialsShown(r) <==> DanbooruUrl <= f.uri
    ensures !CredentialsShown(r) ==> !r.usernameVisible && !r.passphraseVisible
    ensures r.name == f.name && r.uri == f.uri && r.username == f.username && r.passphrase == f.passphrase
  {
    var shown := DanbooruUrl <= f.uri;
    f.(usernameVisible := shown, passphraseVisible := shown)
  }

  /** The OK button's check: a name, a URI, and both credentials when both fields are shown. */
  predicate Accepted(f: Form) {
    f.name != "" && f.uri != "" && !(CredentialsShown(f) && (f.username == "" || f.passphrase == ""))
  }

  /**
   * onClick: nothing for a rejected form; otherwise the settings sent to type detection, with
   * the edited service's id or -1, and credentials only when both fields are shown.
   */
  function OnClick(f: Form, editing: Option<ServiceSettings>): (r: Option<ServiceSettings>)
    ensures r.Some? <==> Accepted(f)
    ensures r.Some? ==>
              var s := r.value;
              s.id == (if editing.Some? then editing.value.id else -1)
              && s.name == Some(f.name) && s.apiUrl == Some(f.uri)
              && (s.requiresAuthentication <==> CredentialsShown(f))
              && s.username == (if CredentialsShown(f) then Some(f.username) else None)
              && s.passphrase == (if CredentialsShown(f) then Some(f.passphrase) else None)
              && s.serviceType == TypeDanbooru && s.subtype == SubtypeDanbooru
  {
    if !Accepted(f) then None
    else
      var shown := CredentialsShown(f);
      Some(Empty.(id := if editing.Some? then editing.value.id else -1, name := Some(f.name), apiUrl := Some(f.uri),
                  requiresAuthentication := shown,
                  username := if shown then Some(f.username) else None,
                  passphrase := if shown then Some(f.passphrase) else None))
  }

  /**
   * onCreateDialog for an edited service: name and URI filled in, credentials only when the
   * service requires authentication; setting the URI fires onTextChanged. A null text shows as
   * an empty field.
   */
  function Prefill(s: ServiceSettings, blank: Form): Form
  {
    var f := blank.(name := s.name.GetOr(""), uri := s.apiUrl.GetOr(""));
    var g := if s.requiresAuthentication then f.(username := s.username.GetOr(""), passphrase := s.passphrase.GetOr("")) else f;
    OnTextChanged(g)
  }

  /**
   * Opening a stored Danbooru service with its credentials and pressing OK sends the same
   * service again: same id, name, URL and credentials. The type is reset, for detection to
   * determine again.
   */
  lemma EditUnchangedResends(s: ServiceSettings, blank: Form)
    requires s.name.Some? && s.name.value != "" && s.apiUrl.Some? && DanbooruUrl <= s.apiUrl.value
    requires s.requiresAuthentication && s.username.Some? && s.username.value != "" && s.passphrase.Some? && s.passphrase.value != ""
    ensures OnClick(Prefill(s, blank), Some(s)) == Some(s.(serviceType := TypeDanbooru, subtype := SubtypeDanbooru))
  {
  }

  /** The messages the detection result shows. */
  datatype Message = NoResourceFound | InvalidUrl | UnknownError

  /** The result receiver's toast: one message per failure status, none for OK. */
  function StatusMessage(status: int): (r: Option<Message>)
    ensures r.None? <==> status == StatusOk
    ensures r == Some(NoResourceFound) <==> status == StatusResourceNotFound
    ensures r == Some(InvalidUrl) <==> status == StatusInvalidUri
  {
    if status == StatusResourceNotFound then Some(NoResourceFound)
    else if status == StatusInvalidUri then Some(InvalidUrl)
    else if status != StatusOk then Some(UnknownError)
    else None
  }

  /** onItemClick: the row's settings, reading the credential columns only when req_auth is 1. */
  function OnItemClick(row: Row): (s: ServiceSettings)
    ensures s == (if row.reqAuth == 1 then Load(row) else Load(row).(username := None, passphrase := None))
  {
    var req := row.reqAuth == 1;
    ServiceSettings(Wrap(row.id), Some(row.name), Wrap(row.serviceType), Wrap(row.subtype), Some(row.apiUrl),
                    req, if req then row.username else None, if req then row.passphrase else None)
  }

  // ---------------------------------------------------------------------------------------------
  // Adding a Danbooru 1.x server

  /**
   * As written: a new service whose server answers 200 only at /post.xml keeps the dialog's
   * type 0, so the client created for it is the Danbooru 2 client, bound to danbooru.donmai.us
   * instead of the server that was detected.
   */
  lemma LegacyDanbooruMisdetected(f: Form, base: string)
    requires Accepted(f)
    ensures var s := OnClick(f, None).value;
            CreateClient(Some(DetectedAsWritten(s, 1, base))) == Some(Danbooru2Client(s.username, s.passphrase))
  {
  }

  /** Corrected: the same server gets the DanbooruLegacy client in its Danbooru dialect, on the detected base URL. */
  lemma LegacyDanbooruDetected(f: Form, base: string)
    requires Accepted(f)
    ensures CreateClient(Some(Detected(OnClick(f, None).value, 1, base))) == Some(LegacyApiClient(Some(base), LegacyClient.Danbooru))
  {
  }
}
