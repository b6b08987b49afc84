/**
 * ResourceTypeDetectService.onHandleIntent (first generation): probe a server for the API it
 * speaks by trying four paths in a fixed order, and broadcast one result.
 *
 * The network is an oracle: `answer` gives what opening a URL yields (a response code, an
 * I/O failure, or a malformed-URL error). Uri.parse is one too: the scheme and host it reports
 * for the settings' apiUrl are parameters.
 */
module ResourceTypeDetect {
  import opened Wrappers
  import opened JavaInts
  import opened ServiceSettingsProvider
  import LegacyClient

  const StatusOk: int := 0x00
  const StatusInvalidUri: int := 0xfe
  const StatusResourceNotFound: int := 0xff

  const PathDanbooru: string := "/posts.xml"
  const PathDanbooruLegacy: string := "/post.xml"
  const PathGelbooru: string := "/index.php?page=dapi&s=post&q=index"
  const PathShimmie2: string := "/api/danbooru/find_posts/index.xml"

  /** The probe order. */
  const Paths: seq<string> := [PathDanbooru, PathDanbooruLegacy, PathGelbooru, PathShimmie2]

  /**
   * What opening one URL yields: a response code, an I/O failure, a URL that cannot be formed, or
   * a connection that is not an HTTP one (a scheme such as ftp: or file:), which the cast to
   * HttpURLConnection rejects with an exception the service does not catch.
   */
  datatype Answer = Response(code: int) | IoFailure | MalformedUrl | NotHttp

  /** A result broadcast: the status, and the settings when the status is OK. */
  datatype Broadcast = Broadcast(status: int, settings: Option<ServiceSettings>)

  /** The URLs opened, in order, and the broadcasts sent. */
  datatype Outcome = Outcome(probed: seq<string>, broadcasts: seq<Broadcast>)

  /** An answer that ends the probing: HTTP 200, a URL that cannot be formed, or a failed cast. */
  predicate Stops(a: Answer) {
    a == Response(200) || a == MalformedUrl || a == NotHttp
  }

  /** The position of the first answer that ends the probing, or the length when none does. */
  function FirstStop(answers: seq<Answer>): (k: nat)
    ensures k <= |answers|
    ensures forall i :: 0 <= i < k ==> !Stops(answers[i])
    ensures k < |answers| ==> Stops(answers[k])
  {
    if answers == [] then 0
    else if Stops(answers[0]) then 0
    else 1 + FirstStop(answers[1..])
  }

  /**
   * The settings a success at path number k reports: /posts.xml is Danbooru 2, /post.xml is
   * DanbooruLegacy in the Danbooru dialect, the other two DanbooruLegacy in the Gelbooru or
   * Shimmie2 dialect; the API URL becomes the bare base URL.
   */
  function Detected(s: ServiceSettings, k: nat, base: string): (r: ServiceSettings)
    requires k < |Paths|
    ensures r.apiUrl == Some(base)
    ensures r == s.(serviceType := r.serviceType, subtype := r.subtype, apiUrl := r.apiUrl)
  {
    var (t, st) := match k
      case 0 => (TypeDanbooru, SubtypeDanbooru)
      case 1 => (TypeDanbooruLegacy, SubtypeDanbooru)
      case 2 => (TypeDanbooruLegacy, SubtypeGelbooru)
      case _ => (TypeDanbooruLegacy, SubtypeShimmie2);
    s.(serviceType := t, subtype := st, apiUrl := Some(base))
  }

  /** Each path selects the client for the API it belongs to, on the base URL. */
  lemma DetectedClient(s: ServiceSettings, k: nat, base: string)
    requires k < |Paths|
    ensures var c := CreateClient(Some(Detected(s, k, base)));
            c == if k == 0 then Some(Danbooru2Client(s.username, s.passphrase))
                 else Some(LegacyApiClient(Some(base), [LegacyClient.Danbooru, LegacyClient.Gelbooru, LegacyClient.Shimmie2][k - 1]))
  {
  }

  /** The answers the four paths get on a base URL, in probe order. */
  function Answers(base: string, answer: string -> Answer): seq<Answer> {
    seq(|Paths|, i requires 0 <= i < |Paths| => answer(base + Paths[i]))
  }

  /** The first k + 1 URLs, or all of them when k is past the last. */
  function Opened(base: string, k: nat): seq<string> {
    seq(if k < |Paths| then k + 1 else |Paths|, i requires 0 <= i < |Paths| => base + Paths[i])
  }

  /**
   * The probing loop: the URLs are opened in order until one answers 200, cannot be formed or is
   * not HTTP; k is the position of that answer, or the number of paths when every one failed.
   */
  method ProbePaths(base: string, answer: string -> Answer) returns (probed: seq<string>, k: nat)
    ensures k <= |Paths| && k == FirstStop(Answers(base, answer))
    ensures probed == Opened(base, k)
    ensures k < |Paths| ==> Stops(answer(base + Paths[k]))
  {
    ghost var answers := Answers(base, answer);
    probed := [];
    k := 0;
    while k < |Paths|
      invariant 0 <= k <= |Paths|
      invariant forall j :: 0 <= j < k ==> !Stops(answers[j])
      invariant probed == seq(k, j requires 0 <= j < k => base + Paths[j])
    {
      var url := base + Paths[k];
      probed := probed + [url];
      if Stops(answer(url)) {
        FirstStopAt(answers, k);
        return;
      }
      k := k + 1;
    }
    FirstStopAt(answers, k);
  }

  /**
   * The broadcast after the probing stopped at position k, with the detection used for a success:
   * RESOURCE_NOT_FOUND past the last path, INVALID_URI for a URL that cannot be formed, OK with
   * the detected settings for a 200. A failed cast broadcasts nothing: the service throws.
   */
  function Report(answers: seq<Answer>, k: nat, found: ServiceSettings): (r: Result<Broadcast>)
    requires k <= |answers|
    ensures r.Err? <==> k < |answers| && answers[k] == NotHttp
    ensures r.Ok? && r.value.status == StatusOk ==> k < |answers| && r.value.settings == Some(found)
    ensures r.Ok? && r.value.status != StatusOk ==> r.value.settings.None?
    ensures k == |answers| ==> r == Ok(Broadcast(StatusResourceNotFound, None))
    ensures k < |answers| && answers[k] == MalformedUrl ==> r == Ok(Broadcast(StatusInvalidUri, None))
  {
    if k == |answers| then Ok(Broadcast(StatusResourceNotFound, None))
    else if answers[k] == MalformedUrl then Ok(Broadcast(StatusInvalidUri, None))
    else if answers[k] == NotHttp then Err(ClassCast)
    else Ok(Broadcast(StatusOk, Some(found)))
  }

  /**
   * onHandleIntent as written: a null apiUrl makes Uri.parse throw; without a scheme or host one
   * INVALID_URI broadcast and no probe; otherwise the paths are tried on scheme://host in order,
   * and the one broadcast is the report of where the probing stopped, a success carrying the
   * settings as the service fills them in (the /post.xml branch keeps the carried type). A
   * non-HTTP connection throws.
   */
  method HandleIntent(settings: ServiceSettings, scheme: Option<string>, host: Option<string>, answer: string -> Answer)
    returns (r: Result<Outcome>)
    ensures settings.apiUrl.None? ==> r == Err(NullPointer)
    ensures settings.apiUrl.Some? && (scheme.None? || host.None?) ==> r == Ok(Outcome([], [Broadcast(StatusInvalidUri, None)]))
    ensures settings.apiUrl.Some? && scheme.Some? && host.Some? ==>
              var base := scheme.value + "://" + host.value;
              var answers := Answers(base, answer);
              var k := FirstStop(answers);
              && (k < |Paths| && answers[k] == NotHttp ==> r == Err(ClassCast))
              && (k == |Paths| ==> r == Ok(Outcome(Opened(base, k), [Broadcast(StatusResourceNotFound, None)])))
              && (k < |Paths| && answers[k] == MalformedUrl ==> r == Ok(Outcome(Opened(base, k), [Broadcast(StatusInvalidUri, None)])))
              && (k < |Paths| && answers[k] == Response(200) ==>
                    r == Ok(Outcome(Opened(base, k), [Broadcast(StatusOk, Some(DetectedAsWritten(settings, k, base)))])))
  {
    if settings.apiUrl.None? {
      return Err(NullPointer);
    }
    if scheme.None? || host.None? {
      return Ok(Outcome([], [Broadcast(StatusInvalidUri, None)]));
    }
    var base := scheme.value + "://" + host.value;
    var probed, k := ProbePaths(base, answer);
    var report := Report(Answers(base, answer), k, if k < |Paths| then DetectedAsWritten(settings, k, base) else settings);
    if report.Err? {
      return Err(report.error);
    }
    return Ok(Outcome(probed, [report.value]));
  }

  /** The same service with the /post.xml branch corrected: a success reports the detected settings. */
  method HandleIntentCorrected(settings: ServiceSettings, scheme: Option<string>, host: Option<string>, answer: string -> Answer)
    returns (r: Result<Outcome>)
    ensures settings.apiUrl.None? ==> r == Err(NullPointer)
    ensures settings.apiUrl.Some? && (scheme.None? || host.None?) ==> r == Ok(Outcome([], [Broadcast(StatusInvalidUri, None)]))
    ensures settings.apiUrl.Some? && scheme.Some? && host.Some? ==>
              var base := scheme.value + "://" + host.value;
              var answers := Answers(base, answer);
              var k := FirstStop(answers);
              && (k < |Paths| && answers[k] == NotHttp ==> r == Err(ClassCast))
              && (k == |Paths| ==> r == Ok(Outcome(Opened(base, k), [Broadcast(StatusResourceNotFound, None)])))
              && (k < |Paths| && answers[k] == MalformedUrl ==> r == Ok(Outcome(Opened(base, k), [Broadcast(StatusInvalidUri, None)])))
              && (k < |Paths| && answers[k] == Response(200) ==>
                    r == Ok(Outcome(Opened(base, k), [Broadcast(StatusOk, Some(Detected(settings, k, base)))])))
  {
    if settings.apiUrl.None? {
      return Err(NullPointer);
    }
    if scheme.None? || host.None? {
      return Ok(Outcome([], [Broadcast(StatusInvalidUri, None)]));
    }
    var base := scheme.value + "://" + host.value;
    var probed, k := ProbePaths(base, answer);
    var report := Report(Answers(base, answer), k, if k < |Paths| then Detected(settings, k, base) else settings);
    if report.Err? {
      return Err(report.error);
    }
    return Ok(Outcome(probed, [report.value]));
  }

  /** FirstStop is the first stopping position: no earlier one stops, and this one does or is the end. */
  lemma {:induction false} FirstStopAt(answers: seq<Answer>, k: nat)
    requires k <= |answers|
    requires forall j :: 0 <= j < k ==> !Stops(answers[j])
    requires k < |answers| ==> Stops(answers[k])
    ensures FirstStop(answers) == k
    decreases k
  {
    if k > 0 {
      FirstStopAt(answers[1..], k - 1);
    }
  }

  // ---------------------------------------------------------------------------------------------
  // The /post.xml branch as written

  /**
   * The settings as the source reports them: a success at /post.xml matches none of the three
   * path comparisons, so type and subtype keep whatever the request carried. At every other path
   * it agrees with the corrected detection.
   */
  function DetectedAsWritten(s: ServiceSettings, k: nat, base: string): (r: ServiceSettings)
    requires k < |Paths|
    ensures r.apiUrl == Some(base)
    ensures r == s.(serviceType := r.serviceType, subtype := r.subtype, apiUrl := r.apiUrl)
    ensures k == 1 ==> r.serviceType == s.serviceType && r.subtype == s.subtype
    ensures k != 1 ==> r == Detected(s, k, base)
  {
    if k == 1 then s.(apiUrl := Some(base)) else Detected(s, k, base)
  }
}
