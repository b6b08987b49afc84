/**
 * script.js: the contact form of the project page. On load it attaches a submit handler that
 * sends the browser to a mailto: URI (RFC 6068) carrying the form's subject and body.
 * Form fields are JavaScript strings, i.e. sequences of UTF-16 code units.
 */
module Mailto {
  import opened Wrappers
  import opened JavaStrings
  import opened UriEncode

  const Prefix: string := "mailto:shinku@dollbooru.org?subject="
  const BodyKey: string := "&body="

  /** The link the submit handler builds; encodeURIComponent's URIError propagates. */
  function Link(subject: seq<CodeUnit>, body: seq<CodeUnit>): (r: Result<string>)
    ensures r.Ok? <==> WellFormed(subject) && WellFormed(body)
    ensures r.Err? ==> r.error == UriError
    ensures r.Ok? ==> Prefix <= r.value
  {
    EncodeOkIffWellFormed(subject);
    EncodeOkIffWellFormed(body);
    match Encode(subject)
    case Err(e) => Err(e)
    case Ok(s) =>
      match Encode(body)
      case Err(e) => Err(e)
      case Ok(b) => Ok(Prefix + s + BodyKey + b)
  }

  /** Empty fields give the bare template. */
  lemma EmptyFieldsLink()
    ensures Link([], []) == Ok("mailto:shinku@dollbooru.org?subject=&body=")
  {
    assert Encode([]) == Ok("");
    assert Prefix + "" + BodyKey + "" == "mailto:shinku@dollbooru.org?subject=&body=";
  }

  /**
   * Reads a link of the shape the handler builds: the fixed prefix, the subject up to the first
   * '&', then "body=" and the body; both parts are percent-decoded.
   */
  function ParseLink(link: string): (r: Option<(seq<CodeUnit>, seq<CodeUnit>)>)
  {
    if Prefix <= link then ParseQuery(link[|Prefix|..]) else None
  }

  function ParseQuery(rest: string): Option<(seq<CodeUnit>, seq<CodeUnit>)>
  {
    var amp := IndexOf(rest, '&');
    if amp < 0 then None
    else
      var after := rest[amp + 1..];
      if "body=" <= after then DecodePair(rest[..amp], after[5..]) else None
  }

  function DecodePair(s: string, b: string): Option<(seq<CodeUnit>, seq<CodeUnit>)>
  {
    match (Decode(s), Decode(b))
    case (Ok(x), Ok(y)) => Some((x, y))
    case _ => None
  }

  /**
   * The subject and body come back out of the link unchanged, so the user's text can neither
   * end the subject early nor add parameters of its own.
   */
  lemma ParseLinkRoundTrip(subject: seq<CodeUnit>, body: seq<CodeUnit>)
    requires WellFormed(subject) && WellFormed(body)
    ensures Link(subject, body).Ok?
    ensures ParseLink(Link(subject, body).value) == Some((subject, body))
  {
    DecodeEncode(subject);
    DecodeEncode(body);
    EncodeIsPercentEncoded(subject);
    var s := Encode(subject).value;
    var b := Encode(body).value;
    NoDelimiters(s);
    ParseAssembled(s, b);
  }

  lemma ParseAssembled(s: string, b: string)
    requires '&' !in s
    ensures ParseLink(Prefix + s + BodyKey + b) == DecodePair(s, b)
  {
    var link := Prefix + s + BodyKey + b;
    var rest := s + ("&" + ("body=" + b));
    assert link == Prefix + rest;
    assert link[|Prefix|..] == rest;
    QueryAssembled(s, b);
  }

  lemma QueryAssembled(s: string, b: string)
    requires '&' !in s
    ensures ParseQuery(s + ("&" + ("body=" + b))) == DecodePair(s, b)
  {
    var rest := s + ("&" + ("body=" + b));
    assert s + "&" + ("body=" + b) == rest;
    IndexOfAfterClean(s, '&', "body=" + b);
    assert rest[..|s|] == s;
    assert rest[|s| + 1..] == "body=" + b;
    assert ("body=" + b)[5..] == b;
  }

  /** The link has exactly one '?' and exactly one '&', both from the template. */
  lemma LinkDelimiters(subject: seq<CodeUnit>, body: seq<CodeUnit>)
    requires WellFormed(subject) && WellFormed(body)
    ensures Link(subject, body).Ok?
    ensures multiset(Link(subject, body).value)['?'] == 1
    ensures multiset(Link(subject, body).value)['&'] == 1
  {
    EncodeOkIffWellFormed(subject);
    EncodeOkIffWellFormed(body);
    EncodeIsPercentEncoded(subject);
    EncodeIsPercentEncoded(body);
    var s := Encode(subject).value;
    var b := Encode(body).value;
    NoDelimiters(s);
    NoDelimiters(b);
    AssembledCounts(s, b);
  }

  /** Encoded parts without delimiters leave the template's one '?' and one '&'. */
  lemma AssembledCounts(s: string, b: string)
    requires '?' !in s && '&' !in s && '?' !in b && '&' !in b
    ensures multiset(Prefix + s + BodyKey + b)['?'] == 1
    ensures multiset(Prefix + s + BodyKey + b)['&'] == 1
  {
    TemplateCounts();
    CountsAdd(Prefix, s, BodyKey, b, '?');
    CountsAdd(Prefix, s, BodyKey, b, '&');
  }

  lemma CountsAdd(w: string, x: string, y: string, z: string, c: char)
    ensures multiset(w + x + y + z)[c] == multiset(w)[c] + multiset(x)[c] + multiset(y)[c] + multiset(z)[c]
  {
    assert multiset(w + x + y + z) == multiset(w) + multiset(x) + multiset(y) + multiset(z);
  }

  lemma TemplateCounts()
    ensures multiset(Prefix)['?'] == 1 && multiset(Prefix)['&'] == 0
    ensures multiset(BodyKey)['?'] == 0 && multiset(BodyKey)['&'] == 1
  {
    PrefixCounts();
    BodyKeyCounts();
  }

  lemma PrefixCounts()
    ensures multiset(Prefix)['?'] == 1 && multiset(Prefix)['&'] == 0
  {
    PrefixShape();
    SingleOccurrence("mailto:shinku@dollbooru.org", '?', "subject=", '&');
  }

  lemma BodyKeyCounts()
    ensures multiset(BodyKey)['?'] == 0 && multiset(BodyKey)['&'] == 1
  {
    BodyKeyShape();
    SingleOccurrence("", '&', "body=", '?');
  }

  lemma PrefixShape()
    ensures Prefix == "mailto:shinku@dollbooru.org" + "?" + "subject="
  {
  }

  lemma BodyKeyShape()
    ensures BodyKey == "" + "&" + "body="
  {
  }

  /** c occurs once in h + [c] + t, and d not at all, when neither occurs in h or t. */
  lemma SingleOccurrence(h: string, c: char, t: string, d: char)
    requires c !in h && c !in t && d !in h && d !in t && c != d
    ensures multiset(h + [c] + t)[c] == 1 && multiset(h + [c] + t)[d] == 0
  {
    assert multiset(h + [c] + t) == multiset(h) + multiset{c} + multiset(t);
  }

  /**
   * The page: whether the load listener is still registered, whether the document has a form
   * named "contact", the submit handlers attached to it, and where the window was sent.
   */
  datatype Page = Page(loadListener: bool, contactForm: bool, submitHandlers: nat, location: Option<string>)

  function Initial(contactForm: bool): Page {
    Page(true, contactForm, 0, None)
  }

  /** What a listener left behind, and the exception it threw, which the browser reports and drops. */
  datatype Handled = Handled(page: Page, thrown: Option<Error>)

  /**
   * The load listener removes itself, then attaches one submit handler to the contact form; with
   * no such form, reading addEventListener of undefined throws a TypeError and nothing is attached.
   */
  function OnLoad(p: Page): (r: Handled)
    ensures !r.page.loadListener
    ensures r.thrown.Some? <==> p.loadListener && !p.contactForm
    ensures r.thrown.Some? ==> r.thrown.value == TypeError
    ensures r.page.submitHandlers == p.submitHandlers + (if p.loadListener && p.contactForm then 1 else 0)
    ensures r.page.contactForm == p.contactForm && r.page.location == p.location
  {
    if !p.loadListener then Handled(p, None)
    else if !p.contactForm then Handled(p.(loadListener := false), Some(TypeError))
    else Handled(p.(loadListener := false, submitHandlers := p.submitHandlers + 1), None)
  }

  /**
   * One submit event: the page after the handlers ran, whether this event's default action was
   * prevented, and what the handler threw.
   */
  datatype Submitted = Submitted(page: Page, prevented: bool, thrown: Option<Error>)

  /**
   * A submit: with the handler attached, a successful link is assigned to location.href and then
   * the event's default action is prevented; a URIError is thrown before either, so the form
   * submits as it would without the script. With no handler nothing happens.
   */
  function OnSubmit(p: Page, subject: seq<CodeUnit>, body: seq<CodeUnit>): (r: Submitted)
    ensures r.page.loadListener == p.loadListener && r.page.submitHandlers == p.submitHandlers
    ensures r.page.contactForm == p.contactForm
    ensures r.prevented <==> p.submitHandlers > 0 && Link(subject, body).Ok?
    ensures r.prevented ==> r.page.location == Some(Link(subject, body).value) && r.thrown.None?
    ensures !r.prevented ==> r.page == p
    ensures r.thrown.Some? <==> p.submitHandlers > 0 && Link(subject, body).Err?
    ensures r.thrown.Some? ==> r.thrown == Some(UriError)
  {
    if p.submitHandlers == 0 then Submitted(p, false, None)
    else
      match Link(subject, body)
      case Err(e) => Submitted(p, false, Some(e))
      case Ok(link) => Submitted(p.(location := Some(link)), true, None)
  }

  datatype Event = Load | Submit(subject: seq<CodeUnit>, body: seq<CodeUnit>)

  function Step(p: Page, e: Event): Page
  {
    match e
    case Load => OnLoad(p).page
    case Submit(s, b) => OnSubmit(p, s, b).page
  }

  function Run(p: Page, es: seq<Event>): Page
    decreases |es|
  {
    if es == [] then p else Run(Step(p, es[0]), es[1..])
  }

  /** However many load events fire, at most one submit handler is ever attached. */
  lemma {:induction false} AtMostOneHandler(p: Page, es: seq<Event>)
    requires p.submitHandlers + (if p.loadListener then 1 else 0) <= 1
    ensures Run(p, es).submitHandlers <= 1
    decreases |es|
  {
    if es != [] {
      AtMostOneHandler(Step(p, es[0]), es[1..]);
    }
  }

  lemma HandlerAttachedOnce(contactForm: bool, es: seq<Event>)
    ensures Run(Initial(contactForm), es).submitHandlers <= 1
  {
    AtMostOneHandler(Initial(contactForm), es);
  }

  /** Without a contact form the script never attaches a handler, so no submit ever navigates. */
  lemma {:induction false} NoContactFormNeverNavigates(p: Page, es: seq<Event>)
    requires !p.contactForm && p.submitHandlers == 0
    ensures Run(p, es).submitHandlers == 0 && Run(p, es).location == p.location
    decreases |es|
  {
    if es != [] {
      NoContactFormNeverNavigates(Step(p, es[0]), es[1..]);
    }
  }

  /** Each successful submit prevents its own default action; a failing one after it does not. */
  lemma PreventedPerSubmit(p: Page, s1: seq<CodeUnit>, b1: seq<CodeUnit>, s2: seq<CodeUnit>, b2: seq<CodeUnit>)
    requires p.submitHandlers > 0 && Link(s1, b1).Ok? && Link(s2, b2).Err?
    ensures var first := OnSubmit(p, s1, b1);
            first.prevented && !OnSubmit(first.page, s2, b2).prevented
            && OnSubmit(first.page, s2, b2).page.location == Some(Link(s1, b1).value)
  {
  }
}
