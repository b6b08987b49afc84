/**
 * The response loop the first generation's attribute-based clients (DanbooruLegacy, Gelbooru,
 * Shimmie) share: the root <posts> tag's attributes set count and offset, and every <post>
 * start tag becomes one image, built from its attributes by a client-specific function.
 */
module AttributeResponses {
  import opened Wrappers
  import opened JavaStrings
  import opened XmlEvents
  import opened PeImages

  /**
   * What a client does to count and offset after the root's attribute loop: nothing; force 200
   * and 0 on every pass of the loop (DanbooruLegacy's SHIMMIE2, so only when there is an
   * attribute); or force them when the root has no attributes (Shimmie).
   */
  datatype RootRule = Plain | ForceEachAttribute | ForceWhenBare

  /** DEFAULT_LIMIT * 2, the count that makes the next page be asked for. */
  const ForcedCount: int := 200

  predicate Forced(rule: RootRule, attrs: seq<Attribute>) {
    (rule == ForceEachAttribute && attrs != []) || (rule == ForceWhenBare && attrs == [])
  }

  /**
   * The root's attribute loop. It compares each attribute's VALUE with "count" and "offset", so
   * a value "count" or "offset" is handed to Long.parseLong and throws; no other attribute sets
   * anything.
   */
  function RootLoop(res: PeResult, attrs: seq<Attribute>, forceEach: bool): Result<PeResult>
    decreases |attrs|
  {
    if attrs == [] then Ok(res)
    else
      match RootLoop(res, attrs[..|attrs| - 1], forceEach)
      case Err(e) => Err(e)
      case Ok(acc) =>
        var v := attrs[|attrs| - 1].value;
        var applied :=
          if v == "count" then (match ParseLong(v) case Ok(n) => Ok(acc.(count := n)) case Err(e) => Err(e))
          else if v == "offset" then (match ParseLong(v) case Ok(n) => Ok(acc.(offset := n)) case Err(e) => Err(e))
          else Ok(acc);
        match applied
        case Err(e) => Err(e)
        case Ok(acc') => Ok(if forceEach then acc'.(count := ForcedCount, offset := 0) else acc')
  }

  /** The root tag: the loop, then Shimmie's check for a bare root. */
  function RootAttributes(res: PeResult, attrs: seq<Attribute>, rule: RootRule): Result<PeResult>
  {
    match RootLoop(res, attrs, rule == ForceEachAttribute)
    case Err(e) => Err(e)
    case Ok(acc) => Ok(if rule == ForceWhenBare && attrs == [] then acc.(count := ForcedCount, offset := 0) else acc)
  }

  /** No attribute value names a counter. */
  predicate RootAccepted(attrs: seq<Attribute>) {
    forall i :: 0 <= i < |attrs| ==> attrs[i].value != "count" && attrs[i].value != "offset"
  }

  /**
   * The root loop succeeds exactly when no value is "count" or "offset", and then has set
   * count and offset to 200 and 0 on each pass or left them alone.
   */
  lemma {:induction false} RootLoopEffect(res: PeResult, attrs: seq<Attribute>, forceEach: bool)
    ensures RootLoop(res, attrs, forceEach).Ok? <==> RootAccepted(attrs)
    ensures RootLoop(res, attrs, forceEach).Ok? ==>
              RootLoop(res, attrs, forceEach).value
              == if forceEach && attrs != [] then res.(count := ForcedCount, offset := 0) else res
    decreases |attrs|
  {
    if attrs != [] {
      var init := attrs[..|attrs| - 1];
      RootLoopEffect(res, init, forceEach);
      assert forall i :: 0 <= i < |init| ==> init[i] == attrs[i];
      var v := attrs[|attrs| - 1].value;
      if v == "count" {
        assert ParseLong(v).Err? by { assert !IsDigit(v[0]); }
      } else if v == "offset" {
        assert ParseLong(v).Err? by { assert !IsDigit(v[0]); }
      }
    }
  }

  /**
   * The root tag is read without an exception exactly when no value is "count" or "offset",
   * never touches the images, and changes count and offset only when the rule forces them.
   */
  lemma RootAttributesEffect(res: PeResult, attrs: seq<Attribute>, rule: RootRule)
    ensures RootAttributes(res, attrs, rule).Ok? <==> RootAccepted(attrs)
    ensures RootAttributes(res, attrs, rule).Ok? ==>
              RootAttributes(res, attrs, rule).value
              == if Forced(rule, attrs) then res.(count := ForcedCount, offset := 0) else res
  {
    RootLoopEffect(res, attrs, rule == ForceEachAttribute);
  }

  /** One event of the loop. */
  function Step(res: PeResult, ev: XmlEvent, rule: RootRule, post: seq<Attribute> -> Result<PeImage>): Result<PeResult>
  {
    if ev.StartTag? && ev.name == "posts" then RootAttributes(res, ev.attrs, rule)
    else if ev.StartTag? && ev.name == "post" then
      match post(ev.attrs)
      case Err(e) => Err(e)
      case Ok(im) => Ok(res.(images := res.images + [im]))
    else Ok(res)
  }

  /** One event fails exactly when it is a post that fails or a root that names a counter. */
  lemma StepOk(res: PeResult, ev: XmlEvent, rule: RootRule, post: seq<Attribute> -> Result<PeImage>)
    ensures Step(res, ev, rule, post).Ok? <==>
              (ev.StartTag? && ev.name == "post" ==> post(ev.attrs).Ok?)
              && (ev.StartTag? && ev.name == "posts" ==> RootAccepted(ev.attrs))
  {
    if ev.StartTag? && ev.name == "posts" {
      RootAttributesEffect(res, ev.attrs, rule);
    }
  }

  /** Some root tag whose attributes make the rule force count and offset. */
  predicate HasForcedRoot(evs: seq<XmlEvent>, rule: RootRule) {
    exists k :: 0 <= k < |StartsNamed(evs, "posts")| && Forced(rule, StartsNamed(evs, "posts")[k])
  }

  lemma ForcedRootSnoc(evs: seq<XmlEvent>, rule: RootRule)
    requires evs != []
    ensures var ev := evs[|evs| - 1];
            HasForcedRoot(evs, rule)
            <==> HasForcedRoot(evs[..|evs| - 1], rule) || (ev.StartTag? && ev.name == "posts" && Forced(rule, ev.attrs))
  {
    var init, ev := evs[..|evs| - 1], evs[|evs| - 1];
    var roots, roots0 := StartsNamed(evs, "posts"), StartsNamed(init, "posts");
    assert roots == roots0 + (if ev.StartTag? && ev.name == "posts" then [ev.attrs] else []);
    if HasForcedRoot(init, rule) {
      var k :| 0 <= k < |roots0| && Forced(rule, roots0[k]);
      assert roots[k] == roots0[k];
    }
    if ev.StartTag? && ev.name == "posts" && Forced(rule, ev.attrs) {
      assert roots[|roots0|] == ev.attrs;
    }
    if HasForcedRoot(evs, rule) {
      var k :| 0 <= k < |roots| && Forced(rule, roots[k]);
      if k < |roots0| {
        assert roots0[k] == roots[k];
      }
    }
  }

  /** Every post's image can be built and no root names a counter. */
  predicate AllAccepted(evs: seq<XmlEvent>, post: seq<Attribute> -> Result<PeImage>) {
    (forall k :: 0 <= k < |StartsNamed(evs, "post")| ==> post(StartsNamed(evs, "post")[k]).Ok?)
    && (forall k :: 0 <= k < |StartsNamed(evs, "posts")| ==> RootAccepted(StartsNamed(evs, "posts")[k]))
  }

  lemma AllAcceptedSnoc(evs: seq<XmlEvent>, post: seq<Attribute> -> Result<PeImage>)
    requires evs != []
    ensures var ev := evs[|evs| - 1];
            AllAccepted(evs, post) <==>
              AllAccepted(evs[..|evs| - 1], post)
              && (ev.StartTag? && ev.name == "post" ==> post(ev.attrs).Ok?)
              && (ev.StartTag? && ev.name == "posts" ==> RootAccepted(ev.attrs))
  {
    var init, ev := evs[..|evs| - 1], evs[|evs| - 1];
    var posts, posts0 := StartsNamed(evs, "post"), StartsNamed(init, "post");
    var roots, roots0 := StartsNamed(evs, "posts"), StartsNamed(init, "posts");
    assert posts == posts0 + (if ev.StartTag? && ev.name == "post" then [ev.attrs] else []);
    assert roots == roots0 + (if ev.StartTag? && ev.name == "posts" then [ev.attrs] else []);
    assert forall k :: 0 <= k < |posts0| ==> posts[k] == posts0[k];
    assert forall k :: 0 <= k < |roots0| ==> roots[k] == roots0[k];
    assert ev.StartTag? && ev.name == "post" ==> posts[|posts0|] == ev.attrs;
    assert ev.StartTag? && ev.name == "posts" ==> roots[|roots0|] == ev.attrs;
  }

  /**
   * The loop over all events, from a new SearchResult; the first exception ends it. It succeeds
   * exactly when every post's image can be built and no root names a counter; then it holds
   * one image per <post>, in document order, and count and offset are 200 and 0 if some root
   * forced them and 0 otherwise.
   */
  function Parse(evs: seq<XmlEvent>, rule: RootRule, post: seq<Attribute> -> Result<PeImage>): (r: Result<PeResult>)
    ensures r.Ok? <==> AllAccepted(evs, post)
    ensures r.Ok? ==> |r.value.images| == |StartsNamed(evs, "post")|
    ensures r.Ok? ==> forall k :: 0 <= k < |r.value.images| ==>
              post(StartsNamed(evs, "post")[k]) == Ok(r.value.images[k])
    ensures r.Ok? ==>
              (r.value.count, r.value.offset)
              == if HasForcedRoot(evs, rule) then (ForcedCount, 0) else (0, 0)
    decreases |evs|
  {
    if evs == [] then Ok(EmptyResult)
    else
      var init := evs[..|evs| - 1];
      var ev := evs[|evs| - 1];
      var prev := Parse(init, rule, post);
      var posts, posts0 := StartsNamed(evs, "post"), StartsNamed(init, "post");
      var roots, roots0 := StartsNamed(evs, "posts"), StartsNamed(init, "posts");
      assert posts == posts0 + (if ev.StartTag? && ev.name == "post" then [ev.attrs] else []);
      assert roots == roots0 + (if ev.StartTag? && ev.name == "posts" then [ev.attrs] else []);
      assert forall k :: 0 <= k < |posts0| ==> posts[k] == posts0[k];
      assert forall k :: 0 <= k < |roots0| ==> roots[k] == roots0[k];
      assert ev.StartTag? && ev.name == "post" ==> posts[|posts0|] == ev.attrs;
      assert ev.StartTag? && ev.name == "posts" ==> roots[|roots0|] == ev.attrs;
      RootAttributesEffect(if prev.Ok? then prev.value else EmptyResult, if ev.StartTag? then ev.attrs else [], rule);
      ForcedRootSnoc(evs, rule);
      AllAcceptedSnoc(evs, post);
      StepOk(if prev.Ok? then prev.value else EmptyResult, ev, rule, post);
      match prev
      case Err(e) => Err(e)
      case Ok(res) => Step(res, ev, rule, post)
  }

  /**
   * The response body: null for a null body (and, when nullOnEmpty, for an empty one);
   * otherwise the loop's result, any exception becoming a failed request.
   */
  function ParseResponse(body: Option<string>, nullOnEmpty: bool, evs: seq<XmlEvent>, rule: RootRule,
                         post: seq<Attribute> -> Result<PeImage>): (r: Result<Option<PeResult>>)
    ensures body.None? || (nullOnEmpty && body == Some("")) ==> r == Ok(None)
    ensures body.Some? && !(nullOnEmpty && body == Some("")) ==> (r.Ok? <==> Parse(evs, rule, post).Ok?)
    ensures r.Ok? && r.value.Some? ==> r.value.value == Parse(evs, rule, post).value
  {
    if body.None? || (nullOnEmpty && body.value == "") then Ok(None)
    else
      match Parse(evs, rule, post)
      case Err(e) => Err(e)
      case Ok(res) => Ok(Some(res))
  }
}
