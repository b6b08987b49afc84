/**
 * An XML response as the pull parser reports it: start tags with their attributes, end tags and
 * text, in document order; the end of the sequence is END_DOCUMENT. Tokenising the body into
 * these events is the parser library's work and is an input here.
 */
module XmlEvents {
  import opened Wrappers

  datatype Attribute = Attribute(name: string, value: string)

  datatype XmlEvent =
    | StartTag(name: string, attrs: seq<Attribute>)
    | EndTag(name: string)
    | Text(text: string)

  /** getAttributeValue(null, name): the value of the first attribute called name, or null. */
  function AttributeValue(attrs: seq<Attribute>, name: string): (r: Option<string>)
    ensures r.None? <==> forall i :: 0 <= i < |attrs| ==> attrs[i].name != name
    ensures r.Some? ==> exists i :: 0 <= i < |attrs| && attrs[i] == Attribute(name, r.value)
  {
    if attrs == [] then None
    else if attrs[0].name == name then Some(attrs[0].value)
    else AttributeValue(attrs[1..], name)
  }

  /**
   * nextText() on the start tag at i: the text of an element that holds only text, read up to
   * its end tag, which becomes the current event; "" for an element that ends at once. Anything
   * else there (a child element, the end of the document, a mismatched end tag) is an
   * XmlPullParserException.
   */
  function NextText(evs: seq<XmlEvent>, i: nat): (r: Result<(string, nat)>)
    requires i < |evs| && evs[i].StartTag?
    ensures r.Ok? ==> i < r.value.1 < |evs| && evs[r.value.1] == EndTag(evs[i].name)
    ensures r.Ok? ==> r.value.1 == i + 1 || (r.value.1 == i + 2 && evs[i + 1] == Text(r.value.0))
    ensures r.Ok? && r.value.1 == i + 1 ==> r.value.0 == ""
    ensures i + 1 < |evs| && evs[i + 1] == EndTag(evs[i].name) ==> r == Ok(("", i + 1))
  {
    var name := evs[i].name;
    if i + 1 < |evs| && evs[i + 1] == EndTag(name) then Ok(("", i + 1))
    else if i + 2 < |evs| && evs[i + 1].Text? && evs[i + 2] == EndTag(name) then Ok((evs[i + 1].text, i + 2))
    else Err(XmlFormat)
  }

  /** The attribute lists of the start tags called name, in document order. */
  function StartsNamed(evs: seq<XmlEvent>, name: string): (r: seq<seq<Attribute>>)
    ensures |r| <= |evs|
  {
    if evs == [] then []
    else
      var last := evs[|evs| - 1];
      StartsNamed(evs[..|evs| - 1], name) + (if last.StartTag? && last.name == name then [last.attrs] else [])
  }
}
