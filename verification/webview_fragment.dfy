/**
 * WebViewImageFragment (third generation): shows images an image view cannot (animated GIFs) in a
 * web view, by loading a fixed HTML page whose img element's src is the image URL, HTML-escaped.
 * The page never lets the view scroll the pager.
 */
module WebViewImageFragment {
  import opened Wrappers
  import opened SearchResults
  import ImageFragments

  // ---------------------------------------------------------------------------------------------
  // TextUtils.htmlEncode

  /** The entity written for each of the five characters HTML reserves; other characters stand for themselves. */
  function Escape(c: char): (r: string)
    ensures |r| >= 1
    ensures r[0] == '&' <==> c in "<>&'\""
    ensures c !in "<>&'\"" ==> r == [c]
  {
    if c == '<' then "&lt;"
    else if c == '>' then "&gt;"
    else if c == '&' then "&amp;"
    else if c == '\'' then "&#39;"
    else if c == '"' then "&quot;"
    else [c]
  }

  function HtmlEncode(s: string): (r: string)
    ensures |r| >= |s|
    ensures forall i :: 0 <= i < |r| ==> r[i] !in "<>\"'"
  {
    if s == [] then []
    else
      var r := Escape(s[0]) + HtmlEncode(s[1..]);
      assert forall i :: 0 <= i < |Escape(s[0])| ==> Escape(s[0])[i] !in "<>\"'";
      r
  }

  function Prepend(p: string, r: Option<string>): Option<string> {
    if r.Some? then Some(p + r.value) else None
  }

  /** Decoding the five entities back; any other '&' is not something htmlEncode writes. */
  function HtmlDecode(t: string): (r: Option<string>)
    decreases |t|
  {
    if t == [] then Some([])
    else if t[0] != '&' then Prepend([t[0]], HtmlDecode(t[1..]))
    else if |t| >= 4 && t[..4] == "&lt;" then Prepend("<", HtmlDecode(t[4..]))
    else if |t| >= 4 && t[..4] == "&gt;" then Prepend(">", HtmlDecode(t[4..]))
    else if |t| >= 5 && t[..5] == "&amp;" then Prepend("&", HtmlDecode(t[5..]))
    else if |t| >= 5 && t[..5] == "&#39;" then Prepend("'", HtmlDecode(t[5..]))
    else if |t| >= 6 && t[..6] == "&quot;" then Prepend("\"", HtmlDecode(t[6..]))
    else None
  }

  /** Decoding one escaped character followed by anything gives the character back first. */
  lemma DecodeEscape(c: char, rest: string)
    ensures HtmlDecode(Escape(c) + rest) == Prepend([c], HtmlDecode(rest))
  {
    var e := Escape(c);
    var t := e + rest;
    assert t[..|e|] == e && t[|e|..] == rest;
    if c !in "<>&'\"" {
      assert t[0] == c != '&' && t[1..] == rest;
    } else {
      assert t[0] == '&';
      if c == '<' {
        assert t[..4] == "&lt;";
      } else if c == '>' {
        assert t[..4] == "&gt;" != "&lt;";
      } else if c == '&' {
        assert t[..4] != "&lt;" && t[..4] != "&gt;" && t[..5] == "&amp;";
      } else if c == '\'' {
        assert t[..4] != "&lt;" && t[..4] != "&gt;" && t[..5] != "&amp;" && t[..5] == "&#39;";
      } else {
        assert t[..4] != "&lt;" && t[..4] != "&gt;" && t[..5] != "&amp;" && t[..5] != "&#39;" && t[..6] == "&quot;";
      }
    }
  }

  /** The browser reads back exactly the URL that was escaped. */
  lemma {:induction false} DecodeEncode(s: string)
    ensures HtmlDecode(HtmlEncode(s)) == Some(s)
    decreases |s|
  {
    if s != [] {
      DecodeEncode(s[1..]);
      DecodeEscape(s[0], HtmlEncode(s[1..]));
      assert [s[0]] + s[1..] == s;
    }
  }

  // ---------------------------------------------------------------------------------------------
  // String.format with one string argument

  /**
   * The formatter over the conversions the page uses: "%%" writes '%', the first "%s" writes the
   * argument, a second "%s" has no argument left and any other conversion is not modelled; both
   * throw an IllegalFormatException.
   */
  function FormatFrom(t: string, arg: string, used: bool): (r: Result<string>)
    ensures r.Err? ==> r.error == IllegalFormat
    decreases |t|
  {
    if t == [] then Ok([])
    else if t[0] != '%' then
      var rest := FormatFrom(t[1..], arg, used);
      if rest.Err? then rest else Ok([t[0]] + rest.value)
    else if |t| >= 2 && t[1] == '%' then
      var rest := FormatFrom(t[2..], arg, used);
      if rest.Err? then rest else Ok("%" + rest.value)
    else if |t| >= 2 && t[1] == 's' && !used then
      var rest := FormatFrom(t[2..], arg, true);
      if rest.Err? then rest else Ok(arg + rest.value)
    else Err(IllegalFormat)
  }

  /**
   * String.format(template, arg): a template without conversions comes back unchanged, and the
   * only failure is an IllegalFormatException.
   */
  function Format(t: string, arg: string): (r: Result<string>)
    ensures r.Err? ==> r.error == IllegalFormat
    ensures '%' !in t ==> r == Ok(t)
  {
    if '%' in t then FormatFrom(t, arg, false)
    else
      FormatPlain(t, [], arg, false);
      assert t + [] == t;
      FormatFrom(t, arg, false)
  }

  /** Text without '%' is copied as it is. */
  lemma {:induction false} FormatPlain(p: string, rest: string, arg: string, used: bool)
    requires '%' !in p
    ensures FormatFrom(p + rest, arg, used) ==
              (if FormatFrom(rest, arg, used).Err? then FormatFrom(rest, arg, used) else Ok(p + FormatFrom(rest, arg, used).value))
    decreases |p|
  {
    if p != [] {
      assert (p + rest)[0] == p[0] && (p + rest)[1..] == p[1..] + rest;
      FormatPlain(p[1..], rest, arg, used);
      var r := FormatFrom(rest, arg, used);
      if r.Ok? {
        assert [p[0]] + (p[1..] + r.value) == p + r.value;
      }
    } else {
      assert p + rest == rest;
      if FormatFrom(rest, arg, used).Ok? {
        assert p + FormatFrom(rest, arg, used).value == FormatFrom(rest, arg, used).value;
      }
    }
  }

  // ---------------------------------------------------------------------------------------------
  // The page

  /** IMAGE_HTML, in the pieces between its conversions, each written as the lines of its source. */
  const Head: string := Doctype + Viewport + Scale + Title + MaxWidth
  const Doctype: string := "<!DOCTYPE html>" + "<html><head>"
  const Viewport: string := "<meta name=\"viewport\"" + " content=\"width=device-width,"
  const Scale: string := " initial-scale=1.0," + " user-scalable=no\">"
  const Title: string := "<title></title>"
  const MaxWidth: string := "<style>img { max-width:100"
  const Middle: string := "; max-height:100"
  const Style: string := Placement + Margins + Position + Offsets + Body + ImgOpen
  const Placement: string := "; bottom:0; left:0;"
  const Margins: string := " margin: auto; overflow: auto;"
  const Position: string := " position: absolute;"
  const Offsets: string := " right: 0; top: 0; }</style>"
  const Body: string := "</head><body>"
  const ImgOpen: string := "<img src=\""
  const Tail: string := "\" alt=\"\" />" + "</body></html>"

  const ImageHtml: string := Head + "%%" + Middle + "%%" + Style + "%s" + Tail

  /** The text before the URL in every page: the template up to its %s, with each "%%" written as '%'. */
  const Before: string := Head + "%" + Middle + "%" + Style

  lemma HeadPlain()
    ensures '%' !in Head
  {
    HeadPiecesPlain();
    NoPercentIn(Doctype, Viewport);
    NoPercentIn(Doctype + Viewport, Scale);
    NoPercentIn(Doctype + Viewport + Scale, Title);
    NoPercentIn(Doctype + Viewport + Scale + Title, MaxWidth);
  }

  lemma HeadPiecesPlain()
    ensures '%' !in Doctype && '%' !in Viewport && '%' !in Scale && '%' !in Title && '%' !in MaxWidth
  {
    DoctypePlain();
    ViewportPlain();
    ScalePlain();
  }

  lemma DoctypePlain() ensures '%' !in Doctype { }
  lemma ViewportPlain() ensures '%' !in Viewport { }
  lemma ScalePlain() ensures '%' !in Scale { }

  lemma StylePlain()
    ensures '%' !in Style
  {
    StylePiecesPlain();
    NoPercentIn(Placement, Margins);
    NoPercentIn(Placement + Margins, Position);
    NoPercentIn(Placement + Margins + Position, Offsets);
    NoPercentIn(Placement + Margins + Position + Offsets, Body);
    NoPercentIn(Placement + Margins + Position + Offsets + Body, ImgOpen);
  }

  lemma StylePiecesPlain()
    ensures '%' !in Placement && '%' !in Margins && '%' !in Position && '%' !in Offsets && '%' !in Body && '%' !in ImgOpen
  {
    PlacementPlain();
    MarginsPlain();
    PositionPlain();
    OffsetsPlain();
  }

  lemma PlacementPlain() ensures '%' !in Placement { }
  lemma MarginsPlain() ensures '%' !in Margins { }
  lemma PositionPlain() ensures '%' !in Position { }
  lemma OffsetsPlain() ensures '%' !in Offsets { }

  lemma NoPercentIn(a: string, b: string)
    requires '%' !in a && '%' !in b
    ensures '%' !in a + b
  {
  }

  lemma NoPercent()
    ensures '%' !in Head && '%' !in Middle && '%' !in Style && '%' !in Tail
  {
    HeadPlain();
    StylePlain();
    var m, t := Middle, Tail;
    forall i | 0 <= i < |m| ensures m[i] != '%' { }
    forall i | 0 <= i < |t| ensures t[i] != '%' { }
  }

  /** "%%" writes one '%' before whatever the rest formats to. */
  lemma FormatPercent(rest: string, arg: string, used: bool)
    requires FormatFrom(rest, arg, used).Ok?
    ensures FormatFrom("%%" + rest, arg, used) == Ok("%" + FormatFrom(rest, arg, used).value)
  {
    var t := "%%" + rest;
    assert t[0] == '%' && t[1] == '%' && t[2..] == rest;
  }

  /** The first "%s" writes the argument, and plain text after it is copied. */
  lemma FormatArgument(t: string, arg: string)
    requires '%' !in t
    ensures FormatFrom("%s" + t, arg, false) == Ok(arg + t)
  {
    FormatPlain(t, [], arg, true);
    assert t + [] == t;
    var r := "%s" + t;
    assert r[0] == '%' && r[1] == 's' && r[2..] == t;
  }

  /** Plain text before a template that formats is copied in front of its result. */
  lemma FormatPlainOk(p: string, rest: string, arg: string, used: bool)
    requires '%' !in p && FormatFrom(rest, arg, used).Ok?
    ensures FormatFrom(p + rest, arg, used) == Ok(p + FormatFrom(rest, arg, used).value)
  {
    FormatPlain(p, rest, arg, used);
  }

  /** "%%", plain text, "%s", plain text: a '%', the text, the argument, the text. */
  lemma FormatLast(st: string, t: string, url: string)
    requires '%' !in st && '%' !in t
    ensures FormatFrom("%%" + (st + ("%s" + t)), url, false) == Ok("%" + (st + (url + t)))
  {
    FormatArgument(t, url);
    FormatPlainOk(st, "%s" + t, url, false);
    FormatPercent(st + ("%s" + t), url, false);
  }

  /** "%%", plain text, then a template that formats: a '%' and the text before its result. */
  lemma FormatMiddle(m: string, rest: string, url: string)
    requires '%' !in m && FormatFrom(rest, url, false).Ok?
    ensures FormatFrom("%%" + (m + rest), url, false) == Ok("%" + (m + FormatFrom(rest, url, false).value))
  {
    FormatPlainOk(m, rest, url, false);
    FormatPercent(m + rest, url, false);
  }

  /** Any template of the page's shape: plain text, "%%", plain text, "%%", plain text, "%s", plain text. */
  lemma FormatShape(h: string, m: string, st: string, t: string, url: string)
    requires '%' !in h && '%' !in m && '%' !in st && '%' !in t
    ensures Format(h + "%%" + m + "%%" + st + "%s" + t, url) == Ok(h + "%" + m + "%" + st + url + t)
  {
    var r3 := "%%" + (st + ("%s" + t));
    FormatLast(st, t, url);
    var r2 := "%%" + (m + r3);
    FormatMiddle(m, r3, url);
    FormatPlainOk(h, r2, url, false);
    assert h + "%%" + m + "%%" + st + "%s" + t == h + r2;
    assert h + ("%" + (m + ("%" + (st + (url + t))))) == h + "%" + m + "%" + st + url + t;
  }

  /** Formatting the template with a URL: the URL lands between the fixed text before and after it. */
  lemma FormatImageHtml(url: string)
    ensures Format(ImageHtml, url) == Ok(Before + url + Tail)
  {
    NoPercent();
    FormatShape(Head, Middle, Style, Tail, url);
  }

  /**
   * onCreateView: the page holds the chosen URL (the sample when samples are to be loaded),
   * HTML-escaped, between the fixed text before and after it.
   */
  function Page(image: Image, samples: bool): (r: Result<string>)
    ensures r == Ok(Before + HtmlEncode(ImageFragments.ChooseUrl(image, samples)) + Tail)
  {
    FormatImageHtml(HtmlEncode(ImageFragments.ChooseUrl(image, samples)));
    Format(ImageHtml, HtmlEncode(ImageFragments.ChooseUrl(image, samples)))
  }

  /**
   * Whatever the URL holds, the page's src attribute is the text between the fixed parts, it
   * contains no quote that could end the attribute early, and it decodes to the URL.
   */
  lemma SourceAttributeIsTheUrl(image: Image, samples: bool)
    ensures var page := Page(image, samples).value;
            var url := ImageFragments.ChooseUrl(image, samples);
            |Before| + |Tail| <= |page| && page[..|Before|] == Before && page[|page| - |Tail|..] == Tail
            && '"' !in page[|Before|..|page| - |Tail|]
            && HtmlDecode(page[|Before|..|page| - |Tail|]) == Some(url)
  {
    var url := ImageFragments.ChooseUrl(image, samples);
    var enc := HtmlEncode(url);
    var page := Before + enc + Tail;
    assert page[|Before|..|page| - |Tail|] == enc;
    assert page[..|Before|] == Before;
    assert page[|page| - |Tail|..] == Tail;
    DecodeEncode(url);
  }

  /** canScroll: the web view never lets the pager scroll. */
  function CanScroll(direction: int): (r: bool)
    ensures !r
  {
    false
  }
}
