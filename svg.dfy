/** The SVG renderer: one SVG element template per node type, wrapped in an
    `<svg>` root whose size is the node's size (100 when the size is 0), and
    shipped both as markup and as a base64 data URI of its UTF-8 bytes. */
module SvgRenderer {
  import opened Wrappers
  import opened Js
  import opened StyleExtractor
  import opened NodeInfoExtractor
  import opened Encoding

  const SvgNamespace := "http://www.w3.org/2000/svg"
  const DataUriPrefix := "data:image/svg+xml;base64,"
  /** The line break and indentation between the two elements of a placeholder. */
  const Indent := "\n                "
  const GroupWrapperOpen := "<g transform=\"translate(0, 0)\">"

  datatype RenderResult = RenderResult(
    nodeId: Option<string>,
    name: string,
    format: string,
    width: real,
    height: real,
    imageData: string,
    svgContent: string)

  // ------------------------------------------------------------ geometry and paint

  /** `size.width || 100`. */
  function Width(info: NodeInfo): (w: real)
    ensures w != 0.0
    ensures info.width != 0.0 ==> w == info.width
    ensures info.width == 0.0 ==> w == 100.0
  {
    NumOr(Some(info.width), 100.0)
  }

  /** `size.height || 100`. */
  function Height(info: NodeInfo): (h: real)
    ensures h != 0.0
    ensures info.height != 0.0 ==> h == info.height
    ensures info.height == 0.0 ==> h == 100.0
  {
    NumOr(Some(info.height), 100.0)
  }

  /** The fill, stroke colour and stroke width a drawn shape takes from its style. */
  datatype ShapePaint = ShapePaint(fill: string, stroke: string, strokeWidth: real)

  /** The first fill gives the fill colour (#cccccc without one); the first
      border gives the stroke colour (#000000 when its hex is empty) and width
      (1 when its thickness is 0); without a border there is no stroke. */
  function PaintOf(s: StyleInfo): ShapePaint
  {
    var fill := if s.fills != [] then StrOr(Some(s.fills[0].color.hex), "#cccccc") else "#cccccc";
    if s.borders != [] then
      ShapePaint(fill, StrOr(Some(s.borders[0].color.hex), "#000000"), NumOr(Some(s.borders[0].thickness), 1.0))
    else
      ShapePaint(fill, "none", 0.0)
  }

  lemma PaintOfMeaning(s: StyleInfo)
    ensures var p := PaintOf(s);
      && (s.fills == [] ==> p.fill == "#cccccc")
      && (s.fills != [] && s.fills[0].color.hex != "" ==> p.fill == s.fills[0].color.hex)
      && (s.fills != [] && s.fills[0].color.hex == "" ==> p.fill == "#cccccc")
      && (s.borders == [] ==> p.stroke == "none")
      && (s.borders != [] && s.borders[0].color.hex != "" ==> p.stroke == s.borders[0].color.hex)
      && (s.borders != [] && s.borders[0].color.hex == "" ==> p.stroke == "#000000")
      && (p.strokeWidth == 0.0 <==> s.borders == [])
      && (s.borders != [] && s.borders[0].thickness != 0.0 ==> p.strokeWidth == s.borders[0].thickness)
      && (s.borders != [] && s.borders[0].thickness == 0.0 ==> p.strokeWidth == 1.0)
  {
  }

  /** The corner radius of a rectangle: the shape's when the record carries one. */
  function CornerRadius(info: NodeInfo): (rx: real)
    ensures !info.kindInfo.ShapeKind? ==> rx == 0.0
    ensures info.kindInfo.ShapeKind? ==> rx == info.kindInfo.shape.cornerRadius
  {
    if info.kindInfo.ShapeKind? then NumOr(Some(info.kindInfo.shape.cornerRadius), 0.0) else 0.0
  }

  /** The centre and radii of the ellipse inscribed in the node's box. */
  function EllipseOf(info: NodeInfo): (e: (real, real, real, real))
    ensures e.0 == e.2 && e.1 == e.3
    ensures 2.0 * e.0 == Width(info) && 2.0 * e.1 == Height(info)
  {
    (Width(info) / 2.0, Height(info) / 2.0, Width(info) / 2.0, Height(info) / 2.0)
  }

  /** What a text element shows: the record's text part, each field falling
      back to its default when empty (content "Text", size 12, Arial, black). */
  function TextOfInfo(info: NodeInfo): TextInfo
  {
    if info.kindInfo.TextKind? then
      var x := info.kindInfo.text;
      TextInfo(StrOr(Some(x.content), "Text"), NumOr(Some(x.fontSize), 12.0), StrOr(Some(x.fontFamily), "Arial"),
               StrOr(Some(x.color), "#000000"), x.alignment)
    else
      TextInfo("Text", 12.0, "Arial", "#000000", "")
  }

  lemma TextOfInfoMeaning(info: NodeInfo)
    ensures var t := TextOfInfo(info);
      && (t.content != "" && t.fontSize != 0.0 && t.fontFamily != "" && t.color != "")
      && (info.kindInfo.TextKind? && info.kindInfo.text.fontFamily != "" ==> t.fontFamily == info.kindInfo.text.fontFamily)
      && (info.kindInfo.TextKind? && info.kindInfo.text.color != "" ==> t.color == info.kindInfo.text.color)
      && (info.kindInfo.TextKind? && info.kindInfo.text.content == "" ==> t.content == "Text")
      && (info.kindInfo.TextKind? && info.kindInfo.text.fontFamily == "" ==> t.fontFamily == "Arial")
      && (info.kindInfo.TextKind? && info.kindInfo.text.color == "" ==> t.color == "#000000")
      && (!info.kindInfo.TextKind? ==> t.content == "Text" && t.fontSize == 12.0 && t.fontFamily == "Arial" && t.color == "#000000")
      && (info.kindInfo.TextKind? && info.kindInfo.text.content != "" ==> t.content == info.kindInfo.text.content)
      && (info.kindInfo.TextKind? && info.kindInfo.text.fontSize != 0.0 ==> t.fontSize == info.kindInfo.text.fontSize)
      && (info.kindInfo.TextKind? && info.kindInfo.text.fontSize == 0.0 ==> t.fontSize == 12.0)
  {
  }

  /** An artboard's background: the first fill's hex, white without one. */
  function ArtboardBackground(s: StyleInfo): (c: string)
    ensures c != ""
    ensures s.fills != [] && s.fills[0].color.hex != "" ==> c == s.fills[0].color.hex
    ensures s.fills == [] ==> c == "#ffffff"
  {
    if s.fills != [] then StrOr(Some(s.fills[0].color.hex), "#ffffff") else "#ffffff"
  }

  // ------------------------------------------------------------ XML escaping

  /** `s.replace(/c/g, rep)`. */
  function ReplaceAll(s: string, c: char, rep: string): string
  {
    if s == [] then [] else (if s[0] == c then rep else [s[0]]) + ReplaceAll(s[1..], c, rep)
  }

  /** escapeXML as written: five global replacements, ampersand first. */
  function EscapeXmlChain(s: string): string
  {
    ReplaceAll(ReplaceAll(ReplaceAll(ReplaceAll(ReplaceAll(s, '&', "&amp;"), '<', "&lt;"), '>', "&gt;"), '"', "&quot;"), '\'', "&#39;")
  }

  /** The escape of a single character. */
  function EscapeChar(c: char): (r: string)
    ensures r != []
    ensures c in "&<>\"'" <==> r[0] == '&'
  {
    if c == '&' then "&amp;"
    else if c == '<' then "&lt;"
    else if c == '>' then "&gt;"
    else if c == '"' then "&quot;"
    else if c == '\'' then "&#39;"
    else [c]
  }

  /** The reference definition: each character escaped on its own. */
  function EscapeXml(s: string): string
  {
    if s == [] then [] else EscapeChar(s[0]) + EscapeXml(s[1..])
  }

  /** The inverse of escaping: each entity read back as its character. */
  function UnescapeXml(s: string): string
  {
    if s == [] then []
    else if "&amp;" <= s then "&" + UnescapeXml(s[5..])
    else if "&lt;" <= s then "<" + UnescapeXml(s[4..])
    else if "&gt;" <= s then ">" + UnescapeXml(s[4..])
    else if "&quot;" <= s then "\"" + UnescapeXml(s[6..])
    else if "&#39;" <= s then "'" + UnescapeXml(s[5..])
    else [s[0]] + UnescapeXml(s[1..])
  }

  /** One of the five entities the escape writes starts at `s`. */
  predicate StartsEntity(s: string)
  {
    "&amp;" <= s || "&lt;" <= s || "&gt;" <= s || "&quot;" <= s || "&#39;" <= s
  }

  lemma {:induction false} ReplaceAllAppend(a: string, b: string, c: char, rep: string)
    ensures ReplaceAll(a + b, c, rep) == ReplaceAll(a, c, rep) + ReplaceAll(b, c, rep)
  {
    if a == [] {
      assert a + b == b;
    } else {
      assert (a + b)[1..] == a[1..] + b;
      ReplaceAllAppend(a[1..], b, c, rep);
    }
  }

  lemma ChainAppend(a: string, b: string)
    ensures EscapeXmlChain(a + b) == EscapeXmlChain(a) + EscapeXmlChain(b)
  {
    var a1, b1 := ReplaceAll(a, '&', "&amp;"), ReplaceAll(b, '&', "&amp;");
    ReplaceAllAppend(a, b, '&', "&amp;");
    var a2, b2 := ReplaceAll(a1, '<', "&lt;"), ReplaceAll(b1, '<', "&lt;");
    ReplaceAllAppend(a1, b1, '<', "&lt;");
    var a3, b3 := ReplaceAll(a2, '>', "&gt;"), ReplaceAll(b2, '>', "&gt;");
    ReplaceAllAppend(a2, b2, '>', "&gt;");
    var a4, b4 := ReplaceAll(a3, '"', "&quot;"), ReplaceAll(b3, '"', "&quot;");
    ReplaceAllAppend(a3, b3, '"', "&quot;");
    ReplaceAllAppend(a4, b4, '\'', "&#39;");
  }

  lemma {:induction false} ReplaceAbsent(s: string, c: char, rep: string)
    requires c !in s
    ensures ReplaceAll(s, c, rep) == s
  {
    if s != [] {
      assert s[0] in s;
      assert forall x | x in s[1..] :: x in s;
      ReplaceAbsent(s[1..], c, rep);
    }
  }

  lemma ReplaceOne(x: char, c: char, rep: string)
    ensures ReplaceAll([x], c, rep) == if x == c then rep else [x]
  {
    assert [x][1..] == [];
  }

  /** Once a character has become `e`, the later replacements leave it alone. */
  lemma ChainRest(e: string, from: nat)
    requires from <= 4
    requires from <= 1 ==> '<' !in e
    requires from <= 2 ==> '>' !in e
    requires from <= 3 ==> '"' !in e
    requires '\'' !in e
    ensures from == 1 ==> ReplaceAll(ReplaceAll(ReplaceAll(ReplaceAll(e, '<', "&lt;"), '>', "&gt;"), '"', "&quot;"), '\'', "&#39;") == e
    ensures from == 2 ==> ReplaceAll(ReplaceAll(ReplaceAll(e, '>', "&gt;"), '"', "&quot;"), '\'', "&#39;") == e
    ensures from == 3 ==> ReplaceAll(ReplaceAll(e, '"', "&quot;"), '\'', "&#39;") == e
    ensures from == 4 ==> ReplaceAll(e, '\'', "&#39;") == e
  {
    if from <= 1 { ReplaceAbsent(e, '<', "&lt;"); }
    if from <= 2 { ReplaceAbsent(e, '>', "&gt;"); }
    if from <= 3 { ReplaceAbsent(e, '"', "&quot;"); }
    ReplaceAbsent(e, '\'', "&#39;");
  }

  /** The chain on one character is that character's escape. */
  lemma ChainOnChar(x: char)
    ensures EscapeXmlChain([x]) == EscapeChar(x)
  {
    ReplaceOne(x, '&', "&amp;");
    if x == '&' {
      ChainRest("&amp;", 1);
    } else {
      ReplaceOne(x, '<', "&lt;");
      if x == '<' {
        ChainRest("&lt;", 2);
      } else {
        ReplaceOne(x, '>', "&gt;");
        if x == '>' {
          ChainRest("&gt;", 3);
        } else {
          ReplaceOne(x, '"', "&quot;");
          if x == '"' {
            ChainRest("&quot;", 4);
          } else {
            ReplaceOne(x, '\'', "&#39;");
          }
        }
      }
    }
  }

  /** The chain of replacements escapes each character exactly once: the
      entities written by an earlier replacement hold no character a later
      one replaces. */
  lemma {:induction false} ChainIsEscape(s: string)
    ensures EscapeXmlChain(s) == EscapeXml(s)
  {
    if s != [] {
      assert s == [s[0]] + s[1..];
      ChainAppend([s[0]], s[1..]);
      ChainOnChar(s[0]);
      ChainIsEscape(s[1..]);
    }
  }

  lemma {:induction false} EscapeAppend(a: string, b: string)
    ensures EscapeXml(a + b) == EscapeXml(a) + EscapeXml(b)
  {
    if a == [] {
      assert a + b == b;
    } else {
      assert (a + b)[1..] == a[1..] + b;
      EscapeAppend(a[1..], b);
    }
  }

  /** Escaping is undone by reading the entities back. */
  lemma {:induction false} EscapeRoundTrip(s: string)
    ensures UnescapeXml(EscapeXml(s)) == s
  {
    if s != [] {
      var rest := EscapeXml(s[1..]);
      var e := EscapeChar(s[0]);
      assert EscapeXml(s) == e + rest;
      EscapeRoundTrip(s[1..]);
      if s[0] == '&' {
        assert "&amp;" <= e + rest;
        assert (e + rest)[5..] == rest;
      } else if s[0] == '<' {
        assert (e + rest)[1] == 'l';
        assert !("&amp;" <= e + rest) && "&lt;" <= e + rest;
        assert (e + rest)[4..] == rest;
      } else if s[0] == '>' {
        assert (e + rest)[1] == 'g';
        assert !("&amp;" <= e + rest) && !("&lt;" <= e + rest) && "&gt;" <= e + rest;
        assert (e + rest)[4..] == rest;
      } else if s[0] == '"' {
        assert (e + rest)[1] == 'q';
        assert !("&amp;" <= e + rest) && !("&lt;" <= e + rest) && !("&gt;" <= e + rest);
        assert "&quot;" <= e + rest;
        assert (e + rest)[6..] == rest;
      } else if s[0] == '\'' {
        assert (e + rest)[1] == '#';
        assert !("&amp;" <= e + rest) && !("&lt;" <= e + rest) && !("&gt;" <= e + rest) && !("&quot;" <= e + rest);
        assert "&#39;" <= e + rest;
        assert (e + rest)[5..] == rest;
      } else {
        assert (e + rest)[0] == s[0];
        assert (e + rest)[1..] == rest;
      }
    }
  }

  /** Escaped text holds none of < > " ' and every & in it begins an entity,
      so it can sit between tags and inside quoted attributes. */
  lemma {:induction false} EscapedIsSafe(s: string)
    ensures forall i | 0 <= i < |EscapeXml(s)| :: EscapeXml(s)[i] !in "<>\"'"
    ensures forall i | 0 <= i < |EscapeXml(s)| && EscapeXml(s)[i] == '&' :: StartsEntity(EscapeXml(s)[i..])
  {
    if s != [] {
      var e, rest := EscapeChar(s[0]), EscapeXml(s[1..]);
      var r := EscapeXml(s);
      assert r == e + rest;
      EscapedIsSafe(s[1..]);
      forall i | 0 <= i < |r|
        ensures r[i] !in "<>\"'"
        ensures r[i] == '&' ==> StartsEntity(r[i..])
      {
        if i < |e| {
          assert r[i] == e[i];
          if r[i] == '&' {
            assert i == 0;
            assert e <= r[i..];
          }
        } else {
          assert r[i] == rest[i - |e|];
          assert r[i..] == rest[i - |e|..];
        }
      }
    }
  }

  // ------------------------------------------------------------ element templates

  /** One attribute as the templates write it: a space, the name, `="`, the
      value and the closing quote. */
  function Attr(key: string, value: string): string
  {
    " " + key + "=\"" + value + "\""
  }

  /** The attributes of an element, in order. */
  function Attrs(kvs: seq<(string, string)>): string
  {
    if kvs == [] then "" else Attr(kvs[0].0, kvs[0].1) + Attrs(kvs[1..])
  }

  /** An element: the tag opened with its attributes, then `close` (`"/>"`
      for an empty element, the content and the end tag otherwise). */
  function Element(tag: string, kvs: seq<(string, string)>, close: string): string
  {
    "<" + tag + Attrs(kvs) + close
  }

  /** The end of a text element holding `content`. */
  function TextEnd(content: string): string
  {
    ">" + content + "</text>"
  }

  /** `s` opens a `tag` element. */
  predicate Opens(s: string, tag: string)
  {
    "<" + tag <= s
  }

  /** `part` occurs somewhere in `s`. */
  predicate Contains(s: string, part: string)
    decreases |s|
  {
    part <= s || (s != [] && Contains(s[1..], part))
  }

  /** The markup carries the attribute `key` with the value `value`. */
  predicate HasAttr(s: string, key: string, value: string)
  {
    Contains(s, Attr(key, value))
  }

  /** `s` ends with `tail`. */
  predicate EndsWith(s: string, tail: string)
  {
    |tail| <= |s| && s[|s| - |tail|..] == tail
  }

  lemma {:induction false} ContainsBefore(s: string, b: string, part: string)
    requires Contains(s, part)
    ensures Contains(s + b, part)
    decreases |s|
  {
    if part <= s {
      assert (s + b)[..|part|] == s[..|part|];
    } else {
      assert (s + b)[1..] == s[1..] + b;
      ContainsBefore(s[1..], b, part);
    }
  }

  lemma {:induction false} ContainsAfter(a: string, s: string, part: string)
    requires Contains(s, part)
    ensures Contains(a + s, part)
    decreases |a|
  {
    if a == [] {
      assert a + s == s;
    } else {
      assert (a + s)[1..] == a[1..] + s;
      ContainsAfter(a[1..], s, part);
    }
  }

  lemma ContainsWithin(a: string, s: string, b: string, part: string)
    requires Contains(s, part)
    ensures Contains(a + s + b, part)
  {
    ContainsBefore(s, b, part);
    ContainsAfter(a, s + b, part);
    assert a + s + b == a + (s + b);
  }

  lemma {:induction false} AttrsHas(kvs: seq<(string, string)>, key: string, value: string)
    requires (key, value) in kvs
    ensures HasAttr(Attrs(kvs), key, value)
  {
    var x := Attr(kvs[0].0, kvs[0].1);
    if kvs[0] == (key, value) {
      assert Attrs(kvs) == "" + x + Attrs(kvs[1..]);
      assert x <= x;
      ContainsWithin("", x, Attrs(kvs[1..]), x);
    } else {
      AttrsHas(kvs[1..], key, value);
      assert Attrs(kvs) == x + Attrs(kvs[1..]) + "";
      ContainsWithin(x, Attrs(kvs[1..]), "", Attr(key, value));
    }
  }

  /** An element opens its tag and ends with its closing part. */
  lemma ElementEnds(tag: string, kvs: seq<(string, string)>, close: string)
    ensures Opens(Element(tag, kvs, close), tag)
    ensures EndsWith(Element(tag, kvs, close), close)
  {
    var e := Element(tag, kvs, close);
    assert e == ("<" + tag) + (Attrs(kvs) + close);
    assert e[|e| - |close|..] == close;
  }

  /** An element carries each of its attributes. */
  lemma ElementHas(tag: string, kvs: seq<(string, string)>, close: string, i: nat)
    requires i < |kvs|
    ensures HasAttr(Element(tag, kvs, close), kvs[i].0, kvs[i].1)
  {
    AttrsHas(kvs, kvs[i].0, kvs[i].1);
    ContainsWithin("<" + tag, Attrs(kvs), close, Attr(kvs[i].0, kvs[i].1));
  }

  /** What an element carries is still there with markup before and after it. */
  lemma Embedded(a: string, e: string, b: string, key: string, value: string)
    requires HasAttr(e, key, value)
    ensures HasAttr(a + e + b, key, value)
  {
    ContainsWithin(a, e, b, Attr(key, value));
  }

  lemma EndsWithAppend(a: string, b: string)
    ensures EndsWith(a + b, b)
  {
    assert (a + b)[|a + b| - |b|..] == b;
  }

  /** generateRectangleSVG. */
  function RectangleSvg(info: NodeInfo, num: Numerics): string
  {
    Element("rect", RectangleAttrs(info, num), "/>")
  }

  function RectangleAttrs(info: NodeInfo, num: Numerics): seq<(string, string)>
  {
    var p := PaintOf(info.style);
    [("x", "0"), ("y", "0"), ("width", num.show(Width(info))), ("height", num.show(Height(info))),
     ("rx", num.show(CornerRadius(info))), ("fill", p.fill), ("stroke", p.stroke), ("stroke-width", num.show(p.strokeWidth))]
  }

  /** A rectangle is an empty rect at the origin with the node's drawn size,
      the shape's corner radius and the style's paint. */
  lemma RectangleDrawn(info: NodeInfo, num: Numerics)
    ensures var r := RectangleSvg(info, num); var p := PaintOf(info.style);
      && Opens(r, "rect") && EndsWith(r, "/>")
      && HasAttr(r, "x", "0") && HasAttr(r, "y", "0")
      && HasAttr(r, "width", num.show(Width(info))) && HasAttr(r, "height", num.show(Height(info)))
      && HasAttr(r, "rx", num.show(CornerRadius(info)))
      && HasAttr(r, "fill", p.fill) && HasAttr(r, "stroke", p.stroke) && HasAttr(r, "stroke-width", num.show(p.strokeWidth))
  {
    var kvs := RectangleAttrs(info, num);
    ElementEnds("rect", kvs, "/>");
    ElementHas("rect", kvs, "/>", 0);
    ElementHas("rect", kvs, "/>", 1);
    ElementHas("rect", kvs, "/>", 2);
    ElementHas("rect", kvs, "/>", 3);
    ElementHas("rect", kvs, "/>", 4);
    ElementHas("rect", kvs, "/>", 5);
    ElementHas("rect", kvs, "/>", 6);
    ElementHas("rect", kvs, "/>", 7);
  }

  /** generateOvalSVG. */
  function OvalSvg(info: NodeInfo, num: Numerics): string
  {
    Element("ellipse", OvalAttrs(info, num), "/>")
  }

  function OvalAttrs(info: NodeInfo, num: Numerics): seq<(string, string)>
  {
    var e := EllipseOf(info);
    var p := PaintOf(info.style);
    [("cx", num.show(e.0)), ("cy", num.show(e.1)), ("rx", num.show(e.2)), ("ry", num.show(e.3)),
     ("fill", p.fill), ("stroke", p.stroke), ("stroke-width", num.show(p.strokeWidth))]
  }

  /** An oval is the ellipse inscribed in the node's drawn box, with the
      style's paint. */
  lemma OvalDrawn(info: NodeInfo, num: Numerics)
    ensures var r := OvalSvg(info, num); var p := PaintOf(info.style);
      && Opens(r, "ellipse") && EndsWith(r, "/>")
      && HasAttr(r, "cx", num.show(Width(info) / 2.0)) && HasAttr(r, "cy", num.show(Height(info) / 2.0))
      && HasAttr(r, "rx", num.show(Width(info) / 2.0)) && HasAttr(r, "ry", num.show(Height(info) / 2.0))
      && HasAttr(r, "fill", p.fill) && HasAttr(r, "stroke", p.stroke) && HasAttr(r, "stroke-width", num.show(p.strokeWidth))
  {
    var kvs := OvalAttrs(info, num);
    ElementEnds("ellipse", kvs, "/>");
    ElementHas("ellipse", kvs, "/>", 0);
    ElementHas("ellipse", kvs, "/>", 1);
    ElementHas("ellipse", kvs, "/>", 2);
    ElementHas("ellipse", kvs, "/>", 3);
    ElementHas("ellipse", kvs, "/>", 4);
    ElementHas("ellipse", kvs, "/>", 5);
    ElementHas("ellipse", kvs, "/>", 6);
  }

  /** generateTextSVG: the content is escaped, the attributes are not. */
  function TextSvg(info: NodeInfo, num: Numerics): string
  {
    var t := TextOfInfo(info);
    Element("text", TextAttrs(t, num), TextEnd(EscapeXmlChain(t.content)))
  }

  function TextAttrs(t: TextInfo, num: Numerics): seq<(string, string)>
  {
    [("x", num.show(10.0)), ("y", num.show(t.fontSize + 5.0)), ("font-family", t.fontFamily),
     ("font-size", num.show(t.fontSize)), ("fill", t.color)]
  }

  /** A text element sits at x 10 with its baseline 5 below the font size,
      in the record's font, size and colour, and ends with the content. */
  lemma TextDrawn(info: NodeInfo, num: Numerics)
    ensures var r := TextSvg(info, num); var t := TextOfInfo(info);
      && Opens(r, "text") && EndsWith(r, TextEnd(EscapeXmlChain(t.content)))
      && HasAttr(r, "x", num.show(10.0)) && HasAttr(r, "y", num.show(t.fontSize + 5.0))
      && HasAttr(r, "font-family", t.fontFamily) && HasAttr(r, "font-size", num.show(t.fontSize))
      && HasAttr(r, "fill", t.color)
  {
    var t := TextOfInfo(info);
    var kvs := TextAttrs(t, num);
    var close := TextEnd(EscapeXmlChain(t.content));
    ElementEnds("text", kvs, close);
    ElementHas("text", kvs, close, 0);
    ElementHas("text", kvs, close, 1);
    ElementHas("text", kvs, close, 2);
    ElementHas("text", kvs, close, 3);
    ElementHas("text", kvs, close, 4);
  }

  /** The box of a placeholder: the node's drawn size, the given fill and
      stroke, a 1-wide stroke, dashed on request. */
  function PlaceholderBox(info: NodeInfo, num: Numerics, fill: string, stroke: string, dashed: bool): seq<(string, string)>
  {
    var w, h := num.show(Width(info)), num.show(Height(info));
    if dashed then
      [("x", "0"), ("y", "0"), ("width", w), ("height", h), ("fill", fill), ("stroke", stroke), ("stroke-width", "1"),
       ("stroke-dasharray", "3,3")]
    else
      [("x", "0"), ("y", "0"), ("width", w), ("height", h), ("fill", fill), ("stroke", stroke), ("stroke-width", "1")]
  }

  /** The caption of a placeholder: Arial, centred in the box. */
  function CaptionAttrs(info: NodeInfo, num: Numerics, fontSize: string, captionFill: string): seq<(string, string)>
  {
    [("x", num.show(Width(info) / 2.0)), ("y", num.show(Height(info) / 2.0)), ("font-family", "Arial"),
     ("font-size", fontSize), ("fill", captionFill), ("text-anchor", "middle"), ("dominant-baseline", "middle")]
  }

  /** The box with a centred caption that stands in for a node. */
  function Placeholder(info: NodeInfo, num: Numerics, fill: string, stroke: string, dashed: bool,
                       fontSize: string, captionFill: string, caption: string): string
  {
    Pair(Element("rect", PlaceholderBox(info, num, fill, stroke, dashed), "/>"),
         Element("text", CaptionAttrs(info, num, fontSize, captionFill), TextEnd(caption)))
  }

  /** A placeholder is a box of the node's drawn size in the given colours,
      dashed when asked, followed by its caption, centred and unescaped. */
  lemma PlaceholderDrawn(info: NodeInfo, num: Numerics, fill: string, stroke: string, dashed: bool,
                         fontSize: string, captionFill: string, caption: string)
    ensures var r := Placeholder(info, num, fill, stroke, dashed, fontSize, captionFill, caption);
      && Opens(r, "rect") && EndsWith(r, TextEnd(caption))
      && HasAttr(r, "width", num.show(Width(info))) && HasAttr(r, "height", num.show(Height(info)))
      && HasAttr(r, "fill", fill) && HasAttr(r, "stroke", stroke)
      && (dashed ==> HasAttr(r, "stroke-dasharray", "3,3"))
      && HasAttr(r, "text-anchor", "middle") && HasAttr(r, "font-size", fontSize)
  {
    var box := PlaceholderBox(info, num, fill, stroke, dashed);
    var cap := CaptionAttrs(info, num, fontSize, captionFill);
    var b := Element("rect", box, "/>");
    var c := Element("text", cap, TextEnd(caption));
    ElementEnds("rect", box, "/>");
    ElementEnds("text", cap, TextEnd(caption));
    PairShape(b, c, "rect", TextEnd(caption));
    ElementHas("rect", box, "/>", 2);
    PairHasFirst(b, c, "width", num.show(Width(info)));
    ElementHas("rect", box, "/>", 3);
    PairHasFirst(b, c, "height", num.show(Height(info)));
    ElementHas("rect", box, "/>", 4);
    PairHasFirst(b, c, "fill", fill);
    ElementHas("rect", box, "/>", 5);
    PairHasFirst(b, c, "stroke", stroke);
    if dashed {
      ElementHas("rect", box, "/>", 7);
      PairHasFirst(b, c, "stroke-dasharray", "3,3");
    }
    ElementHas("text", cap, TextEnd(caption), 3);
    PairHasSecond(b, c, "font-size", fontSize);
    ElementHas("text", cap, TextEnd(caption), 5);
    PairHasSecond(b, c, "text-anchor", "middle");
  }

  /** Two elements on consecutive lines, as the placeholders write them. */
  function Pair(first: string, second: string): string
  {
    first + Indent + second
  }

  /** A pair opens as its first element does, ends as its second does and
      carries the attributes of both. */
  lemma PairShape(first: string, second: string, tag: string, close: string)
    requires Opens(first, tag) && EndsWith(second, close)
    ensures Opens(Pair(first, second), tag) && EndsWith(Pair(first, second), close)
  {
    var r := Pair(first, second);
    assert r == first + (Indent + second);
    assert r[|r| - |close|..] == second[|second| - |close|..];
  }

  lemma PairHasFirst(first: string, second: string, key: string, value: string)
    requires HasAttr(first, key, value)
    ensures HasAttr(Pair(first, second), key, value)
  {
    Embedded("", first, Indent + second, key, value);
    assert "" + first + (Indent + second) == Pair(first, second);
  }

  lemma PairHasSecond(first: string, second: string, key: string, value: string)
    requires HasAttr(second, key, value)
    ensures HasAttr(Pair(first, second), key, value)
  {
    Embedded(first + Indent, second, "", key, value);
    assert first + Indent + second + "" == Pair(first, second);
  }

  /** generateSymbolInstanceSVG. */
  function SymbolInstanceSvg(info: NodeInfo, num: Numerics): string
  {
    Placeholder(info, num, "#e0e0e0", "#999999", true, "10", "#666666", "Symbol")
  }

  /** The group placeholder shown when no child produced markup. */
  function GroupPlaceholder(info: NodeInfo, num: Numerics): string
  {
    Placeholder(info, num, "#f8f8f8", "#cccccc", true, "12", "#999999", "Group")
  }

  /** generateDefaultShapeSVG: the node's type, unescaped, as the caption. */
  function DefaultShapeSvg(info: NodeInfo, num: Numerics): string
  {
    Placeholder(info, num, "#f0f0f0", "#cccccc", false, "10", "#999999", info.nodeType)
  }

  /** A symbol instance is a grey dashed box captioned "Symbol", a group
      without child markup a light dashed box captioned "Group", and the
      default box a plain one captioned with the node's type. */
  lemma PlaceholdersDrawn(info: NodeInfo, num: Numerics)
    ensures var r := SymbolInstanceSvg(info, num);
      EndsWith(r, TextEnd("Symbol")) && HasAttr(r, "fill", "#e0e0e0") && HasAttr(r, "stroke-dasharray", "3,3")
    ensures var r := GroupPlaceholder(info, num);
      EndsWith(r, TextEnd("Group")) && HasAttr(r, "fill", "#f8f8f8") && HasAttr(r, "stroke-dasharray", "3,3")
    ensures var r := DefaultShapeSvg(info, num);
      && EndsWith(r, TextEnd(info.nodeType)) && HasAttr(r, "fill", "#f0f0f0") && HasAttr(r, "stroke", "#cccccc")
      && HasAttr(r, "width", num.show(Width(info))) && HasAttr(r, "height", num.show(Height(info)))
  {
    PlaceholderDrawn(info, num, "#e0e0e0", "#999999", true, "10", "#666666", "Symbol");
    PlaceholderDrawn(info, num, "#f8f8f8", "#cccccc", true, "12", "#999999", "Group");
    PlaceholderDrawn(info, num, "#f0f0f0", "#cccccc", false, "10", "#999999", info.nodeType);
  }

  /** generateArtboardSVG: the name is not escaped. */
  function ArtboardSvg(info: NodeInfo, num: Numerics): string
  {
    Pair(Element("rect", ArtboardBox(info, num), "/>"), Element("text", ArtboardCaption(), ArtboardClose(info)))
  }

  function ArtboardBox(info: NodeInfo, num: Numerics): seq<(string, string)>
  {
    [("x", "0"), ("y", "0"), ("width", num.show(Width(info))), ("height", num.show(Height(info))),
     ("fill", ArtboardBackground(info.style)), ("stroke", "#dddddd"), ("stroke-width", "2")]
  }

  function ArtboardCaption(): seq<(string, string)>
  {
    [("x", "10"), ("y", "20"), ("font-family", "Arial"), ("font-size", "12"), ("fill", "#666666")]
  }

  function ArtboardClose(info: NodeInfo): string
  {
    TextEnd(StrOr(Some(info.name), "Artboard"))
  }

  /** An artboard is a box of its drawn size in its background colour with a
      2-wide light border, followed by its name ("Artboard" when empty). */
  lemma ArtboardDrawn(info: NodeInfo, num: Numerics)
    ensures var r := ArtboardSvg(info, num);
      && Opens(r, "rect") && EndsWith(r, TextEnd(StrOr(Some(info.name), "Artboard")))
      && HasAttr(r, "width", num.show(Width(info))) && HasAttr(r, "height", num.show(Height(info)))
      && HasAttr(r, "fill", ArtboardBackground(info.style)) && HasAttr(r, "stroke", "#dddddd")
      && HasAttr(r, "stroke-width", "2")
  {
    var box := ArtboardBox(info, num);
    var close := ArtboardClose(info);
    var b := Element("rect", box, "/>");
    var c := Element("text", ArtboardCaption(), close);
    ElementEnds("rect", box, "/>");
    ElementEnds("text", ArtboardCaption(), close);
    PairShape(b, c, "rect", close);
    ElementHas("rect", box, "/>", 2);
    PairHasFirst(b, c, "width", num.show(Width(info)));
    ElementHas("rect", box, "/>", 3);
    PairHasFirst(b, c, "height", num.show(Height(info)));
    ElementHas("rect", box, "/>", 4);
    PairHasFirst(b, c, "fill", ArtboardBackground(info.style));
    ElementHas("rect", box, "/>", 5);
    PairHasFirst(b, c, "stroke", "#dddddd");
    ElementHas("rect", box, "/>", 6);
    PairHasFirst(b, c, "stroke-width", "2");
  }

  /** generateShapePathSVG: a `<path>` when path data is given (and not
      empty), the default placeholder otherwise. */
  function ShapePathSvg(info: NodeInfo, pathData: Option<string>, num: Numerics): (r: string)
    ensures pathData.None? || pathData == Some("") ==> r == DefaultShapeSvg(info, num)
  {
    if pathData.None? || pathData.value == "" then DefaultShapeSvg(info, num)
    else Element("path", PathAttrs(pathData.value, PaintOf(info.style), num), "/>")
  }

  function PathAttrs(pathData: string, p: ShapePaint, num: Numerics): seq<(string, string)>
  {
    [("d", pathData), ("fill", p.fill), ("stroke", p.stroke), ("stroke-width", num.show(p.strokeWidth))]
  }

  /** With path data, a shape path is an empty path element carrying that
      data and the style's paint. */
  lemma ShapePathDrawn(info: NodeInfo, pathData: string, num: Numerics)
    requires pathData != ""
    ensures var r := ShapePathSvg(info, Some(pathData), num); var p := PaintOf(info.style);
      && Opens(r, "path") && EndsWith(r, "/>")
      && HasAttr(r, "d", pathData)
      && HasAttr(r, "fill", p.fill) && HasAttr(r, "stroke", p.stroke) && HasAttr(r, "stroke-width", num.show(p.strokeWidth))
  {
    var kvs := PathAttrs(pathData, PaintOf(info.style), num);
    ElementEnds("path", kvs, "/>");
    ElementHas("path", kvs, "/>", 0);
    ElementHas("path", kvs, "/>", 1);
    ElementHas("path", kvs, "/>", 2);
    ElementHas("path", kvs, "/>", 3);
  }

  // ------------------------------------------------------------ groups

  /** A child's markup wrapped in its own translated group; nothing for a
      child that rendered to nothing. */
  function Wrapped(child: string): string
  {
    if child == "" then "" else GroupWrapperOpen + child + "</g>"
  }

  /** The markup of the children, in order. */
  function ChildrenMarkup(ids: seq<string>, render: string -> string): string
  {
    if ids == [] then "" else ChildrenMarkup(ids[..|ids| - 1], render) + Wrapped(render(ids[|ids| - 1]))
  }

  /** The children a group record lists (none for other records). */
  function ChildrenOf(info: NodeInfo): seq<string>
  {
    if info.kindInfo.ChildrenKind? then info.kindInfo.children else []
  }

  /** generateGroupSVG: the children's markup behind an invisible background
      when a renderer is given and some child produced markup, the group
      placeholder otherwise. */
  function GroupSvg(info: NodeInfo, render: Option<string -> string>, num: Numerics): string
  {
    var kids := if render.Some? then ChildrenMarkup(ChildrenOf(info), render.value) else "";
    if kids != "" then GroupBackground(info, num) + kids else GroupPlaceholder(info, num)
  }

  /** The invisible box behind a group's children. */
  function GroupBackground(info: NodeInfo, num: Numerics): string
  {
    Element("rect", [("x", "0"), ("y", "0"), ("width", num.show(Width(info))), ("height", num.show(Height(info))),
                     ("fill", "none"), ("stroke", "none")], "/>")
  }

  /** The children's markup is empty exactly when every child rendered to nothing. */
  lemma {:induction false} ChildrenMarkupEmpty(ids: seq<string>, render: string -> string)
    ensures ChildrenMarkup(ids, render) == "" <==> forall i | 0 <= i < |ids| :: render(ids[i]) == ""
  {
    if ids != [] {
      var init := ids[..|ids| - 1];
      ChildrenMarkupEmpty(init, render);
      assert forall i | 0 <= i < |init| :: init[i] == ids[i];
      var w := Wrapped(render(ids[|ids| - 1]));
      assert w == "" <==> render(ids[|ids| - 1]) == "";
      if forall i | 0 <= i < |ids| :: render(ids[i]) == "" {
        assert forall i | 0 <= i < |init| :: render(init[i]) == "";
      }
    }
  }

  /** The group is drawn as its placeholder exactly when no renderer is given
      or no child produced markup; otherwise the markup holds each rendering
      child, wrapped, after the background. */
  lemma GroupShowsChildren(info: NodeInfo, render: Option<string -> string>, num: Numerics)
    ensures render.None? ==> GroupSvg(info, render, num) == GroupPlaceholder(info, num)
    ensures render.Some? && (forall i | 0 <= i < |ChildrenOf(info)| :: render.value(ChildrenOf(info)[i]) == "")
            ==> GroupSvg(info, render, num) == GroupPlaceholder(info, num)
    ensures render.Some? && (exists i | 0 <= i < |ChildrenOf(info)| :: render.value(ChildrenOf(info)[i]) != "")
            ==> GroupSvg(info, render, num)
                == GroupBackground(info, num) + ChildrenMarkup(ChildrenOf(info), render.value)
  {
    if render.Some? {
      ChildrenMarkupEmpty(ChildrenOf(info), render.value);
    }
  }

  /** generateGroupSVG with its loop over the children. */
  method GenerateGroupSvg(info: NodeInfo, render: Option<string -> string>, num: Numerics) returns (svg: string)
    ensures svg == GroupSvg(info, render, num)
  {
    var childrenSvg := "";
    if render.Some? && info.kindInfo.ChildrenKind? {
      var ids := info.kindInfo.children;
      var i := 0;
      while i < |ids|
        invariant 0 <= i <= |ids|
        invariant childrenSvg == ChildrenMarkup(ids[..i], render.value)
      {
        var childSvg := render.value(ids[i]);
        assert ids[..i + 1][..i] == ids[..i];
        if childSvg != "" {
          childrenSvg := childrenSvg + (GroupWrapperOpen + childSvg + "</g>");
        }
        i := i + 1;
      }
      assert ids[..|ids|] == ids;
    }
    if childrenSvg != "" {
      var backgroundRect := GroupBackground(info, num);
      svg := backgroundRect + childrenSvg;
    } else {
      svg := GroupPlaceholder(info, num);
    }
  }

  // ------------------------------------------------------------ the renderer

  /** The element renderNodeAsSVG draws for a record, by type. Groups get no
      child renderer and shape paths no path data. */
  function Body(info: NodeInfo, num: Numerics): string
  {
    match info.nodeType
    case "rectangle" => RectangleSvg(info, num)
    case "shape" => RectangleSvg(info, num)
    case "oval" => OvalSvg(info, num)
    case "text" => TextSvg(info, num)
    case "symbolInstance" => SymbolInstanceSvg(info, num)
    case "group" => GroupSvg(info, None, num)
    case "artboard" => ArtboardSvg(info, num)
    case "shapePath" => ShapePathSvg(info, None, num)
    case _ => DefaultShapeSvg(info, num)
  }

  /** The `<svg>` root around an element. */
  function SvgDocument(info: NodeInfo, body: string, num: Numerics): string
  {
    Element("svg", DocumentAttrs(info, num), ">" + body + "</svg>")
  }

  function DocumentAttrs(info: NodeInfo, num: Numerics): seq<(string, string)>
  {
    [("width", num.show(Width(info))), ("height", num.show(Height(info))), ("xmlns", SvgNamespace)]
  }

  /** The result record for a finished document. */
  function ResultOf(info: NodeInfo, svg: string): (r: RenderResult)
    ensures r.svgContent == svg && r.format == "svg"
    ensures r.nodeId == info.id && r.name == info.name
    ensures r.width == Width(info) && r.height == Height(info)
    ensures DataUriPrefix <= r.imageData
    ensures Base64Decode(r.imageData[|DataUriPrefix|..]) == Some(Utf8(svg))
  {
    var r := RenderResult(info.id, info.name, "svg", Width(info), Height(info), DataUriPrefix + Base64(Utf8(svg)), svg);
    assert r.imageData[|DataUriPrefix|..] == Base64(Utf8(svg));
    Base64RoundTrip(Utf8(svg));
    r
  }

  /** What renderNodeAsSVG draws for each type: rectangles and shapes as a
      rounded rect, ovals as an ellipse, text as a text element, symbol
      instances as a "Symbol" placeholder, groups always as the "Group"
      placeholder (no child renderer is passed), artboards as a bordered box,
      and shape paths, like every other type, as the default box captioned
      with the type (no path data is passed). */
  lemma BodyByType(info: NodeInfo, num: Numerics)
    ensures var b := Body(info, num); var t := info.nodeType;
      && (t == "rectangle" || t == "shape" ==> Opens(b, "rect") && HasAttr(b, "rx", num.show(CornerRadius(info))))
      && (t == "oval" ==> Opens(b, "ellipse"))
      && (t == "text" ==> Opens(b, "text") && HasAttr(b, "font-family", TextOfInfo(info).fontFamily))
      && (t == "symbolInstance" ==> EndsWith(b, TextEnd("Symbol")))
      && (t == "group" ==> b == GroupPlaceholder(info, num) && EndsWith(b, TextEnd("Group")))
      && (t == "artboard" ==> HasAttr(b, "stroke", "#dddddd"))
      && (t !in {"rectangle", "shape", "oval", "text", "symbolInstance", "group", "artboard"}
          ==> b == DefaultShapeSvg(info, num) && EndsWith(b, TextEnd(t)))
  {
    var t := info.nodeType;
    if t == "rectangle" || t == "shape" {
      BodyRectangle(info, num);
    } else if t == "oval" {
      BodyOval(info, num);
    } else if t == "text" {
      BodyText(info, num);
    } else if t == "symbolInstance" {
      BodySymbol(info, num);
    } else if t == "group" {
      BodyGroup(info, num);
    } else if t == "artboard" {
      BodyArtboard(info, num);
    } else {
      BodyDefault(info, num);
    }
  }

  lemma BodyRectangle(info: NodeInfo, num: Numerics)
    requires info.nodeType == "rectangle" || info.nodeType == "shape"
    ensures Opens(Body(info, num), "rect") && HasAttr(Body(info, num), "rx", num.show(CornerRadius(info)))
  {
    RectangleDrawn(info, num);
  }

  lemma BodyOval(info: NodeInfo, num: Numerics)
    requires info.nodeType == "oval"
    ensures Opens(Body(info, num), "ellipse")
  {
    OvalDrawn(info, num);
  }

  lemma BodyText(info: NodeInfo, num: Numerics)
    requires info.nodeType == "text"
    ensures Opens(Body(info, num), "text") && HasAttr(Body(info, num), "font-family", TextOfInfo(info).fontFamily)
  {
    TextDrawn(info, num);
  }

  lemma BodySymbol(info: NodeInfo, num: Numerics)
    requires info.nodeType == "symbolInstance"
    ensures EndsWith(Body(info, num), TextEnd("Symbol"))
  {
    PlaceholdersDrawn(info, num);
  }

  lemma BodyGroup(info: NodeInfo, num: Numerics)
    requires info.nodeType == "group"
    ensures Body(info, num) == GroupPlaceholder(info, num) && EndsWith(Body(info, num), TextEnd("Group"))
  {
    PlaceholdersDrawn(info, num);
  }

  lemma BodyArtboard(info: NodeInfo, num: Numerics)
    requires info.nodeType == "artboard"
    ensures HasAttr(Body(info, num), "stroke", "#dddddd")
  {
    ArtboardDrawn(info, num);
  }

  lemma BodyDefault(info: NodeInfo, num: Numerics)
    requires info.nodeType !in {"rectangle", "shape", "oval", "text", "symbolInstance", "group", "artboard"}
    ensures Body(info, num) == DefaultShapeSvg(info, num) && EndsWith(Body(info, num), TextEnd(info.nodeType))
  {
    PlaceholdersDrawn(info, num);
  }

  /** renderNodeAsSVG: the result names the node, has its drawn size and the
      "svg" format, and its markup is the `<svg>` root of that size around
      the element drawn for the node's type. */
  function RenderNodeAsSvg(info: NodeInfo, num: Numerics): (r: RenderResult)
    ensures r.svgContent == SvgDocument(info, Body(info, num), num)
    ensures r.nodeId == info.id && r.name == info.name && r.format == "svg"
    ensures r.width == Width(info) && r.height == Height(info)
    ensures r.width != 0.0 && r.height != 0.0
  {
    ResultOf(info, SvgDocument(info, Body(info, num), num))
  }

  /** The data URI carries exactly the markup: its payload decodes, as
      base64 and then as UTF-8, back to `svgContent`. */
  lemma ImageDataDecodes(info: NodeInfo, num: Numerics)
    ensures var r := RenderNodeAsSvg(info, num);
      DataUriPrefix <= r.imageData
      && Base64Decode(r.imageData[|DataUriPrefix|..]).Some?
      && Utf8Decode(Base64Decode(r.imageData[|DataUriPrefix|..]).value) == Some(r.svgContent)
  {
    var r := RenderNodeAsSvg(info, num);
    Utf8RoundTrip(r.svgContent);
  }

  /** The root element around any body: an `<svg>` of the node's drawn size
      in the SVG namespace, ending with the body and the closing tag. */
  lemma DocumentShape(info: NodeInfo, body: string, num: Numerics)
    ensures var s := SvgDocument(info, body, num);
      && Opens(s, "svg") && EndsWith(s, body + "</svg>")
      && HasAttr(s, "width", num.show(Width(info))) && HasAttr(s, "height", num.show(Height(info)))
      && HasAttr(s, "xmlns", SvgNamespace)
  {
    var close := ">" + body + "</svg>";
    var s := SvgDocument(info, body, num);
    ElementEnds("svg", DocumentAttrs(info, num), close);
    ElementHas("svg", DocumentAttrs(info, num), close, 0);
    ElementHas("svg", DocumentAttrs(info, num), close, 1);
    ElementHas("svg", DocumentAttrs(info, num), close, 2);
    assert s[|s| - |body + "</svg>"|..] == close[1..];
  }

  /** A text node's content appears escaped at the end of its text element,
      with no raw markup character in it. */
  lemma TextIsEscaped(info: NodeInfo, num: Numerics)
    ensures var c := EscapeXml(TextOfInfo(info).content);
      EndsWith(TextSvg(info, num), TextEnd(c)) && forall i | 0 <= i < |c| :: c[i] !in "<>\"'"
  {
    var t := TextOfInfo(info);
    ChainIsEscape(t.content);
    EscapedIsSafe(t.content);
    TextDrawn(info, num);
  }
}
