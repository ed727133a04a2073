/** Path data from curve points as the legacy analyzer writes it: control
    points read as absolute positions, and a closing command whenever there
    are more than two points. */
module LegacyPath {
  import opened Wrappers
  import opened Js
  import opened Sketch
  import PathProcessor

  // ------------------------------------------------------------ path data

  /** A control point of the legacy path: the first two numbers of a
      `curveFrom`/`curveTo` text scaled to the frame, or the point itself when
      the field is not such a text. */
  function LegacyControl(c: Option<Coord>, end: PathProcessor.Point, w: real, h: real): (r: PathProcessor.Point)
    ensures !(c.Some? && c.value.CoordText? && |PathProcessor.Tokens(c.value.text)| >= 2) ==> r == end
  {
    if c.Some? && c.value.CoordText? && |PathProcessor.Tokens(c.value.text)| >= 2 then
      var tokens := PathProcessor.Tokens(c.value.text);
      PathProcessor.Point(ParseFloat(tokens[0]) * w, ParseFloat(tokens[1]) * h)
    else end
  }

  /** The command for point `i`: a move for the first point; after it a curve
      when a curve flag is truthy, with `curveFrom` and `curveTo` as its
      control points, else a line. */
  function LegacyCommandAt(points: seq<CurvePoint>, i: nat, w: real, h: real): PathProcessor.Command
    requires i < |points|
  {
    var end := PathProcessor.Absolute(points[i], w, h);
    if i == 0 then PathProcessor.MoveTo(end.x, end.y)
    else if IsTrue(points[i].hasCurveFrom) || IsTrue(points[i].hasCurveTo) then
      var cp1 := LegacyControl(points[i].curveFrom, end, w, h);
      var cp2 := LegacyControl(points[i].curveTo, end, w, h);
      PathProcessor.CurveTo(cp1.x, cp1.y, cp2.x, cp2.y, end.x, end.y)
    else PathProcessor.LineTo(end.x, end.y)
  }

  /** The first `n` values of `f`, in order. */
  function Tabulate<T>(n: nat, f: nat -> T): (r: seq<T>)
    ensures |r| == n && forall i | 0 <= i < n :: r[i] == f(i)
  {
    if n == 0 then [] else Tabulate(n - 1, f) + [f(n - 1)]
  }

  /** The commands of the first `n` points. */
  function LegacyCommands(points: seq<CurvePoint>, n: nat, w: real, h: real): (r: seq<PathProcessor.Command>)
    requires n <= |points|
    ensures |r| == n && forall i | 0 <= i < n :: r[i] == LegacyCommandAt(points, i, w, h)
  {
    Tabulate(n, (i: nat) => if i < |points| then LegacyCommandAt(points, i, w, h) else PathProcessor.Close)
  }

  /** The commands of all points, closed whenever there are more than two. */
  function LegacyPathCommands(points: seq<CurvePoint>, w: real, h: real): seq<PathProcessor.Command>
  {
    LegacyCommands(points, |points|, w, h) + (if |points| > 2 then [PathProcessor.Close] else [])
  }

  /** The text the legacy pointsToPathData returns. */
  function LegacyPathData(points: seq<CurvePoint>, frame: Option<Frame>, num: Numerics): string
  {
    if points == [] then ""
    else PathProcessor.Serialize(LegacyPathCommands(points, PathProcessor.FrameWidth(frame), PathProcessor.FrameHeight(frame)), num)
  }

  /** pointsToPathData with its loop over the points. */
  method LegacyPointsToPathData(points: seq<CurvePoint>, frame: Option<Frame>, num: Numerics) returns (pathData: string)
    ensures pathData == LegacyPathData(points, frame, num)
  {
    if |points| == 0 {
      return "";
    }
    var w := PathProcessor.FrameWidth(frame);
    var h := PathProcessor.FrameHeight(frame);
    pathData := "";
    ghost var done: seq<PathProcessor.Command> := [];
    for i := 0 to |points|
      invariant done == LegacyCommands(points, i, w, h)
      invariant pathData == PathProcessor.Serialize(done, num)
    {
      var text := LegacyWriteCommand(points, i, w, h, num);
      PathProcessor.AppendCommand(done, LegacyCommandAt(points, i, w, h), num);
      pathData := pathData + text;
      done := done + [LegacyCommandAt(points, i, w, h)];
    }
    if |points| > 2 {
      PathProcessor.AppendCommand(done, PathProcessor.Close, num);
      done := done + [PathProcessor.Close];
      pathData := pathData + " Z";
    } else {
      assert done + [] == done;
    }
  }

  /** The body of the legacy loop: the text of the command for point `i`. */
  method LegacyWriteCommand(points: seq<CurvePoint>, i: nat, w: real, h: real, num: Numerics) returns (text: string)
    requires i < |points|
    ensures text == PathProcessor.CommandText(LegacyCommandAt(points, i, w, h), num)
  {
    var point := points[i];
    var end := PathProcessor.Absolute(point, w, h);
    if i == 0 {
      text := "M " + num.fixed2(end.x) + " " + num.fixed2(end.y);
    } else if IsTrue(point.hasCurveFrom) || IsTrue(point.hasCurveTo) {
      var cp1 := LegacyControl(point.curveFrom, end, w, h);
      var cp2 := LegacyControl(point.curveTo, end, w, h);
      text := " C " + num.fixed2(cp1.x) + " " + num.fixed2(cp1.y) + " " + num.fixed2(cp2.x) + " " + num.fixed2(cp2.y)
        + " " + num.fixed2(end.x) + " " + num.fixed2(end.y);
    } else {
      text := " L " + num.fixed2(end.x) + " " + num.fixed2(end.y);
    }
  }

  /** Empty input gives no path; otherwise one command per point, a curve
      exactly where a curve flag is set, its control points falling back to
      the point itself, and a closing command exactly when there are more
      than two points, wherever the last point lies. */
  lemma LegacyPathShape(points: seq<CurvePoint>, frame: Option<Frame>, num: Numerics)
    ensures LegacyPathData(points, frame, num) == "" <==> points == []
    ensures points != [] ==>
      var w, h := PathProcessor.FrameWidth(frame), PathProcessor.FrameHeight(frame);
      var r := LegacyPathCommands(points, w, h);
      && |r| == |points| + (if |points| > 2 then 1 else 0)
      && r[0] == PathProcessor.MoveTo(PathProcessor.Absolute(points[0], w, h).x, PathProcessor.Absolute(points[0], w, h).y)
      && (forall i | 1 <= i < |points| ::
            && (r[i].CurveTo? <==> IsTrue(points[i].hasCurveFrom) || IsTrue(points[i].hasCurveTo))
            && (r[i].CurveTo? || r[i].LineTo?)
            && r[i].x == PathProcessor.Absolute(points[i], w, h).x
            && (r[i].CurveTo? && !(points[i].curveFrom.Some? && points[i].curveFrom.value.CoordText?) ==>
                  r[i].x1 == r[i].x && r[i].y1 == r[i].y))
      && (r[|r| - 1] == PathProcessor.Close <==> |points| > 2)
  {
    if points != [] {
      var w, h := PathProcessor.FrameWidth(frame), PathProcessor.FrameHeight(frame);
      var r := LegacyPathCommands(points, w, h);
      assert PathProcessor.CommandText(r[0], num) != "";
      SerializeNonEmpty(r, num);
    }
  }

  lemma SerializeNonEmpty(cmds: seq<PathProcessor.Command>, num: Numerics)
    requires cmds != [] && cmds[0].MoveTo?
    ensures PathProcessor.Serialize(cmds, num) != ""
  {
    PrefixSerialized(cmds, 1, num);
    assert cmds[..1] == [cmds[0]];
    assert [cmds[0]][..0] == [];
  }

  /** The text of a prefix of the commands is a prefix of their text. */
  lemma {:induction false} PrefixSerialized(cmds: seq<PathProcessor.Command>, n: nat, num: Numerics)
    requires n <= |cmds|
    ensures |PathProcessor.Serialize(cmds[..n], num)| <= |PathProcessor.Serialize(cmds, num)|
    decreases |cmds|
  {
    if n < |cmds| {
      var init := cmds[..|cmds| - 1];
      assert init[..n] == cmds[..n];
      PrefixSerialized(init, n, num);
    } else {
      assert cmds[..n] == cmds;
    }
  }

  /** Wherever the modular path closes, the legacy one closes too. */
  lemma LegacyClosesWhenModularDoes(points: seq<CurvePoint>, w: real, h: real)
    requires points != [] && PathProcessor.ShouldClosePath(points)
    ensures var r := LegacyPathCommands(points, w, h);
            r[|r| - 1] == PathProcessor.Close && |r| == |PathProcessor.PathCommands(points, w, h)|
  {
  }

}

/** The legacy SVG builders: path data from curve points, the element
    templates a group draws its children with, the text element and the
    group itself, which places up to five children inside its box. */
module LegacyRender {
  import opened Wrappers
  import opened Js
  import opened Sketch
  import PathProcessor
  import SvgRenderer
  import opened LegacyStyle
  import opened LegacyPath

  // ------------------------------------------------------------ XML escaping

  /** escapeXML as written here: five global replacements, ampersand first,
      the apostrophe written as `&apos;`. */
  function LegacyEscapeChain(s: string): string
  {
    SvgRenderer.ReplaceAll(SvgRenderer.ReplaceAll(SvgRenderer.ReplaceAll(SvgRenderer.ReplaceAll(SvgRenderer.ReplaceAll(
      s, '&', "&amp;"), '<', "&lt;"), '>', "&gt;"), '"', "&quot;"), '\'', "&apos;")
  }

  function LegacyEscapeChar(c: char): string
  {
    if c == '\'' then "&apos;" else SvgRenderer.EscapeChar(c)
  }

  /** The reference definition: each character escaped on its own. */
  function LegacyEscape(s: string): string
  {
    if s == [] then [] else LegacyEscapeChar(s[0]) + LegacyEscape(s[1..])
  }

  lemma LegacyChainAppend(a: string, b: string)
    ensures LegacyEscapeChain(a + b) == LegacyEscapeChain(a) + LegacyEscapeChain(b)
  {
    var a1, b1 := SvgRenderer.ReplaceAll(a, '&', "&amp;"), SvgRenderer.ReplaceAll(b, '&', "&amp;");
    SvgRenderer.ReplaceAllAppend(a, b, '&', "&amp;");
    var a2, b2 := SvgRenderer.ReplaceAll(a1, '<', "&lt;"), SvgRenderer.ReplaceAll(b1, '<', "&lt;");
    SvgRenderer.ReplaceAllAppend(a1, b1, '<', "&lt;");
    var a3, b3 := SvgRenderer.ReplaceAll(a2, '>', "&gt;"), SvgRenderer.ReplaceAll(b2, '>', "&gt;");
    SvgRenderer.ReplaceAllAppend(a2, b2, '>', "&gt;");
    var a4, b4 := SvgRenderer.ReplaceAll(a3, '"', "&quot;"), SvgRenderer.ReplaceAll(b3, '"', "&quot;");
    SvgRenderer.ReplaceAllAppend(a3, b3, '"', "&quot;");
    SvgRenderer.ReplaceAllAppend(a4, b4, '\'', "&apos;");
  }

  /** Once a character has become `e`, the later replacements leave it alone. */
  lemma LegacyChainRest(e: string, from: nat)
    requires 1 <= from <= 4
    requires from <= 1 ==> '<' !in e
    requires from <= 2 ==> '>' !in e
    requires from <= 3 ==> '"' !in e
    requires '\'' !in e
    ensures from == 1 ==> SvgRenderer.ReplaceAll(SvgRenderer.ReplaceAll(SvgRenderer.ReplaceAll(SvgRenderer.ReplaceAll(
                            e, '<', "&lt;"), '>', "&gt;"), '"', "&quot;"), '\'', "&apos;") == e
    ensures from == 2 ==> SvgRenderer.ReplaceAll(SvgRenderer.ReplaceAll(SvgRenderer.ReplaceAll(
                            e, '>', "&gt;"), '"', "&quot;"), '\'', "&apos;") == e
    ensures from == 3 ==> SvgRenderer.ReplaceAll(SvgRenderer.ReplaceAll(e, '"', "&quot;"), '\'', "&apos;") == e
    ensures from == 4 ==> SvgRenderer.ReplaceAll(e, '\'', "&apos;") == e
  {
    if from <= 1 { SvgRenderer.ReplaceAbsent(e, '<', "&lt;"); }
    if from <= 2 { SvgRenderer.ReplaceAbsent(e, '>', "&gt;"); }
    if from <= 3 { SvgRenderer.ReplaceAbsent(e, '"', "&quot;"); }
    SvgRenderer.ReplaceAbsent(e, '\'', "&apos;");
  }

  lemma LegacyChainOnChar(x: char)
    ensures LegacyEscapeChain([x]) == LegacyEscapeChar(x)
  {
    SvgRenderer.ReplaceOne(x, '&', "&amp;");
    if x == '&' {
      LegacyChainRest("&amp;", 1);
    } else {
      SvgRenderer.ReplaceOne(x, '<', "&lt;");
      if x == '<' {
        LegacyChainRest("&lt;", 2);
      } else {
        SvgRenderer.ReplaceOne(x, '>', "&gt;");
        if x == '>' {
          LegacyChainRest("&gt;", 3);
        } else {
          SvgRenderer.ReplaceOne(x, '"', "&quot;");
          if x == '"' {
            LegacyChainRest("&quot;", 4);
          } else {
            SvgRenderer.ReplaceOne(x, '\'', "&apos;");
          }
        }
      }
    }
  }

  /** The chain of replacements escapes each character exactly once. */
  lemma {:induction false} LegacyChainIsEscape(s: string)
    ensures LegacyEscapeChain(s) == LegacyEscape(s)
  {
    if s != [] {
      assert s == [s[0]] + s[1..];
      LegacyChainAppend([s[0]], s[1..]);
      LegacyChainOnChar(s[0]);
      LegacyChainIsEscape(s[1..]);
    }
  }

  /** Both escapes agree on text without an apostrophe; on an apostrophe the
      legacy one writes `&apos;` where the modular one writes `&#39;`. */
  lemma {:induction false} LegacyEscapeAgrees(s: string)
    ensures '\'' !in s ==> LegacyEscapeChain(s) == SvgRenderer.EscapeXmlChain(s)
    ensures LegacyEscapeChain("'") == "&apos;" && SvgRenderer.EscapeXmlChain("'") == "&#39;"
  {
    LegacyChainIsEscape(s);
    SvgRenderer.ChainIsEscape(s);
    NoApostropheSame(s);
    LegacyChainOnChar('\'');
    SvgRenderer.ChainOnChar('\'');
  }

  lemma {:induction false} NoApostropheSame(s: string)
    ensures '\'' !in s ==> LegacyEscape(s) == SvgRenderer.EscapeXml(s)
  {
    if s != [] && '\'' !in s {
      assert s[0] in s;
      assert forall c | c in s[1..] :: c in s;
      NoApostropheSame(s[1..]);
    }
  }

  /** Escaped text holds none of < > " ', so it can sit between tags and
      inside quoted attributes. */
  lemma {:induction false} LegacyEscapedIsSafe(s: string)
    ensures forall i | 0 <= i < |LegacyEscapeChain(s)| :: LegacyEscapeChain(s)[i] !in "<>\"'"
  {
    LegacyChainIsEscape(s);
    EscapeSafe(s);
  }

  lemma {:induction false} EscapeSafe(s: string)
    ensures forall i | 0 <= i < |LegacyEscape(s)| :: LegacyEscape(s)[i] !in "<>\"'"
  {
    if s != [] {
      var e, rest := LegacyEscapeChar(s[0]), LegacyEscape(s[1..]);
      EscapeSafe(s[1..]);
      assert LegacyEscape(s) == e + rest;
      assert forall i | 0 <= i < |e| :: e[i] !in "<>\"'";
    }
  }

  // ------------------------------------------------------------ element templates

  /** `size.width || 100`. */
  function Width(info: NodeRecord): real
  {
    NumOr(Some(info.width), 100.0)
  }

  /** `size.height || 100`. */
  function Height(info: NodeRecord): real
  {
    NumOr(Some(info.height), 100.0)
  }

  /** The fill and stroke of a rectangle or an oval: the first fill's colour
      when that fill is enabled and has a colour, #cccccc otherwise (a later
      enabled fill is not looked at); a stroke only when the first border is
      enabled, in its colour (#000000 without one) and thickness (1 when 0). */
  function PaintOf(style: Option<StyleRecord>): (p: SvgRenderer.ShapePaint)
    ensures var f := if style.Some? && style.value.fills.Some? && style.value.fills.value != []
                     then Some(style.value.fills.value[0]) else None;
      && (f.Some? && f.value.isEnabled && f.value.color.Some? && f.value.color.value.hex != "" ==>
            p.fill == f.value.color.value.hex)
      && (!(f.Some? && f.value.isEnabled && f.value.color.Some?) ==> p.fill == "#cccccc")
    ensures var b := if style.Some? && style.value.borders.Some? && style.value.borders.value != []
                     then Some(style.value.borders.value[0]) else None;
      && (!(b.Some? && b.value.isEnabled) ==> p.stroke == "none")
      && (p.strokeWidth != 0.0 <==> b.Some? && b.value.isEnabled)
      && (b.Some? && b.value.isEnabled && b.value.color.Some? && b.value.color.value.hex != "" ==>
            p.stroke == b.value.color.value.hex)
  {
    var fill :=
      if style.Some? && style.value.fills.Some? && style.value.fills.value != [] then
        var f := style.value.fills.value[0];
        if f.color.Some? && f.isEnabled then StrOr(Some(f.color.value.hex), "#cccccc") else "#cccccc"
      else "#cccccc";
    if style.Some? && style.value.borders.Some? && style.value.borders.value != [] && style.value.borders.value[0].isEnabled then
      var b := style.value.borders.value[0];
      SvgRenderer.ShapePaint(fill, if b.color.Some? then StrOr(Some(b.color.value.hex), "#000000") else "#000000",
                             NumOr(Some(b.thickness), 1.0))
    else SvgRenderer.ShapePaint(fill, "none", 0.0)
  }

  /** `shape.cornerRadius` when the record has a truthy one, else 0. */
  function CornerRadius(info: NodeRecord): real
  {
    if info.shape.Some? then NumOr(info.shape.value.cornerRadius, 0.0) else 0.0
  }

  /** generateRectangleSVG. */
  function RectSvg(info: NodeRecord, num: Numerics): string
  {
    SvgRenderer.Element("rect", RectAttrs(info, num), "/>")
  }

  function RectAttrs(info: NodeRecord, num: Numerics): seq<(string, string)>
  {
    var p := PaintOf(info.style);
    [("x", "0"), ("y", "0"), ("width", num.show(Width(info))), ("height", num.show(Height(info))),
     ("rx", num.show(CornerRadius(info))), ("fill", p.fill), ("stroke", p.stroke), ("stroke-width", num.show(p.strokeWidth))]
  }

  /** A rectangle is an empty rect at the origin with the record's size (100
      when 0), its corner radius and the paint of its style. */
  lemma RectDrawn(info: NodeRecord, num: Numerics)
    ensures var r := RectSvg(info, num); var p := PaintOf(info.style);
      && SvgRenderer.Opens(r, "rect") && SvgRenderer.EndsWith(r, "/>")
      && SvgRenderer.HasAttr(r, "x", "0") && SvgRenderer.HasAttr(r, "y", "0")
      && SvgRenderer.HasAttr(r, "width", num.show(Width(info))) && SvgRenderer.HasAttr(r, "height", num.show(Height(info)))
      && SvgRenderer.HasAttr(r, "rx", num.show(CornerRadius(info)))
      && SvgRenderer.HasAttr(r, "fill", p.fill) && SvgRenderer.HasAttr(r, "stroke", p.stroke)
      && SvgRenderer.HasAttr(r, "stroke-width", num.show(p.strokeWidth))
  {
    var kvs := RectAttrs(info, num);
    SvgRenderer.ElementEnds("rect", kvs, "/>");
    SvgRenderer.ElementHas("rect", kvs, "/>", 0);
    SvgRenderer.ElementHas("rect", kvs, "/>", 1);
    SvgRenderer.ElementHas("rect", kvs, "/>", 2);
    SvgRenderer.ElementHas("rect", kvs, "/>", 3);
    SvgRenderer.ElementHas("rect", kvs, "/>", 4);
    SvgRenderer.ElementHas("rect", kvs, "/>", 5);
    SvgRenderer.ElementHas("rect", kvs, "/>", 6);
    SvgRenderer.ElementHas("rect", kvs, "/>", 7);
  }

  /** generateOvalSVG: the ellipse inscribed in the node's box. */
  function OvalSvg(info: NodeRecord, num: Numerics): string
  {
    SvgRenderer.Element("ellipse", OvalAttrs(info, num), "/>")
  }

  function OvalAttrs(info: NodeRecord, num: Numerics): seq<(string, string)>
  {
    var p := PaintOf(info.style);
    [("cx", num.show(Width(info) / 2.0)), ("cy", num.show(Height(info) / 2.0)),
     ("rx", num.show(Width(info) / 2.0)), ("ry", num.show(Height(info) / 2.0)),
     ("fill", p.fill), ("stroke", p.stroke), ("stroke-width", num.show(p.strokeWidth))]
  }

  /** An oval is the ellipse inscribed in the record's box, with the paint
      of its style. */
  lemma OvalDrawn(info: NodeRecord, num: Numerics)
    ensures var r := OvalSvg(info, num); var p := PaintOf(info.style);
      && SvgRenderer.Opens(r, "ellipse") && SvgRenderer.EndsWith(r, "/>")
      && SvgRenderer.HasAttr(r, "cx", num.show(Width(info) / 2.0)) && SvgRenderer.HasAttr(r, "cy", num.show(Height(info) / 2.0))
      && SvgRenderer.HasAttr(r, "rx", num.show(Width(info) / 2.0)) && SvgRenderer.HasAttr(r, "ry", num.show(Height(info) / 2.0))
      && SvgRenderer.HasAttr(r, "fill", p.fill) && SvgRenderer.HasAttr(r, "stroke", p.stroke)
      && SvgRenderer.HasAttr(r, "stroke-width", num.show(p.strokeWidth))
  {
    var kvs := OvalAttrs(info, num);
    SvgRenderer.ElementEnds("ellipse", kvs, "/>");
    SvgRenderer.ElementHas("ellipse", kvs, "/>", 0);
    SvgRenderer.ElementHas("ellipse", kvs, "/>", 1);
    SvgRenderer.ElementHas("ellipse", kvs, "/>", 2);
    SvgRenderer.ElementHas("ellipse", kvs, "/>", 3);
    SvgRenderer.ElementHas("ellipse", kvs, "/>", 4);
    SvgRenderer.ElementHas("ellipse", kvs, "/>", 5);
    SvgRenderer.ElementHas("ellipse", kvs, "/>", 6);
  }

  /** The first four attributes of every box: the origin and the record's size. */
  function BoxHead(info: NodeRecord, num: Numerics): seq<(string, string)>
  {
    [("x", "0"), ("y", "0"), ("width", num.show(Width(info))), ("height", num.show(Height(info)))]
  }

  /** The box of a placeholder: a grey 1-wide stroke, dashed on request. */
  function PlaceholderBox(info: NodeRecord, num: Numerics, fill: string, dashed: bool): seq<(string, string)>
  {
    BoxHead(info, num)
      + (if dashed then [("fill", fill), ("stroke", "#cccccc"), ("stroke-width", "1"), ("stroke-dasharray", "3,3")]
         else [("fill", fill), ("stroke", "#cccccc"), ("stroke-width", "1")])
  }

  /** The caption of a placeholder: grey Arial, centred in the box. */
  function CaptionAttrs(info: NodeRecord, num: Numerics, fontSize: string): seq<(string, string)>
  {
    [("x", num.show(Width(info) / 2.0)), ("y", num.show(Height(info) / 2.0)), ("font-family", "Arial"),
     ("font-size", fontSize), ("fill", "#999999"), ("text-anchor", "middle"), ("dominant-baseline", "middle")]
  }

  /** A box with a centred caption that stands in for a node. */
  function Placeholder(info: NodeRecord, num: Numerics, fill: string, dashed: bool, fontSize: string, caption: string): string
  {
    SvgRenderer.Pair(SvgRenderer.Element("rect", PlaceholderBox(info, num, fill, dashed), "/>"),
                     SvgRenderer.Element("text", CaptionAttrs(info, num, fontSize), SvgRenderer.TextEnd(caption)))
  }

  /** A placeholder is a box of the record's size with the given fill and a
      grey stroke, dashed when asked, followed by its caption, centred and
      unescaped. */
  lemma PlaceholderDrawn(info: NodeRecord, num: Numerics, fill: string, dashed: bool, fontSize: string, caption: string)
    ensures var r := Placeholder(info, num, fill, dashed, fontSize, caption);
      && SvgRenderer.Opens(r, "rect") && SvgRenderer.EndsWith(r, SvgRenderer.TextEnd(caption))
      && SvgRenderer.HasAttr(r, "width", num.show(Width(info))) && SvgRenderer.HasAttr(r, "height", num.show(Height(info)))
      && SvgRenderer.HasAttr(r, "fill", fill) && SvgRenderer.HasAttr(r, "stroke", "#cccccc")
      && (dashed ==> SvgRenderer.HasAttr(r, "stroke-dasharray", "3,3"))
      && SvgRenderer.HasAttr(r, "text-anchor", "middle") && SvgRenderer.HasAttr(r, "font-size", fontSize)
  {
    var box := PlaceholderBox(info, num, fill, dashed);
    var cap := CaptionAttrs(info, num, fontSize);
    var close := SvgRenderer.TextEnd(caption);
    var b := SvgRenderer.Element("rect", box, "/>");
    var c := SvgRenderer.Element("text", cap, close);
    SvgRenderer.ElementEnds("rect", box, "/>");
    SvgRenderer.ElementEnds("text", cap, close);
    SvgRenderer.PairShape(b, c, "rect", close);
    SvgRenderer.ElementHas("rect", box, "/>", 2);
    SvgRenderer.PairHasFirst(b, c, "width", num.show(Width(info)));
    SvgRenderer.ElementHas("rect", box, "/>", 3);
    SvgRenderer.PairHasFirst(b, c, "height", num.show(Height(info)));
    SvgRenderer.ElementHas("rect", box, "/>", 4);
    SvgRenderer.PairHasFirst(b, c, "fill", fill);
    SvgRenderer.ElementHas("rect", box, "/>", 5);
    SvgRenderer.PairHasFirst(b, c, "stroke", "#cccccc");
    if dashed {
      SvgRenderer.ElementHas("rect", box, "/>", 7);
      SvgRenderer.PairHasFirst(b, c, "stroke-dasharray", "3,3");
    }
    SvgRenderer.ElementHas("text", cap, close, 3);
    SvgRenderer.PairHasSecond(b, c, "font-size", fontSize);
    SvgRenderer.ElementHas("text", cap, close, 5);
    SvgRenderer.PairHasSecond(b, c, "text-anchor", "middle");
  }

  /** generateDefaultShapeSVG: the node's type, unescaped, as the caption. */
  function DefaultSvg(info: NodeRecord, num: Numerics): string
  {
    Placeholder(info, num, "#f0f0f0", false, "10", info.nodeType)
  }

  /** The group placeholder, captioned with the number of layers the group has. */
  function GroupPlaceholder(info: NodeRecord, count: nat, num: Numerics): string
  {
    Placeholder(info, num, "#f8f8f8", true, "12", GroupCaption(count))
  }

  /** `Group (n items)`. */
  function GroupCaption(count: nat): string
  {
    "Group (" + Decimal(count) + " items)"
  }

  /** The default box is a plain light one captioned with the node's type;
      the group placeholder a dashed one captioned with the layer count. */
  lemma PlaceholdersDrawn(info: NodeRecord, count: nat, num: Numerics)
    ensures var r := DefaultSvg(info, num);
      && SvgRenderer.EndsWith(r, SvgRenderer.TextEnd(info.nodeType)) && SvgRenderer.HasAttr(r, "fill", "#f0f0f0")
      && SvgRenderer.HasAttr(r, "width", num.show(Width(info))) && SvgRenderer.HasAttr(r, "height", num.show(Height(info)))
    ensures var r := GroupPlaceholder(info, count, num);
      && SvgRenderer.EndsWith(r, SvgRenderer.TextEnd(GroupCaption(count))) && SvgRenderer.HasAttr(r, "fill", "#f8f8f8")
      && SvgRenderer.HasAttr(r, "stroke-dasharray", "3,3")
  {
    PlaceholderDrawn(info, num, "#f0f0f0", false, "10", info.nodeType);
    PlaceholderDrawn(info, num, "#f8f8f8", true, "12", GroupCaption(count));
  }

  // ------------------------------------------------------------ text

  /** Where and how a text element is drawn. */
  datatype TextLayout = TextLayout(x: real, y: real, fontFamily: string, fontSize: real, fill: string, anchor: string)

  /** The first attribute run of the text part, when there is one. */
  function FirstRun(info: NodeRecord): Option<RunRecord>
  {
    if info.text.Some? && info.text.value.runs.Some? && info.text.value.runs.value != [] then
      Some(info.text.value.runs.value[0])
    else None
  }

  /** generateTextSVG's layout: size 14, Arial and black unless the first
      run says otherwise; alignment 1 centres the text and 2 right-aligns it;
      the baseline sits a third of the font size below the middle. */
  function TextLayoutOf(info: NodeRecord): (t: TextLayout)
    ensures var run := FirstRun(info);
      && (t.anchor == "middle" <==> run.Some? && run.value.alignment == Some(1.0))
      && (t.anchor == "end" <==> run.Some? && run.value.alignment == Some(2.0))
      && (t.anchor == "start" <==> !(run.Some? && run.value.alignment in {Some(1.0), Some(2.0)}))
      && t.x == (if t.anchor == "middle" then Width(info) / 2.0 else if t.anchor == "end" then Width(info) else 0.0)
      && t.y == Height(info) / 2.0 + t.fontSize / 3.0
      && t.fontSize != 0.0
      && (run.None? ==> t.fontSize == 14.0 && t.fontFamily == "Arial, sans-serif" && t.fill == "#000000")
      && (run.Some? && run.value.color.Some? && run.value.color.value.hex != "" ==> t.fill == run.value.color.value.hex)
  {
    var run := FirstRun(info);
    var fontSize := if run.Some? then NumOr(run.value.fontSize, 14.0) else 14.0;
    var fontFamily := if run.Some? then StrOr(run.value.fontFamily, "Arial, sans-serif") else "Arial, sans-serif";
    var fill := if run.Some? && run.value.color.Some? && run.value.color.value.hex != "" then run.value.color.value.hex else "#000000";
    var anchor := if run.Some? && run.value.alignment == Some(2.0) then "end"
                  else if run.Some? && run.value.alignment == Some(1.0) then "middle"
                  else "start";
    var x := if anchor == "middle" then Width(info) / 2.0 else if anchor == "end" then Width(info) else 0.0;
    TextLayout(x, Height(info) / 2.0 + fontSize / 3.0, fontFamily, fontSize, fill, anchor)
  }

  /** `text?.content || 'Text'`; None for a colour object, which escapeXML
      cannot take (it has no `replace`). */
  function ContentOf(info: NodeRecord): (r: Option<string>)
    ensures r.Some? ==> r.value != ""
    ensures r.None? <==> info.text.Some? && info.text.value.content.ColorValue?
  {
    if info.text.None? then Some("Text")
    else match info.text.value.content
      case TextValue(s) => Some(StrOr(Some(s), "Text"))
      case Undefined => Some("Text")
      case ColorValue(_) => None
  }

  /** The attributes of a text element, none of them escaped. */
  function TextAttrs(t: TextLayout, num: Numerics): seq<(string, string)>
  {
    [("x", num.show(t.x)), ("y", num.show(t.y)), ("font-family", t.fontFamily),
     ("font-size", num.show(t.fontSize)), ("fill", t.fill), ("text-anchor", t.anchor)]
  }

  /** generateTextSVG: the content is escaped, the attributes are not. */
  function TextSvg(info: NodeRecord, num: Numerics): Option<string>
  {
    var content := ContentOf(info);
    if content.None? then None
    else Some(SvgRenderer.Element("text", TextAttrs(TextLayoutOf(info), num), SvgRenderer.TextEnd(LegacyEscapeChain(content.value))))
  }

  /** A drawable text element carries its layout and ends with its escaped content. */
  lemma TextDrawn(info: NodeRecord, num: Numerics)
    requires ContentOf(info).Some?
    ensures var r := TextSvg(info, num).value; var t := TextLayoutOf(info);
      && SvgRenderer.Opens(r, "text") && SvgRenderer.EndsWith(r, SvgRenderer.TextEnd(LegacyEscapeChain(ContentOf(info).value)))
      && SvgRenderer.HasAttr(r, "x", num.show(t.x)) && SvgRenderer.HasAttr(r, "y", num.show(t.y))
      && SvgRenderer.HasAttr(r, "font-family", t.fontFamily) && SvgRenderer.HasAttr(r, "font-size", num.show(t.fontSize))
      && SvgRenderer.HasAttr(r, "fill", t.fill) && SvgRenderer.HasAttr(r, "text-anchor", t.anchor)
  {
    var kvs := TextAttrs(TextLayoutOf(info), num);
    var close := SvgRenderer.TextEnd(LegacyEscapeChain(ContentOf(info).value));
    SvgRenderer.ElementEnds("text", kvs, close);
    SvgRenderer.ElementHas("text", kvs, close, 0);
    SvgRenderer.ElementHas("text", kvs, close, 1);
    SvgRenderer.ElementHas("text", kvs, close, 2);
    SvgRenderer.ElementHas("text", kvs, close, 3);
    SvgRenderer.ElementHas("text", kvs, close, 4);
    SvgRenderer.ElementHas("text", kvs, close, 5);
  }

  /** The text element ends with the escaped content, which holds no markup
      character, and the closing tag. */
  lemma TextIsEscaped(info: NodeRecord, num: Numerics)
    requires ContentOf(info).Some?
    ensures var body := LegacyEscapeChain(ContentOf(info).value);
      && SvgRenderer.EndsWith(TextSvg(info, num).value, SvgRenderer.TextEnd(body))
      && forall i | 0 <= i < |body| :: body[i] !in "<>\"'"
  {
    TextDrawn(info, num);
    LegacyEscapedIsSafe(ContentOf(info).value);
  }

  // ------------------------------------------------------------ shape paths

  /** The paint of a shape path as written: it reads `color.hex` off the raw
      Sketch colour, which has no such field, so the fill stays #cccccc and
      an enabled border is always black. The raw `isEnabled` flag counts only
      when truthy. */
  function ShapePathPaintAsWritten(style: Option<Style>): (p: SvgRenderer.ShapePaint)
    ensures p.fill == "#cccccc"
    ensures var b := if style.Some? && style.value.borders.Some? && style.value.borders.value != []
                     then Some(style.value.borders.value[0]) else None;
      && (b.Some? && IsTrue(b.value.isEnabled) ==> p.stroke == "#000000" && p.strokeWidth == NumOr(b.value.thickness, 1.0))
      && (!(b.Some? && IsTrue(b.value.isEnabled)) ==> p.stroke == "none" && p.strokeWidth == 0.0)
  {
    var noHex: Option<string> := None;
    var fill :=
      if style.Some? && style.value.fills.Some? && style.value.fills.value != [] then
        var f := style.value.fills.value[0];
        if IsTrue(f.isEnabled) && f.color.Some? then StrOr(noHex, "#cccccc") else "#cccccc"
      else "#cccccc";
    if style.Some? && style.value.borders.Some? && style.value.borders.value != [] && IsTrue(style.value.borders.value[0].isEnabled) then
      SvgRenderer.ShapePaint(fill, StrOr(noHex, "#000000"), NumOr(style.value.borders.value[0].thickness, 1.0))
    else SvgRenderer.ShapePaint(fill, "none", 0.0)
  }

  /** The paint of a shape path as intended: the colours of the first fill
      and the first border, written as hex the way extractColor writes them. */
  function ShapePathPaint(style: Option<Style>): (p: SvgRenderer.ShapePaint)
    ensures var f := if style.Some? && style.value.fills.Some? && style.value.fills.value != []
                     then Some(style.value.fills.value[0]) else None;
      && (f.Some? && IsTrue(f.value.isEnabled) && f.value.color.Some? ==> p.fill == ExtractColor(f.value.color).value.hex)
      && (!(f.Some? && IsTrue(f.value.isEnabled) && f.value.color.Some?) ==> p.fill == "#cccccc")
    ensures var b := if style.Some? && style.value.borders.Some? && style.value.borders.value != []
                     then Some(style.value.borders.value[0]) else None;
      && (p.strokeWidth != 0.0 <==> b.Some? && IsTrue(b.value.isEnabled))
      && (b.Some? && IsTrue(b.value.isEnabled) && b.value.color.Some? ==> p.stroke == ExtractColor(b.value.color).value.hex)
      && (b.Some? && IsTrue(b.value.isEnabled) && b.value.color.None? ==> p.stroke == "#000000")
      && (p.stroke == "none" <==> !(b.Some? && IsTrue(b.value.isEnabled)))
    ensures ShapePathPaintAsWritten(style).strokeWidth == p.strokeWidth
  {
    var fill :=
      if style.Some? && style.value.fills.Some? && style.value.fills.value != [] then
        var f := style.value.fills.value[0];
        if IsTrue(f.isEnabled) && f.color.Some? then ExtractColor(f.color).value.hex else "#cccccc"
      else "#cccccc";
    if style.Some? && style.value.borders.Some? && style.value.borders.value != [] && IsTrue(style.value.borders.value[0].isEnabled) then
      var b := style.value.borders.value[0];
      SvgRenderer.ShapePaint(fill, if b.color.Some? then ExtractColor(b.color).value.hex else "#000000", NumOr(b.thickness, 1.0))
    else SvgRenderer.ShapePaint(fill, "none", 0.0)
  }

  /** An enabled red fill: as written the shape path is drawn grey, as
      intended it is drawn red. */
  lemma ShapePathColourLost()
    ensures var red := Color(Some(1.0), Some(0.0), Some(0.0), Some(1.0));
      var fill := Paint(Some(true), None, Some(red), None, None, None, None, None, None, None);
      var style := Some(Style(Some([fill]), None, None, None, None, None));
      && ShapePathPaintAsWritten(style).fill == "#cccccc"
      && ShapePathPaint(style).fill == "#ff0000"
  {
    assert Round(1.0 * 255.0) == 255;
    assert NatText(15, 16) == "f";
    assert NatText(255, 16) == NatText(15, 16) + [DigitChar(15)];
    assert Round(0.0 * 255.0) == 0;
    assert NatText(0, 16) == "0";
  }

  /** The path data of a raw node: its stored `path.pathData` when truthy,
      else the legacy rendering of its points. */
  function ShapePathData(raw: Node, num: Numerics): Option<string>
  {
    if raw.path.Some? && StrOr(raw.path.value.pathData, "") != "" then raw.path.value.pathData
    else if raw.points.Some? then Some(LegacyPathData(raw.points.value, raw.frame, num))
    else None
  }

  /** generateShapePathSVG: a `<path>` from the indexed raw node when it has
      path data (non-empty), the default placeholder otherwise. */
  function ShapePathSvg(nodes: map<string, Node>, info: NodeRecord, num: Numerics): (r: string)
    ensures info.id !in nodes ==> r == DefaultSvg(info, num)
    ensures info.id in nodes && ShapePathData(nodes[info.id], num) in {None, Some("")} ==> r == DefaultSvg(info, num)
    ensures info.id in nodes && nodes[info.id].points == Some([])
            && !(nodes[info.id].path.Some? && StrOr(nodes[info.id].path.value.pathData, "") != "")
            ==> r == DefaultSvg(info, num)
  {
    if info.id !in nodes then DefaultSvg(info, num)
    else
      var raw := nodes[info.id];
      var pathData := ShapePathData(raw, num);
      if pathData.Some? && pathData.value != "" then
        SvgRenderer.Element("path", SvgRenderer.PathAttrs(pathData.value, ShapePathPaint(raw.style), num), "/>")
      else DefaultSvg(info, num)
  }

  /** With path data, a shape path is an empty path element carrying that
      data and the paint of the raw node's style. */
  lemma ShapePathDrawn(nodes: map<string, Node>, info: NodeRecord, num: Numerics)
    requires info.id in nodes
    requires ShapePathData(nodes[info.id], num).Some? && ShapePathData(nodes[info.id], num).value != ""
    ensures var r := ShapePathSvg(nodes, info, num); var p := ShapePathPaint(nodes[info.id].style);
      && SvgRenderer.Opens(r, "path") && SvgRenderer.EndsWith(r, "/>")
      && SvgRenderer.HasAttr(r, "d", ShapePathData(nodes[info.id], num).value)
      && SvgRenderer.HasAttr(r, "fill", p.fill) && SvgRenderer.HasAttr(r, "stroke", p.stroke)
      && SvgRenderer.HasAttr(r, "stroke-width", num.show(p.strokeWidth))
  {
    var kvs := SvgRenderer.PathAttrs(ShapePathData(nodes[info.id], num).value, ShapePathPaint(nodes[info.id].style), num);
    SvgRenderer.ElementEnds("path", kvs, "/>");
    SvgRenderer.ElementHas("path", kvs, "/>", 0);
    SvgRenderer.ElementHas("path", kvs, "/>", 1);
    SvgRenderer.ElementHas("path", kvs, "/>", 2);
    SvgRenderer.ElementHas("path", kvs, "/>", 3);
  }

  // ------------------------------------------------------------ groups

  /** A child's offset along one axis: kept when it falls inside the group,
      otherwise clamped to max(0, min(offset, size - childSize)). */
  function Offset(rel: real, size: real, childSize: real): (d: real)
    ensures d >= 0.0
    ensures 0.0 <= rel < size ==> d == rel
    ensures rel < 0.0 ==> d == 0.0
    ensures rel >= 0.0 ==> d <= rel
    ensures 0.0 < childSize && 0.0 < size ==> d < size
    ensures rel >= size && 0.0 < childSize <= size ==> d + childSize == size
  {
    if 0.0 <= rel < size then rel else Max(0.0, Min(rel, size - childSize))
  }

  /** `<g transform="translate(dx, dy)">…</g>`. */
  function Placed(dx: real, dy: real, svg: string, num: Numerics): (r: string)
    ensures "<g transform=\"translate(" <= r
  {
    var head := "<g transform=\"translate(";
    var r := head + num.show(dx) + ", " + num.show(dy) + ")\">" + svg + "</g>";
    assert r == head + r[|head|..];
    r
  }

  /** `child.do_objectID || child.id`: the object identifier first, the
      other way round from the key the index files the node under. */
  function ChildId(child: Node): Option<string>
  {
    if child.objectId.Some? && child.objectId.value != "" then child.objectId
    else if child.id.Some? && child.id.value != "" then child.id
    else None
  }

  /** The record getNodeInfo gives for an identifier, if it is indexed. */
  function InfoOf(nodes: map<string, Node>, id: string): Option<NodeRecord>
  {
    if id in nodes then Some(NodeRecordOf(id, nodes[id])) else None
  }

  /** The values of the elements `f` maps to something, in order; the
      others leave no trace. */
  function Somes<T, U>(xs: seq<T>, f: T -> Option<U>): seq<U>
  {
    if xs == [] then []
    else
      var last := f(xs[|xs| - 1]);
      Somes(xs[..|xs| - 1], f) + (if last.Some? then [last.value] else [])
  }

  /** At most one value per element; none exactly when `f` maps every
      element to nothing; each value is what `f` gave some element. */
  lemma {:induction false} SomesMeaning<T, U>(xs: seq<T>, f: T -> Option<U>)
    ensures |Somes(xs, f)| <= |xs|
    ensures Somes(xs, f) == [] <==> forall i | 0 <= i < |xs| :: f(xs[i]).None?
    ensures forall j | 0 <= j < |Somes(xs, f)| :: exists i | 0 <= i < |xs| :: f(xs[i]) == Some(Somes(xs, f)[j])
  {
    if xs != [] {
      var init := xs[..|xs| - 1];
      var last := f(xs[|xs| - 1]);
      var pre := Somes(init, f);
      SomesMeaning(init, f);
      assert forall i | 0 <= i < |init| :: init[i] == xs[i];
      var r := Somes(xs, f);
      assert r == pre + (if last.Some? then [last.value] else []);
      forall j | 0 <= j < |r| ensures exists i | 0 <= i < |xs| :: f(xs[i]) == Some(r[j]) {
        if j < |pre| {
          var i :| 0 <= i < |init| && f(init[i]) == Some(pre[j]);
          assert f(xs[i]) == Some(r[j]);
        } else {
          assert f(xs[|xs| - 1]) == Some(r[j]);
        }
      }
    }
  }

  /** One child, placed relative to the group: nothing without an indexed
      identifier or markup, or when drawing it throws. */
  function ChildPart(nodes: map<string, Node>, group: NodeRecord, child: Node, num: Numerics, fuel: nat): (r: Option<string>)
    ensures ChildId(child).None? || ChildId(child).value !in nodes ==> r.None?
    ensures r.Some? ==> "<g transform=\"translate(" <= r.value
    decreases fuel, 3
  {
    var cid := ChildId(child);
    if cid.None? || cid.value !in nodes then None
    else
      var info := NodeRecordOf(cid.value, nodes[cid.value]);
      var dx := Offset(info.x - group.x, Width(group), NumOr(Some(info.width), 10.0));
      var dy := Offset(info.y - group.y, Height(group), NumOr(Some(info.height), 10.0));
      var svg := ChildSvg(nodes, info, num, fuel);
      if svg.None? || svg.value == "" then None else Some(Placed(dx, dy, svg.value, num))
  }

  /** The element a child is drawn as, by its type; None when drawing it throws. */
  function ChildSvg(nodes: map<string, Node>, info: NodeRecord, num: Numerics, fuel: nat): Option<string>
    decreases fuel, 2
  {
    match info.nodeType
    case "rectangle" => Some(RectSvg(info, num))
    case "shape" => Some(RectSvg(info, num))
    case "oval" => Some(OvalSvg(info, num))
    case "text" => TextSvg(info, num)
    case "group" => GroupSvg(nodes, info, num, fuel)
    case "shapePath" => Some(ShapePathSvg(nodes, info, num))
    case _ => Some(DefaultSvg(info, num))
  }

  /** A child is drawn by its type: a rectangle or shape as a rect with its
      corner radius, an oval as an ellipse, a text as a text element unless
      its content is a colour object, a group while the stack has room. */
  lemma ChildSvgByType(nodes: map<string, Node>, info: NodeRecord, num: Numerics, fuel: nat)
    ensures var r := ChildSvg(nodes, info, num, fuel); var t := info.nodeType;
      && (t in {"rectangle", "shape"} ==>
            r.Some? && SvgRenderer.Opens(r.value, "rect") && SvgRenderer.HasAttr(r.value, "rx", num.show(CornerRadius(info))))
      && (t == "oval" ==> r.Some? && SvgRenderer.Opens(r.value, "ellipse"))
      && (t == "text" ==> (r.Some? <==> ContentOf(info).Some?) && (r.Some? ==> SvgRenderer.Opens(r.value, "text")))
      && (t == "group" ==> (r.Some? <==> fuel > 0))
  {
    var t := info.nodeType;
    if t == "rectangle" || t == "shape" {
      RectDrawn(info, num);
    } else if t == "oval" {
      OvalDrawn(info, num);
    } else if t == "text" && ContentOf(info).Some? {
      TextDrawn(info, num);
    }
  }

  /** A shape-path child is a path when it has path data and the default box
      otherwise; every other type, artboards and symbol instances included,
      is the default box captioned with the type. */
  lemma ChildSvgFallback(nodes: map<string, Node>, info: NodeRecord, num: Numerics, fuel: nat)
    ensures var r := ChildSvg(nodes, info, num, fuel); var t := info.nodeType;
      && (t == "shapePath" ==> r.Some?)
      && ((t == "shapePath" && info.id in nodes && ShapePathData(nodes[info.id], num).Some?
           && ShapePathData(nodes[info.id], num).value != "") ==> SvgRenderer.Opens(r.value, "path"))
      && (t !in {"rectangle", "shape", "oval", "text", "group", "shapePath"} ==>
            r.Some? && SvgRenderer.EndsWith(r.value, SvgRenderer.TextEnd(t)))
  {
    var t := info.nodeType;
    if t == "shapePath" {
      if info.id in nodes && ShapePathData(nodes[info.id], num).Some? && ShapePathData(nodes[info.id], num).value != "" {
        ShapePathDrawn(nodes, info, num);
      }
    } else if t !in {"rectangle", "shape", "oval", "text", "group"} {
      PlaceholdersDrawn(info, 0, num);
    }
  }

  /** The first five layers of the group's indexed node (fewer when it has fewer). */
  function Shown(nodes: map<string, Node>, info: NodeRecord): (r: seq<Node>)
    ensures |r| <= 5
    ensures info.id in nodes ==> |r| <= |Kids(nodes[info.id])| && r == Kids(nodes[info.id])[..|r|]
  {
    var kids := if info.id in nodes then Kids(nodes[info.id]) else [];
    kids[..if |kids| < 5 then |kids| else 5]
  }

  /** The number of layers the group's indexed node has. */
  function LayerCount(nodes: map<string, Node>, info: NodeRecord): nat
  {
    if info.id in nodes then |Kids(nodes[info.id])| else 0
  }

  /** The children's markup, one part after the other. */
  function Concat(parts: seq<string>): string
  {
    if parts == [] then "" else Concat(parts[..|parts| - 1]) + parts[|parts| - 1]
  }

  /** The markup of the shown children of a group, in order. */
  function ChildParts(nodes: map<string, Node>, info: NodeRecord, num: Numerics, fuel: nat): seq<string>
    requires fuel > 0
    decreases fuel, 0
  {
    Somes(Shown(nodes, info), (k: Node) => ChildPart(nodes, info, k, num, fuel - 1))
  }

  /** The invisible rectangle that marks out a group's box behind its children. */
  function Background(info: NodeRecord, num: Numerics): string
  {
    SvgRenderer.Element("rect", BoxHead(info, num) + [("fill", "none"), ("stroke", "none")], "/>")
  }

  /** generateGroupSVG. `fuel` is the depth of calls left on the stack: at 0
      the call throws (None), which the enclosing child's handler swallows. */
  function GroupSvg(nodes: map<string, Node>, info: NodeRecord, num: Numerics, fuel: nat): (r: Option<string>)
    ensures r.Some? <==> fuel > 0
    decreases fuel, 1
  {
    if fuel == 0 then None
    else
      var markup := Concat(ChildParts(nodes, info, num, fuel));
      if markup != "" then
        Some(Background(info, num) + markup)
      else Some(GroupPlaceholder(info, LayerCount(nodes, info), num))
  }

  /** The concatenation is empty exactly when there are no parts, since no part is empty. */
  lemma {:induction false} ConcatEmpty(parts: seq<string>)
    requires forall j | 0 <= j < |parts| :: parts[j] != ""
    ensures Concat(parts) == "" <==> parts == []
  {
    if parts != [] {
      assert |Concat(parts)| >= |parts[|parts| - 1]|;
    }
  }

  /** A group draws at most five placed children, each the drawing of one of
      its first five layers. */
  lemma GroupParts(nodes: map<string, Node>, info: NodeRecord, num: Numerics, fuel: nat)
    requires fuel > 0
    ensures var shown := Shown(nodes, info);
      var parts := ChildParts(nodes, info, num, fuel);
      && |parts| <= 5
      && forall j | 0 <= j < |parts| ::
           exists i | 0 <= i < |shown| :: ChildPart(nodes, info, shown[i], num, fuel - 1) == Some(parts[j])
  {
    var f := (k: Node) => ChildPart(nodes, info, k, num, fuel - 1);
    SomesMeaning(Shown(nodes, info), f);
  }

  /** No part of a group's markup is empty. */
  lemma PartsNonEmpty(nodes: map<string, Node>, info: NodeRecord, num: Numerics, fuel: nat)
    requires fuel > 0
    ensures var parts := ChildParts(nodes, info, num, fuel);
      forall j | 0 <= j < |parts| :: parts[j] != ""
  {
    var shown := Shown(nodes, info);
    var f := (k: Node) => ChildPart(nodes, info, k, num, fuel - 1);
    var parts := ChildParts(nodes, info, num, fuel);
    SomesMeaning(shown, f);
    forall j | 0 <= j < |parts| ensures parts[j] != "" {
      var i :| 0 <= i < |shown| && f(shown[i]) == Some(parts[j]);
    }
  }

  /** A group draws the placeholder with its layer count exactly when none of
      its first five layers renders. */
  lemma GroupPlaceholderWhenEmpty(nodes: map<string, Node>, info: NodeRecord, num: Numerics, fuel: nat)
    requires fuel > 0
    ensures var shown := Shown(nodes, info);
      (forall i | 0 <= i < |shown| :: ChildPart(nodes, info, shown[i], num, fuel - 1).None?)
        <==> GroupSvg(nodes, info, num, fuel) == Some(GroupPlaceholder(info, LayerCount(nodes, info), num))
  {
    var shown := Shown(nodes, info);
    var f := (k: Node) => ChildPart(nodes, info, k, num, fuel - 1);
    var parts := ChildParts(nodes, info, num, fuel);
    var placeholder := GroupPlaceholder(info, LayerCount(nodes, info), num);
    SomesMeaning(shown, f);
    PartsNonEmpty(nodes, info, num, fuel);
    ConcatEmpty(parts);
    var markup := Concat(parts);
    if markup != "" {
      PlaceholderDiffers(info, LayerCount(nodes, info), num, markup);
      assert GroupSvg(nodes, info, num, fuel) == Some(Background(info, num) + markup);
    } else {
      assert GroupSvg(nodes, info, num, fuel) == Some(placeholder);
    }
  }

  /** Where the `k`th attribute starts in the attributes' text. */
  function AttrStart(kvs: seq<(string, string)>, k: nat): nat
    requires k <= |kvs|
  {
    if k == 0 then 0 else |SvgRenderer.Attr(kvs[0].0, kvs[0].1)| + AttrStart(kvs[1..], k - 1)
  }

  /** The `k`th attribute's text sits at its start. */
  lemma {:induction false} AttrsAt(kvs: seq<(string, string)>, k: nat, j: nat)
    requires k < |kvs| && j < |SvgRenderer.Attr(kvs[k].0, kvs[k].1)|
    ensures AttrStart(kvs, k) + j < |SvgRenderer.Attrs(kvs)|
    ensures SvgRenderer.Attrs(kvs)[AttrStart(kvs, k) + j] == SvgRenderer.Attr(kvs[k].0, kvs[k].1)[j]
  {
    if k > 0 {
      AttrsAt(kvs[1..], k - 1, j);
    }
  }

  /** Attributes that agree up to `k` start the `k`th one at the same place. */
  lemma {:induction false} AttrStartSame(a: seq<(string, string)>, b: seq<(string, string)>, k: nat)
    requires k <= |a| && k <= |b| && a[..k] == b[..k]
    ensures AttrStart(a, k) == AttrStart(b, k)
  {
    if k > 0 {
      assert a[0] == a[..k][0] == b[..k][0] == b[0];
      assert a[1..][..k - 1] == a[..k][1..] == b[..k][1..] == b[1..][..k - 1];
      AttrStartSame(a[1..], b[1..], k - 1);
    }
  }

  /** In a rect whose fifth attribute is a fill, the fill's first character
      sits right after the first four attributes and ` fill="`. */
  lemma FillAt(kvs: seq<(string, string)>, after: string)
    requires |kvs| >= 5 && kvs[4].0 == "fill" && kvs[4].1 != ""
    ensures var r := SvgRenderer.Element("rect", kvs, after);
      5 + AttrStart(kvs, 4) + 7 < |r| && r[5 + AttrStart(kvs, 4) + 7] == kvs[4].1[0]
  {
    var v := kvs[4].1;
    assert SvgRenderer.Attr("fill", v) == " fill=\"" + v + "\"";
    AttrsAt(kvs, 4, 7);
    assert SvgRenderer.Element("rect", kvs, after) == "<rect" + SvgRenderer.Attrs(kvs) + after;
  }
  /** The placeholder and the background rectangle part ways at the fill. */
  lemma PlaceholderDiffers(info: NodeRecord, count: nat, num: Numerics, markup: string)
    ensures GroupPlaceholder(info, count, num) != Background(info, num) + markup
  {
    var box := PlaceholderBox(info, num, "#f8f8f8", true);
    var back := BoxHead(info, num) + [("fill", "none"), ("stroke", "none")];
    assert box[..4] == back[..4];
    AttrStartSame(box, back, 4);
    var n := 5 + AttrStart(box, 4) + 7;
    FillAt(box, "/>");
    FillAt(back, "/>");
    var g := GroupPlaceholder(info, count, num);
    var rect := SvgRenderer.Element("rect", box, "/>");
    assert g == rect + (SvgRenderer.Indent + SvgRenderer.Element("text", CaptionAttrs(info, num, "12"), SvgRenderer.TextEnd(GroupCaption(count))));
    assert g[n] == rect[n] == '#';
    assert (Background(info, num) + markup)[n] == 'n';
  }
}
