/** Style, colour, text, shape, image and symbol records extracted from raw
    nodes (the style extractor of the modular analyzer). */
module StyleExtractor {
  import opened Wrappers
  import opened Js
  import opened Sketch

  datatype Rgba = Rgba(r: int, g: int, b: int, a: real)

  /** A colour as the analyzer reports it: hex text and rounded channels. */
  datatype ColorInfo = ColorInfo(hex: string, rgba: Rgba)

  datatype FillInfo = FillInfo(fillType: real, color: ColorInfo, opacity: real)

  datatype BorderInfo = BorderInfo(color: ColorInfo, thickness: real, position: real, opacity: real)

  datatype ShadowInfo = ShadowInfo(color: ColorInfo, offsetX: real, offsetY: real, blurRadius: real, spread: real)

  datatype BlurInfo = BlurInfo(blurType: real, radius: real, isEnabled: bool)

  datatype StyleInfo = StyleInfo(
    fills: seq<FillInfo>,
    borders: seq<BorderInfo>,
    shadows: seq<ShadowInfo>,
    innerShadows: seq<ShadowInfo>,
    blur: BlurInfo)

  datatype TextInfo = TextInfo(content: string, fontSize: real, fontFamily: string, color: string, alignment: string)

  datatype PathFlags = PathFlags(isClosed: bool, pointRadiusBehaviour: real)

  datatype ShapeInfo = ShapeInfo(cornerRadius: real, path: Option<PathFlags>)

  datatype ImageInfo = ImageInfo(imageType: string, imageRef: Option<string>, originalWidth: real, originalHeight: real)

  datatype OverrideInfo = OverrideInfo(overrideName: string, value: OverrideValue)

  /** The two flags only a symbol master's record carries. */
  datatype MasterFlags = MasterFlags(includeBackgroundColorInExport: bool, includeBackgroundColorInInstance: bool)

  datatype SymbolInfo = SymbolInfo(symbolID: string, overrides: seq<OverrideInfo>, master: Option<MasterFlags>)

  // ---------------------------------------------------------------- colours

  /** `toHex` inside rgbaToHex: round, clamp to a byte, write in base 16 and
      pad to two digits. */
  function ByteHex(n: real): string
  {
    var text := NatText(Clamp(Round(n), 0, 255), 16);
    if |text| == 1 then "0" + text else text
  }

  /** rgbaToHex: '#', then red, green and blue, then alpha only when it is below 1. */
  function RgbaToHex(r: int, g: int, b: int, a: real): string
  {
    "#" + ByteHex(r as real) + ByteHex(g as real) + ByteHex(b as real)
    + AlphaHex(a)
  }

  /** extractColor: a missing colour is black at full alpha; a missing channel is 0;
      alpha defaults to 1 only when it is absent (an alpha of 0 stays 0). */
  function ExtractColor(c: Option<Color>): (r: ColorInfo)
    ensures c.None? ==> r == ColorInfo("#000000", Rgba(0, 0, 0, 1.0))
    ensures c.Some? ==> r.rgba.a == NumOrIfAbsent(c.value.alpha, 1.0)
    ensures c.Some? ==> && r.rgba.r == Round(NumOr(c.value.red, 0.0) * 255.0)
                        && r.rgba.g == Round(NumOr(c.value.green, 0.0) * 255.0)
                        && r.rgba.b == Round(NumOr(c.value.blue, 0.0) * 255.0)
    ensures c.Some? && c.value.red.None? ==> r.rgba.r == 0
    ensures |r.hex| == if r.rgba.a < 1.0 then 9 else 7
    ensures HexColorValue(r.hex) == Some(Channels(r.rgba))
  {
    match c
    case None =>
      HexRoundTrip(0, 0, 0, 1.0);
      ByteHexDigits(0.0);
      assert RgbaToHex(0, 0, 0, 1.0) == "#000000";
      ColorInfo("#000000", Rgba(0, 0, 0, 1.0))
    case Some(col) =>
      var r := Round(NumOr(col.red, 0.0) * 255.0);
      var g := Round(NumOr(col.green, 0.0) * 255.0);
      var b := Round(NumOr(col.blue, 0.0) * 255.0);
      var a := NumOrIfAbsent(col.alpha, 1.0);
      HexRoundTrip(r, g, b, a);
      ColorInfo(RgbaToHex(r, g, b, a), Rgba(r, g, b, a))
  }

  // The partner of rgbaToHex: reading the hex text back.

  /** The channels a hex colour text stands for: each clamped to a byte, and
      alpha (as a byte) only when it is below 1. */
  function Channels(c: Rgba): seq<int>
  {
    [Clamp(c.r, 0, 255), Clamp(c.g, 0, 255), Clamp(c.b, 0, 255)]
    + (if c.a < 1.0 then [Clamp(Round(c.a * 255.0), 0, 255)] else [])
  }

  function HexDigitValue(c: char): Option<int>
  {
    if '0' <= c <= '9' then Some(c as int - '0' as int)
    else if 'a' <= c <= 'f' then Some(c as int - 'a' as int + 10)
    else None
  }

  /** The byte values of pairs of hex digits, or None when a character is not one. */
  function HexPairs(s: string): Option<seq<int>>
    decreases |s|
  {
    if s == [] then Some([])
    else if |s| == 1 then None
    else
      match (HexDigitValue(s[0]), HexDigitValue(s[1]), HexPairs(s[2..]))
      case (Some(hi), Some(lo), Some(rest)) => Some([hi * 16 + lo] + rest)
      case _ => None
  }

  /** Reads "#rrggbb" or "#rrggbbaa" back into its byte values. */
  function HexColorValue(hex: string): Option<seq<int>>
  {
    if |hex| >= 1 && hex[0] == '#' && (|hex| == 7 || |hex| == 9) then HexPairs(hex[1..]) else None
  }

  lemma ByteHexDigits(n: real)
    ensures var k := Clamp(Round(n), 0, 255);
            ByteHex(n) == [DigitChar(k / 16), DigitChar(k % 16)]
  {
    var k := Clamp(Round(n), 0, 255);
    if k >= 16 {
      assert NatText(k / 16, 16) == [DigitChar(k / 16)];
    }
  }

  lemma DigitCharValue(d: int)
    requires 0 <= d < 16
    ensures HexDigitValue(DigitChar(d)) == Some(d)
  {
  }

  lemma {:induction false} ByteHexValue(n: real, rest: string, tail: seq<int>)
    requires HexPairs(rest) == Some(tail)
    ensures |ByteHex(n)| == 2
    ensures HexPairs(ByteHex(n) + rest) == Some([Clamp(Round(n), 0, 255)] + tail)
  {
    var k := Clamp(Round(n), 0, 255);
    ByteHexDigits(n);
    DigitCharValue(k / 16);
    DigitCharValue(k % 16);
    var s := ByteHex(n) + rest;
    assert s[0] == DigitChar(k / 16) && s[1] == DigitChar(k % 16) && s[2..] == rest;
  }

  /** The alpha suffix of a hex colour and the byte it reads back as. */
  function AlphaHex(a: real): string
  {
    if a < 1.0 then ByteHex(a * 255.0) else ""
  }

  lemma AlphaHexValue(a: real)
    ensures |AlphaHex(a)| == if a < 1.0 then 2 else 0
    ensures HexPairs(AlphaHex(a)) == Some(if a < 1.0 then [Clamp(Round(a * 255.0), 0, 255)] else [])
  {
    assert HexPairs("") == Some([]);
    if a < 1.0 {
      ByteHexValue(a * 255.0, "", []);
      assert ByteHex(a * 255.0) + "" == AlphaHex(a);
      assert [Clamp(Round(a * 255.0), 0, 255)] + [] == [Clamp(Round(a * 255.0), 0, 255)];
    }
  }

  lemma {:induction false} ThreeBytes(r: int, g: int, b: int, rest: string, tail: seq<int>)
    requires HexPairs(rest) == Some(tail)
    ensures HexPairs(ByteHex(r as real) + (ByteHex(g as real) + (ByteHex(b as real) + rest)))
            == Some([Clamp(r, 0, 255), Clamp(g, 0, 255), Clamp(b, 0, 255)] + tail)
    ensures |ByteHex(r as real) + (ByteHex(g as real) + (ByteHex(b as real) + rest))| == 6 + |rest|
  {
    ByteHexValue(b as real, rest, tail);
    ByteHexValue(g as real, ByteHex(b as real) + rest, [Clamp(b, 0, 255)] + tail);
    ByteHexValue(r as real, ByteHex(g as real) + (ByteHex(b as real) + rest), [Clamp(g, 0, 255)] + ([Clamp(b, 0, 255)] + tail));
    assert [Clamp(r, 0, 255)] + ([Clamp(g, 0, 255)] + ([Clamp(b, 0, 255)] + tail))
        == [Clamp(r, 0, 255), Clamp(g, 0, 255), Clamp(b, 0, 255)] + tail;
  }

  /** The hex text of a colour reads back as its clamped channels. */
  lemma {:induction false} HexRoundTrip(r: int, g: int, b: int, a: real)
    ensures |RgbaToHex(r, g, b, a)| == if a < 1.0 then 9 else 7
    ensures HexColorValue(RgbaToHex(r, g, b, a)) == Some(Channels(Rgba(r, g, b, a)))
  {
    AlphaHexValue(a);
    var tailA: seq<int> := if a < 1.0 then [Clamp(Round(a * 255.0), 0, 255)] else [];
    ThreeBytes(r, g, b, AlphaHex(a), tailA);
    var body := ByteHex(r as real) + (ByteHex(g as real) + (ByteHex(b as real) + AlphaHex(a)));
    HexBody(r, g, b, a);
    HashPrefix(body);
  }

  lemma HexBody(r: int, g: int, b: int, a: real)
    ensures RgbaToHex(r, g, b, a) == "#" + (ByteHex(r as real) + (ByteHex(g as real) + (ByteHex(b as real) + AlphaHex(a))))
  {
  }

  lemma HashPrefix(body: string)
    requires |body| == 6 || |body| == 8
    ensures HexColorValue("#" + body) == HexPairs(body)
  {
    assert ("#" + body)[1..] == body;
  }

  /** Red at full alpha and half-transparent blue, as a reader of the documentation expects them. */
  lemma ColorExamples()
    ensures ExtractColor(Some(Color(Some(1.0), Some(0.0), Some(0.0), Some(1.0)))).hex == "#ff0000"
    ensures ExtractColor(Some(Color(Some(0.0), Some(0.0), Some(1.0), Some(0.5)))).hex == "#0000ff80"
  {
    assert Round(255.0) == 255 && Round(0.0) == 0 && Round(127.5) == 128;
    ByteHexDigits(255.0);
    ByteHexDigits(0.0);
    ByteHexDigits(127.5);
    assert ByteHex(255.0) == "ff" && ByteHex(0.0) == "00" && ByteHex(127.5) == "80";
    assert RgbaToHex(255, 0, 0, 1.0) == "#ff0000";
    assert RgbaToHex(0, 0, 255, 0.5) == "#0000ff80";
  }

  // ----------------------------------------------------------------- styles

  /** The entries whose `isEnabled` is truthy, in their original order. */
  function Enabled(ps: seq<Paint>): (r: seq<Paint>)
    ensures |r| <= |ps|
    ensures forall p | p in r :: IsTrue(p.isEnabled) && p in ps
    ensures forall p | p in ps && IsTrue(p.isEnabled) :: p in r
  {
    if ps == [] then []
    else
      var last := ps[|ps| - 1];
      Enabled(ps[..|ps| - 1]) + (if IsTrue(last.isEnabled) then [last] else [])
  }

  function FillOf(p: Paint): (f: FillInfo)
    ensures f.opacity != 0.0
  {
    FillInfo(NumOr(p.fillType, 0.0), ExtractColor(p.color), NumOr(OpacityOf(p.contextSettings), 1.0))
  }

  function BorderOf(p: Paint): (b: BorderInfo)
    ensures b.thickness != 0.0 && b.opacity != 0.0
  {
    BorderInfo(ExtractColor(p.color), NumOr(p.thickness, 1.0), NumOr(p.position, 0.0),
               NumOr(OpacityOf(p.contextSettings), 1.0))
  }

  function ShadowOf(p: Paint): ShadowInfo
  {
    ShadowInfo(ExtractColor(p.color), NumOr(p.offsetX, 0.0), NumOr(p.offsetY, 0.0),
               NumOr(p.blurRadius, 0.0), NumOr(p.spread, 0.0))
  }

  function OpacityOf(cs: Option<ContextSettings>): Option<real>
  {
    if cs.Some? then cs.value.opacity else None
  }

  function ListOf(ps: Option<seq<Paint>>): seq<Paint>
  {
    ps.GetOr([])
  }

  /** One pass over a list: each enabled entry, converted by `f`, in order. */
  function KeepMap<T>(ps: seq<Paint>, f: Paint -> T): seq<T>
  {
    if ps == [] then []
    else
      var last := ps[|ps| - 1];
      KeepMap(ps[..|ps| - 1], f) + (if IsTrue(last.isEnabled) then [f(last)] else [])
  }

  function Fills(ps: seq<Paint>): seq<FillInfo> { KeepMap(ps, FillOf) }

  function Borders(ps: seq<Paint>): seq<BorderInfo> { KeepMap(ps, BorderOf) }

  function Shadows(ps: seq<Paint>): seq<ShadowInfo> { KeepMap(ps, ShadowOf) }

  /** The pass is the filter followed by the conversion of each kept entry. */
  lemma {:induction false} KeepMapIsFilterThenMap<T>(ps: seq<Paint>, f: Paint -> T)
    ensures var e := Enabled(ps);
            |KeepMap(ps, f)| == |e| && forall i | 0 <= i < |e| :: KeepMap(ps, f)[i] == f(e[i])
  {
    if ps != [] {
      KeepMapIsFilterThenMap(ps[..|ps| - 1], f);
    }
  }

  lemma {:induction false} KeepMapAppend<T>(a: seq<Paint>, b: seq<Paint>, f: Paint -> T)
    ensures KeepMap(a + b, f) == KeepMap(a, f) + KeepMap(b, f)
    decreases |b|
  {
    if b == [] {
      assert a + b == a;
    } else {
      assert (a + b)[..|a + b| - 1] == a + b[..|b| - 1];
      KeepMapAppend(a, b[..|b| - 1], f);
    }
  }

  function BlurOf(b: Option<Blur>): BlurInfo
  {
    match b
    case None => BlurInfo(0.0, 10.0, false)
    case Some(bl) => BlurInfo(NumOr(bl.blurType, 0.0), NumOr(bl.radius, 10.0), IsTrue(bl.isEnabled))
  }

  /** The style record extractStyleInfo returns. */
  function StyleOf(style: Option<Style>): StyleInfo
  {
    match style
    case None => StyleInfo([], [], [], [], BlurInfo(0.0, 10.0, false))
    case Some(s) =>
      StyleInfo(Fills(ListOf(s.fills)), Borders(ListOf(s.borders)), Shadows(ListOf(s.shadows)),
                Shadows(ListOf(s.innerShadows)), BlurOf(s.blur))
  }

  /** extractStyleInfo: one pass over each list, keeping the enabled entries. */
  method ExtractStyleInfo(style: Option<Style>) returns (r: StyleInfo)
    ensures r == StyleOf(style)
  {
    if style.None? {
      return StyleInfo([], [], [], [], BlurInfo(0.0, 10.0, false));
    }
    var s := style.value;
    var fills: seq<FillInfo> := [];
    var borders: seq<BorderInfo> := [];
    var shadows: seq<ShadowInfo> := [];
    var inner: seq<ShadowInfo> := [];
    var ps := ListOf(s.fills);
    for i := 0 to |ps|
      invariant fills == KeepMap(ps[..i], FillOf)
    {
      assert ps[..i + 1][..i] == ps[..i];
      if IsTrue(ps[i].isEnabled) {
        fills := fills + [FillOf(ps[i])];
      }
    }
    assert ps[..|ps|] == ps;
    ps := ListOf(s.borders);
    for i := 0 to |ps|
      invariant borders == KeepMap(ps[..i], BorderOf)
    {
      assert ps[..i + 1][..i] == ps[..i];
      if IsTrue(ps[i].isEnabled) {
        borders := borders + [BorderOf(ps[i])];
      }
    }
    assert ps[..|ps|] == ps;
    ps := ListOf(s.shadows);
    for i := 0 to |ps|
      invariant shadows == KeepMap(ps[..i], ShadowOf)
    {
      assert ps[..i + 1][..i] == ps[..i];
      if IsTrue(ps[i].isEnabled) {
        shadows := shadows + [ShadowOf(ps[i])];
      }
    }
    assert ps[..|ps|] == ps;
    ps := ListOf(s.innerShadows);
    for i := 0 to |ps|
      invariant inner == KeepMap(ps[..i], ShadowOf)
    {
      assert ps[..i + 1][..i] == ps[..i];
      if IsTrue(ps[i].isEnabled) {
        inner := inner + [ShadowOf(ps[i])];
      }
    }
    assert ps[..|ps|] == ps;
    r := StyleInfo(fills, borders, shadows, inner, BlurOf(s.blur));
  }

  /** Filtering distributes over concatenation: each entry is judged on its own. */
  lemma {:induction false} EnabledAppend(a: seq<Paint>, b: seq<Paint>)
    ensures Enabled(a + b) == Enabled(a) + Enabled(b)
    decreases |b|
  {
    if b == [] {
      assert a + b == a;
    } else {
      assert (a + b)[..|a + b| - 1] == a + b[..|b| - 1];
      EnabledAppend(a, b[..|b| - 1]);
    }
  }

  /** Filtering twice keeps what filtering once kept. */
  lemma {:induction false} EnabledIdempotent(ps: seq<Paint>)
    ensures Enabled(Enabled(ps)) == Enabled(ps)
  {
    if ps != [] {
      var last := ps[|ps| - 1];
      EnabledIdempotent(ps[..|ps| - 1]);
      var tail := if IsTrue(last.isEnabled) then [last] else [];
      EnabledAppend(Enabled(ps[..|ps| - 1]), tail);
      if tail != [] {
        assert tail[..0] == [];
      }
    }
  }

  /** A list whose entries are all enabled is kept whole and in order. */
  lemma {:induction false} AllEnabledKept(ps: seq<Paint>)
    requires forall i | 0 <= i < |ps| :: IsTrue(ps[i].isEnabled)
    ensures Enabled(ps) == ps
  {
    if ps != [] {
      AllEnabledKept(ps[..|ps| - 1]);
    }
  }

  /** A disabled entry leaves no trace: removing it changes nothing. */
  lemma DisabledDropped<T>(a: seq<Paint>, p: Paint, b: seq<Paint>, f: Paint -> T)
    requires !IsTrue(p.isEnabled)
    ensures KeepMap(a + [p] + b, f) == KeepMap(a + b, f)
  {
    KeepMapAppend(a + [p], b, f);
    KeepMapAppend(a, [p], f);
    KeepMapAppend(a, b, f);
    assert [p][..0] == [];
  }

  /** A missing style and a style with no lists give the same record. */
  lemma EmptyStyleIsDefault()
    ensures StyleOf(Some(Style(None, None, None, None, None, None))) == StyleOf(None)
  {
  }

  // ------------------------------------------------------------------- text

  /** The font size, family and colour carried from run to run. */
  datatype TextState = TextState(fontSize: real, fontFamily: string, color: string)

  /** How one attribute run updates the carried state: a truthy font size or
      name replaces the carried one; a colour attribute replaces the colour. */
  function RunStep(st: TextState, run: Run): TextState
  {
    match run.attributes
    case None => st
    case Some(attrs) =>
      var st1 := match attrs.font
        case None => st
        case Some(f) => st.(fontSize := NumOr(f.size, st.fontSize), fontFamily := StrOr(f.name, st.fontFamily));
      if attrs.color.Some? then st1.(color := ExtractColor(attrs.color).hex) else st1
  }

  /** The state after reading the runs from left to right. */
  function RunsState(runs: seq<Run>): TextState
  {
    if runs == [] then TextState(12.0, "Arial", "#000000")
    else RunStep(RunsState(runs[..|runs| - 1]), runs[|runs| - 1])
  }

  function TextOf(attr: Option<AttributedString>): TextInfo
  {
    match attr
    case None => TextInfo("", 12.0, "Arial", "#000000", "left")
    case Some(a) =>
      var st := RunsState(a.runs.GetOr([]));
      TextInfo(StrOr(a.text, ""), st.fontSize, st.fontFamily, st.color, "left")
  }

  /** extractTextInfo: runs are read in order and the last one that sets a
      property wins; alignment is always "left". */
  method ExtractTextInfo(attr: Option<AttributedString>) returns (r: TextInfo)
    ensures r == TextOf(attr)
  {
    if attr.None? {
      return TextInfo("", 12.0, "Arial", "#000000", "left");
    }
    var content := StrOr(attr.value.text, "");
    var fontSize, fontFamily, color := 12.0, "Arial", "#000000";
    var runs := attr.value.runs.GetOr([]);
    for i := 0 to |runs|
      invariant TextState(fontSize, fontFamily, color) == RunsState(runs[..i])
    {
      assert runs[..i + 1][..i] == runs[..i];
      var run := runs[i];
      if run.attributes.Some? {
        var attrs := run.attributes.value;
        if attrs.font.Some? {
          fontSize := NumOr(attrs.font.value.size, fontSize);
          fontFamily := StrOr(attrs.font.value.name, fontFamily);
        }
        if attrs.color.Some? {
          color := ExtractColor(attrs.color).hex;
        }
      }
    }
    assert runs[..|runs|] == runs;
    r := TextInfo(content, fontSize, fontFamily, color, "left");
  }

  /** The truthy font size of the last run that has one, searching from the end. */
  function LastFontSize(runs: seq<Run>): Option<real>
  {
    if runs == [] then None
    else
      var last := runs[|runs| - 1];
      if last.attributes.Some? && last.attributes.value.font.Some?
         && NumOr(last.attributes.value.font.value.size, 0.0) != 0.0
      then last.attributes.value.font.value.size
      else LastFontSize(runs[..|runs| - 1])
  }

  /** The colour attribute of the last run that has one. */
  function LastColor(runs: seq<Run>): Option<Color>
  {
    if runs == [] then None
    else
      var last := runs[|runs| - 1];
      if last.attributes.Some? && last.attributes.value.color.Some?
      then last.attributes.value.color
      else LastColor(runs[..|runs| - 1])
  }

  /** The carried state agrees with the independent "last run wins" search. */
  lemma {:induction false} LastRunWins(runs: seq<Run>)
    ensures RunsState(runs).fontSize == LastFontSize(runs).GetOr(12.0)
    ensures RunsState(runs).color == if LastColor(runs).Some? then ExtractColor(LastColor(runs)).hex else "#000000"
  {
    if runs != [] {
      LastRunWins(runs[..|runs| - 1]);
    }
  }

  // ------------------------------------------ shape, image and symbol records

  /** extractShapeInfo: a rectangle's corner radius when present (0 included);
      a shape path's closed flag and radius behaviour with falsy defaults. */
  function ExtractShapeInfo(n: Node): (r: ShapeInfo)
    ensures r.cornerRadius != 0.0 ==> n.kind == Some("rectangle") && n.fixedRadius == Some(r.cornerRadius)
    ensures n.kind == Some("rectangle") && n.fixedRadius.Some? ==> r.cornerRadius == n.fixedRadius.value
    ensures r.path.Some? <==> n.kind == Some("shapePath") && n.path.Some?
    ensures r.path.Some? ==> r.path.value.pointRadiusBehaviour != 0.0
    ensures r.path.Some? ==> && (r.path.value.isClosed <==> IsTrue(n.path.value.isClosed))
                             && (n.path.value.pointRadiusBehaviour.Some? && n.path.value.pointRadiusBehaviour.value != 0.0
                                 ==> r.path.value.pointRadiusBehaviour == n.path.value.pointRadiusBehaviour.value)
    ensures r.path.Some? && (n.path.value.pointRadiusBehaviour.None? || n.path.value.pointRadiusBehaviour.value == 0.0)
      ==> r.path.value.pointRadiusBehaviour == 1.0
  {
    ShapeInfo(
      if n.kind == Some("rectangle") && n.fixedRadius.Some? then n.fixedRadius.value else 0.0,
      if n.kind == Some("shapePath") && n.path.Some?
      then Some(PathFlags(IsTrue(n.path.value.isClosed), NumOr(n.path.value.pointRadiusBehaviour, 1.0)))
      else None)
  }

  /** extractImageInfo: the type is never known; the reference only when truthy;
      the original size is the frame's, 0 where missing. */
  function ExtractImageInfo(n: Node): (r: ImageInfo)
    ensures r.imageType == "unknown"
    ensures r.imageRef.Some? <==> n.image.Some? && n.image.value.ref.Some? && n.image.value.ref.value != ""
    ensures r.imageRef.Some? ==> r.imageRef == n.image.value.ref
    ensures n.frame.None? ==> r.originalWidth == 0.0 && r.originalHeight == 0.0
    ensures n.frame.Some? ==> r.originalWidth == NumOr(n.frame.value.width, 0.0) && r.originalHeight == NumOr(n.frame.value.height, 0.0)
  {
    ImageInfo(
      "unknown",
      if n.image.Some? && n.image.value.ref.Some? && n.image.value.ref.value != "" then n.image.value.ref else None,
      if n.frame.Some? then NumOr(n.frame.value.width, 0.0) else 0.0,
      if n.frame.Some? then NumOr(n.frame.value.height, 0.0) else 0.0)
  }

  /** The override entries of a symbol instance, names defaulting to "". */
  function OverridesOf(ovs: seq<Override>): (r: seq<OverrideInfo>)
    ensures |r| == |ovs|
    ensures forall i | 0 <= i < |ovs| :: r[i].value == ovs[i].value
  {
    seq(|ovs|, i requires 0 <= i < |ovs| => OverrideInfo(StrOr(ovs[i].overrideName, ""), ovs[i].value))
  }

  /** extractSymbolInfo: instances carry their overrides, masters their two
      background flags, anything else an empty record. */
  function ExtractSymbolInfo(n: Node): (r: SymbolInfo)
    ensures r.master.Some? <==> n.kind == Some("symbolMaster")
    ensures r.overrides != [] ==> n.kind == Some("symbolInstance")
    ensures n.kind == Some("symbolInstance") || n.kind == Some("symbolMaster") ==>
              r.symbolID == (if n.symbolID.Some? && n.symbolID.value != "" then n.symbolID.value else "")
    ensures n.kind == Some("symbolInstance") ==> r.overrides == OverridesOf(n.overrideValues.GetOr([]))
    ensures n.kind == Some("symbolInstance") ==> |r.overrides| == |n.overrideValues.GetOr([])|
    ensures r.master.Some? ==> && (r.master.value.includeBackgroundColorInExport <==> IsTrue(n.includeBackgroundColorInExport))
                               && (r.master.value.includeBackgroundColorInInstance <==> IsTrue(n.includeBackgroundColorInInstance))
    ensures n.kind != Some("symbolInstance") && n.kind != Some("symbolMaster") ==> r == SymbolInfo("", [], None)
  {
    if n.kind == Some("symbolInstance") then
      SymbolInfo(StrOr(n.symbolID, ""), OverridesOf(n.overrideValues.GetOr([])), None)
    else if n.kind == Some("symbolMaster") then
      SymbolInfo(StrOr(n.symbolID, ""), [],
                 Some(MasterFlags(IsTrue(n.includeBackgroundColorInExport), IsTrue(n.includeBackgroundColorInInstance))))
    else SymbolInfo("", [], None)
  }
}
