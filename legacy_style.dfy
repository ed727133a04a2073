/** The records the legacy analyzer builds for a node: its colours, which are
    not clamped to a byte per channel, its style, which keeps disabled
    entries together with their flag, its text, shape, image and symbol
    parts, and the symbol overrides applied to a master's record. */
module LegacyStyle {
  import opened Wrappers
  import opened Js
  import opened Sketch
  import StyleExtractor

  // ---------------------------------------------------------------- colours

  /** extractColor's record: the channels as given (0, or 1 for alpha, when
      absent) and their hex text. */
  datatype ColorRecord = ColorRecord(red: real, green: real, blue: real, alpha: real, hex: string)

  /** `toHex` inside rgbaToHex: Math.round(n * 255) in base 16, padded to two
      digits when it has one. Nothing is clamped, so a channel outside [0, 1]
      gives three digits or a minus sign. */
  function ToHex(n: real): string
  {
    var text := IntText(Round(n * 255.0), 16);
    if |text| == 1 then "0" + text else text
  }

  /** rgbaToHex: '#', red, green and blue, then alpha only when it is below 1. */
  function LegacyHex(r: real, g: real, b: real, a: real): string
  {
    "#" + ToHex(r) + ToHex(g) + ToHex(b) + (if a < 1.0 then ToHex(a) else "")
  }

  /** extractColor: no record at all for a missing colour; a missing channel
      reads as 0 and a missing alpha as 1 (a present 0 is kept). */
  function ExtractColor(c: Option<Color>): (r: Option<ColorRecord>)
    ensures r.None? <==> c.None?
    ensures c.Some? ==> && r.value.red == NumOrIfAbsent(c.value.red, 0.0) && r.value.green == NumOrIfAbsent(c.value.green, 0.0)
                        && r.value.blue == NumOrIfAbsent(c.value.blue, 0.0) && r.value.alpha == NumOrIfAbsent(c.value.alpha, 1.0)
    ensures c.Some? ==> r.value.hex == LegacyHex(r.value.red, r.value.green, r.value.blue, r.value.alpha)
    ensures c.Some? ==> |r.value.hex| > 0 && r.value.hex[0] == '#'
  {
    match c
    case None => None
    case Some(col) =>
      var red := NumOrIfAbsent(col.red, 0.0);
      var green := NumOrIfAbsent(col.green, 0.0);
      var blue := NumOrIfAbsent(col.blue, 0.0);
      var alpha := NumOrIfAbsent(col.alpha, 1.0);
      Some(ColorRecord(red, green, blue, alpha, LegacyHex(red, green, blue, alpha)))
  }

  // Reading a hex text back: the partner of toHex.

  /** The value of a string of lower-case hex digits. */
  function HexValue(s: string): nat
  {
    if s == [] then 0 else HexValue(s[..|s| - 1]) * 16 + StyleExtractor.HexDigitValue(s[|s| - 1]).GetOr(0)
  }

  /** The value of an optionally signed hex text. */
  function SignedHexValue(s: string): int
  {
    if s != [] && s[0] == '-' then -(HexValue(s[1..]) as int) else HexValue(s)
  }

  lemma {:induction false} NatTextValue(n: nat)
    ensures HexValue(NatText(n, 16)) == n
    ensures NatText(n, 16)[0] != '-'
    decreases n
  {
    var s := NatText(n, 16);
    if n >= 16 {
      var head := NatText(n / 16, 16);
      NatTextValue(n / 16);
      assert s == head + [DigitChar(n % 16)];
      assert s[..|s| - 1] == head;
      StyleExtractor.DigitCharValue(n % 16);
    } else {
      assert s == [DigitChar(n)];
      assert s[..0] == [];
      StyleExtractor.DigitCharValue(n);
    }
  }

  /** toHex loses nothing: its text reads back as the rounded channel,
      whatever the channel. */
  lemma ToHexValue(n: real)
    ensures SignedHexValue(ToHex(n)) == Round(n * 255.0)
  {
    var k := Round(n * 255.0);
    if k < 0 {
      NatTextValue(-k);
      var s := "-" + NatText(-k, 16);
      assert s[1..] == NatText(-k, 16);
    } else {
      NatTextValue(k);
      var text := NatText(k, 16);
      if |text| == 1 {
        var padded := "0" + text;
        assert padded[..1] == "0";
        assert padded[..1][..0] == [];
        assert padded[..|padded| - 1] == "0";
        assert HexValue("0") == 0;
        assert HexValue(text) == HexValue(text[..0]) * 16 + StyleExtractor.HexDigitValue(text[0]).GetOr(0);
      }
    }
  }

  /** Inside [0, 1] toHex writes the same two digits as the clamping toHex of
      the modular style extractor. */
  lemma ToHexInRange(n: real)
    requires 0.0 <= n <= 1.0
    ensures ToHex(n) == StyleExtractor.ByteHex(n * 255.0) == StyleExtractor.ByteHex(Round(n * 255.0) as real)
    ensures |ToHex(n)| == 2
  {
    var k := Round(n * 255.0);
    assert 0 <= k <= 255;
    assert Round(k as real) == k;
    StyleExtractor.ByteHexDigits(n * 255.0);
    StyleExtractor.ByteHexDigits(k as real);
    if k >= 16 {
      assert NatText(k / 16, 16) == [DigitChar(k / 16)];
    }
  }

  /** For channels inside [0, 1] both analyzers write the same colour text. */
  lemma HexAgreesInRange(r: real, g: real, b: real, a: real)
    requires 0.0 <= r <= 1.0 && 0.0 <= g <= 1.0 && 0.0 <= b <= 1.0 && 0.0 <= a <= 1.0
    ensures LegacyHex(r, g, b, a) == StyleExtractor.RgbaToHex(Round(r * 255.0), Round(g * 255.0), Round(b * 255.0), a)
    ensures |LegacyHex(r, g, b, a)| == if a < 1.0 then 9 else 7
  {
    ToHexInRange(r);
    ToHexInRange(g);
    ToHexInRange(b);
    ToHexInRange(a);
  }

  /** Outside [0, 1] nothing is clamped: a red of 2 is written as three
      digits, and a slightly negative one with a minus sign. */
  lemma ToHexUnclamped()
    ensures ToHex(2.0) == "1fe"
    ensures ToHex(-0.01) == "-3"
    ensures LegacyHex(2.0, 0.0, 0.0, 1.0) == "#1fe0000"
  {
    assert Round(2.0 * 255.0) == 510;
    assert NatText(1, 16) == "1";
    assert NatText(31, 16) == NatText(1, 16) + [DigitChar(15)];
    assert NatText(510, 16) == NatText(31, 16) + [DigitChar(14)];
    assert Round(-0.01 * 255.0) == -3;
    assert NatText(3, 16) == "3";
    assert Round(0.0 * 255.0) == 0;
    assert NatText(0, 16) == "0";
  }

  // ---------------------------------------------------------------- style

  /** `fill.fillType || 'color'`: a numeric fill type, or the word 'color'
      when it is absent or 0. */
  datatype FillKind = FillCode(code: real) | PlainColor

  datatype FillRecord = FillRecord(kind: FillKind, color: Option<ColorRecord>, isEnabled: bool, opacity: real)

  datatype BorderRecord = BorderRecord(color: Option<ColorRecord>, thickness: real, position: real, isEnabled: bool)

  datatype ShadowRecord = ShadowRecord(
    color: Option<ColorRecord>, offsetX: real, offsetY: real, blurRadius: real, spread: real, isEnabled: bool)

  datatype BlurRecord = BlurRecord(blurType: real, radius: real, isEnabled: bool)

  /** extractStyleInfo's record: each list only when the style has that array. */
  datatype StyleRecord = StyleRecord(
    fills: Option<seq<FillRecord>>,
    borders: Option<seq<BorderRecord>>,
    shadows: Option<seq<ShadowRecord>>,
    innerShadows: Option<seq<ShadowRecord>>,
    blur: Option<BlurRecord>)

  function NoStyle(): StyleRecord
  {
    StyleRecord(None, None, None, None, None)
  }

  /** One fill: every entry is kept, a missing flag reads as enabled. */
  function FillOf(p: Paint): FillRecord
  {
    FillRecord(
      if p.fillType.Some? && p.fillType.value != 0.0 then FillCode(p.fillType.value) else PlainColor,
      ExtractColor(p.color),
      BoolOrIfAbsent(p.isEnabled, true),
      NumOrIfAbsent(StyleExtractor.OpacityOf(p.contextSettings), 1.0))
  }

  function BorderOf(p: Paint): BorderRecord
  {
    BorderRecord(ExtractColor(p.color), NumOrIfAbsent(p.thickness, 1.0), NumOrIfAbsent(p.position, 0.0),
                 BoolOrIfAbsent(p.isEnabled, true))
  }

  function ShadowOf(p: Paint): ShadowRecord
  {
    ShadowRecord(ExtractColor(p.color), NumOrIfAbsent(p.offsetX, 0.0), NumOrIfAbsent(p.offsetY, 0.0),
                 NumOrIfAbsent(p.blurRadius, 0.0), NumOrIfAbsent(p.spread, 0.0), BoolOrIfAbsent(p.isEnabled, true))
  }

  /** `list.map(f)`: one record per entry, in order. */
  function MapPaints<T>(ps: seq<Paint>, f: Paint -> T): (r: seq<T>)
    ensures |r| == |ps| && forall i | 0 <= i < |ps| :: r[i] == f(ps[i])
  {
    if ps == [] then [] else MapPaints(ps[..|ps| - 1], f) + [f(ps[|ps| - 1])]
  }

  function MapList<T>(ps: Option<seq<Paint>>, f: Paint -> T): Option<seq<T>>
  {
    match ps
    case None => None
    case Some(list) => Some(MapPaints(list, f))
  }

  function BlurOf(b: Blur): BlurRecord
  {
    BlurRecord(NumOrIfAbsent(b.blurType, 0.0), NumOrIfAbsent(b.radius, 0.0), BoolOrIfAbsent(b.isEnabled, true))
  }

  /** extractStyleInfo. */
  function StyleRecordOf(s: Style): StyleRecord
  {
    StyleRecord(
      MapList(s.fills, FillOf),
      MapList(s.borders, BorderOf),
      MapList(s.shadows, ShadowOf),
      MapList(s.innerShadows, ShadowOf),
      if s.blur.Some? then Some(BlurOf(s.blur.value)) else None)
  }

  /** Every fill and border of the style has its record, in order, disabled
      ones included: the record is disabled exactly when the entry says so
      explicitly, and carries the entry's colour. */
  lemma DisabledEntriesKept(s: Style)
    ensures var r := StyleRecordOf(s);
      && (r.fills.Some? <==> s.fills.Some?)
      && (r.fills.Some? ==>
            |r.fills.value| == |s.fills.value|
            && forall i | 0 <= i < |s.fills.value| ::
                 (r.fills.value[i].isEnabled <==> s.fills.value[i].isEnabled != Some(false))
                 && r.fills.value[i].color == ExtractColor(s.fills.value[i].color))
      && (r.borders.Some? <==> s.borders.Some?)
      && (r.borders.Some? ==>
            |r.borders.value| == |s.borders.value|
            && forall i | 0 <= i < |s.borders.value| ::
                 (r.borders.value[i].isEnabled <==> s.borders.value[i].isEnabled != Some(false)))
  {
  }

  /** The modular extractor lists only the entries flagged enabled; the
      legacy one lists them all, so its list is never the shorter. */
  lemma LegacyListsAtLeastAsMany(ps: seq<Paint>)
    ensures |StyleExtractor.Fills(ps)| <= |MapPaints(ps, FillOf)|
  {
    StyleExtractor.KeepMapIsFilterThenMap(ps, StyleExtractor.FillOf);
  }

  // ---------------------------------------------------------------- node parts

  /** One attribute run of a text. */
  datatype RunRecord = RunRecord(
    location: real, length: real, fontFamily: Option<string>, fontSize: Option<real>,
    color: Option<ColorRecord>, alignment: Option<real>)

  /** The text part. Its content is the string a node holds, but a symbol
      override may put any value there. `runs` is None only for a text part
      an override created. */
  datatype TextRecord = TextRecord(content: OverrideValue, runs: Option<seq<RunRecord>>)

  /** The shape part: the class, the corner radius when given and the path flags. */
  datatype ShapeRecord = ShapeRecord(kind: Option<string>, cornerRadius: Option<real>, path: Option<StyleExtractor.PathFlags>)

  /** The image part: the image reference, or whatever an override put there. */
  datatype ImageRecord = ImageRecord(imageId: OverrideValue)

  /** One entry of a master's layer list: the layer's identifier, name and
      class, and whether it allows overrides. */
  datatype SymbolLayerRecord = SymbolLayerRecord(
    id: Option<string>, name: Option<string>, kind: Option<string>, allowsOverrides: bool)

  /** The symbol part: the class and symbol identifier; for a master its two
      background flags, whether it allows overrides and its layer list; for
      an instance its overrides. */
  datatype SymbolRecord = SymbolRecord(
    kind: Option<string>, symbolID: Option<string>,
    master: Option<StyleExtractor.MasterFlags>,
    allowsOverrides: Option<bool>,
    layers: Option<seq<SymbolLayerRecord>>,
    overrides: Option<seq<Override>>)

  /** getNodeInfo's record. */
  datatype NodeRecord = NodeRecord(
    id: string,
    name: string,
    nodeType: string,
    x: real,
    y: real,
    width: real,
    height: real,
    rotation: real,
    isVisible: bool,
    isLocked: bool,
    opacity: real,
    style: Option<StyleRecord>,
    text: Option<TextRecord>,
    shape: Option<ShapeRecord>,
    image: Option<ImageRecord>,
    symbol: Option<SymbolRecord>)

  function RunOf(run: Run): RunRecord
  {
    var attrs := run.attributes;
    var font := if attrs.Some? then attrs.value.font else None;
    RunRecord(
      NumOrIfAbsent(run.location, 0.0),
      NumOrIfAbsent(run.length, 0.0),
      if font.Some? then font.value.name else None,
      if font.Some? then font.value.size else None,
      ExtractColor(if attrs.Some? then attrs.value.color else None),
      if attrs.Some? then attrs.value.alignment else None)
  }

  function MapRuns(runs: seq<Run>): (r: seq<RunRecord>)
    ensures |r| == |runs| && forall i | 0 <= i < |runs| :: r[i] == RunOf(runs[i])
  {
    if runs == [] then [] else MapRuns(runs[..|runs| - 1]) + [RunOf(runs[|runs| - 1])]
  }

  /** extractTextInfo: the string (empty when absent) and one record per run. */
  function TextRecordOf(a: AttributedString): TextRecord
  {
    TextRecord(TextValue(StrOr(a.text, "")), Some(if a.runs.Some? then MapRuns(a.runs.value) else []))
  }

  /** extractShapeInfo. */
  function ShapeRecordOf(n: Node): ShapeRecord
  {
    ShapeRecord(
      n.kind,
      n.fixedRadius,
      if n.path.Some? then Some(StyleExtractor.PathFlags(BoolOrIfAbsent(n.path.value.isClosed, false),
                                                         NumOrIfAbsent(n.path.value.pointRadiusBehaviour, 1.0)))
      else None)
  }

  /** extractImageInfo. */
  function ImageRecordOf(n: Node): ImageRecord
  {
    ImageRecord(if n.image.Some? && n.image.value.ref.Some? then TextValue(n.image.value.ref.value) else Undefined)
  }

  /** A master's layer entry: `do_objectID || id`, the name and class as
      they are, and `allowsOverrides ?? true`. */
  function SymbolLayerOf(layer: Node): SymbolLayerRecord
  {
    SymbolLayerRecord(
      if layer.objectId.Some? && layer.objectId.value != "" then layer.objectId else layer.id,
      layer.name,
      layer.kind,
      BoolOrIfAbsent(layer.allowsOverrides, true))
  }

  /** extractSymbolInfo: the master's flags, override permission and layer
      list only for a master, the overrides only for an instance. */
  function SymbolRecordOf(n: Node): (r: SymbolRecord)
    ensures r.kind == n.kind && r.symbolID == n.symbolID
    ensures r.master.Some? <==> n.kind == Some("symbolMaster")
    ensures r.master.Some? ==> && (r.master.value.includeBackgroundColorInExport <==> n.includeBackgroundColorInExport == Some(true))
                               && (r.master.value.includeBackgroundColorInInstance <==> n.includeBackgroundColorInInstance == Some(true))
    ensures r.allowsOverrides.Some? <==> n.kind == Some("symbolMaster")
    ensures r.allowsOverrides.Some? ==> (r.allowsOverrides.value <==> n.allowsOverrides != Some(false))
    ensures r.layers.Some? <==> n.kind == Some("symbolMaster") && n.layers.LayerList?
    ensures r.layers.Some? ==> var ls := n.layers.items;
      && |r.layers.value| == |ls|
      && forall i | 0 <= i < |ls| :: var e := r.layers.value[i];
           && e.name == ls[i].name && e.kind == ls[i].kind
           && (e.allowsOverrides <==> ls[i].allowsOverrides != Some(false))
           && (ls[i].objectId.Some? && ls[i].objectId.value != "" ==> e.id == ls[i].objectId)
           && (ls[i].objectId.None? || ls[i].objectId.value == "" ==> e.id == ls[i].id)
    ensures r.overrides.Some? ==> n.kind == Some("symbolInstance") && r.overrides == n.overrideValues
    ensures n.kind == Some("symbolInstance") ==> r.overrides == n.overrideValues
  {
    var master := n.kind == Some("symbolMaster");
    SymbolRecord(
      n.kind,
      n.symbolID,
      if master then
        Some(StyleExtractor.MasterFlags(BoolOrIfAbsent(n.includeBackgroundColorInExport, false),
                                        BoolOrIfAbsent(n.includeBackgroundColorInInstance, false)))
      else None,
      if master then Some(BoolOrIfAbsent(n.allowsOverrides, true)) else None,
      if master && n.layers.LayerList? then Some(seq(|n.layers.items|, i requires 0 <= i < |n.layers.items| => SymbolLayerOf(n.layers.items[i])))
      else None,
      if n.kind == Some("symbolInstance") then n.overrideValues else None)
  }

  function FrameField(f: Option<Frame>, pick: Frame -> Option<real>): real
  {
    if f.Some? then NumOrIfAbsent(pick(f.value), 0.0) else 0.0
  }

  /** getNodeInfo for a node found under `id`. */
  function NodeRecordOf(id: string, n: Node): (r: NodeRecord)
    ensures r.id == id && r.nodeType == NodeType(n) && r.name == NameOf(n)
    ensures r.isVisible <==> n.isVisible != Some(false)
    ensures r.isLocked <==> n.isLocked == Some(true)
    ensures r.style.Some? <==> n.style.Some?
    ensures r.text.Some? <==> n.kind == Some("text") && n.attributedString.Some?
    ensures r.shape.Some? <==> n.kind in {Some("shapeGroup"), Some("rectangle"), Some("oval")}
    ensures r.image.Some? <==> n.kind == Some("bitmap")
    ensures r.symbol.Some? <==> n.kind in {Some("symbolMaster"), Some("symbolInstance")}
    ensures n.frame.Some? ==> && r.x == NumOrIfAbsent(n.frame.value.x, 0.0) && r.y == NumOrIfAbsent(n.frame.value.y, 0.0)
                              && r.width == NumOrIfAbsent(n.frame.value.width, 0.0)
                              && r.height == NumOrIfAbsent(n.frame.value.height, 0.0)
    ensures n.frame.None? ==> r.x == 0.0 && r.y == 0.0 && r.width == 0.0 && r.height == 0.0
    ensures r.rotation == NumOrIfAbsent(n.rotation, 0.0)
    ensures r.opacity == NumOrIfAbsent(StyleExtractor.OpacityOf(if n.style.Some? then n.style.value.contextSettings else None), 1.0)
    ensures n.style.Some? ==> r.style == Some(StyleRecordOf(n.style.value))
    ensures r.text.Some? ==> r.text.value == TextRecordOf(n.attributedString.value)
    ensures r.shape.Some? ==> r.shape.value == ShapeRecordOf(n)
    ensures r.image.Some? ==> r.image.value == ImageRecordOf(n)
    ensures r.symbol.Some? ==> r.symbol.value == SymbolRecordOf(n)
  {
    var cs := if n.style.Some? then n.style.value.contextSettings else None;
    NodeRecord(
      id,
      NameOf(n),
      NodeType(n),
      FrameField(n.frame, (f: Frame) => f.x),
      FrameField(n.frame, (f: Frame) => f.y),
      FrameField(n.frame, (f: Frame) => f.width),
      FrameField(n.frame, (f: Frame) => f.height),
      NumOrIfAbsent(n.rotation, 0.0),
      BoolOrIfAbsent(n.isVisible, true),
      BoolOrIfAbsent(n.isLocked, false),
      NumOrIfAbsent(StyleExtractor.OpacityOf(cs), 1.0),
      if n.style.Some? then Some(StyleRecordOf(n.style.value)) else None,
      if n.kind == Some("text") && n.attributedString.Some? then Some(TextRecordOf(n.attributedString.value)) else None,
      if n.kind in {Some("shapeGroup"), Some("rectangle"), Some("oval")} then Some(ShapeRecordOf(n)) else None,
      if n.kind == Some("bitmap") then Some(ImageRecordOf(n)) else None,
      if n.kind in {Some("symbolMaster"), Some("symbolInstance")} then Some(SymbolRecordOf(n)) else None)
  }

  // ---------------------------------------------------------------- overrides

  /** `fills[0] = x`: the first entry replaced, or the list started. */
  function SetFirst<T>(s: seq<T>, x: T): (r: seq<T>)
    ensures |r| == if s == [] then 1 else |s|
    ensures r[0] == x && r[1..] == if s == [] then [] else s[1..]
  {
    if s == [] then [x] else [x] + s[1..]
  }

  /** The fill a colour override installs. */
  function OverrideFill(c: Color): FillRecord
  {
    FillRecord(PlainColor, ExtractColor(Some(c)), true, 1.0)
  }

  /** applyOverrideToStyles: a name mentioning 'stringValue' sets the text
      content, one mentioning 'image' sets the image reference, and one
      mentioning 'color' with an object value makes that colour the first
      fill; a name may do several of these. */
  function ApplyOverride(r: NodeRecord, name: string, value: OverrideValue): NodeRecord
  {
    var r1 := if Includes(name, "stringValue") then
                r.(text := Some(if r.text.Some? then r.text.value.(content := value) else TextRecord(value, None)))
              else r;
    var r2 := if Includes(name, "image") then r1.(image := Some(ImageRecord(value))) else r1;
    if Includes(name, "color") && value.ColorValue? then
      var st := r2.style.GetOr(NoStyle());
      r2.(style := Some(st.(fills := Some(SetFirst(st.fills.GetOr([]), OverrideFill(value.color))))))
    else r2
  }

  /** What one override changes, and that it changes nothing else. */
  lemma OverrideMeaning(r: NodeRecord, name: string, value: OverrideValue)
    ensures var out := ApplyOverride(r, name, value);
      && (Includes(name, "stringValue") ==>
            out.text.Some? && out.text.value.content == value
            && (r.text.Some? ==> out.text.value.runs == r.text.value.runs))
      && (!Includes(name, "stringValue") ==> out.text == r.text)
      && (Includes(name, "image") ==> out.image == Some(ImageRecord(value)))
      && (!Includes(name, "image") ==> out.image == r.image)
      && (Includes(name, "color") && value.ColorValue? ==>
            out.style.Some? && out.style.value.fills.Some? && out.style.value.fills.value != []
            && out.style.value.fills.value[0] == OverrideFill(value.color)
            && out.style.value.fills.value[1..] == (if r.style.Some? && r.style.value.fills.Some? && r.style.value.fills.value != []
                                                    then r.style.value.fills.value[1..] else [])
            && out.style.value.borders == (if r.style.Some? then r.style.value.borders else None))
      && (!(Includes(name, "color") && value.ColorValue?) ==> out.style == r.style)
      && out.(text := r.text, image := r.image, style := r.style) == r
  {
  }

  /** Whether getSymbolInstanceStyles passes an override on: it needs a
      non-empty name and a value. */
  predicate Applies(ov: Override)
  {
    ov.overrideName.Some? && ov.overrideName.value != "" && !ov.value.Undefined?
  }

  /** The overrides that apply, one after the other. */
  function ApplyOverrides(r: NodeRecord, ovs: seq<Override>): NodeRecord
  {
    if ovs == [] then r
    else
      var before := ApplyOverrides(r, ovs[..|ovs| - 1]);
      var ov := ovs[|ovs| - 1];
      if Applies(ov) then ApplyOverride(before, ov.overrideName.value, ov.value) else before
  }

  /** Overrides touch only the text, image and style parts. */
  lemma {:induction false} OverridesKeepTheRest(r: NodeRecord, ovs: seq<Override>)
    ensures ApplyOverrides(r, ovs).(text := r.text, image := r.image, style := r.style) == r
  {
    if ovs != [] {
      var before := ApplyOverrides(r, ovs[..|ovs| - 1]);
      OverridesKeepTheRest(r, ovs[..|ovs| - 1]);
      var ov := ovs[|ovs| - 1];
      if Applies(ov) {
        OverrideMeaning(before, ov.overrideName.value, ov.value);
      }
    }
  }

  /** When no override mentions a colour, the style is the master's own. */
  lemma {:induction false} StyleWithoutColorOverrides(r: NodeRecord, ovs: seq<Override>)
    requires forall i | 0 <= i < |ovs| :: !(ovs[i].overrideName.Some? && Includes(ovs[i].overrideName.value, "color"))
    ensures ApplyOverrides(r, ovs).style == r.style
  {
    if ovs != [] {
      var init := ovs[..|ovs| - 1];
      assert forall i | 0 <= i < |init| :: init[i] == ovs[i];
      StyleWithoutColorOverrides(r, init);
      var ov := ovs[|ovs| - 1];
      if Applies(ov) {
        OverrideMeaning(ApplyOverrides(r, init), ov.overrideName.value, ov.value);
      }
    }
  }

  // ---------------------------------------------------------------- instance styles

  /** getSymbolInstanceStyles' result: the master's record with the
      instance's overrides applied, and the symbol information beside it. */
  datatype InstanceStyles = InstanceStyles(
    record: NodeRecord,
    masterSymbolID: Option<string>,
    instanceId: string,
    overrides: seq<Override>,
    masterStyles: StyleRecord)

  /** As written: `masterStyles` is the very style object the overrides then
      change, so when the master has a style, a colour override shows up in
      what is reported as the master's own style. */
  function InstanceStylesAsWritten(master: NodeRecord, symbolID: Option<string>, instanceId: string,
                                   ovs: Option<seq<Override>>): (r: InstanceStyles)
    ensures r.record == ApplyOverrides(master, r.overrides) && r.overrides == ovs.GetOr([])
    ensures r.masterSymbolID == symbolID && r.instanceId == instanceId
    ensures master.style.None? ==> r.masterStyles == NoStyle()
    ensures master.style.Some? ==> r.masterStyles == r.record.style.GetOr(NoStyle())
  {
    var out := ApplyOverrides(master, ovs.GetOr([]));
    InstanceStyles(out, symbolID, instanceId, ovs.GetOr([]),
                   if master.style.Some? then out.style.GetOr(NoStyle()) else NoStyle())
  }

  /** As intended: `masterStyles` is the master's style before any override. */
  function InstanceStylesOf(master: NodeRecord, symbolID: Option<string>, instanceId: string,
                            ovs: Option<seq<Override>>): (r: InstanceStyles)
    ensures r.masterStyles == master.style.GetOr(NoStyle())
    ensures r.record == ApplyOverrides(master, r.overrides) && r.overrides == ovs.GetOr([])
    ensures r.masterSymbolID == symbolID && r.instanceId == instanceId
  {
    InstanceStyles(ApplyOverrides(master, ovs.GetOr([])), symbolID, instanceId, ovs.GetOr([]),
                   master.style.GetOr(NoStyle()))
  }

  /** The two agree unless an override names a colour. */
  lemma AsWrittenAgreesWithoutColor(master: NodeRecord, symbolID: Option<string>, instanceId: string,
                                    ovs: seq<Override>)
    requires forall i | 0 <= i < |ovs| :: !(ovs[i].overrideName.Some? && Includes(ovs[i].overrideName.value, "color"))
    ensures InstanceStylesAsWritten(master, symbolID, instanceId, Some(ovs))
         == InstanceStylesOf(master, symbolID, instanceId, Some(ovs))
  {
    StyleWithoutColorOverrides(master, ovs);
  }

  /** A master with a style but no fills, and one colour override: as written,
      the reported master style gains the override's fill. */
  lemma MasterStylesAliased(master: NodeRecord, c: Color)
    requires master.style == Some(NoStyle())
    ensures var ovs := Some([Override(Some("color"), ColorValue(c))]);
      && InstanceStylesAsWritten(master, None, "instance", ovs).masterStyles.fills == Some([OverrideFill(c)])
      && InstanceStylesOf(master, None, "instance", ovs).masterStyles.fills == None
  {
    var ov := Override(Some("color"), ColorValue(c));
    assert Includes("color", "color") by {
      assert "color" <= "color"[0..];
    }
    assert [ov][..0] == [];
    assert !Includes("color", "stringValue");
    assert !Includes("color", "image") by {
      forall i | 0 <= i <= 0 ensures !("image" <= "color"[i..]) {
        assert "color"[i..][0] == 'c';
      }
    }
    var out := ApplyOverrides(master, [ov]);
    assert Applies(ov);
    assert ApplyOverrides(master, [ov][..0]) == master;
    assert out == ApplyOverride(master, "color", ColorValue(c));
  }
}
