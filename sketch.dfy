/** The raw Sketch document as the loader hands it over: parsed JSON in which
    every field may be missing, so each field is an `Option`. Only the fields
    the analyzer reads are kept. */
module Sketch {
  import opened Wrappers
  import opened Js

  /** A colour with channels in [0, 1]. */
  datatype Color = Color(red: Option<real>, green: Option<real>, blue: Option<real>, alpha: Option<real>)

  datatype ContextSettings = ContextSettings(opacity: Option<real>)

  /** One entry of `fills`, `borders`, `shadows` or `innerShadows`; each list
      uses its own subset of these fields. */
  datatype Paint = Paint(
    isEnabled: Option<bool>,
    fillType: Option<real>,
    color: Option<Color>,
    contextSettings: Option<ContextSettings>,
    thickness: Option<real>,
    position: Option<real>,
    offsetX: Option<real>,
    offsetY: Option<real>,
    blurRadius: Option<real>,
    spread: Option<real>)

  datatype Blur = Blur(blurType: Option<real>, radius: Option<real>, isEnabled: Option<bool>)

  datatype Style = Style(
    fills: Option<seq<Paint>>,
    borders: Option<seq<Paint>>,
    shadows: Option<seq<Paint>>,
    innerShadows: Option<seq<Paint>>,
    blur: Option<Blur>,
    contextSettings: Option<ContextSettings>)

  /** `MSAttributedStringFontAttribute.attributes`. */
  datatype Font = Font(name: Option<string>, size: Option<real>)

  datatype RunAttributes = RunAttributes(
    font: Option<Font>,
    color: Option<Color>,
    alignment: Option<real>)

  /** One attribute run of an attributed string. */
  datatype Run = Run(location: Option<real>, length: Option<real>, attributes: Option<RunAttributes>)

  datatype AttributedString = AttributedString(text: Option<string>, runs: Option<seq<Run>>)

  /** A point of a curve: Sketch writes "{x, y}" strings; some exporters write objects. */
  datatype Coord = CoordText(text: string) | CoordObject(x: Option<real>, y: Option<real>)

  datatype CurvePoint = CurvePoint(
    point: Option<Coord>,
    x: Option<real>,
    y: Option<real>,
    curveFrom: Option<Coord>,
    curveTo: Option<Coord>,
    hasCurveFrom: Option<bool>,
    hasCurveTo: Option<bool>)

  /** The `path` object of a shape path. */
  datatype ShapePath = ShapePath(isClosed: Option<bool>, pointRadiusBehaviour: Option<real>, pathData: Option<string>)

  datatype Frame = Frame(x: Option<real>, y: Option<real>, width: Option<real>, height: Option<real>)

  datatype ImageRef = ImageRef(ref: Option<string>)

  /** The `value` of a symbol override: absent, a string, or a colour object. */
  datatype OverrideValue = Undefined | TextValue(text: string) | ColorValue(color: Color)

  datatype Override = Override(overrideName: Option<string>, value: OverrideValue)

  /** The `layers` array of a node, when there is one. */
  datatype Layers = NoLayers | LayerList(items: seq<Node>)

  /** A layer, page, artboard or symbol: `kind` is its `_class`. */
  datatype Node = Node(
    id: Option<string>,
    objectId: Option<string>,
    name: Option<string>,
    kind: Option<string>,
    frame: Option<Frame>,
    rotation: Option<real>,
    isVisible: Option<bool>,
    isLocked: Option<bool>,
    style: Option<Style>,
    attributedString: Option<AttributedString>,
    fixedRadius: Option<real>,
    path: Option<ShapePath>,
    points: Option<seq<CurvePoint>>,
    image: Option<ImageRef>,
    symbolID: Option<string>,
    includeBackgroundColorInExport: Option<bool>,
    includeBackgroundColorInInstance: Option<bool>,
    allowsOverrides: Option<bool>,
    overrideValues: Option<seq<Override>>,
    backgroundColor: Option<Color>,
    layers: Layers)

  datatype Document = Document(pages: Option<seq<Node>>)

  datatype Meta = Meta(version: Option<string>, created: Option<string>)

  datatype Config = Config(document: Option<Document>, meta: Option<Meta>)

  /** `node.id || node.do_objectID`: the raw identifier, possibly absent or "". */
  function RawId(n: Node): Option<string>
  {
    if n.id.Some? && n.id.value != "" then n.id else n.objectId
  }

  /** The identifier under which a node is indexed: `RawId` when it is truthy. */
  function IdOf(n: Node): (r: Option<string>)
    ensures r.Some? ==> r.value != ""
  {
    var raw := RawId(n);
    if raw.Some? && raw.value != "" then raw else None
  }

  /** `node._class || 'unknown'`. Both type switches of the analyzer map every
      known class to its own name and fall back to this. */
  function NodeType(n: Node): string
  {
    StrOr(n.kind, "unknown")
  }

  /** `node.name || ''`. */
  function NameOf(n: Node): string
  {
    StrOr(n.name, "")
  }

  /** The children of a node: its layers array, or none. */
  function Kids(n: Node): seq<Node>
  {
    match n.layers
    case LayerList(ls) => ls
    case NoLayers => []
  }

  /** The number of nodes in the subtree rooted at `n`. */
  function Size(n: Node): (k: nat)
    ensures k >= 1
  {
    1 + match n.layers
        case LayerList(ls) => Count(ls)
        case NoLayers => 0
  }

  /** The number of nodes in a forest. */
  function Count(ns: seq<Node>): nat
  {
    if ns == [] then 0 else Size(ns[0]) + Count(ns[1..])
  }

  /** All nodes of a forest in depth-first pre-order. */
  function PreOrder(ns: seq<Node>): (r: seq<Node>)
    ensures |r| == Count(ns)
  {
    if ns == [] then [] else Subtree(ns[0]) + PreOrder(ns[1..])
  }

  /** The nodes of the subtree rooted at `n`, in depth-first pre-order. */
  function Subtree(n: Node): (r: seq<Node>)
    ensures |r| == Size(n) && r[0] == n
  {
    [n] + match n.layers
          case LayerList(ls) => PreOrder(ls)
          case NoLayers => []
  }

  lemma SizeIsKids(n: Node)
    ensures Size(n) == 1 + Count(Kids(n))
  {
  }

  lemma {:induction false} CountAppend(a: seq<Node>, b: seq<Node>)
    ensures Count(a + b) == Count(a) + Count(b)
  {
    if a != [] {
      assert (a + b)[0] == a[0];
      assert (a + b)[1..] == a[1..] + b;
      CountAppend(a[1..], b);
    } else {
      assert a + b == b;
    }
  }

  /** A list's count grows by one layer's whole subtree per layer. */
  lemma CountSnoc(ls: seq<Node>, i: nat)
    requires i < |ls|
    ensures Count(ls[..i + 1]) == Count(ls[..i]) + Size(ls[i])
  {
    assert ls[..i + 1] == ls[..i] + [ls[i]];
    CountAppend(ls[..i], [ls[i]]);
    assert Count([ls[i]]) == Size(ls[i]);
  }

  lemma {:induction false} PreOrderAppend(a: seq<Node>, b: seq<Node>)
    ensures PreOrder(a + b) == PreOrder(a) + PreOrder(b)
  {
    if a != [] {
      assert (a + b)[0] == a[0];
      assert (a + b)[1..] == a[1..] + b;
      PreOrderAppend(a[1..], b);
    } else {
      assert a + b == b;
    }
  }

  /** A depth-first walk that threads a state through the nodes it visits. */
  function Fold<S>(s: S, ns: seq<Node>, step: (S, Node) -> S): S
  {
    if ns == [] then s else step(Fold(s, ns[..|ns| - 1], step), ns[|ns| - 1])
  }

  lemma {:induction false} FoldAppend<S>(s: S, a: seq<Node>, b: seq<Node>, step: (S, Node) -> S)
    ensures Fold(s, a + b, step) == Fold(Fold(s, a, step), b, step)
    decreases |b|
  {
    if b == [] {
      assert a + b == a;
    } else {
      assert (a + b)[..|a + b| - 1] == a + b[..|b| - 1];
      FoldAppend(s, a, b[..|b| - 1], step);
    }
  }

  lemma PreOrderSnoc(ls: seq<Node>, i: nat)
    requires i < |ls|
    ensures PreOrder(ls[..i + 1]) == PreOrder(ls[..i]) + Subtree(ls[i])
  {
    assert ls[..i + 1] == ls[..i] + [ls[i]];
    PreOrderAppend(ls[..i], [ls[i]]);
    assert PreOrder([ls[i]]) == Subtree(ls[i]) + PreOrder([]);
  }

  /** Visiting a subtree visits its root, then its children's subtrees in order. */
  lemma FoldSubtree<S>(s: S, n: Node, step: (S, Node) -> S)
    ensures Fold(s, Subtree(n), step) == Fold(step(s, n), PreOrder(Kids(n)), step)
  {
    assert Subtree(n) == [n] + PreOrder(Kids(n));
    FoldAppend(s, [n], PreOrder(Kids(n)), step);
    assert [n][..0] == [];
  }

  /** Visiting the first i + 1 trees of a forest is visiting the first i, then tree i. */
  lemma FoldForestStep<S>(s: S, ls: seq<Node>, i: nat, step: (S, Node) -> S)
    requires i < |ls|
    ensures Fold(s, PreOrder(ls[..i + 1]), step) == Fold(Fold(s, PreOrder(ls[..i]), step), Subtree(ls[i]), step)
  {
    PreOrderSnoc(ls, i);
    FoldAppend(s, PreOrder(ls[..i]), Subtree(ls[i]), step);
  }

  /** A node with every field absent, kind aside. */
  function Blank(kind: string): Node
  {
    Node(None, None, None, Some(kind), None, None, None, None, None, None, None, None, None,
         None, None, None, None, None, None, None, NoLayers)
  }
}
