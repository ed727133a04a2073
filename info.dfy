/** The node information extractor: a uniform record for every raw node,
    with a kind-specific part chosen by the node's type. */
module NodeInfoExtractor {
  import opened Wrappers
  import opened Js
  import opened Sketch
  import opened StyleExtractor

  /** The kind-specific part of a record; at most one is attached. */
  datatype KindInfo =
    | NoKindInfo
    | TextKind(text: TextInfo)
    | ShapeKind(shape: ShapeInfo)
    | ImageKind(image: ImageInfo)
    | SymbolKind(symbol: SymbolInfo)
    | ChildrenKind(children: seq<string>)

  /** The record extractNodeInfo returns; `id` is the raw identifier, which
      may be absent or empty. */
  datatype NodeInfo = NodeInfo(
    id: Option<string>,
    name: string,
    nodeType: string,
    x: real,
    y: real,
    width: real,
    height: real,
    rotation: real,
    isVisible: bool,
    isLocked: bool,
    opacity: real,
    style: StyleInfo,
    kindInfo: KindInfo)

  datatype PageInfo = PageInfo(
    id: Option<string>,
    name: string,
    layerCount: nat,
    frame: Frame,
    backgroundColor: string)

  datatype SymbolMasterInfo = SymbolMasterInfo(
    base: NodeInfo,
    symbolID: string,
    includeBackgroundColorInExport: bool,
    includeBackgroundColorInInstance: bool,
    layers: seq<string>)

  datatype SymbolInstanceInfo = SymbolInstanceInfo(base: NodeInfo, symbolID: string, overrides: seq<OverrideInfo>)

  // ------------------------------------------------------------ helpers

  /** extractPosition: the frame's x and y, 0 when the frame or value is falsy. */
  function Position(n: Node): (r: (real, real))
    ensures n.frame.None? ==> r == (0.0, 0.0)
    ensures n.frame.Some? ==> r == (NumOr(n.frame.value.x, 0.0), NumOr(n.frame.value.y, 0.0))
  {
    match n.frame
    case None => (0.0, 0.0)
    case Some(f) => (NumOr(f.x, 0.0), NumOr(f.y, 0.0))
  }

  /** extractSize: the frame's width and height, 0 when missing or falsy. */
  function Dimensions(n: Node): (r: (real, real))
    ensures n.frame.None? ==> r == (0.0, 0.0)
    ensures n.frame.Some? ==> r == (NumOr(n.frame.value.width, 0.0), NumOr(n.frame.value.height, 0.0))
  {
    match n.frame
    case None => (0.0, 0.0)
    case Some(f) => (NumOr(f.width, 0.0), NumOr(f.height, 0.0))
  }

  /** extractOpacity: the style's context opacity when it is defined (0
      included), 1 otherwise. */
  function Opacity(n: Node): (r: real)
    ensures (n.style.Some? && n.style.value.contextSettings.Some? && n.style.value.contextSettings.value.opacity.Some?)
            ==> r == n.style.value.contextSettings.value.opacity.value
    ensures !(n.style.Some? && n.style.value.contextSettings.Some? && n.style.value.contextSettings.value.opacity.Some?)
            ==> r == 1.0
  {
    if n.style.Some? && n.style.value.contextSettings.Some?
    then NumOrIfAbsent(n.style.value.contextSettings.value.opacity, 1.0)
    else 1.0
  }

  /** The identifiers of the direct children that have a truthy one, in order. */
  function ChildIds(ns: seq<Node>): seq<string>
  {
    if ns == [] then []
    else
      var last := ns[|ns| - 1];
      ChildIds(ns[..|ns| - 1]) + (if IdOf(last).Some? then [IdOf(last).value] else [])
  }

  /** The child identifiers are those of the children with one, in order,
      and never more than the children. */
  lemma {:induction false} ChildIdsMeaning(ns: seq<Node>)
    ensures |ChildIds(ns)| <= |ns|
    ensures forall id | id in ChildIds(ns) :: id != "" && exists c | c in ns :: IdOf(c) == Some(id)
    ensures forall c | c in ns && IdOf(c).Some? :: IdOf(c).value in ChildIds(ns)
  {
    if ns != [] {
      var init := ns[..|ns| - 1];
      ChildIdsMeaning(init);
      assert ns == init + [ns[|ns| - 1]];
      forall id | id in ChildIds(ns)
        ensures exists c | c in ns :: IdOf(c) == Some(id)
      {
        if id in ChildIds(init) {
          var c :| c in init && IdOf(c) == Some(id);
          assert c in ns;
        } else {
          assert ns[|ns| - 1] in ns;
        }
      }
    }
  }

  /** Children identifiers keep the children's order: a child listed before
      another is listed before it. */
  lemma {:induction false} ChildIdsAppend(a: seq<Node>, b: seq<Node>)
    ensures ChildIds(a + b) == ChildIds(a) + ChildIds(b)
    decreases |b|
  {
    if b == [] {
      assert a + b == a;
    } else {
      assert (a + b)[..|a + b| - 1] == a + b[..|b| - 1];
      ChildIdsAppend(a, b[..|b| - 1]);
    }
  }

  /** extractChildrenIds. */
  method ExtractChildrenIds(n: Node) returns (children: seq<string>)
    ensures children == ChildIds(Kids(n))
  {
    children := [];
    var ls := Kids(n);
    for i := 0 to |ls|
      invariant children == ChildIds(ls[..i])
    {
      assert ls[..i + 1][..i] == ls[..i];
      var childId := IdOf(ls[i]);
      if childId.Some? {
        children := children + [childId.value];
      }
    }
    assert ls[..|ls|] == ls;
  }

  // ---------------------------------------------------------- records

  /** The kind-specific part of extractNodeInfo, chosen by type. */
  function KindInfoOf(n: Node): KindInfo
  {
    var t := NodeType(n);
    if t == "text" then TextKind(TextOf(n.attributedString))
    else if t == "rectangle" || t == "oval" || t == "shapePath" then ShapeKind(ExtractShapeInfo(n))
    else if t == "bitmap" then ImageKind(ExtractImageInfo(n))
    else if t == "symbolInstance" || t == "symbolMaster" then SymbolKind(ExtractSymbolInfo(n))
    else if t == "group" || t == "artboard" then ChildrenKind(ChildIds(Kids(n)))
    else NoKindInfo
  }

  /** extractNodeInfo: null for a null node, otherwise the uniform record. */
  function NodeInfoOf(node: Option<Node>): (r: Option<NodeInfo>)
    ensures r.Some? <==> node.Some?
    ensures r.Some? ==> var n := node.value; var info := r.value;
      && info.id == RawId(n)
      && info.nodeType == NodeType(n)
      && (info.isVisible <==> n.isVisible != Some(false))
      && (info.isLocked <==> n.isLocked == Some(true))
      && info.style == StyleOf(n.style)
      && info.name == (if n.name.Some? && n.name.value != "" then n.name.value else "")
      && (info.x, info.y) == Position(n)
      && (info.width, info.height) == Dimensions(n)
      && info.rotation == NumOr(n.rotation, 0.0)
      && info.opacity == Opacity(n)
      && info.kindInfo == KindInfoOf(n)
  {
    match node
    case None => None
    case Some(n) =>
      var (x, y) := Position(n);
      var (w, h) := Dimensions(n);
      Some(NodeInfo(RawId(n), NameOf(n), NodeType(n), x, y, w, h, NumOr(n.rotation, 0.0),
                    n.isVisible != Some(false), n.isLocked == Some(true), Opacity(n),
                    StyleOf(n.style), KindInfoOf(n)))
  }

  /** The kind-specific part matches the type exactly: text for text nodes,
      a shape record for rectangles, ovals and shape paths, an image record
      for bitmaps, a symbol record for symbols, child identifiers for groups
      and artboards, and nothing for any other type. */
  lemma KindInfoByType(n: Node)
    ensures var k := KindInfoOf(n); var t := NodeType(n);
      && (k.TextKind? <==> t == "text")
      && (k.ShapeKind? <==> t in {"rectangle", "oval", "shapePath"})
      && (k.ImageKind? <==> t == "bitmap")
      && (k.SymbolKind? <==> t in {"symbolInstance", "symbolMaster"})
      && (k.ChildrenKind? <==> t in {"group", "artboard"})
      && (k.NoKindInfo? <==> t !in {"text", "rectangle", "oval", "shapePath", "bitmap",
                                    "symbolInstance", "symbolMaster", "group", "artboard"})
      && (k.TextKind? ==> k.text == TextOf(n.attributedString))
      && (k.ShapeKind? ==> k.shape == ExtractShapeInfo(n))
      && (k.ImageKind? ==> k.image == ExtractImageInfo(n))
      && (k.SymbolKind? ==> k.symbol == ExtractSymbolInfo(n))
      && (k.ChildrenKind? ==> k.children == ChildIds(Kids(n)))
  {
  }

  /** A node without style gets the default style record and full opacity. */
  lemma UnstyledNode(n: Node)
    requires n.style.None?
    ensures var info := NodeInfoOf(Some(n)).value;
      && info.style == StyleInfo([], [], [], [], BlurInfo(0.0, 10.0, false))
      && info.opacity == 1.0
  {
  }

  // ------------------------------------------------------------ pages

  /** countLayersRecursive: every layer of the list and all below it. */
  method CountLayersRecursive(layers: seq<Node>) returns (count: nat)
    ensures count == Count(layers)
    decreases Count(layers)
  {
    count := 0;
    for i := 0 to |layers|
      invariant count == Count(layers[..i])
    {
      var layer := layers[i];
      var below := 0;
      CountCovers(layers, i);
      SizeIsKids(layer);
      match layer.layers {
        case LayerList(ls) => below := CountLayersRecursive(ls);
        case NoLayers =>
      }
      SizeIsKids(layer);
      CountSnoc(layers, i);
      count := count + 1 + below;
    }
    assert layers[..|layers|] == layers;
  }

  /** A layer and everything below it are part of the count of its list. */
  lemma CountCovers(ls: seq<Node>, i: nat)
    requires i < |ls|
    ensures Size(ls[i]) <= Count(ls)
  {
    assert ls == ls[..i + 1] + ls[i + 1..];
    CountAppend(ls[..i + 1], ls[i + 1..]);
    CountSnoc(ls, i);
  }

  /** extractBackgroundColor: the hex of the background colour, white without one. */
  function BackgroundOf(n: Node): (r: string)
    ensures n.backgroundColor.None? ==> r == "#ffffff"
    ensures n.backgroundColor.Some? ==> r == ExtractColor(n.backgroundColor).hex
  {
    if n.backgroundColor.Some? then ExtractColor(n.backgroundColor).hex else "#ffffff"
  }

  /** extractPageInfo: null for a null page; the layer count covers every
      nested layer; the frame defaults to a zero rectangle. */
  function PageInfoOf(page: Option<Node>): (r: Option<PageInfo>)
    ensures r.Some? <==> page.Some?
    ensures r.Some? ==> r.value.layerCount == |PreOrder(Kids(page.value))|
                        && r.value.layerCount + 1 == |Subtree(page.value)|
    ensures r.Some? ==> var p := page.value;
      && r.value.id == RawId(p)
      && r.value.name == (if p.name.Some? && p.name.value != "" then p.name.value else "")
      && (p.frame.Some? ==> r.value.frame == p.frame.value)
      && (p.frame.None? ==> r.value.frame == Frame(Some(0.0), Some(0.0), Some(0.0), Some(0.0)))
      && r.value.backgroundColor == BackgroundOf(p)
  {
    match page
    case None => None
    case Some(p) =>
      SizeIsKids(p);
      Some(PageInfo(RawId(p), NameOf(p), Count(Kids(p)),
                    p.frame.GetOr(Frame(Some(0.0), Some(0.0), Some(0.0), Some(0.0))),
                    BackgroundOf(p)))
  }

  // ---------------------------------------------------------- symbols

  /** extractSymbolMasterInfo: only for symbol masters. */
  function SymbolMasterInfoOf(node: Option<Node>): (r: Option<SymbolMasterInfo>)
    ensures r.Some? <==> node.Some? && node.value.kind == Some("symbolMaster")
    ensures r.Some? ==> r.value.base == NodeInfoOf(node).value && r.value.layers == ChildIds(Kids(node.value))
    ensures r.Some? ==> var n := node.value;
      && r.value.symbolID == (if n.symbolID.Some? && n.symbolID.value != "" then n.symbolID.value else "")
      && (r.value.includeBackgroundColorInExport <==> n.includeBackgroundColorInExport == Some(true))
      && (r.value.includeBackgroundColorInInstance <==> n.includeBackgroundColorInInstance == Some(true))
  {
    if node.None? || node.value.kind != Some("symbolMaster") then None
    else
      var n := node.value;
      Some(SymbolMasterInfo(NodeInfoOf(node).value, StrOr(n.symbolID, ""),
                            IsTrue(n.includeBackgroundColorInExport),
                            IsTrue(n.includeBackgroundColorInInstance),
                            ChildIds(Kids(n))))
  }

  /** What extractSymbolInstanceInfo returns. */
  function SymbolInstanceInfoOf(node: Option<Node>): (r: Option<SymbolInstanceInfo>)
    ensures r.Some? <==> node.Some? && node.value.kind == Some("symbolInstance")
    ensures r.Some? ==> var n := node.value;
      && r.value.base == NodeInfoOf(node).value
      && r.value.symbolID == (if n.symbolID.Some? && n.symbolID.value != "" then n.symbolID.value else "")
      && r.value.overrides == OverridesOf(n.overrideValues.GetOr([]))
  {
    if node.None? || node.value.kind != Some("symbolInstance") then None
    else
      var n := node.value;
      Some(SymbolInstanceInfo(NodeInfoOf(node).value, StrOr(n.symbolID, ""),
                              OverridesOf(n.overrideValues.GetOr([]))))
  }

  /** extractSymbolInstanceInfo: one override entry per override value, in
      order, names defaulting to the empty string. */
  method ExtractSymbolInstanceInfo(node: Option<Node>) returns (r: Option<SymbolInstanceInfo>)
    ensures r == SymbolInstanceInfoOf(node)
  {
    if node.None? || node.value.kind != Some("symbolInstance") {
      return None;
    }
    var n := node.value;
    var ovs := n.overrideValues.GetOr([]);
    var overrides: seq<OverrideInfo> := [];
    for i := 0 to |ovs|
      invariant overrides == OverridesOf(ovs[..i])
    {
      assert ovs[..i + 1][..i] == ovs[..i];
      overrides := overrides + [OverrideInfo(StrOr(ovs[i].overrideName, ""), ovs[i].value)];
    }
    assert ovs[..|ovs|] == ovs;
    r := Some(SymbolInstanceInfo(NodeInfoOf(node).value, StrOr(n.symbolID, ""), overrides));
  }

  /** Every override of an instance is reported, in order, with its value. */
  lemma InstanceOverrides(n: Node)
    requires n.kind == Some("symbolInstance")
    ensures var info := SymbolInstanceInfoOf(Some(n)).value; var ovs := n.overrideValues.GetOr([]);
      && |info.overrides| == |ovs|
      && forall i | 0 <= i < |ovs| ::
           info.overrides[i].value == ovs[i].value
           && (ovs[i].overrideName.Some? && ovs[i].overrideName.value != "" ==> info.overrides[i].overrideName == ovs[i].overrideName.value)
           && (ovs[i].overrideName.None? ==> info.overrides[i].overrideName == "")
  {
  }

  // ------------------------------------------------------------ batch

  /** The records of the non-null nodes, in order. */
  function InfosOf(nodes: seq<Option<Node>>): seq<NodeInfo>
  {
    if nodes == [] then []
    else
      var last := nodes[|nodes| - 1];
      InfosOf(nodes[..|nodes| - 1]) + (if last.Some? then [NodeInfoOf(last).value] else [])
  }

  /** extractMultipleNodeInfo. */
  method ExtractMultipleNodeInfo(nodes: seq<Option<Node>>) returns (r: seq<NodeInfo>)
    ensures r == InfosOf(nodes)
  {
    r := [];
    for i := 0 to |nodes|
      invariant r == InfosOf(nodes[..i])
    {
      assert nodes[..i + 1][..i] == nodes[..i];
      var info := NodeInfoOf(nodes[i]);
      if info.Some? {
        r := r + [info.value];
      }
    }
    assert nodes[..|nodes|] == nodes;
  }

  /** Null nodes are dropped and the rest keep their order: the batch of a
      list of nodes with no nulls is the record of each node in turn. */
  lemma {:induction false} BatchKeepsOrder(nodes: seq<Option<Node>>)
    requires forall i | 0 <= i < |nodes| :: nodes[i].Some?
    ensures |InfosOf(nodes)| == |nodes|
    ensures forall i | 0 <= i < |nodes| :: InfosOf(nodes)[i] == NodeInfoOf(nodes[i]).value
  {
    if nodes != [] {
      BatchKeepsOrder(nodes[..|nodes| - 1]);
    }
  }

  /** A null in the batch contributes nothing. */
  lemma {:induction false} BatchDropsNull(a: seq<Option<Node>>, b: seq<Option<Node>>)
    ensures InfosOf(a + [None] + b) == InfosOf(a + b)
    decreases |b|
  {
    if b == [] {
      assert (a + [None] + b)[..|a|] == a;
      assert a + b == a;
    } else {
      assert (a + [None] + b)[..|a + [None] + b| - 1] == a + [None] + b[..|b| - 1];
      assert (a + b)[..|a + b| - 1] == a + b[..|b| - 1];
      BatchDropsNull(a, b[..|b| - 1]);
    }
  }
}
