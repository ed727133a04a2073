/** The analyzer facade: the document it was given, the node index built from
    it, and the queries, renderings, structures and summaries it answers from
    the two. */
module Analyzer {
  import opened Wrappers
  import opened Js
  import opened Sketch
  import opened StyleExtractor
  import opened PathProcessor
  import opened NodeInfoExtractor
  import opened Indexer
  import opened SvgRenderer
  import opened JsObjects
  import opened Tallies
  import opened DocumentStructure

  // ------------------------------------------------------------ listing by page

  /** The filters and the page of listNodesByPage. */
  datatype Query = Query(limit: int, nodeType: string, nameContains: string, offset: int)

  /** The identifiers processLayers reaches below a list of layers, in
      depth-first pre-order: a layer without an identifier, or whose
      identifier is not indexed, is passed over together with everything
      below it. */
  function Reached(t: Tables, ls: seq<Node>): (r: seq<string>)
    ensures forall id | id in r :: id in t.nodes
    decreases ls
  {
    if ls == [] then [] else Reached(t, ls[..|ls| - 1]) + ReachedIn(t, ls[|ls| - 1])
  }

  function ReachedIn(t: Tables, n: Node): (r: seq<string>)
    ensures forall id | id in r :: id in t.nodes
    decreases n
  {
    match IdOf(n)
    case None => []
    case Some(id) =>
      if id !in t.nodes then []
      else [id] + match n.layers
                  case LayerList(ls) => Reached(t, ls)
                  case NoLayers => []
  }

  /** What processLayers carries from node to node. */
  datatype PageScan = PageScan(results: seq<NodeSummary>, count: nat, skipped: nat)

  /** One reached identifier: nothing once the limit is reached; a node
      failing a filter is passed over; the first `offset` matches are
      counted as skipped; later matches are listed, described by the indexed
      node. */
  function Visit(t: Tables, s: PageScan, id: string, q: Query): PageScan
    requires id in t.nodes
  {
    if s.count >= q.limit then s
    else if !Matches(t.nodes[id], q.nodeType, q.nameContains) then s
    else if s.skipped < q.offset then s.(skipped := s.skipped + 1)
    else PageScan(s.results + [Summary(t, id)], s.count + 1, s.skipped)
  }

  function Feed(t: Tables, s: PageScan, ids: seq<string>, q: Query): PageScan
    requires forall id | id in ids :: id in t.nodes
  {
    if ids == [] then s else Visit(t, Feed(t, s, ids[..|ids| - 1], q), ids[|ids| - 1], q)
  }

  function StartScan(): PageScan
  {
    PageScan([], 0, 0)
  }

  /** listNodesByPage: the summaries of the matches reached below the page,
      after `offset` of them, at most `limit`; nothing for an unknown page or
      a page without a layers array. */
  function PageListing(t: Tables, pageId: string, q: Query): seq<NodeSummary>
  {
    if pageId !in t.nodes || t.nodes[pageId].layers.NoLayers? then []
    else
      var reached := Reached(t, Kids(t.nodes[pageId]));
      Summaries(t, Window(Matching(t, reached, q.nodeType, q.nameContains), q.offset, q.limit))
  }

  lemma {:induction false} FeedAppend(t: Tables, s: PageScan, a: seq<string>, b: seq<string>, q: Query)
    requires forall id | id in a + b :: id in t.nodes
    ensures Feed(t, s, a + b, q) == Feed(t, Feed(t, s, a, q), b, q)
    decreases |b|
  {
    if b == [] {
      assert a + b == a;
    } else {
      assert (a + b)[..|a + b| - 1] == a + b[..|b| - 1];
      FeedAppend(t, s, a, b[..|b| - 1], q);
    }
  }

  /** Once the limit is reached, nothing more changes. */
  lemma {:induction false} FeedFrozen(t: Tables, s: PageScan, ids: seq<string>, q: Query)
    requires forall id | id in ids :: id in t.nodes
    requires s.count >= q.limit
    ensures Feed(t, s, ids, q) == s
  {
    if ids != [] {
      FeedFrozen(t, s, ids[..|ids| - 1], q);
    }
  }

  lemma {:induction false} ReachedAppend(t: Tables, a: seq<Node>, b: seq<Node>)
    ensures Reached(t, a + b) == Reached(t, a) + Reached(t, b)
    decreases |b|
  {
    if b == [] {
      assert a + b == a;
    } else {
      assert (a + b)[..|a + b| - 1] == a + b[..|b| - 1];
      ReachedAppend(t, a, b[..|b| - 1]);
    }
  }

  /** One scan step over the matches seen so far, in the terms of Window. */
  lemma VisitStep(t: Tables, ids: seq<string>, x: string, q: Query, s: PageScan)
    requires x in t.nodes && forall id | id in ids :: id in t.nodes
    requires var m := Matching(t, ids, q.nodeType, q.nameContains);
      s == PageScan(Summaries(t, Window(m, q.offset, q.limit)), |Window(m, q.offset, q.limit)|,
                    if q.limit <= 0 then 0 else Skipped(m, q.offset))
    ensures var m := Matching(t, ids + [x], q.nodeType, q.nameContains);
      Visit(t, s, x, q)
      == PageScan(Summaries(t, Window(m, q.offset, q.limit)), |Window(m, q.offset, q.limit)|,
                  if q.limit <= 0 then 0 else Skipped(m, q.offset))
  {
    var m := Matching(t, ids, q.nodeType, q.nameContains);
    var w := Window(m, q.offset, q.limit);
    assert (ids + [x])[..|ids|] == ids;
    var tail := if Matches(t.nodes[x], q.nodeType, q.nameContains) then [x] else [];
    assert Matching(t, ids + [x], q.nodeType, q.nameContains) == m + tail;
    WindowShape(m, q.offset, q.limit);
    SkipStep(m, x, q.offset);
    if s.count >= q.limit {
      WindowFull(m, tail, q.offset, q.limit);
      if tail == [] {
        assert m + tail == m;
      }
    } else if tail == [] {
      assert m + tail == m;
    } else if s.skipped < q.offset {
      WindowSkipping(m, x, q.offset, q.limit);
    } else {
      WindowGrows(m, x, q.offset, q.limit);
      SummariesSnoc(t, w, x);
    }
  }

  /** Scanning the reached identifiers from the start lists exactly the
      window of their matches. */
  lemma {:induction false} FeedIsWindow(t: Tables, ids: seq<string>, q: Query)
    requires forall id | id in ids :: id in t.nodes
    ensures var m := Matching(t, ids, q.nodeType, q.nameContains);
      Feed(t, StartScan(), ids, q)
      == PageScan(Summaries(t, Window(m, q.offset, q.limit)), |Window(m, q.offset, q.limit)|,
                  if q.limit <= 0 then 0 else Skipped(m, q.offset))
  {
    if ids != [] {
      var init, x := ids[..|ids| - 1], ids[|ids| - 1];
      FeedIsWindow(t, init, q);
      VisitStep(t, init, x, q, Feed(t, StartScan(), init, q));
      assert ids == init + [x];
    }
  }

  /** One layer of processLayers, in the terms of the identifiers reached. */
  lemma LayerStep(t: Tables, s0: PageScan, ls: seq<Node>, i: nat, q: Query)
    requires i < |ls|
    ensures Feed(t, s0, Reached(t, ls[..i + 1]), q) == Feed(t, Feed(t, s0, Reached(t, ls[..i]), q), ReachedIn(t, ls[i]), q)
  {
    assert ls[..i + 1][..i] == ls[..i];
    FeedAppend(t, s0, Reached(t, ls[..i]), ReachedIn(t, ls[i]), q);
  }

  /** Visiting a reached layer visits its identifier, then what is reached below it. */
  lemma FeedCons(t: Tables, s: PageScan, id: string, rest: seq<string>, q: Query)
    requires id in t.nodes && forall x | x in rest :: x in t.nodes
    ensures Feed(t, s, [id] + rest, q) == Feed(t, Visit(t, s, id, q), rest, q)
  {
    FeedAppend(t, s, [id], rest, q);
    assert [id][..0] == [];
  }

  /** processLayers: the layers in order, each followed by its children,
      until the limit is reached. */
  method ProcessLayers(t: Tables, layers: seq<Node>, q: Query, s: PageScan) returns (out: PageScan)
    ensures out == Feed(t, s, Reached(t, layers), q)
    decreases layers
  {
    out := s;
    for i := 0 to |layers|
      invariant out == Feed(t, s, Reached(t, layers[..i]), q)
    {
      LayerStep(t, s, layers, i, q);
      if out.count >= q.limit {
        ReachedAppend(t, layers[..i], layers[i..]);
        assert layers[..i] + layers[i..] == layers;
        FeedAppend(t, s, Reached(t, layers[..i]), Reached(t, layers[i..]), q);
        FeedFrozen(t, out, Reached(t, layers[i..]), q);
        return;
      }
      out := ProcessLayer(t, layers[i], q, out);
    }
    assert layers[..|layers|] == layers;
  }

  /** The body of processLayers' loop for one layer below the limit: a layer
      without an identifier or record is passed over with its children;
      otherwise the filters, the offset and the listing decide what the
      layer adds, and its children follow. */
  method ProcessLayer(t: Tables, layer: Node, q: Query, s: PageScan) returns (out: PageScan)
    requires s.count < q.limit
    ensures out == Feed(t, s, ReachedIn(t, layer), q)
    decreases layer
  {
    var layerId := IdOf(layer);
    if layerId.None? {
      return s;
    }
    var id := layerId.value;
    var nodeInfo := NodeInfoOf(Lookup(t, layerId));
    if nodeInfo.None? {
      return s;
    }
    var name := nodeInfo.value.name;
    var next: PageScan;
    if q.nodeType != "" && nodeInfo.value.nodeType != q.nodeType {
      next := s;
    } else if q.nameContains != "" && (name == "" || !Includes(ToLower(name), ToLower(q.nameContains))) {
      next := s;
    } else if s.skipped < q.offset {
      next := s.(skipped := s.skipped + 1);
    } else {
      next := PageScan(s.results + [NodeSummary(id, name, nodeInfo.value.nodeType)], s.count + 1, s.skipped);
    }
    assert next == Visit(t, s, id, q);
    match layer.layers {
      case LayerList(ls) =>
        FeedCons(t, s, id, Reached(t, ls), q);
        out := ProcessLayers(t, ls, q, next);
      case NoLayers =>
        FeedCons(t, s, id, [], q);
        out := next;
    }
  }

  // ------------------------------------------------------------ rendering

  /** The length of a `<svg…>` or `</svg…>` tag at the start of `s`, up to
      and including its first `>`; 0 when `s` does not start with one. */
  function TagAt(s: string): (n: nat)
    ensures n <= |s|
  {
    if "<svg" <= s then CloseAfter(s, 4)
    else if "</svg" <= s then CloseAfter(s, 5)
    else 0
  }

  /** One past the first `>` at or after `from`; 0 when there is none. */
  function CloseAfter(s: string, from: nat): (n: nat)
    ensures n <= |s| && (n > 0 ==> n > from && s[n - 1] == '>')
    decreases |s| - from
  {
    if from >= |s| then 0 else if s[from] == '>' then from + 1 else CloseAfter(s, from + 1)
  }

  /** `s.replace(/<\/?svg[^>]*>/g, '')`: every `<svg…>` and `</svg…>` tag
      removed, scanning left to right. */
  function StripSvgTags(s: string): (r: string)
    ensures |r| <= |s|
    decreases |s|
  {
    if s == [] then []
    else
      var n := TagAt(s);
      if n > 0 then StripSvgTags(s[n..]) else [s[0]] + StripSvgTags(s[1..])
  }

  /** Markup without `<` has no tag to remove. */
  lemma {:induction false} StripKeepsPlainText(s: string)
    requires forall i | 0 <= i < |s| :: s[i] != '<'
    ensures StripSvgTags(s) == s
    decreases |s|
  {
    if s != [] {
      assert !("<svg" <= s) && !("</svg" <= s) by {
        assert s[0] != '<';
      }
      StripKeepsPlainText(s[1..]);
    }
  }

  /** The path data the facade finds for a shape path: from the indexed
      node under the record's identifier. */
  function PathDataFor(t: Tables, info: NodeInfo, num: Numerics): Option<string>
  {
    ExtractPathFromNode(Lookup(t, info.id), num)
  }

  function ValidPath(pd: Option<string>): bool
  {
    pd.Some? && IsValidPathData(pd.value)
  }

  /** renderNodeAsSVG of the facade, as written: it finds a shape path's
      path data and builds a group's markup with a child renderer, but hands
      the record to SvgRenderer.renderNodeAsSVG, which reads neither the
      `pathData` nor the `customSVG` it is given. */
  function FacadeRenderAsWritten(t: Tables, info: NodeInfo, num: Numerics): (r: RenderResult)
    ensures r == RenderNodeAsSvg(info, num)
  {
    if info.nodeType == "shapePath" && ValidPath(PathDataFor(t, info, num)) then RenderNodeAsSvg(info, num)
    else if info.nodeType == "group" then RenderNodeAsSvg(info, num)
    else RenderNodeAsSvg(info, num)
  }

  /** renderNodeAsSVG of the facade as evidently intended: a shape path with
      valid path data is drawn as that path, and a group draws its children
      through the child renderer. `fuel` bounds the depth of the recursion
      through nested groups (the call stack of the original). */
  function FacadeRender(t: Tables, info: NodeInfo, num: Numerics, fuel: nat): (r: RenderResult)
    ensures r.nodeId == info.id && r.name == info.name && r.format == "svg"
    ensures r.width == Width(info) && r.height == Height(info)
    ensures info.nodeType !in {"shapePath", "group"} ==> r == RenderNodeAsSvg(info, num)
    ensures info.nodeType == "shapePath" && !ValidPath(PathDataFor(t, info, num)) ==> r == RenderNodeAsSvg(info, num)
    decreases fuel, 1
  {
    var pd := PathDataFor(t, info, num);
    if info.nodeType == "shapePath" && ValidPath(pd) then
      ResultOf(info, SvgDocument(info, ShapePathSvg(info, pd, num), num))
    else if info.nodeType == "group" then
      ResultOf(info, SvgDocument(info, GroupSvg(info, Some(ChildRenderer(t, num, fuel)), num), num))
    else RenderNodeAsSvg(info, num)
  }

  /** The child renderer of a group: nothing once the stack is exhausted,
      the failed render of the innermost child then reading as no markup. */
  function ChildRenderer(t: Tables, num: Numerics, fuel: nat): string -> string
    decreases fuel, 0
  {
    (childId: string) => if fuel == 0 then "" else ChildSvg(t, childId, num, fuel - 1)
  }

  /** One child of a group: nothing for an unknown child; a shape path with
      valid path data as a bare path; anything else rendered in full with
      its `<svg>` tags removed. */
  function ChildSvg(t: Tables, childId: string, num: Numerics, fuel: nat): string
    decreases fuel, 2
  {
    var child := Lookup(t, Some(childId));
    var childInfo := NodeInfoOf(child);
    if childInfo.None? then ""
    else
      var pd := ExtractPathFromNode(child, num);
      if childInfo.value.nodeType == "shapePath" && ValidPath(pd) then ShapePathSvg(childInfo.value, pd, num)
      else StripSvgTags(FacadeRender(t, childInfo.value, num, fuel).svgContent)
  }

  /** As written, a shape path is always drawn as the placeholder, whatever
      path data the facade found for it, and a group always as the group
      placeholder. */
  lemma PathDataDropped(t: Tables, info: NodeInfo, num: Numerics)
    requires info.nodeType == "shapePath"
    ensures FacadeRenderAsWritten(t, info, num).svgContent == SvgDocument(info, DefaultShapeSvg(info, num), num)
  {
    assert Body(info, num) == ShapePathSvg(info, None, num);
  }

  lemma GroupChildrenDropped(t: Tables, info: NodeInfo, num: Numerics)
    requires info.nodeType == "group"
    ensures FacadeRenderAsWritten(t, info, num).svgContent == SvgDocument(info, GroupPlaceholder(info, num), num)
  {
    assert Body(info, num) == GroupSvg(info, None, num);
    GroupShowsChildren(info, None, num);
  }

  /** A shape path whose indexed node stores the path text "M0 0". */
  function PathNode(): Node
  {
    Blank("shapePath").(id := Some("p"), path := Some(ShapePath(None, None, Some("M0 0"))))
  }

  /** For that node the facade finds valid path data, yet the markup it
      returns as written differs from the path the data describes. */
  lemma PathDataDroppedExample(num: Numerics)
    ensures var t := EmptyTables().(nodes := map["p" := PathNode()]);
      var info := NodeInfoOf(Some(PathNode())).value;
      && info.nodeType == "shapePath"
      && PathDataFor(t, info, num) == Some("M0 0")
      && ValidPath(PathDataFor(t, info, num))
      && FacadeRenderAsWritten(t, info, num).svgContent != FacadeRender(t, info, num, 0).svgContent
  {
    var t := EmptyTables().(nodes := map["p" := PathNode()]);
    var info := NodeInfoOf(Some(PathNode())).value;
    ExampleFindsPath(num);
    PathDataDroppedWhenValid(t, info, num);
  }

  /** Whenever a shape path has valid path data, the markup as written is
      not the intended one. */
  lemma PathDataDroppedWhenValid(t: Tables, info: NodeInfo, num: Numerics)
    requires info.nodeType == "shapePath" && ValidPath(PathDataFor(t, info, num))
    ensures FacadeRenderAsWritten(t, info, num).svgContent != FacadeRender(t, info, num, 0).svgContent
  {
    var pd := PathDataFor(t, info, num).value;
    PathDataDropped(t, info, num);
    PathDataShown(t, info, num, 0);
    PathNotPlaceholder(info, pd, num);
  }

  /** A document around a path element is not the placeholder document. */
  lemma PathNotPlaceholder(info: NodeInfo, pd: string, num: Numerics)
    requires pd != ""
    ensures SvgDocument(info, DefaultShapeSvg(info, num), num) != SvgDocument(info, ShapePathSvg(info, Some(pd), num), num)
  {
    PlaceholderEnd(info, num);
    PathEnd(info, pd, num);
    DocumentsDiffer(info, DefaultShapeSvg(info, num), ShapePathSvg(info, Some(pd), num), num);
  }

  /** Documents around bodies whose last-but-one characters differ differ. */
  lemma DocumentsDiffer(info: NodeInfo, a: string, b: string, num: Numerics)
    requires |a| >= 2 && |b| >= 2 && a[|a| - 2] != b[|b| - 2]
    ensures SvgDocument(info, a, num) != SvgDocument(info, b, num)
  {
    DocumentEnd(info, a, num);
    DocumentEnd(info, b, num);
  }

  lemma ExampleFindsPath(num: Numerics)
    ensures var t := EmptyTables().(nodes := map["p" := PathNode()]);
      var info := NodeInfoOf(Some(PathNode())).value;
      && info.nodeType == "shapePath"
      && PathDataFor(t, info, num) == Some("M0 0")
      && ValidPath(PathDataFor(t, info, num))
  {
    assert IsCommandLetter("M0 0"[0]) && IsTokenChar("M0 0"[1]);
  }

  /** The default placeholder ends with its caption's `</text>`. */
  lemma PlaceholderEnd(info: NodeInfo, num: Numerics)
    ensures var p := DefaultShapeSvg(info, num); |p| >= 2 && p[|p| - 2] == 't'
  {
  }

  /** A path element ends with `/>`. */
  lemma PathEnd(info: NodeInfo, pd: string, num: Numerics)
    requires pd != ""
    ensures var p := ShapePathSvg(info, Some(pd), num); |p| >= 2 && p[|p| - 2] == '/'
  {
  }

  lemma DocumentEnd(info: NodeInfo, body: string, num: Numerics)
    requires |body| >= 2
    ensures var d := SvgDocument(info, body, num); |d| >= 8 && d[|d| - 8] == body[|body| - 2]
  {
  }

  /** As intended, a shape path with valid path data is drawn as a `<path>`
      carrying that data. */
  lemma PathDataShown(t: Tables, info: NodeInfo, num: Numerics, fuel: nat)
    requires info.nodeType == "shapePath" && ValidPath(PathDataFor(t, info, num))
    ensures var pd := PathDataFor(t, info, num).value;
      && FacadeRender(t, info, num, fuel).svgContent == SvgDocument(info, ShapePathSvg(info, Some(pd), num), num)
      && Opens(ShapePathSvg(info, Some(pd), num), "path") && HasAttr(ShapePathSvg(info, Some(pd), num), "d", pd)
  {
    ShapePathDrawn(info, PathDataFor(t, info, num).value, num);
  }

  /** As intended, a group whose children produce markup draws that markup,
      each child wrapped in its own group, behind an invisible background;
      only a group none of whose children produce markup is drawn as the
      placeholder. */
  lemma GroupChildrenShown(t: Tables, info: NodeInfo, num: Numerics, fuel: nat)
    requires info.nodeType == "group"
    ensures var render := ChildRenderer(t, num, fuel); var kids := ChildrenOf(info);
      && ((exists i | 0 <= i < |kids| :: render(kids[i]) != "") ==>
            FacadeRender(t, info, num, fuel).svgContent
            == SvgDocument(info, GroupBackground(info, num) + ChildrenMarkup(kids, render), num))
      && ((forall i | 0 <= i < |kids| :: render(kids[i]) == "") ==>
            FacadeRender(t, info, num, fuel).svgContent == SvgDocument(info, GroupPlaceholder(info, num), num))
  {
    var render := ChildRenderer(t, num, fuel);
    assert FacadeRender(t, info, num, fuel).svgContent == SvgDocument(info, GroupSvg(info, Some(render), num), num);
    GroupShowsChildren(info, Some(render), num);
  }

  /** A child shape path with valid path data appears in its group as the
      bare path element. */
  lemma ChildPathShown(t: Tables, childId: string, num: Numerics, fuel: nat)
    requires childId in t.nodes && NodeType(t.nodes[childId]) == "shapePath"
    requires ValidPath(ExtractPathFromNode(Some(t.nodes[childId]), num))
    ensures var pd := ExtractPathFromNode(Some(t.nodes[childId]), num);
      ChildRenderer(t, num, fuel + 1)(childId) == ShapePathSvg(NodeInfoOf(Some(t.nodes[childId])).value, pd, num)
  {
  }

  // ------------------------------------------------------------ symbols

  /** What getSymbolMasters reports of a symbol master. */
  datatype MasterEntry = MasterEntry(id: Option<string>, name: string, symbolID: string, layers: seq<string>)

  /** What getSymbolInstances reports of a symbol instance. */
  datatype InstanceEntry = InstanceEntry(id: Option<string>, name: string, symbolID: string, overrides: seq<OverrideInfo>)

  function MasterOf(n: Node): MasterEntry
    requires n.kind == Some("symbolMaster")
  {
    var info := SymbolMasterInfoOf(Some(n)).value;
    MasterEntry(info.base.id, info.base.name, info.symbolID, info.layers)
  }

  function InstanceOf(n: Node): InstanceEntry
    requires n.kind == Some("symbolInstance")
  {
    var info := SymbolInstanceInfoOf(Some(n)).value;
    InstanceEntry(info.base.id, info.base.name, info.symbolID, info.overrides)
  }

  /** findSymbolMastersInLayers for one layer: a symbol master is reported. */
  function MasterStep(s: seq<MasterEntry>, n: Node): seq<MasterEntry>
  {
    if n.kind == Some("symbolMaster") then s + [MasterOf(n)] else s
  }

  function InstanceStep(s: seq<InstanceEntry>, n: Node): seq<InstanceEntry>
  {
    if n.kind == Some("symbolInstance") then s + [InstanceOf(n)] else s
  }

  /** Every layer below the given pages, page by page, each in depth-first
      pre-order; the pages themselves are not among them. */
  function PageLayers(pages: seq<Node>): seq<Node>
  {
    if pages == [] then [] else PageLayers(pages[..|pages| - 1]) + PreOrder(Kids(pages[|pages| - 1]))
  }

  /** The pages of the loaded document, none without a pages array. */
  function DocumentPages(config: Option<Config>): seq<Node>
  {
    PagesOf(config).GetOr([])
  }

  /** Folding over the layers of one more page folds over that page's tree
      after the earlier pages'; a page without layers adds nothing. */
  lemma PageLayersStep<S>(s: S, pages: seq<Node>, i: nat, step: (S, Node) -> S)
    requires i < |pages|
    ensures Fold(s, PageLayers(pages[..i + 1]), step)
            == Fold(Fold(s, PageLayers(pages[..i]), step), PreOrder(Kids(pages[i])), step)
    ensures pages[i].layers.NoLayers? ==> Fold(s, PageLayers(pages[..i + 1]), step) == Fold(s, PageLayers(pages[..i]), step)
  {
    assert pages[..i + 1][..i] == pages[..i];
    FoldAppend(s, PageLayers(pages[..i]), PreOrder(Kids(pages[i])), step);
  }

  function Masters(pages: seq<Node>): seq<MasterEntry>
  {
    Fold([], PageLayers(pages), MasterStep)
  }

  function Instances(pages: seq<Node>): seq<InstanceEntry>
  {
    Fold([], PageLayers(pages), InstanceStep)
  }

  /** The masters reported are exactly the symbol masters among the layers,
      in the order the walk meets them. */
  lemma {:induction false} MastersMeaning(ns: seq<Node>)
    ensures |Fold([], ns, MasterStep)| <= |ns|
    ensures forall e | e in Fold([], ns, MasterStep) :: exists n | n in ns && n.kind == Some("symbolMaster") :: e == MasterOf(n)
    ensures forall n | n in ns && n.kind == Some("symbolMaster") :: MasterOf(n) in Fold([], ns, MasterStep)
  {
    if ns != [] {
      var init, last := ns[..|ns| - 1], ns[|ns| - 1];
      MastersMeaning(init);
      assert ns == init + [last];
      forall e | e in Fold([], ns, MasterStep) ensures exists n | n in ns && n.kind == Some("symbolMaster") :: e == MasterOf(n) {
        if e in Fold([], init, MasterStep) {
          var n :| n in init && n.kind == Some("symbolMaster") && e == MasterOf(n);
          assert n in ns;
        } else {
          assert last in ns;
        }
      }
    }
  }

  lemma {:induction false} InstancesMeaning(ns: seq<Node>)
    ensures |Fold([], ns, InstanceStep)| <= |ns|
    ensures forall e | e in Fold([], ns, InstanceStep) :: exists n | n in ns && n.kind == Some("symbolInstance") :: e == InstanceOf(n)
    ensures forall n | n in ns && n.kind == Some("symbolInstance") :: InstanceOf(n) in Fold([], ns, InstanceStep)
  {
    if ns != [] {
      var init, last := ns[..|ns| - 1], ns[|ns| - 1];
      InstancesMeaning(init);
      assert ns == init + [last];
      forall e | e in Fold([], ns, InstanceStep) ensures exists n | n in ns && n.kind == Some("symbolInstance") :: e == InstanceOf(n) {
        if e in Fold([], init, InstanceStep) {
          var n :| n in init && n.kind == Some("symbolInstance") && e == InstanceOf(n);
          assert n in ns;
        } else {
          assert last in ns;
        }
      }
    }
  }

  /** `symbolMasters.find(m => m.symbolID === symbolID) || null`. */
  function FirstWithSymbol(es: seq<MasterEntry>, symbolID: string): (r: Option<MasterEntry>)
    ensures r.None? <==> forall e | e in es :: e.symbolID != symbolID
    ensures r.Some? ==> exists i | 0 <= i < |es| :: es[i] == r.value && r.value.symbolID == symbolID
                          && forall j | 0 <= j < i :: es[j].symbolID != symbolID
  {
    if es == [] then None
    else if es[0].symbolID == symbolID then Some(es[0])
    else
      var r := FirstWithSymbol(es[1..], symbolID);
      assert forall e | e in es :: e == es[0] || e in es[1..];
      if r.Some? then
        var i :| 0 <= i < |es[1..]| && es[1..][i] == r.value && r.value.symbolID == symbolID
                && forall j | 0 <= j < i :: es[1..][j].symbolID != symbolID;
        assert es[i + 1] == r.value;
        assert forall j | 1 <= j < i + 1 :: es[j] == es[1..][j - 1];
        r
      else r
  }

  /** findSymbolMastersInLayers: the layers in order, each followed by its
      children, every node passed to `step`. */
  method CollectLayers<S>(layers: seq<Node>, s: S, step: (S, Node) -> S) returns (out: S)
    ensures out == Fold(s, PreOrder(layers), step)
    decreases layers
  {
    out := s;
    for i := 0 to |layers|
      invariant out == Fold(s, PreOrder(layers[..i]), step)
    {
      FoldForestStep(s, layers, i, step);
      out := CollectNode(layers[i], out, step);
    }
    assert layers[..|layers|] == layers;
  }

  /** collectNodes: a node passed to `step`, then its children's subtrees. */
  method CollectNode<S>(node: Node, s: S, step: (S, Node) -> S) returns (out: S)
    ensures out == Fold(s, Subtree(node), step)
    decreases node
  {
    FoldSubtree(s, node, step);
    out := step(s, node);
    match node.layers {
      case LayerList(ls) => out := CollectLayers(ls, out, step);
      case NoLayers =>
    }
  }

  // ------------------------------------------------------------ the facade

  /** What listPages reports of a page. */
  datatype PageEntry = PageEntry(id: Option<string>, name: string, layerCount: nat)

  /** The outcomes of renderNodeAsBase64: no document, an unknown node (with
      the first ten indexed nodes as suggestions), a rendering, or a format
      other than SVG. */
  datatype RenderOutcome =
    | NotLoaded
    | NodeNotFound(availableNodes: seq<NodeSummary>)
    | Rendered(result: RenderResult)
    | FormatUnsupported

  /** listPages: one entry per page of the document, in order, its layer
      count covering every layer below it. */
  function PageEntries(pages: seq<Node>): (r: seq<PageEntry>)
    ensures |r| == |pages|
    ensures forall i | 0 <= i < |pages| ::
      r[i].id == RawId(pages[i]) && r[i].layerCount == |PreOrder(Kids(pages[i]))|
  {
    if pages == [] then []
    else
      var info := PageInfoOf(Some(pages[|pages| - 1])).value;
      PageEntries(pages[..|pages| - 1]) + [PageEntry(info.id, info.name, info.layerCount)]
  }

  /** What getDocumentStructure reports: an error when no document is
      loaded, the page structures, or in summary mode the document summary. */
  datatype DocumentResult =
    | NoDocument
    | Structure(pages: seq<Obj>, totalPages: nat, version: string, created: Option<string>)
    | SummaryMode(summary: DocumentSummary)

  /** getDocumentStructure over an index and the document it was built from. */
  function DocumentResultOf(t: Tables, config: Option<Config>, includeDetails: bool, maxNodes: int, opts: DocumentOptions): DocumentResult
  {
    if config.None? || config.value.document.None? then NoDocument
    else if opts.summaryMode then
      match DocumentSummaryOf(t, config, maxNodes)
      case None => NoDocument
      case Some(d) => SummaryMode(d)
    else
      var pages := DocumentPages(config);
      Structure(PageStructures(t, pages, includeDetails, maxNodes, opts), |pages|, VersionOf(config.value), CreatedOf(config.value))
  }

  class SketchConfigAnalyzer {
    var config: Option<Config>
    const indexer: NodeIndexer

    /** The facade owns a well-formed index, built from the loaded document:
        only analyzeConfig rebuilds it. */
    ghost predicate Valid()
      reads this, indexer
    {
      indexer.Valid() && indexer.State() == IndexOf(config).0
    }

    constructor()
      ensures config.None? && fresh(indexer) && indexer.State() == EmptyTables() && Valid()
    {
      config := None;
      indexer := new NodeIndexer();
    }

    /** analyzeConfig: keeps the document and rebuilds the index from it. */
    method AnalyzeConfig(c: Option<Config>) returns (pages: nat, layers: nat)
      modifies this, indexer
      ensures config == c && (indexer.State(), pages, layers) == IndexOf(c) && Valid()
    {
      config := c;
      pages, layers := indexer.IndexConfig(c);
    }

    /** hasConfig: a document is loaded. */
    function HasConfig(): (r: bool)
      reads this
      ensures r <==> config.Some? && config.value.document.Some?
      ensures !r ==> PagesOf(config).None? && IndexOf(config).0 == EmptyTables()
    {
      config.Some? && config.value.document.Some?
    }

    /** listPages. */
    method ListPages() returns (r: seq<PageEntry>)
      ensures r == PageEntries(DocumentPages(config))
    {
      var found := PagesOf(config);
      if found.None? {
        return [];
      }
      var pages := found.value;
      r := [];
      for i := 0 to |pages|
        invariant r == PageEntries(pages[..i])
      {
        var pageInfo := PageInfoOf(Some(pages[i]));
        assert pages[..i + 1][..i] == pages[..i];
        r := r + [PageEntry(pageInfo.value.id, pageInfo.value.name, pageInfo.value.layerCount)];
      }
      assert pages[..|pages|] == pages;
    }

    /** listNodes. */
    method ListNodes(limit: int, nodeType: string, nameContains: string, offset: int) returns (r: seq<NodeSummary>)
      requires Valid()
      ensures r == Listing(indexer.State(), limit, nodeType, nameContains, offset)
    {
      r := indexer.ListNodes(limit, nodeType, nameContains, offset);
    }

    /** getPageInfo: the page record of an indexed node. */
    function GetPageInfo(pageId: string): (r: Option<PageInfo>)
      reads this, indexer
      ensures r.Some? <==> pageId in indexer.idToNode
      ensures r.Some? ==> r == PageInfoOf(Some(indexer.idToNode[pageId]))
      ensures r.Some? ==> r.value.layerCount == |PreOrder(Kids(indexer.idToNode[pageId]))|
    {
      PageInfoOf(indexer.GetNode(pageId))
    }

    /** getNodeInfo: the record of an indexed node. */
    function GetNodeInfo(nodeId: string): (r: Option<NodeInfo>)
      reads this, indexer
      ensures r.Some? <==> nodeId in indexer.idToNode
      ensures r.Some? ==> r == NodeInfoOf(Some(indexer.idToNode[nodeId]))
      ensures r.Some? ==> r.value.nodeType == NodeType(indexer.idToNode[nodeId])
    {
      NodeInfoOf(indexer.GetNode(nodeId))
    }

    /** listNodesByPage. */
    method ListNodesByPage(pageId: string, limit: int, nodeType: string, nameContains: string, offset: int)
      returns (r: seq<NodeSummary>)
      ensures r == PageListing(indexer.State(), pageId, Query(limit, nodeType, nameContains, offset))
    {
      var t := indexer.State();
      var q := Query(limit, nodeType, nameContains, offset);
      var page := indexer.GetNode(pageId);
      if page.None? || page.value.layers.NoLayers? {
        return [];
      }
      var scan := ProcessLayers(t, Kids(page.value), q, StartScan());
      FeedIsWindow(t, Reached(t, Kids(page.value)), q);
      r := scan.results;
    }

    /** getSymbolMasters. */
    method GetSymbolMasters() returns (r: seq<MasterEntry>)
      ensures r == Masters(DocumentPages(config))
    {
      var found := PagesOf(config);
      if found.None? {
        return [];
      }
      var pages := found.value;
      r := [];
      for i := 0 to |pages|
        invariant r == Masters(pages[..i])
      {
        var page := pages[i];
        PageLayersStep([], pages, i, MasterStep);
        match page.layers {
          case LayerList(ls) => r := CollectLayers(ls, r, MasterStep);
          case NoLayers =>
        }
      }
      assert pages[..|pages|] == pages;
    }

    /** getSymbolMasterBySymbolID: the first master carrying the symbol ID. */
    method GetSymbolMasterBySymbolId(symbolID: string) returns (r: Option<MasterEntry>)
      ensures r == FirstWithSymbol(Masters(DocumentPages(config)), symbolID)
    {
      var masters := GetSymbolMasters();
      r := FirstWithSymbol(masters, symbolID);
    }

    /** getSymbolInstances. */
    method GetSymbolInstances() returns (r: seq<InstanceEntry>)
      ensures r == Instances(DocumentPages(config))
    {
      var found := PagesOf(config);
      if found.None? {
        return [];
      }
      var pages := found.value;
      r := [];
      for i := 0 to |pages|
        invariant r == Instances(pages[..i])
      {
        var page := pages[i];
        PageLayersStep([], pages, i, InstanceStep);
        match page.layers {
          case LayerList(ls) => r := CollectLayers(ls, r, InstanceStep);
          case NoLayers =>
        }
      }
      assert pages[..|pages|] == pages;
    }

    /** getSymbolInstanceStyles: the style record of an indexed symbol
        instance; none for any other node. */
    function GetSymbolInstanceStyles(instanceId: string): (r: Option<StyleInfo>)
      reads this, indexer
      ensures r.Some? <==> instanceId in indexer.idToNode && indexer.idToNode[instanceId].kind == Some("symbolInstance")
      ensures r.Some? ==> r.value == StyleOf(indexer.idToNode[instanceId].style)
    {
      var instance := indexer.GetNode(instanceId);
      if instance.None? || instance.value.kind != Some("symbolInstance") then None
      else Some(SymbolInstanceInfoOf(instance).value.base.style)
    }

    /** renderNodeAsBase64, with the facade's renderer as intended. `num` is
        the number formatting of template literals and `fuel` the depth of
        nested groups the call stack allows. */
    method RenderNodeAsBase64(nodeId: string, format: string, num: Numerics, fuel: nat) returns (r: RenderOutcome)
      requires Valid()
      ensures !HasConfig() ==> r == NotLoaded
      ensures HasConfig() && nodeId !in indexer.idToNode ==> r == NodeNotFound(Listing(indexer.State(), 10, "", "", 0))
      ensures HasConfig() && nodeId in indexer.idToNode && format == "svg" ==>
        r == Rendered(FacadeRender(indexer.State(), NodeInfoOf(Some(indexer.idToNode[nodeId])).value, num, fuel))
      ensures HasConfig() && nodeId in indexer.idToNode && format != "svg" ==> r == FormatUnsupported
    {
      if !HasConfig() {
        return NotLoaded;
      }
      var nodeInfo := GetNodeInfo(nodeId);
      if nodeInfo.None? {
        var availableNodes := ListNodes(10, "", "", 0);
        return NodeNotFound(availableNodes);
      }
      if format == "svg" {
        return Rendered(FacadeRender(indexer.State(), nodeInfo.value, num, fuel));
      }
      r := FormatUnsupported;
    }

    /** getNodePosition: the position of an indexed node. */
    function GetNodePosition(nodeId: string): (r: Option<(real, real)>)
      reads this, indexer
      ensures r.Some? <==> nodeId in indexer.idToNode
      ensures r.Some? ==> r.value == Position(indexer.idToNode[nodeId])
    {
      var info := GetNodeInfo(nodeId);
      if info.None? then None else Some((info.value.x, info.value.y))
    }

    /** findNodesByName. */
    method FindNodesByName(name: string) returns (r: seq<NodeSummary>)
      ensures r == ByName(indexer.State(), NamedIds(indexer.State(), name))
    {
      r := indexer.FindNodesByName(name);
    }

    /** getAncestors. */
    method GetAncestors(nodeId: string) returns (r: seq<string>)
      ensures r == Reverse(Ancestors(indexer.idToParentId, nodeId))
    {
      r := indexer.GetAncestors(nodeId);
    }

    /** getRawNode: the indexed node itself. */
    function GetRawNode(nodeId: string): (r: Option<Node>)
      reads this, indexer
      ensures r.Some? <==> nodeId in indexer.idToNode
      ensures r.Some? ==> r.value == indexer.idToNode[nodeId]
    {
      indexer.GetNode(nodeId)
    }

    /** getPageStructure, for an identifier that may be absent. */
    method GetPageStructure(pageId: Option<string>, includeDetails: bool, maxDepth: int) returns (r: Option<Obj>)
      ensures r == PageStructure(indexer.State(), pageId, includeDetails, maxDepth)
    {
      var page := Lookup(indexer.State(), pageId);
      if page.None? {
        return None;
      }
      r := BuildNode(indexer.State(), page.value, 0, includeDetails, maxDepth);
    }

    /** getDocumentStructure. */
    method GetDocumentStructure(includeDetails: bool, maxNodesPerPage: int, opts: DocumentOptions) returns (r: DocumentResult)
      ensures r == DocumentResultOf(indexer.State(), config, includeDetails, maxNodesPerPage, opts)
    {
      if !HasConfig() {
        return NoDocument;
      }
      if opts.summaryMode {
        var summary := GenerateDocumentSummary(maxNodesPerPage);
        return if summary.None? then NoDocument else SummaryMode(summary.value);
      }
      var t := indexer.State();
      var pages := DocumentPages(config);
      var entries := [];
      for i := 0 to |pages|
        invariant entries == PageStructures(t, pages[..i], includeDetails, maxNodesPerPage, opts)
      {
        PageStructuresStep(t, pages, i, includeDetails, maxNodesPerPage, opts);
        ghost var e := PageStructureOf(t, pages[i], includeDetails, maxNodesPerPage, opts);
        var pageStructure := GetPageStructure(RawId(pages[i]), includeDetails, DepthLimit(opts));
        assert pageStructure.Some? <==> e.Some?;
        if pageStructure.Some? {
          var filtered := ApplyFieldFilters(pageStructure.value, opts.filters);
          assert Truncate(filtered, maxNodesPerPage) == e.value;
          entries := entries + [Truncate(filtered, maxNodesPerPage)];
        }
        assert entries == PageStructures(t, pages[..i + 1], includeDetails, maxNodesPerPage, opts);
      }
      assert pages[..|pages|] == pages;
      r := Structure(entries, |pages|, VersionOf(config.value), CreatedOf(config.value));
    }

    /** generateDocumentSummary. */
    method GenerateDocumentSummary(maxSamples: int) returns (r: Option<DocumentSummary>)
      ensures r == DocumentSummaryOf(indexer.State(), config, maxSamples)
    {
      var found := PagesOf(config);
      if found.None? {
        return None;
      }
      var pages := found.value;
      var totalNodes: nat := 0;
      var nodeTypes := EmptyTally();
      var digests := [];
      for i := 0 to |pages|
        invariant SummarizePages(indexer.State(), pages[..i], maxSamples) == DocumentSummary(i, totalNodes, nodeTypes, digests)
      {
        var page := pages[i];
        assert pages[..i + 1][..i] == pages[..i];
        var pageSummary := GeneratePageSummary(RawId(page), maxSamples);
        if pageSummary.Some? {
          var ps := pageSummary.value;
          totalNodes := totalNodes + ps.nodeCount;
          nodeTypes := MergeCounts(nodeTypes, ps.nodeTypes);
          digests := digests + [PageDigest(RawId(page), NameOf(page), ps.nodeCount, ps.nodeTypes, ps.samples)];
        }
      }
      assert pages[..|pages|] == pages;
      r := Some(DocumentSummary(|pages|, totalNodes, nodeTypes, digests));
    }

    /** generatePageSummary, for an identifier that may be absent. */
    method GeneratePageSummary(pageId: Option<string>, maxSamples: int) returns (r: Option<PageSummary>)
      ensures r == PageSummaryOf(indexer.State(), pageId, maxSamples)
    {
      var page := Lookup(indexer.State(), pageId);
      if page.None? {
        return None;
      }
      var summary := EmptySummary();
      match page.value.layers {
        case LayerList(ls) => summary := CollectLayers(ls, summary, SummaryStep(maxSamples));
        case NoLayers =>
      }
      r := Some(summary);
    }
  }
}
