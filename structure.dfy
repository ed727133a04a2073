/** The page and document structures the facade reports: nested plain
    objects down to a depth limit, filtered and cut to a number of children
    per page; and the summaries it reports instead in summary mode. */
module DocumentStructure {
  import opened Wrappers
  import opened Js
  import opened Sketch
  import opened NodeInfoExtractor
  import opened Indexer
  import opened JsObjects
  import opened Tallies

  // ------------------------------------------------------------ page structure

  /** `id: nodeId`: the raw identifier, `undefined` when absent. */
  function IdValue(id: Option<string>): Value
  {
    if id.Some? then Str(id.value) else Undef
  }

  /** The fields every entry starts with: identifier, name and type. */
  function Header(n: Node): seq<Field>
  {
    [Field("id", IdValue(RawId(n))), Field("name", Str(NameOf(n))), Field("type", Str(NodeType(n)))]
  }

  /** With details, the position, size and visibility of the node indexed
      under the entry's identifier, when there is one. */
  function Details(t: Tables, n: Node, includeDetails: bool): seq<Field>
  {
    var info := NodeInfoOf(Lookup(t, RawId(n)));
    if includeDetails && info.Some? then
      [Field("position", Pair(info.value.x, info.value.y)),
       Field("size", Pair(info.value.width, info.value.height)),
       Field("isVisible", Bool(info.value.isVisible))]
    else []
  }

  /** buildStructure: nothing below the depth limit; otherwise the entry,
      with a `children` array whenever the node has layers, holding the
      entries of those layers that are within the limit. */
  function BuildStructure(t: Tables, n: Node, depth: int, includeDetails: bool, maxDepth: int): Option<Obj>
    decreases n
  {
    if depth > maxDepth then None
    else
      var children := match n.layers
        case LayerList(ls) =>
          if ls == [] then [] else [Field("children", Nodes(BuildAll(t, ls, depth + 1, includeDetails, maxDepth)))]
        case NoLayers => [];
      Some(Obj(Header(n) + Details(t, n, includeDetails) + children))
  }

  function BuildAll(t: Tables, ls: seq<Node>, depth: int, includeDetails: bool, maxDepth: int): seq<Obj>
    decreases ls
  {
    if ls == [] then []
    else
      var init := BuildAll(t, ls[..|ls| - 1], depth, includeDetails, maxDepth);
      match BuildStructure(t, ls[|ls| - 1], depth, includeDetails, maxDepth)
      case Some(o) => init + [o]
      case None => init
  }

  /** getPageStructure: the structure of the page indexed under `pageId`. */
  function PageStructure(t: Tables, pageId: Option<string>, includeDetails: bool, maxDepth: int): Option<Obj>
  {
    match Lookup(t, pageId)
    case None => None
    case Some(page) => BuildStructure(t, page, 0, includeDetails, maxDepth)
  }

  /** buildStructure, walking each node's layers with a loop. */
  method BuildNode(t: Tables, n: Node, depth: int, includeDetails: bool, maxDepth: int) returns (r: Option<Obj>)
    ensures r == BuildStructure(t, n, depth, includeDetails, maxDepth)
    decreases n
  {
    if depth > maxDepth {
      return None;
    }
    var fields := Header(n) + Details(t, n, includeDetails);
    match n.layers {
      case LayerList(ls) =>
        if |ls| > 0 {
          var children := [];
          for i := 0 to |ls|
            invariant children == BuildAll(t, ls[..i], depth + 1, includeDetails, maxDepth)
          {
            assert ls[..i + 1][..i] == ls[..i];
            var child := BuildNode(t, ls[i], depth + 1, includeDetails, maxDepth);
            if child.Some? {
              children := children + [child.value];
            }
          }
          assert ls[..|ls|] == ls;
          fields := fields + [Field("children", Nodes(children))];
        } else {
          assert fields + [] == fields;
        }
      case NoLayers =>
        assert fields + [] == fields;
    }
    r := Some(Obj(fields));
  }

  // ------------------------------------------------------------ structure lemmas

  /** An entry is produced exactly within the depth limit; it carries the
      node's identifier, name and type, details exactly when asked for and
      the node is indexed, and a `children` array exactly when the node has
      layers, one entry per layer while the next level is within the limit
      and none past it. */
  lemma StructureShape(t: Tables, n: Node, depth: int, includeDetails: bool, maxDepth: int)
    ensures var r := BuildStructure(t, n, depth, includeDetails, maxDepth);
      && (r.Some? <==> depth <= maxDepth)
      && (r.Some? ==>
            && Get(r.value, "id") == Some(IdValue(RawId(n)))
            && Get(r.value, "name") == Some(Str(NameOf(n)))
            && Get(r.value, "type") == Some(Str(NodeType(n)))
            && (Get(r.value, "position").Some? <==> includeDetails && Lookup(t, RawId(n)).Some?)
            && (Get(r.value, "children").Some? <==> Kids(n) != [])
            && (Kids(n) != [] ==> Get(r.value, "children") == Some(Nodes(BuildAll(t, Kids(n), depth + 1, includeDetails, maxDepth)))))
  {
    if depth <= maxDepth {
      var head := Header(n) + Details(t, n, includeDetails);
      var kids := Kids(n);
      var ch := if kids == [] then [] else [Field("children", Nodes(BuildAll(t, kids, depth + 1, includeDetails, maxDepth)))];
      assert BuildStructure(t, n, depth, includeDetails, maxDepth) == Some(Obj(head + ch));
      HeadFields(t, n, includeDetails);
      ChildrenLast(head, ch);
    }
  }

  /** A `children` property after a head without one leaves the head's
      properties as they were. */
  lemma ChildrenLast(head: seq<Field>, ch: seq<Field>)
    requires "children" !in KeysIn(head)
    requires ch == [] || (|ch| == 1 && ch[0].key == "children")
    ensures forall k | k in KeysIn(head) :: GetIn(head + ch, k) == GetIn(head, k)
    ensures GetIn(head + ch, "position").Some? <==> "position" in KeysIn(head)
    ensures GetIn(head + ch, "children") == if ch == [] then None else Some(ch[0].value)
  {
    GetPrefix(head, ch, head + ch);
    if ch != [] {
      assert "position"[0] != "children"[0];
      assert GetIn(ch, "children") == Some(ch[0].value);
      assert GetIn(ch, "position") == GetIn(ch[1..], "position");
    }
  }

  /** What the fields before `children` say. */
  lemma HeadFields(t: Tables, n: Node, includeDetails: bool)
    ensures var head := Header(n) + Details(t, n, includeDetails);
      && GetIn(head, "id") == Some(IdValue(RawId(n)))
      && GetIn(head, "name") == Some(Str(NameOf(n)))
      && GetIn(head, "type") == Some(Str(NodeType(n)))
      && ("position" in KeysIn(head) <==> includeDetails && Lookup(t, RawId(n)).Some?)
      && "children" !in KeysIn(head)
  {
    DetailsKeys(t, n, includeDetails);
    HeadOver(n, Details(t, n, includeDetails));
  }

  /** The header followed by no details, or by the three detail fields. */
  lemma HeadOver(n: Node, d: seq<Field>)
    requires KeysIn(d) == [] || KeysIn(d) == ["position", "size", "isVisible"]
    ensures var head := Header(n) + d;
      && GetIn(head, "id") == Some(IdValue(RawId(n)))
      && GetIn(head, "name") == Some(Str(NameOf(n)))
      && GetIn(head, "type") == Some(Str(NodeType(n)))
      && ("position" in KeysIn(head) <==> KeysIn(d) != [])
      && "children" !in KeysIn(head)
  {
    var h := Header(n);
    HeaderGet(n);
    GetFront(h, d, "id");
    GetFront(h, d, "name");
    GetFront(h, d, "type");
    KeysAppend(h, d);
    HeadKeys(KeysIn(d));
  }

  /** Which keys the entry's head can hold. */
  lemma HeadKeys(dk: seq<string>)
    requires dk == [] || dk == ["position", "size", "isVisible"]
    ensures var ks := ["id", "name", "type"] + dk;
      && ("position" in ks <==> dk != [])
      && "children" !in ks
  {
    var ks := ["id", "name", "type"] + dk;
    assert forall i | 0 <= i < |ks| :: ks[i][0] != 'c';
    if dk == [] {
      assert forall i | 0 <= i < |ks| :: ks[i][0] != 'p';
    } else {
      assert ks[3] == "position";
    }
  }

  /** The header's keys and values. */
  lemma HeaderGet(n: Node)
    ensures var h := Header(n);
      && KeysIn(h) == ["id", "name", "type"]
      && GetIn(h, "id") == Some(IdValue(RawId(n)))
      && GetIn(h, "name") == Some(Str(NameOf(n)))
      && GetIn(h, "type") == Some(Str(NodeType(n)))
  {
    var h := Header(n);
    assert h[1..] == [Field("name", Str(NameOf(n))), Field("type", Str(NodeType(n)))];
    assert h[1..][1..] == [Field("type", Str(NodeType(n)))];
    assert "name"[0] != "type"[0];
    assert GetIn(h[1..][1..], "type") == Some(Str(NodeType(n)));
  }

  /** The detail keys, present only with details of an indexed node. */
  lemma DetailsKeys(t: Tables, n: Node, includeDetails: bool)
    ensures KeysIn(Details(t, n, includeDetails))
            == if includeDetails && Lookup(t, RawId(n)).Some? then ["position", "size", "isVisible"] else []
  {
  }

  /** The keys of a concatenation. */
  lemma KeysAppend(a: seq<Field>, b: seq<Field>)
    ensures KeysIn(a + b) == KeysIn(a) + KeysIn(b)
  {
  }

  /** A key of the front part is read from the front part. */
  lemma GetFront(a: seq<Field>, b: seq<Field>, k: string)
    requires k in KeysIn(a)
    ensures GetIn(a + b, k) == GetIn(a, k)
  {
    GetPrefix(a, b, a + b);
  }

  /** The first property with a key wins. */
  lemma {:induction false} GetPrefix(a: seq<Field>, b: seq<Field>, ab: seq<Field>)
    requires ab == a + b
    ensures forall k | k in KeysIn(a) :: GetIn(ab, k) == GetIn(a, k)
    ensures forall k | k !in KeysIn(a) :: GetIn(ab, k) == GetIn(b, k)
  {
    if a != [] {
      assert ab[1..] == a[1..] + b;
      GetPrefix(a[1..], b, ab[1..]);
    } else {
      assert ab == b;
    }
  }

  /** The layers' entries: one per layer within the limit, in layer order, none past it. */
  lemma {:induction false} BuildAllShape(t: Tables, ls: seq<Node>, depth: int, includeDetails: bool, maxDepth: int)
    ensures var r := BuildAll(t, ls, depth, includeDetails, maxDepth);
      && |r| == (if depth <= maxDepth then |ls| else 0)
      && (forall i | 0 <= i < |r| :: Some(r[i]) == BuildStructure(t, ls[i], depth, includeDetails, maxDepth))
  {
    if ls != [] {
      var init := ls[..|ls| - 1];
      BuildAllShape(t, init, depth, includeDetails, maxDepth);
      assert BuildStructure(t, ls[|ls| - 1], depth, includeDetails, maxDepth).Some? <==> depth <= maxDepth;
      if depth <= maxDepth {
        assert forall i | 0 <= i < |init| :: init[i] == ls[i];
      }
    }
  }

  /** The number of entries in a structure: the entry itself and,
      recursively, those of its `children` arrays. */
  function EntryCount(o: Obj): nat
    decreases o, 1
  {
    1 + ChildEntries(o.fields)
  }

  function ChildEntries(fs: seq<Field>): nat
    decreases fs, 0
  {
    if fs == [] then 0
    else (if fs[0].key == "children" && fs[0].value.Nodes? then ItemEntries(fs[0].value.items) else 0) + ChildEntries(fs[1..])
  }

  function ItemEntries(items: seq<Obj>): nat
    decreases items, 2
  {
    if items == [] then 0 else EntryCount(items[0]) + ItemEntries(items[1..])
  }

  /** The nodes of a subtree at most `levels` levels below its root. */
  function Within(n: Node, levels: int): nat
    decreases n
  {
    if levels < 0 then 0
    else 1 + match n.layers
             case LayerList(ls) => WithinAll(ls, levels - 1)
             case NoLayers => 0
  }

  function WithinAll(ls: seq<Node>, levels: int): nat
    decreases ls
  {
    if ls == [] then 0 else WithinAll(ls[..|ls| - 1], levels) + Within(ls[|ls| - 1], levels)
  }

  lemma {:induction false} ChildEntriesAppend(a: seq<Field>, b: seq<Field>)
    ensures ChildEntries(a + b) == ChildEntries(a) + ChildEntries(b)
  {
    if a != [] {
      assert (a + b)[1..] == a[1..] + b;
      ChildEntriesAppend(a[1..], b);
    } else {
      assert a + b == b;
    }
  }

  lemma {:induction false} ItemEntriesSnoc(a: seq<Obj>, o: Obj)
    ensures ItemEntries(a + [o]) == ItemEntries(a) + EntryCount(o)
  {
    if a != [] {
      assert (a + [o])[1..] == a[1..] + [o];
      ItemEntriesSnoc(a[1..], o);
    } else {
      assert ItemEntries([o]) == EntryCount(o) + ItemEntries([]);
    }
  }

  lemma EntryHead(t: Tables, n: Node, includeDetails: bool)
    ensures ChildEntries(Header(n) + Details(t, n, includeDetails)) == 0
  {
    var fs := Header(n) + Details(t, n, includeDetails);
    assert forall i | 0 <= i < |fs| :: fs[i].key != "children";
    NoChildEntries(fs);
  }

  lemma {:induction false} NoChildEntries(fs: seq<Field>)
    requires forall i | 0 <= i < |fs| :: fs[i].key != "children"
    ensures ChildEntries(fs) == 0
  {
    if fs != [] {
      assert forall i | 0 <= i < |fs[1..]| :: fs[1..][i] == fs[i + 1];
      NoChildEntries(fs[1..]);
    }
  }

  /** A structure built at `depth` holds exactly the nodes of the subtree at
      most `maxDepth - depth` levels below its root. */
  lemma {:induction false} StructureCount(t: Tables, n: Node, depth: int, includeDetails: bool, maxDepth: int)
    requires depth <= maxDepth
    ensures EntryCount(BuildStructure(t, n, depth, includeDetails, maxDepth).value) == Within(n, maxDepth - depth)
    decreases n
  {
    var head := Header(n) + Details(t, n, includeDetails);
    EntryHead(t, n, includeDetails);
    match n.layers {
      case LayerList(ls) =>
        if ls != [] {
          var items := BuildAll(t, ls, depth + 1, includeDetails, maxDepth);
          var tail := [Field("children", Nodes(items))];
          ChildEntriesAppend(head, tail);
          assert ChildEntries(tail) == ItemEntries(items) + ChildEntries([]);
          StructuresCount(t, ls, depth + 1, includeDetails, maxDepth);
        } else {
          assert head + [] == head;
        }
      case NoLayers =>
        assert head + [] == head;
    }
  }

  lemma {:induction false} StructuresCount(t: Tables, ls: seq<Node>, depth: int, includeDetails: bool, maxDepth: int)
    ensures ItemEntries(BuildAll(t, ls, depth, includeDetails, maxDepth)) == WithinAll(ls, maxDepth - depth)
    decreases ls
  {
    if ls != [] {
      var init := BuildAll(t, ls[..|ls| - 1], depth, includeDetails, maxDepth);
      var last := ls[|ls| - 1];
      StructuresCount(t, ls[..|ls| - 1], depth, includeDetails, maxDepth);
      if depth <= maxDepth {
        StructureCount(t, last, depth, includeDetails, maxDepth);
        ItemEntriesSnoc(init, BuildStructure(t, last, depth, includeDetails, maxDepth).value);
      }
    }
  }

  /** The depth limit only ever leaves nodes out. */
  lemma {:induction false} WithinSize(n: Node, levels: int)
    ensures Within(n, levels) <= Size(n)
    decreases n
  {
    match n.layers {
      case LayerList(ls) => WithinAllCount(ls, levels - 1);
      case NoLayers =>
    }
  }

  lemma {:induction false} WithinAllCount(ls: seq<Node>, levels: int)
    ensures WithinAll(ls, levels) <= Count(ls)
    decreases ls
  {
    if ls != [] {
      var init, last := ls[..|ls| - 1], ls[|ls| - 1];
      WithinAllCount(init, levels);
      WithinSize(last, levels);
      assert ls == init + [last];
      CountAppend(init, [last]);
      assert Count([last]) == Size(last) + Count([]);
    }
  }

  // ------------------------------------------------------------ document structure

  /** The options of getDocumentStructure that the model reads. */
  datatype DocumentOptions = DocumentOptions(filters: FilterOptions, summaryMode: bool, maxDepth: Option<int>)

  /** `opts.maxDepth || 3`: an absent or zero depth limit is 3. */
  function DepthLimit(opts: DocumentOptions): (r: int)
    ensures r != 0
  {
    if opts.maxDepth.Some? && opts.maxDepth.value != 0 then opts.maxDepth.value else 3
  }

  /** `slice(0, end)`: the number of elements kept of `len`, a negative end
      counting back from the last. */
  function SliceEnd(len: nat, end: int): (k: nat)
    ensures k <= len
    ensures end >= 0 ==> k == if end < len then end else len
    ensures end < 0 ==> k == if len + end < 0 then 0 else len + end
  {
    if end < 0 then (if len + end < 0 then 0 else len + end)
    else if end > len then len
    else end
  }

  /** The per-page limit: a `children` array longer than `max` is cut as
      `slice(0, max)` cuts it, and the entry is marked truncated with
      `totalChildren` set to the number of children kept. */
  function Truncate(o: Obj, max: int): Obj
  {
    var c := Get(o, "children");
    if c.Some? && c.value.Nodes? && |c.value.items| > max then
      var kept := c.value.items[..SliceEnd(|c.value.items|, max)];
      Set(Set(Set(o, "children", Nodes(kept)), "truncated", Bool(true)), "totalChildren", Num(|kept| as real))
    else o
  }

  /** The children of a page entry, when it holds an array of them. */
  function ChildList(o: Obj): seq<Obj>
  {
    var c := Get(o, "children");
    if c.Some? && c.value.Nodes? then c.value.items else []
  }

  /** Whether the per-page limit cuts an entry's children. */
  predicate OverLimit(o: Obj, max: int)
  {
    Get(o, "children").Some? && Get(o, "children").value.Nodes? && |ChildList(o)| > max
  }

  /** A cut entry keeps a prefix of its children: exactly `max` of them when
      `max` is not negative, all but the last `-max` otherwise. */
  lemma TruncatedChildren(o: Obj, max: int)
    requires OverLimit(o, max)
    ensures var r := Truncate(o, max);
      && Get(r, "children").Some? && Get(r, "children").value.Nodes?
      && ChildList(r) == ChildList(o)[..|ChildList(r)|]
      && (max >= 0 ==> |ChildList(r)| == max)
      && (max < 0 ==> |ChildList(r)| == if |ChildList(o)| + max < 0 then 0 else |ChildList(o)| + max)
  {
    var items := ChildList(o);
    var kept := items[..SliceEnd(|items|, max)];
    var r1 := Set(o, "children", Nodes(kept));
    var r2 := Set(r1, "truncated", Bool(true));
    var r := Set(r2, "totalChildren", Num(|kept| as real));
    assert Truncate(o, max) == r;
    assert Get(r, "children") == Get(r2, "children") == Get(r1, "children") == Some(Nodes(kept));
    assert ChildList(r) == kept;
  }

  /** A cut entry says so in `truncated`, and `totalChildren` holds the
      number of children it kept; an entry within the limit is left alone. */
  lemma TruncateMarks(o: Obj, max: int)
    ensures var r := Truncate(o, max);
      if OverLimit(o, max) then
        && Get(r, "truncated") == Some(Bool(true))
        && Get(r, "totalChildren") == Some(Num(|ChildList(r)| as real))
      else r == o
  {
    if OverLimit(o, max) {
      TruncatedChildren(o, max);
      var items := ChildList(o);
      var kept := items[..SliceEnd(|items|, max)];
      var r1 := Set(o, "children", Nodes(kept));
      var r2 := Set(r1, "truncated", Bool(true));
      var r := Set(r2, "totalChildren", Num(|kept| as real));
      assert Truncate(o, max) == r;
      assert Get(r, "children") == Some(Nodes(kept));
      assert Get(r, "truncated") == Get(r2, "truncated");
    }
  }

  /** Cutting the children leaves every other property of the entry as it was. */
  lemma TruncateKeepsOthers(o: Obj, max: int, k: string)
    requires k != "children" && k != "truncated" && k != "totalChildren"
    ensures Get(Truncate(o, max), k) == Get(o, k)
  {
    if OverLimit(o, max) {
      var items := ChildList(o);
      var kept := items[..SliceEnd(|items|, max)];
      var r1 := Set(o, "children", Nodes(kept));
      var r2 := Set(r1, "truncated", Bool(true));
      assert Truncate(o, max) == Set(r2, "totalChildren", Num(|kept| as real));
    }
  }

  /** The metadata of a document structure: `meta.version || 'unknown'` and
      `meta.created || null`. */
  function VersionOf(config: Config): string
  {
    if config.meta.Some? then StrOr(config.meta.value.version, "unknown") else "unknown"
  }

  function CreatedOf(config: Config): Option<string>
  {
    if config.meta.Some? && config.meta.value.created.Some? && config.meta.value.created.value != "" then
      config.meta.value.created
    else None
  }

  /** The entry of one page of the document: its structure, filtered, then
      cut to `maxNodes` children; nothing when no page is indexed under its
      identifier. */
  function PageStructureOf(t: Tables, page: Node, includeDetails: bool, maxNodes: int, opts: DocumentOptions): Option<Obj>
  {
    match PageStructure(t, RawId(page), includeDetails, DepthLimit(opts))
    case None => None
    case Some(ps) => Some(Truncate(ApplyFieldFilters(ps, opts.filters), maxNodes))
  }

  /** The page entries of a document structure, in page order. */
  function PageStructures(t: Tables, pages: seq<Node>, includeDetails: bool, maxNodes: int, opts: DocumentOptions): (r: seq<Obj>)
    ensures |r| <= |pages|
  {
    if pages == [] then []
    else
      var init := PageStructures(t, pages[..|pages| - 1], includeDetails, maxNodes, opts);
      match PageStructureOf(t, pages[|pages| - 1], includeDetails, maxNodes, opts)
      case Some(e) => init + [e]
      case None => init
  }

  /** One more page adds its entry, if it has one, after the earlier pages'. */
  lemma PageStructuresStep(t: Tables, pages: seq<Node>, i: nat, includeDetails: bool, maxNodes: int, opts: DocumentOptions)
    requires i < |pages|
    ensures var e := PageStructureOf(t, pages[i], includeDetails, maxNodes, opts);
      var init := PageStructures(t, pages[..i], includeDetails, maxNodes, opts);
      PageStructures(t, pages[..i + 1], includeDetails, maxNodes, opts) == if e.Some? then init + [e.value] else init
  {
    assert pages[..i + 1][..i] == pages[..i];
  }

  /** A page has an entry exactly when a page is indexed under its
      identifier and the depth limit is not negative. */
  lemma PageStructurePresent(t: Tables, page: Node, includeDetails: bool, maxNodes: int, opts: DocumentOptions)
    ensures PageStructureOf(t, page, includeDetails, maxNodes, opts).Some? <==> Lookup(t, RawId(page)).Some? && DepthLimit(opts) > 0
  {
  }

  /** With a positive depth limit, every page indexed under its own
      identifier has an entry, in page order. */
  lemma {:induction false} EveryIndexedPageListed(t: Tables, pages: seq<Node>, includeDetails: bool, maxNodes: int, opts: DocumentOptions)
    requires DepthLimit(opts) > 0
    requires forall i | 0 <= i < |pages| :: Lookup(t, RawId(pages[i])).Some?
    ensures var r := PageStructures(t, pages, includeDetails, maxNodes, opts);
      && |r| == |pages|
      && forall i | 0 <= i < |pages| :: Some(r[i]) == PageStructureOf(t, pages[i], includeDetails, maxNodes, opts)
  {
    if pages != [] {
      var init := pages[..|pages| - 1];
      assert forall i | 0 <= i < |init| :: init[i] == pages[i];
      EveryIndexedPageListed(t, init, includeDetails, maxNodes, opts);
      var last := pages[|pages| - 1];
      PageStructurePresent(t, last, includeDetails, maxNodes, opts);
      var e := PageStructureOf(t, last, includeDetails, maxNodes, opts);
      var before := PageStructures(t, init, includeDetails, maxNodes, opts);
      assert PageStructures(t, pages, includeDetails, maxNodes, opts) == before + [e.value];
    }
  }

  // ------------------------------------------------------------ page summaries

  /** A representative node of a page summary. */
  datatype Sample = Sample(id: Option<string>, name: string, nodeType: string)

  /** generatePageSummary's record: the nodes counted, a tally of their
      types, and the first few nodes as samples. */
  datatype PageSummary = PageSummary(nodeCount: nat, nodeTypes: Tally, samples: seq<Sample>)

  function SampleOf(n: Node): Sample
  {
    Sample(RawId(n), NameOf(n), NodeType(n))
  }

  function EmptySummary(): PageSummary
  {
    PageSummary(0, EmptyTally(), [])
  }

  /** collectNodes on one node: count it, tally its type, and keep it as a
      sample while fewer than `maxSamples` are kept. */
  function SummaryStep(maxSamples: int): (PageSummary, Node) -> PageSummary
  {
    (s: PageSummary, n: Node) =>
      PageSummary(s.nodeCount + 1, Add(s.nodeTypes, NodeType(n), 1),
                  if |s.samples| < maxSamples then s.samples + [SampleOf(n)] else s.samples)
  }

  /** generatePageSummary: the summary of every node below the page indexed
      under `pageId`, in depth-first order. */
  function PageSummaryOf(t: Tables, pageId: Option<string>, maxSamples: int): Option<PageSummary>
  {
    match Lookup(t, pageId)
    case None => None
    case Some(page) => Some(Fold(EmptySummary(), PreOrder(Kids(page)), SummaryStep(maxSamples)))
  }

  function TypesOf(ns: seq<Node>): (r: seq<string>)
    ensures |r| == |ns| && forall i | 0 <= i < |ns| :: r[i] == NodeType(ns[i])
  {
    seq(|ns|, i requires 0 <= i < |ns| => NodeType(ns[i]))
  }

  function SamplesOf(ns: seq<Node>): (r: seq<Sample>)
    ensures |r| == |ns| && forall i | 0 <= i < |ns| :: r[i] == SampleOf(ns[i])
  {
    seq(|ns|, i requires 0 <= i < |ns| => SampleOf(ns[i]))
  }

  /** How many of `len` nodes are kept as samples. */
  function Cap(len: nat, maxSamples: int): (k: nat)
    ensures k <= len
  {
    if maxSamples <= 0 then 0 else if maxSamples < len then maxSamples else len
  }

  /** Summarizing a run of nodes counts them, tallies their types in order of
      first appearance, and keeps the first `maxSamples` as samples. */
  lemma {:induction false} SummaryMeaning(ns: seq<Node>, maxSamples: int)
    ensures Fold(EmptySummary(), ns, SummaryStep(maxSamples))
         == PageSummary(|ns|, TallyOf(TypesOf(ns)), SamplesOf(ns[..Cap(|ns|, maxSamples)]))
  {
    if ns != [] {
      var init, last := ns[..|ns| - 1], ns[|ns| - 1];
      SummaryMeaning(init, maxSamples);
      assert TypesOf(ns)[..|ns| - 1] == TypesOf(init);
      if |init| < maxSamples {
        assert ns[..|ns|] == ns && init[..|init|] == init;
        assert SamplesOf(init) + [SampleOf(last)] == SamplesOf(ns);
      } else {
        assert ns[..Cap(|ns|, maxSamples)] == init[..Cap(|init|, maxSamples)];
      }
    }
  }

  /** A page summary exists exactly for an indexed page. It counts every node
      below the page; its tally is well formed, totals the node count and
      counts each type as often as it occurs; its samples are the first
      nodes in depth-first order, at most `maxSamples` of them. */
  lemma PageSummaryMeaning(t: Tables, pageId: Option<string>, maxSamples: int)
    ensures var r := PageSummaryOf(t, pageId, maxSamples);
      && (r.Some? <==> Lookup(t, pageId).Some?)
      && (r.Some? ==>
            var ns := PreOrder(Kids(Lookup(t, pageId).value));
            && r.value.nodeCount == |ns|
            && Valid(r.value.nodeTypes)
            && Total(r.value.nodeTypes) == r.value.nodeCount
            && (forall k :: CountOf(r.value.nodeTypes, k) == Occurrences(TypesOf(ns), k))
            && r.value.samples == SamplesOf(ns[..Cap(|ns|, maxSamples)]))
  {
    if Lookup(t, pageId).Some? {
      var ns := PreOrder(Kids(Lookup(t, pageId).value));
      SummaryMeaning(ns, maxSamples);
      TallyOfMeaning(TypesOf(ns));
    }
  }

  // ------------------------------------------------------------ document summary

  /** One page of the document summary. */
  datatype PageDigest = PageDigest(
    id: Option<string>,
    name: string,
    nodeCount: nat,
    nodeTypes: Tally,
    representativeNodes: seq<Sample>)

  datatype DocumentSummary = DocumentSummary(totalPages: nat, totalNodes: nat, nodeTypes: Tally, pages: seq<PageDigest>)

  /** Adds the counts `from` holds for the keys `ks`, one key after another,
      to `into`. */
  function MergeKeys(into: Tally, from: Tally, ks: seq<string>): Tally
  {
    if ks == [] then into
    else Add(MergeKeys(into, from, ks[..|ks| - 1]), ks[|ks| - 1], CountOf(from, ks[|ks| - 1]))
  }

  /** The merge of a page's type counts into the document's, in the page
      tally's key order. */
  function Merge(into: Tally, from: Tally): Tally
  {
    MergeKeys(into, from, from.keys)
  }

  /** generateDocumentSummary's walk over the pages: a page indexed under its
      identifier adds its summary; any other page adds nothing. */
  function SummarizePages(t: Tables, pages: seq<Node>, maxSamples: int): (r: DocumentSummary)
    ensures r.totalPages == |pages| && |r.pages| <= |pages|
  {
    if pages == [] then DocumentSummary(0, 0, EmptyTally(), [])
    else
      var s := SummarizePages(t, pages[..|pages| - 1], maxSamples);
      var page := pages[|pages| - 1];
      match PageSummaryOf(t, RawId(page), maxSamples)
      case None => s.(totalPages := |pages|)
      case Some(ps) =>
        DocumentSummary(|pages|, s.totalNodes + ps.nodeCount, Merge(s.nodeTypes, ps.nodeTypes),
                        s.pages + [PageDigest(RawId(page), NameOf(page), ps.nodeCount, ps.nodeTypes, ps.samples)])
  }

  /** The summary of a loaded document; none when the document has no pages array. */
  function DocumentSummaryOf(t: Tables, config: Option<Config>, maxSamples: int): Option<DocumentSummary>
  {
    match PagesOf(config)
    case None => None
    case Some(pages) => Some(SummarizePages(t, pages, maxSamples))
  }

  /** The merge loop of generateDocumentSummary. */
  method MergeCounts(into: Tally, from: Tally) returns (r: Tally)
    ensures r == Merge(into, from)
  {
    r := into;
    for i := 0 to |from.keys|
      invariant r == MergeKeys(into, from, from.keys[..i])
    {
      assert from.keys[..i + 1][..i] == from.keys[..i];
      r := Add(r, from.keys[i], CountOf(from, from.keys[i]));
    }
    assert from.keys[..|from.keys|] == from.keys;
  }

  /** The sums over the page digests. */
  function NodeCounts(ds: seq<PageDigest>): nat
  {
    if ds == [] then 0 else NodeCounts(ds[..|ds| - 1]) + ds[|ds| - 1].nodeCount
  }

  function TypeCounts(ds: seq<PageDigest>, k: string): nat
  {
    if ds == [] then 0 else TypeCounts(ds[..|ds| - 1], k) + CountOf(ds[|ds| - 1].nodeTypes, k)
  }

  /** The first keys of a list without repeats have no repeats and do not
      contain the last key. */
  lemma DistinctInit(ks: seq<string>)
    requires Distinct(ks) && ks != []
    ensures Distinct(ks[..|ks| - 1]) && ks[|ks| - 1] !in ks[..|ks| - 1]
  {
    var init := ks[..|ks| - 1];
    forall i, j | 0 <= i < j < |init| ensures init[i] != init[j] {
      assert init[i] == ks[i] && init[j] == ks[j];
    }
    forall i | 0 <= i < |init| ensures init[i] != ks[|ks| - 1] {
      assert init[i] == ks[i];
    }
  }

  /** Merging counts keeps a tally well formed and adds what the merged
      keys carry to its total. */
  lemma {:induction false} MergeKeysTotal(into: Tally, from: Tally, ks: seq<string>)
    requires Valid(into)
    ensures Valid(MergeKeys(into, from, ks))
    ensures Total(MergeKeys(into, from, ks)) == Total(into) + Sum(ks, from.counts)
  {
    if ks != [] {
      var init, last := ks[..|ks| - 1], ks[|ks| - 1];
      MergeKeysTotal(into, from, init);
      AddTotal(MergeKeys(into, from, init), last, CountOf(from, last));
    }
  }

  /** Merging counts over keys listed once adds each merged key's count to
      that key and leaves the other keys' counts alone. */
  lemma {:induction false} MergeKeysCounts(into: Tally, from: Tally, ks: seq<string>, k: string)
    requires Distinct(ks)
    ensures CountOf(MergeKeys(into, from, ks), k) == CountOf(into, k) + (if k in ks then CountOf(from, k) else 0)
  {
    if ks != [] {
      var init, last := ks[..|ks| - 1], ks[|ks| - 1];
      DistinctInit(ks);
      MergeKeysCounts(into, from, init, k);
      assert ks == init + [last];
      assert k in ks <==> k in init || k == last;
    }
  }

  /** Merging a well-formed tally into another adds its counts key by key
      and its total to the total. */
  lemma MergeMeaning(into: Tally, from: Tally)
    requires Valid(into) && Valid(from)
    ensures var r := Merge(into, from);
      && Valid(r)
      && Total(r) == Total(into) + Total(from)
      && forall k :: CountOf(r, k) == CountOf(into, k) + CountOf(from, k)
  {
    MergeKeysTotal(into, from, from.keys);
    forall k ensures CountOf(Merge(into, from), k) == CountOf(into, k) + CountOf(from, k) {
      MergeKeysCounts(into, from, from.keys, k);
    }
  }

  /** The document summary's tally is well formed; its total is the total
      node count, which is the sum of the pages' node counts; and each
      type's count is the sum of that type's counts over the pages. */
  lemma {:induction false} DocumentSummaryMeaning(t: Tables, pages: seq<Node>, maxSamples: int)
    ensures var r := SummarizePages(t, pages, maxSamples);
      && Valid(r.nodeTypes)
      && r.totalNodes == Total(r.nodeTypes)
      && r.totalNodes == NodeCounts(r.pages)
      && (forall k :: CountOf(r.nodeTypes, k) == TypeCounts(r.pages, k))
      && (forall i | 0 <= i < |r.pages| :: Total(r.pages[i].nodeTypes) == r.pages[i].nodeCount)
  {
    if pages == [] {
      assert Valid(EmptyTally());
    } else {
      var s := SummarizePages(t, pages[..|pages| - 1], maxSamples);
      var page := pages[|pages| - 1];
      DocumentSummaryMeaning(t, pages[..|pages| - 1], maxSamples);
      PageSummaryMeaning(t, RawId(page), maxSamples);
      var ps := PageSummaryOf(t, RawId(page), maxSamples);
      if ps.Some? {
        MergeMeaning(s.nodeTypes, ps.value.nodeTypes);
        var r := SummarizePages(t, pages, maxSamples);
        assert r.pages[..|r.pages| - 1] == s.pages;
      }
    }
  }
}
