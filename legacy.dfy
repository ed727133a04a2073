/** The legacy analyzer: a second, self-contained index and query layer over
    the same document. It files the children of a node without identifier
    under the nearest indexed ancestor, counts only nodes that carry an
    identifier, filters without regard to case and lists ancestors nearest
    first. */
module Legacy {
  import opened Wrappers
  import opened Js
  import opened Sketch
  import opened Indexer
  import opened LegacyStyle
  import Analyzer

  // ------------------------------------------------------------ indexing

  /** The parent the children of `n` are filed under: its own identifier,
      or, when it has none, the parent it was itself handed. */
  function Inherited(n: Node, parent: Option<string>): Option<string>
  {
    if IdOf(n).Some? then IdOf(n) else parent
  }

  /** walkAndIndex: the node under the parent it was handed, then its
      children under `Inherited(n, parent)`. */
  function LegacyWalk(t: Tables, n: Node, parent: Option<string>): Tables
    decreases n
  {
    var t1 := if IdOf(n).Some? then Record(t, IdOf(n).value, n, parent) else t;
    match n.layers
    case LayerList(ls) => LegacyWalkAll(t1, ls, Inherited(n, parent))
    case NoLayers => t1
  }

  /** The walks of a list of siblings, left to right. */
  function LegacyWalkAll(t: Tables, ns: seq<Node>, parent: Option<string>): Tables
    decreases ns
  {
    if ns == [] then t else LegacyWalk(LegacyWalkAll(t, ns[..|ns| - 1], parent), ns[|ns| - 1], parent)
  }

  /** One page of analyzeConfig: the page itself as a root, then its layers
      under the page's identifier. */
  function LegacyPageStep(t: Tables, page: Node): Tables
  {
    var t1 := if IdOf(page).Some? then Record(t, IdOf(page).value, page, None) else t;
    LegacyWalkAll(t1, Kids(page), IdOf(page))
  }

  function LegacyPagesFrom(t: Tables, pages: seq<Node>): Tables
  {
    if pages == [] then t else LegacyPageStep(LegacyPagesFrom(t, pages[..|pages| - 1]), pages[|pages| - 1])
  }

  /** countLayers (and what walkAndIndex returns): the nodes of a subtree
      that carry an identifier. */
  function IdCount(n: Node): nat
    decreases n
  {
    (if IdOf(n).Some? then 1 else 0)
    + match n.layers
      case LayerList(ls) => IdCountAll(ls)
      case NoLayers => 0
  }

  function IdCountAll(ns: seq<Node>): nat
    decreases ns
  {
    if ns == [] then 0 else IdCountAll(ns[..|ns| - 1]) + IdCount(ns[|ns| - 1])
  }

  /** The identifier-bearing layers below a list of pages. */
  function PagesIdCount(pages: seq<Node>): nat
  {
    if pages == [] then 0 else PagesIdCount(pages[..|pages| - 1]) + IdCountAll(Kids(pages[|pages| - 1]))
  }

  /** analyzeConfig: the index of a configuration, whatever was indexed
      before, with the number of pages and of identifier-bearing layers. */
  function LegacyIndexOf(config: Option<Config>): (Tables, nat, nat)
  {
    match PagesOf(config)
    case None => (EmptyTables(), 0, 0)
    case Some(pages) => (LegacyPagesFrom(EmptyTables(), pages), |pages|, PagesIdCount(pages))
  }

  // ------------------------------------------------------ index lemmas

  /** Walking keeps the invariant of the index. */
  lemma {:induction false} LegacyWalkWellFormed(t: Tables, n: Node, parent: Option<string>)
    requires WellFormed(t) && parent != Some("")
    ensures WellFormed(LegacyWalk(t, n, parent))
    decreases n
  {
    var t1 := if IdOf(n).Some? then Record(t, IdOf(n).value, n, parent) else t;
    if IdOf(n).Some? {
      RecordWellFormed(t, IdOf(n).value, n, parent);
    }
    match n.layers
    case LayerList(ls) => LegacyWalkAllWellFormed(t1, ls, Inherited(n, parent));
    case NoLayers =>
  }

  lemma {:induction false} LegacyWalkAllWellFormed(t: Tables, ns: seq<Node>, parent: Option<string>)
    requires WellFormed(t) && parent != Some("")
    ensures WellFormed(LegacyWalkAll(t, ns, parent))
    decreases ns
  {
    if ns != [] {
      LegacyWalkAllWellFormed(t, ns[..|ns| - 1], parent);
      LegacyWalkWellFormed(LegacyWalkAll(t, ns[..|ns| - 1], parent), ns[|ns| - 1], parent);
    }
  }

  lemma {:induction false} LegacyPagesWellFormed(t: Tables, pages: seq<Node>)
    requires WellFormed(t)
    ensures WellFormed(LegacyPagesFrom(t, pages))
  {
    if pages != [] {
      LegacyPagesWellFormed(t, pages[..|pages| - 1]);
      var t0 := LegacyPagesFrom(t, pages[..|pages| - 1]);
      var page := pages[|pages| - 1];
      var t1 := if IdOf(page).Some? then Record(t0, IdOf(page).value, page, None) else t0;
      if IdOf(page).Some? {
        RecordWellFormed(t0, IdOf(page).value, page, None);
      }
      LegacyWalkAllWellFormed(t1, Kids(page), IdOf(page));
    }
  }

  /** The legacy index of any configuration satisfies the invariant. */
  lemma LegacyIndexWellFormed(config: Option<Config>)
    ensures WellFormed(LegacyIndexOf(config).0)
  {
    assert WellFormed(EmptyTables());
    if PagesOf(config).Some? {
      LegacyPagesWellFormed(EmptyTables(), PagesOf(config).value);
    }
  }

  /** Walking a subtree indexes exactly the identifiers it carries. */
  lemma {:induction false} LegacyWalkKeys(t: Tables, n: Node, parent: Option<string>)
    ensures LegacyWalk(t, n, parent).nodes.Keys == t.nodes.Keys + TreeIds(n)
    decreases n
  {
    TreeIdsSplit(n);
    var t1 := if IdOf(n).Some? then Record(t, IdOf(n).value, n, parent) else t;
    match n.layers
    case LayerList(ls) => LegacyWalkAllKeys(t1, ls, Inherited(n, parent));
    case NoLayers =>
  }

  lemma {:induction false} LegacyWalkAllKeys(t: Tables, ns: seq<Node>, parent: Option<string>)
    ensures LegacyWalkAll(t, ns, parent).nodes.Keys == t.nodes.Keys + IdSet(PreOrder(ns))
    decreases ns
  {
    if ns != [] {
      var init := ns[..|ns| - 1];
      var last := ns[|ns| - 1];
      LegacyWalkAllKeys(t, init, parent);
      LegacyWalkKeys(LegacyWalkAll(t, init, parent), last, parent);
      assert ns == init + [last];
      PreOrderAppend(init, [last]);
      assert PreOrder([last]) == Subtree(last);
      IdSetAppend(PreOrder(init), Subtree(last));
    }
  }

  /** Indexing pages indexes exactly the identifiers they carry. */
  lemma {:induction false} LegacyPagesKeys(pages: seq<Node>)
    ensures LegacyPagesFrom(EmptyTables(), pages).nodes.Keys == IdSet(PreOrder(pages))
  {
    if pages != [] {
      var init := pages[..|pages| - 1];
      var page := pages[|pages| - 1];
      LegacyPagesKeys(init);
      var t0 := LegacyPagesFrom(EmptyTables(), init);
      var t1 := if IdOf(page).Some? then Record(t0, IdOf(page).value, page, None) else t0;
      LegacyWalkAllKeys(t1, Kids(page), IdOf(page));
      TreeIdsSplit(page);
      assert pages == init + [page];
      PagesPreOrder(init, page);
      IdSetAppend(PreOrder(init), Subtree(page));
    }
  }

  /** A subtree carries no more distinct identifiers than it has
      identifier-bearing nodes, and no more of those than nodes; when every
      node carries one, the count is the size of the subtree. */
  lemma {:induction false} IdCountBounds(n: Node)
    ensures |TreeIds(n)| <= IdCount(n) <= Size(n)
    ensures (forall x | x in Subtree(n) :: IdOf(x).Some?) ==> IdCount(n) == Size(n)
    decreases n
  {
    TreeIdsSplit(n);
    SizeIsKids(n);
    assert Subtree(n) == [n] + PreOrder(Kids(n));
    var own := if IdOf(n).Some? then {IdOf(n).value} else {};
    var below := IdSet(PreOrder(Kids(n)));
    assert |own + below| <= |own| + |below| by {
      assert |own + below| + |own * below| == |own| + |below|;
    }
    match n.layers
    case LayerList(ls) => IdCountAllBounds(ls);
    case NoLayers =>
  }

  lemma {:induction false} IdCountAllBounds(ns: seq<Node>)
    ensures |IdSet(PreOrder(ns))| <= IdCountAll(ns) <= Count(ns)
    ensures (forall x | x in PreOrder(ns) :: IdOf(x).Some?) ==> IdCountAll(ns) == Count(ns)
    decreases ns
  {
    if ns != [] {
      var init := ns[..|ns| - 1];
      var last := ns[|ns| - 1];
      IdCountAllBounds(init);
      IdCountBounds(last);
      assert ns == init + [last];
      PagesPreOrder(init, last);
      var a := IdSet(PreOrder(init));
      var b := TreeIds(last);
      IdSetAppend(PreOrder(init), Subtree(last));
      assert |a + b| + |a * b| == |a| + |b|;
    }
  }

  /** analyzeConfig indexes exactly the identifiers the document carries,
      which are no more than the pages and the layers it counts; it indexes
      the same identifiers as the modular index, and counts no more layers. */
  lemma LegacyIndexedIds(config: Option<Config>)
    requires PagesOf(config).Some?
    ensures var (t, pages, layers) := LegacyIndexOf(config);
      && t.nodes.Keys == IdSet(PreOrder(PagesOf(config).value))
      && t.nodes.Keys == IndexOf(config).0.nodes.Keys
      && |t.nodes.Keys| <= pages + layers
      && layers <= IndexOf(config).2
  {
    var pages := PagesOf(config).value;
    LegacyPagesKeys(pages);
    PagesKeys(pages);
    PagesCountBounds(pages);
  }

  /** Below a list of pages, the identifier-bearing layers are no more than
      the layers, and with the pages they bound the distinct identifiers. */
  lemma {:induction false} PagesCountBounds(pages: seq<Node>)
    ensures PagesIdCount(pages) <= Indexer.LayerCount(pages)
    ensures |IdSet(PreOrder(pages))| <= |pages| + PagesIdCount(pages)
  {
    if pages != [] {
      var init := pages[..|pages| - 1];
      var page := pages[|pages| - 1];
      PagesCountBounds(init);
      IdCountAllBounds(Kids(page));
      assert pages == init + [page];
      PagesPreOrder(init, page);
      TreeIdsSplit(page);
      var a := IdSet(PreOrder(init));
      var own := if IdOf(page).Some? then {IdOf(page).value} else {};
      var below := IdSet(PreOrder(Kids(page)));
      IdSetAppend(PreOrder(init), Subtree(page));
      assert |a + (own + below)| + |a * (own + below)| == |a| + |own + below|;
      assert |own + below| + |own * below| == |own| + |below|;
    }
  }

  /** Walking a subtree leaves every identifier it does not carry as it was. */
  lemma {:induction false} LegacyWalkFrame(t: Tables, n: Node, parent: Option<string>, k: string)
    requires k !in TreeIds(n)
    ensures (k in LegacyWalk(t, n, parent).nodes <==> k in t.nodes)
    ensures (k in LegacyWalk(t, n, parent).parents <==> k in t.parents)
    ensures k in t.parents ==> LegacyWalk(t, n, parent).parents[k] == t.parents[k]
    decreases n
  {
    TreeIdsSplit(n);
    var t1 := if IdOf(n).Some? then Record(t, IdOf(n).value, n, parent) else t;
    match n.layers
    case LayerList(ls) => LegacyWalkAllFrame(t1, ls, Inherited(n, parent), k);
    case NoLayers =>
  }

  lemma {:induction false} LegacyWalkAllFrame(t: Tables, ns: seq<Node>, parent: Option<string>, k: string)
    requires k !in IdSet(PreOrder(ns))
    ensures (k in LegacyWalkAll(t, ns, parent).nodes <==> k in t.nodes)
    ensures (k in LegacyWalkAll(t, ns, parent).parents <==> k in t.parents)
    ensures k in t.parents ==> LegacyWalkAll(t, ns, parent).parents[k] == t.parents[k]
    decreases ns
  {
    if ns != [] {
      var init := ns[..|ns| - 1];
      var last := ns[|ns| - 1];
      assert ns == init + [last];
      PreOrderAppend(init, [last]);
      assert PreOrder([last]) == Subtree(last);
      IdSetAppend(PreOrder(init), Subtree(last));
      LegacyWalkAllFrame(t, init, parent, k);
      LegacyWalkFrame(LegacyWalkAll(t, init, parent), last, parent, k);
    }
  }

  lemma {:induction false} LegacyWalkAllAppend(t: Tables, a: seq<Node>, b: seq<Node>, parent: Option<string>)
    ensures LegacyWalkAll(t, a + b, parent) == LegacyWalkAll(LegacyWalkAll(t, a, parent), b, parent)
    decreases |b|
  {
    if b == [] {
      assert a + b == a;
    } else {
      assert (a + b)[..|a + b| - 1] == a + b[..|b| - 1];
      LegacyWalkAllAppend(t, a, b[..|b| - 1], parent);
    }
  }

  /** A child is filed under its parent's identifier or, when the parent has
      none, under the parent's own parent: the nearest identifier above it.
      (The modular index files it under no parent at all.) This holds
      provided no node walked after the child reuses the child's identifier. */
  lemma LegacyChildParent(t: Tables, n: Node, parent: Option<string>, j: nat)
    requires j < |Kids(n)|
    requires var c := Kids(n)[j];
      IdOf(c).Some?
      && IdOf(c).value !in IdSet(PreOrder(Kids(c)))
      && IdOf(c).value !in IdSet(PreOrder(Kids(n)[j + 1..]))
    ensures var c := Kids(n)[j];
      var parents := LegacyWalk(t, n, parent).parents;
      && IdOf(c).value in parents
      && parents[IdOf(c).value] == (if IdOf(n).Some? then IdOf(n) else parent)
  {
    var ls := Kids(n);
    var c := ls[j];
    var k := IdOf(c).value;
    var p := Inherited(n, parent);
    var t1 := if IdOf(n).Some? then Record(t, IdOf(n).value, n, parent) else t;
    assert ls == ls[..j + 1] + ls[j + 1..];
    LegacyWalkAllAppend(t1, ls[..j + 1], ls[j + 1..], p);
    assert ls[..j + 1][..j] == ls[..j];
    var t0 := LegacyWalkAll(t1, ls[..j], p);
    var t2 := LegacyWalk(t0, c, p);
    assert LegacyWalkAll(t1, ls[..j + 1], p) == t2;
    LegacyWalkRoot(t0, c, p);
    LegacyWalkAllFrame(t2, ls[j + 1..], p, k);
  }

  /** A node whose identifier no descendant reuses is filed under the
      parent it was walked with. */
  lemma LegacyWalkRoot(t: Tables, c: Node, p: Option<string>)
    requires IdOf(c).Some? && IdOf(c).value !in IdSet(PreOrder(Kids(c)))
    ensures IdOf(c).value in LegacyWalk(t, c, p).parents && LegacyWalk(t, c, p).parents[IdOf(c).value] == p
  {
    var k := IdOf(c).value;
    var tc := Record(t, k, c, p);
    match c.layers {
      case LayerList(cs) => LegacyWalkAllFrame(tc, cs, Inherited(c, p), k);
      case NoLayers =>
    }
  }

  /** Indexing the document whose group "x" holds "y", which holds another
      "x", records "x" under "y" and "y" under "x", as the modular index does:
      the loop of getAncestors as written then never ends (see
      `Indexer.ReusedIdChainNeverEnds`). */
  lemma LegacyReusedIdParents()
    ensures var parents := LegacyIndexOf(Some(ReusedIdConfig())).0.parents;
      "x" in parents && "y" in parents && parents["x"] == Some("y") && parents["y"] == Some("x")
  {
    var config := ReusedIdConfig();
    var page := config.document.value.pages.value[0];
    var outer := Kids(page)[0];
    var middle := Kids(outer)[0];
    var inner := Kids(middle)[0];
    var t0 := Record(EmptyTables(), "p", page, None);
    var t1 := Record(t0, "x", outer, Some("p"));
    var t2 := Record(t1, "y", middle, Some("x"));
    var t3 := Record(t2, "x", inner, Some("y"));
    assert LegacyWalk(t2, inner, Some("y")) == t3;
    assert LegacyWalkAll(t2, [inner], Some("y")) == t3 by { assert [inner][..0] == []; }
    assert LegacyWalkAll(t1, [middle], Some("x")) == t3 by { assert [middle][..0] == []; }
    assert LegacyWalkAll(t0, [outer], Some("p")) == t3 by { assert [outer][..0] == []; }
    assert LegacyPagesFrom(EmptyTables(), [page]) == t3 by { assert [page][..0] == []; }
  }

  // ------------------------------------------------------------ filters

  /** The filters of listNodes and listNodesByPage: the `_class` (an empty
      string when absent) equal to the type, and the name containing the
      fragment, both compared in lower case; an empty filter lets every
      node through. */
  predicate LegacyMatches(n: Node, nodeType: string, nameContains: string)
  {
    && (nodeType == "" || ToLower(StrOr(n.kind, "")) == ToLower(nodeType))
    && (nameContains == "" || Includes(ToLower(NameOf(n)), ToLower(nameContains)))
  }

  lemma LowerTwice(s: string)
    ensures ToLower(ToLower(s)) == ToLower(s)
  {
    forall i | 0 <= i < |s|
      ensures ToLower(ToLower(s))[i] == ToLower(s)[i]
    {
      assert LowerChar(LowerChar(s[i])) == LowerChar(s[i]);
    }
  }

  /** The filters ignore the case of both the type and the name fragment. */
  lemma FiltersIgnoreCase(n: Node, nodeType: string, nameContains: string)
    ensures LegacyMatches(n, nodeType, nameContains) <==> LegacyMatches(n, ToLower(nodeType), ToLower(nameContains))
  {
    LowerTwice(nodeType);
    LowerTwice(nameContains);
  }

  /** The records getNodeInfo gives for a list of indexed identifiers. */
  function Records(t: Tables, ids: seq<string>): seq<NodeRecord>
    requires forall id | id in ids :: id in t.nodes
  {
    seq(|ids|, i requires 0 <= i < |ids| => NodeRecordOf(ids[i], t.nodes[ids[i]]))
  }

  lemma RecordsSnoc(t: Tables, ids: seq<string>, id: string)
    requires id in t.nodes && forall x | x in ids :: x in t.nodes
    ensures Records(t, ids + [id]) == Records(t, ids) + [NodeRecordOf(id, t.nodes[id])]
  {
  }

  // ------------------------------------------------------------ listNodes

  /** The identifiers among `ids` whose indexed nodes pass the filters, in order. */
  function LegacyMatching(t: Tables, ids: seq<string>, q: Analyzer.Query): (r: seq<string>)
    requires forall id | id in ids :: id in t.nodes
    ensures forall id | id in r :: id in ids
  {
    if ids == [] then []
    else
      var last := ids[|ids| - 1];
      LegacyMatching(t, ids[..|ids| - 1], q)
      + (if LegacyMatches(t.nodes[last], q.nodeType, q.nameContains) then [last] else [])
  }

  /** The matches are exactly the identifiers whose nodes pass the filters. */
  lemma {:induction false} LegacyMatchingMeaning(t: Tables, ids: seq<string>, q: Analyzer.Query)
    requires forall id | id in ids :: id in t.nodes
    ensures forall id | id in LegacyMatching(t, ids, q) :: LegacyMatches(t.nodes[id], q.nodeType, q.nameContains)
    ensures forall id | id in ids && LegacyMatches(t.nodes[id], q.nodeType, q.nameContains) :: id in LegacyMatching(t, ids, q)
  {
    if ids != [] {
      LegacyMatchingMeaning(t, ids[..|ids| - 1], q);
      assert ids == ids[..|ids| - 1] + [ids[|ids| - 1]];
    }
  }

  lemma {:induction false} LegacyMatchingAppend(t: Tables, a: seq<string>, b: seq<string>, q: Analyzer.Query)
    requires forall id | id in a + b :: id in t.nodes
    ensures LegacyMatching(t, a + b, q) == LegacyMatching(t, a, q) + LegacyMatching(t, b, q)
    decreases |b|
  {
    if b == [] {
      assert a + b == a;
    } else {
      assert (a + b)[..|a + b| - 1] == a + b[..|b| - 1];
      assert (a + b)[|a + b| - 1] == b[|b| - 1];
      LegacyMatchingAppend(t, a, b[..|b| - 1], q);
    }
  }

  /** listNodes as intended: the records of the filtered identifiers in
      insertion order, after `offset` matches, at most `limit` of them. */
  function Listed(t: Tables, q: Analyzer.Query): seq<NodeRecord>
    requires forall id | id in t.order :: id in t.nodes
  {
    Records(t, Window(LegacyMatching(t, t.order, q), q.offset, q.limit))
  }

  /** Every listed record is that of an indexed node passing the filters, and
      no more than `limit` are listed. The listing is a window of the matches,
      so Indexer.WindowsTile says that consecutive pages tile them. */
  lemma ListedSound(t: Tables, q: Analyzer.Query)
    requires forall id | id in t.order :: id in t.nodes
    ensures var r := Listed(t, q);
      && |r| <= (if q.limit < 0 then 0 else q.limit)
      && forall i | 0 <= i < |r| :: exists id | id in t.nodes ::
           r[i] == NodeRecordOf(id, t.nodes[id]) && LegacyMatches(t.nodes[id], q.nodeType, q.nameContains)
  {
    var m := LegacyMatching(t, t.order, q);
    var w := Window(m, q.offset, q.limit);
    var r := Listed(t, q);
    LegacyMatchingMeaning(t, t.order, q);
    WindowShape(m, q.offset, q.limit);
    assert r == Records(t, w);
    forall i | 0 <= i < |Listed(t, q)|
      ensures exists id | id in t.nodes ::
        Listed(t, q)[i] == NodeRecordOf(id, t.nodes[id]) && LegacyMatches(t.nodes[id], q.nodeType, q.nameContains)
    {
      var id := w[i];
      assert id in m;
      assert r[i] == NodeRecordOf(id, t.nodes[id]);
    }
  }

  /** The state of the loop of listNodes as written: the identifiers
      accepted, the matches skipped, and whether it has stopped. */
  datatype ListScan = ListScan(out: seq<string>, skipped: int, stopped: bool)

  /** One entry of the loop as written: a node failing a filter is passed
      over without looking at the limit; a match is skipped or accepted, and
      only then is the limit checked. */
  function ListStepAsWritten(t: Tables, s: ListScan, id: string, q: Analyzer.Query): ListScan
    requires id in t.nodes
  {
    if s.stopped || !LegacyMatches(t.nodes[id], q.nodeType, q.nameContains) then s
    else
      var s1 := if s.skipped < q.offset then s.(skipped := s.skipped + 1) else s.(out := s.out + [id]);
      s1.(stopped := |s1.out| >= q.limit)
  }

  /** The loop as written accepts only matches, and at most `limit` of them,
      or one when the limit is below 1: a loop that has not stopped is
      below the limit or has accepted nothing yet. */
  function ScanAsWritten(t: Tables, ids: seq<string>, q: Analyzer.Query): (r: ListScan)
    requires forall id | id in ids :: id in t.nodes
    ensures forall id | id in r.out :: id in ids && LegacyMatches(t.nodes[id], q.nodeType, q.nameContains)
    ensures !r.stopped ==> |r.out| < q.limit || r.out == []
    ensures |r.out| <= if q.limit < 1 then 1 else q.limit
  {
    if ids == [] then ListScan([], 0, false)
    else
      var prev := ScanAsWritten(t, ids[..|ids| - 1], q);
      ListStepAsWritten(t, prev, ids[|ids| - 1], q)
  }

  /** listNodes as written: the records of indexed nodes passing the
      filters, at most `limit` of them, or one when the limit is below 1. */
  function ListedAsWritten(t: Tables, q: Analyzer.Query): (r: seq<NodeRecord>)
    requires forall id | id in t.order :: id in t.nodes
    ensures |r| <= if q.limit < 1 then 1 else q.limit
    ensures forall i | 0 <= i < |r| :: RecordOfMatch(t, q, r[i])
  {
    var out := ScanAsWritten(t, t.order, q).out;
    RecordsOfMatches(t, out, q);
    Records(t, out)
  }

  /** `rec` is the record of an indexed node passing the filters. */
  ghost predicate RecordOfMatch(t: Tables, q: Analyzer.Query, rec: NodeRecord)
    requires forall id | id in t.order :: id in t.nodes
  {
    exists id | id in t.order :: rec == NodeRecordOf(id, t.nodes[id]) && LegacyMatches(t.nodes[id], q.nodeType, q.nameContains)
  }

  /** Each record of a list of indexed matches is the record of a match. */
  lemma RecordsOfMatches(t: Tables, ids: seq<string>, q: Analyzer.Query)
    requires forall id | id in t.order :: id in t.nodes
    requires forall id | id in ids :: id in t.order && LegacyMatches(t.nodes[id], q.nodeType, q.nameContains)
    ensures |Records(t, ids)| == |ids|
    ensures forall i | 0 <= i < |ids| :: RecordOfMatch(t, q, Records(t, ids)[i])
  {
    forall i | 0 <= i < |ids|
      ensures RecordOfMatch(t, q, Records(t, ids)[i])
    {
      var id := ids[i];
      assert id in ids && Records(t, ids)[i] == NodeRecordOf(id, t.nodes[id]);
    }
  }

  /** With a positive limit the loop as written is the intended window. */
  lemma {:induction false} ScanIsWindow(t: Tables, ids: seq<string>, q: Analyzer.Query)
    requires q.limit >= 1 && forall id | id in ids :: id in t.nodes
    ensures var m := LegacyMatching(t, ids, q);
      var w := Window(m, q.offset, q.limit);
      ScanAsWritten(t, ids, q) == ListScan(w, Skipped(m, q.offset), |w| >= q.limit)
  {
    if ids != [] {
      var init, x := ids[..|ids| - 1], ids[|ids| - 1];
      ScanIsWindow(t, init, q);
      var m := LegacyMatching(t, init, q);
      var w := Window(m, q.offset, q.limit);
      var tail := if LegacyMatches(t.nodes[x], q.nodeType, q.nameContains) then [x] else [];
      assert LegacyMatching(t, ids, q) == m + tail;
      WindowShape(m, q.offset, q.limit);
      SkipStep(m, x, q.offset);
      if |w| >= q.limit {
        WindowFull(m, tail, q.offset, q.limit);
        if tail == [] {
          assert m + tail == m;
        }
      } else if tail == [] {
        assert m + tail == m;
      } else if Skipped(m, q.offset) < q.offset {
        WindowSkipping(m, x, q.offset, q.limit);
      } else {
        WindowGrows(m, x, q.offset, q.limit);
      }
    }
  }

  /** With a positive limit, listNodes as written lists what was intended. */
  lemma AsWrittenAgrees(t: Tables, q: Analyzer.Query)
    requires q.limit >= 1 && forall id | id in t.order :: id in t.nodes
    ensures ListedAsWritten(t, q) == Listed(t, q)
  {
    ScanIsWindow(t, t.order, q);
  }

  /** With limit 0 and no offset, listNodes as written still lists the first
      match, where the intended listing is empty. */
  lemma LimitZeroListsOne()
    ensures var t := Record(EmptyTables(), "a", Blank("rectangle"), None);
      var q := Analyzer.Query(0, "", "", 0);
      |ListedAsWritten(t, q)| == 1 && Listed(t, q) == []
  {
    var t := Record(EmptyTables(), "a", Blank("rectangle"), None);
    var q := Analyzer.Query(0, "", "", 0);
    assert t.order == ["a"];
    assert LegacyMatches(t.nodes["a"], "", "");
    ScanFirstMatch(t, "a", q);
    WindowShape(LegacyMatching(t, t.order, q), q.offset, q.limit);
  }

  /** Without an offset, the loop as written accepts a lone matching node. */
  lemma ScanFirstMatch(t: Tables, id: string, q: Analyzer.Query)
    requires t.order == [id] && id in t.nodes && q.offset == 0
    requires LegacyMatches(t.nodes[id], q.nodeType, q.nameContains)
    ensures ScanAsWritten(t, t.order, q).out == [id]
  {
    assert t.order[..0] == [];
    assert ScanAsWritten(t, t.order, q) == ListStepAsWritten(t, ListScan([], 0, false), id, q);
  }

  // ------------------------------------------------------------ listNodesByPage

  /** The identifiers of the nodes of a subtree that carry one and pass the
      filters, in depth-first pre-order: what the counting pass counts. */
  function Candidates(n: Node, q: Analyzer.Query): seq<string>
    decreases n
  {
    (if IdOf(n).Some? && LegacyMatches(n, q.nodeType, q.nameContains) then [IdOf(n).value] else [])
    + match n.layers
      case LayerList(ls) => CandidatesAll(ls, q)
      case NoLayers => []
  }

  function CandidatesAll(ns: seq<Node>, q: Analyzer.Query): seq<string>
    decreases ns
  {
    if ns == [] then [] else CandidatesAll(ns[..|ns| - 1], q) + Candidates(ns[|ns| - 1], q)
  }

  /** The candidates are exactly the identifiers of the matching nodes of
      the forest. */
  lemma {:induction false} CandidatesMeaning(n: Node, q: Analyzer.Query)
    ensures forall id | id in Candidates(n, q) ::
      exists x | x in Subtree(n) :: IdOf(x) == Some(id) && LegacyMatches(x, q.nodeType, q.nameContains)
    ensures forall x | x in Subtree(n) && IdOf(x).Some? && LegacyMatches(x, q.nodeType, q.nameContains) ::
      IdOf(x).value in Candidates(n, q)
    decreases n
  {
    assert Subtree(n) == [n] + PreOrder(Kids(n));
    match n.layers {
      case LayerList(ls) => CandidatesAllMeaning(ls, q);
      case NoLayers =>
    }
  }

  lemma {:induction false} CandidatesAllMeaning(ns: seq<Node>, q: Analyzer.Query)
    ensures forall id | id in CandidatesAll(ns, q) ::
      exists x | x in PreOrder(ns) :: IdOf(x) == Some(id) && LegacyMatches(x, q.nodeType, q.nameContains)
    ensures forall x | x in PreOrder(ns) && IdOf(x).Some? && LegacyMatches(x, q.nodeType, q.nameContains) ::
      IdOf(x).value in CandidatesAll(ns, q)
    decreases ns
  {
    if ns != [] {
      var init, last := ns[..|ns| - 1], ns[|ns| - 1];
      CandidatesAllMeaning(init, q);
      CandidatesMeaning(last, q);
      assert ns == init + [last];
      PagesPreOrder(init, last);
    }
  }

  /** Without filters the counting pass counts every identifier-bearing
      node: the number getPageInfo reports. */
  lemma {:induction false} UnfilteredCount(n: Node, q: Analyzer.Query)
    requires q.nodeType == "" && q.nameContains == ""
    ensures |Candidates(n, q)| == IdCount(n)
    decreases n
  {
    match n.layers {
      case LayerList(ls) => UnfilteredCountAll(ls, q);
      case NoLayers =>
    }
  }

  lemma {:induction false} UnfilteredCountAll(ns: seq<Node>, q: Analyzer.Query)
    requires q.nodeType == "" && q.nameContains == ""
    ensures |CandidatesAll(ns, q)| == IdCountAll(ns)
    decreases ns
  {
    if ns != [] {
      UnfilteredCountAll(ns[..|ns| - 1], q);
      UnfilteredCount(ns[|ns| - 1], q);
    }
  }

  /** The candidates that are indexed, in order. */
  function Indexed(t: Tables, ids: seq<string>): (r: seq<string>)
    ensures forall id | id in r :: id in t.nodes
  {
    if ids == [] then []
    else
      var last := ids[|ids| - 1];
      Indexed(t, ids[..|ids| - 1]) + (if last in t.nodes then [last] else [])
  }

  /** The indexed candidates are candidates. */
  lemma {:induction false} IndexedWithin(t: Tables, ids: seq<string>)
    ensures forall id | id in Indexed(t, ids) :: id in ids
    ensures |Indexed(t, ids)| <= |ids|
  {
    if ids != [] {
      IndexedWithin(t, ids[..|ids| - 1]);
    }
  }

  lemma {:induction false} IndexedAppend(t: Tables, a: seq<string>, b: seq<string>)
    ensures Indexed(t, a + b) == Indexed(t, a) + Indexed(t, b)
    decreases |b|
  {
    if b == [] {
      assert a + b == a;
    } else {
      assert (a + b)[..|a + b| - 1] == a + b[..|b| - 1];
      IndexedAppend(t, a, b[..|b| - 1]);
    }
  }

  /** What listNodesByPage reports. */
  datatype PageListing = PageListing(nodes: seq<NodeRecord>, totalNodes: nat, returnedNodes: nat)

  /** listNodesByPage: the page is any indexed node; its matches are counted
      in full, and the records of the indexed ones are listed after `offset`
      of them, at most `limit`. */
  function ListingByPage(t: Tables, pageId: string, q: Analyzer.Query): PageListing
  {
    if pageId !in t.nodes then PageListing([], 0, 0)
    else
      var c := CandidatesAll(Kids(t.nodes[pageId]), q);
      var w := Window(Indexed(t, c), q.offset, q.limit);
      PageListing(Records(t, w), |c|, |w|)
  }

  /** An unknown page lists nothing; the number returned is the number of
      records, which is at most `limit` and at most the total; each record
      is that of a matching identifier below the page. */
  lemma ByPageMeaning(t: Tables, pageId: string, q: Analyzer.Query)
    ensures var r := ListingByPage(t, pageId, q);
      && (pageId !in t.nodes ==> r == PageListing([], 0, 0))
      && r.returnedNodes == |r.nodes| <= r.totalNodes
      && r.returnedNodes <= (if q.limit < 0 then 0 else q.limit)
      && (pageId in t.nodes ==>
            r.totalNodes == |CandidatesAll(Kids(t.nodes[pageId]), q)|
            && forall i | 0 <= i < |r.nodes| :: exists id | id in t.nodes ::
                 r.nodes[i] == NodeRecordOf(id, t.nodes[id]) && id in CandidatesAll(Kids(t.nodes[pageId]), q))
  {
    if pageId in t.nodes {
      var c := CandidatesAll(Kids(t.nodes[pageId]), q);
      var m := Indexed(t, c);
      var w := Window(m, q.offset, q.limit);
      var r := ListingByPage(t, pageId, q);
      WindowShape(m, q.offset, q.limit);
      IndexedWithin(t, c);
      assert r.nodes == Records(t, w);
      forall i | 0 <= i < |ListingByPage(t, pageId, q).nodes|
        ensures exists id | id in t.nodes ::
          ListingByPage(t, pageId, q).nodes[i] == NodeRecordOf(id, t.nodes[id]) && id in c
      {
        var id := w[i];
        assert id in m;
        assert r.nodes[i] == NodeRecordOf(id, t.nodes[id]);
      }
    }
  }

  /** What the walk carries from node to node. */
  datatype PageWalk = PageWalk(results: seq<NodeRecord>, skipped: int)

  /** One indexed candidate met by the walk: nothing once `limit` records
      are listed; otherwise it is skipped while fewer than `offset` have
      been, and listed after. */
  function Visit(t: Tables, s: PageWalk, id: string, q: Analyzer.Query): PageWalk
    requires id in t.nodes
  {
    if |s.results| >= q.limit then s
    else if s.skipped < q.offset then s.(skipped := s.skipped + 1)
    else s.(results := s.results + [NodeRecordOf(id, t.nodes[id])])
  }

  /** The walk, as the indexed candidates it meets in order: a node that
      carries no identifier, fails a filter or is not indexed changes
      nothing. */
  function Feed(t: Tables, s: PageWalk, ids: seq<string>, q: Analyzer.Query): PageWalk
    requires forall id | id in ids :: id in t.nodes
  {
    if ids == [] then s else Visit(t, Feed(t, s, ids[..|ids| - 1], q), ids[|ids| - 1], q)
  }

  lemma {:induction false} FeedAppend(t: Tables, s: PageWalk, a: seq<string>, b: seq<string>, q: Analyzer.Query)
    requires forall id | id in a + b :: id in t.nodes
    ensures Feed(t, s, a + b, q) == Feed(t, Feed(t, s, a, q), b, q)
    decreases |b|
  {
    if b == [] {
      assert a + b == a;
    } else {
      assert (a + b)[..|a + b| - 1] == a + b[..|b| - 1];
      FeedAppend(t, s, a, b[..|b| - 1], q);
    }
  }

  /** Once `limit` records are listed, the walk changes nothing more. */
  lemma {:induction false} FeedFrozen(t: Tables, s: PageWalk, ids: seq<string>, q: Analyzer.Query)
    requires |s.results| >= q.limit && forall id | id in ids :: id in t.nodes
    ensures Feed(t, s, ids, q) == s
  {
    if ids != [] {
      FeedFrozen(t, s, ids[..|ids| - 1], q);
    }
  }

  /** The walk state after listing the window of the matches `m`. */
  function Paged(t: Tables, m: seq<string>, q: Analyzer.Query): PageWalk
    requires forall id | id in m :: id in t.nodes
  {
    PageWalk(Records(t, Window(m, q.offset, q.limit)), if q.limit <= 0 then 0 else Skipped(m, q.offset))
  }

  lemma VisitPaged(t: Tables, m: seq<string>, x: string, q: Analyzer.Query)
    requires x in t.nodes && forall id | id in m :: id in t.nodes
    ensures Visit(t, Paged(t, m, q), x, q) == Paged(t, m + [x], q)
  {
    var w := Window(m, q.offset, q.limit);
    WindowShape(m, q.offset, q.limit);
    SkipStep(m, x, q.offset);
    if |w| >= q.limit {
      WindowFull(m, [x], q.offset, q.limit);
    } else if Skipped(m, q.offset) < q.offset {
      WindowSkipping(m, x, q.offset, q.limit);
    } else {
      WindowGrows(m, x, q.offset, q.limit);
      RecordsSnoc(t, w, x);
    }
  }

  /** The walk from the start lists exactly the window of the indexed
      candidates it meets. */
  lemma {:induction false} FeedIsWindow(t: Tables, ids: seq<string>, q: Analyzer.Query)
    requires forall id | id in ids :: id in t.nodes
    ensures Feed(t, PageWalk([], 0), ids, q) == Paged(t, ids, q)
  {
    if ids == [] {
      assert Paged(t, [], q) == PageWalk([], 0);
    } else {
      var init, x := ids[..|ids| - 1], ids[|ids| - 1];
      assert forall id | id in init :: id in ids;
      FeedIsWindow(t, init, q);
      assert Feed(t, PageWalk([], 0), ids, q) == Visit(t, Paged(t, init, q), x, q);
      VisitPaged(t, init, x, q);
      assert ids == init + [x];
    }
  }

  /** The listing is what the walk over the page's layers gathers. */
  lemma WalkIsListing(t: Tables, pageId: string, q: Analyzer.Query)
    requires pageId in t.nodes
    ensures var s := Feed(t, PageWalk([], 0), Indexed(t, CandidatesAll(Kids(t.nodes[pageId]), q)), q);
      ListingByPage(t, pageId, q).nodes == s.results
      && ListingByPage(t, pageId, q).returnedNodes == |s.results|
  {
    FeedIsWindow(t, Indexed(t, CandidatesAll(Kids(t.nodes[pageId]), q)), q);
  }

  /** countMatches over one subtree. */
  method CountMatches(node: Node, q: Analyzer.Query) returns (count: nat)
    ensures count == |Candidates(node, q)|
    decreases node
  {
    var id := IdOf(node);
    count := if id.Some? && LegacyMatches(node, q.nodeType, q.nameContains) then 1 else 0;
    match node.layers {
      case LayerList(ls) =>
        for i := 0 to |ls|
          invariant count == (if id.Some? && LegacyMatches(node, q.nodeType, q.nameContains) then 1 else 0)
                             + |CandidatesAll(ls[..i], q)|
        {
          var n := CountMatches(ls[i], q);
          assert ls[..i + 1][..i] == ls[..i];
          count := count + n;
        }
        assert ls[..|ls|] == ls;
      case NoLayers =>
    }
  }

  /** The candidates met by the walk over one layer of a list. */
  lemma LayerStep(t: Tables, s: PageWalk, ls: seq<Node>, i: nat, q: Analyzer.Query)
    requires i < |ls|
    ensures Feed(t, s, Indexed(t, CandidatesAll(ls[..i + 1], q)), q)
            == Feed(t, Feed(t, s, Indexed(t, CandidatesAll(ls[..i], q)), q), Indexed(t, Candidates(ls[i], q)), q)
  {
    assert ls[..i + 1][..i] == ls[..i];
    IndexedAppend(t, CandidatesAll(ls[..i], q), Candidates(ls[i], q));
    FeedAppend(t, s, Indexed(t, CandidatesAll(ls[..i], q)), Indexed(t, Candidates(ls[i], q)), q);
  }

  lemma {:induction false} CandidatesAllAppend(a: seq<Node>, b: seq<Node>, q: Analyzer.Query)
    ensures CandidatesAll(a + b, q) == CandidatesAll(a, q) + CandidatesAll(b, q)
    decreases |b|
  {
    if b == [] {
      assert a + b == a;
    } else {
      assert (a + b)[..|a + b| - 1] == a + b[..|b| - 1];
      CandidatesAllAppend(a, b[..|b| - 1], q);
    }
  }

  /** Once the limit is reached after the first `i` layers, the rest of the
      layers change nothing. */
  lemma LayersFrozen(t: Tables, s: PageWalk, ls: seq<Node>, i: nat, q: Analyzer.Query)
    requires i <= |ls|
    requires |Feed(t, s, Indexed(t, CandidatesAll(ls[..i], q)), q).results| >= q.limit
    ensures Feed(t, s, Indexed(t, CandidatesAll(ls, q)), q) == Feed(t, s, Indexed(t, CandidatesAll(ls[..i], q)), q)
  {
    var a, b := Indexed(t, CandidatesAll(ls[..i], q)), Indexed(t, CandidatesAll(ls[i..], q));
    assert ls == ls[..i] + ls[i..];
    CandidatesAllAppend(ls[..i], ls[i..], q);
    IndexedAppend(t, CandidatesAll(ls[..i], q), CandidatesAll(ls[i..], q));
    FeedAppend(t, s, a, b, q);
    FeedFrozen(t, Feed(t, s, a, q), b, q);
  }

  /** walk over a list of layers (the page's, or a node's children): each
      walked in turn until `limit` records are listed. */
  method WalkLayers(t: Tables, ls: seq<Node>, q: Analyzer.Query, s: PageWalk) returns (out: PageWalk)
    ensures out == Feed(t, s, Indexed(t, CandidatesAll(ls, q)), q)
    decreases ls
  {
    out := s;
    for i := 0 to |ls|
      invariant out == Feed(t, s, Indexed(t, CandidatesAll(ls[..i], q)), q)
    {
      if |out.results| >= q.limit {
        LayersFrozen(t, s, ls, i, q);
        return;
      }
      LayerStep(t, s, ls, i, q);
      out := WalkPage(t, ls[i], q, out);
    }
    assert ls[..|ls|] == ls;
  }

  /** The identifier a node contributes to the walk by itself, if any. */
  function Own(t: Tables, n: Node, q: Analyzer.Query): seq<string>
  {
    Indexed(t, if IdOf(n).Some? && LegacyMatches(n, q.nodeType, q.nameContains) then [IdOf(n).value] else [])
  }

  /** A node's candidates: its own, then its children's. */
  lemma NodeSplit(t: Tables, n: Node, ls: seq<Node>, q: Analyzer.Query)
    requires n.layers == LayerList(ls) || (n.layers == NoLayers && ls == [])
    ensures Indexed(t, Candidates(n, q)) == Own(t, n, q) + Indexed(t, CandidatesAll(ls, q))
  {
    IndexedAppend(t, if IdOf(n).Some? && LegacyMatches(n, q.nodeType, q.nameContains) then [IdOf(n).value] else [],
                  CandidatesAll(ls, q));
  }

  lemma OwnVisit(t: Tables, s: PageWalk, n: Node, q: Analyzer.Query)
    ensures forall id | id in Own(t, n, q) :: id in t.nodes
    ensures Feed(t, s, Own(t, n, q), q)
            == if IdOf(n).Some? && LegacyMatches(n, q.nodeType, q.nameContains) && IdOf(n).value in t.nodes
               then Visit(t, s, IdOf(n).value, q) else s
  {
    if IdOf(n).Some? && LegacyMatches(n, q.nodeType, q.nameContains) {
      var x := IdOf(n).value;
      assert Indexed(t, [x]) == Indexed(t, []) + (if x in t.nodes then [x] else []);
      assert [x][..0] == [];
    }
  }

  /** walk: a node below the limit is looked at, then, unless the limit is
      now reached, its children. */
  method WalkPage(t: Tables, node: Node, q: Analyzer.Query, s: PageWalk) returns (out: PageWalk)
    requires |s.results| < q.limit
    ensures out == Feed(t, s, Indexed(t, Candidates(node, q)), q)
    decreases node
  {
    out := s;
    var id := IdOf(node);
    if id.Some? && LegacyMatches(node, q.nodeType, q.nameContains) && id.value in t.nodes {
      var info := NodeRecordOf(id.value, t.nodes[id.value]);
      if out.skipped < q.offset {
        out := out.(skipped := out.skipped + 1);
      } else {
        out := out.(results := out.results + [info]);
      }
      assert out == Visit(t, s, id.value, q);
    }
    OwnVisit(t, s, node, q);
    var ls := match node.layers case LayerList(ls) => ls case NoLayers => [];
    NodeSplit(t, node, ls, q);
    FeedAppend(t, s, Own(t, node, q), Indexed(t, CandidatesAll(ls, q)), q);
    if |out.results| >= q.limit {
      FeedFrozen(t, out, Indexed(t, CandidatesAll(ls, q)), q);
      return;
    }
    match node.layers {
      case LayerList(children) => out := WalkLayers(t, children, q, out);
      case NoLayers => assert Indexed(t, CandidatesAll(ls, q)) == [];
    }
  }

  // ------------------------------------------------------------ symbols

  /** A symbol master whose `symbolID` is exactly the one sought (both absent
      counts as equal, as `===` on two undefined values does). */
  predicate IsMasterFor(n: Node, symbolID: Option<string>)
  {
    n.kind == Some("symbolMaster") && n.symbolID == symbolID
  }

  /** getSymbolMasterBySymbolID: the first indexed symbol master, in
      insertion order, with that symbol identifier. */
  function FirstMaster(t: Tables, ids: seq<string>, symbolID: Option<string>): (r: Option<string>)
    requires forall id | id in ids :: id in t.nodes
    ensures r.None? <==> forall id | id in ids :: !IsMasterFor(t.nodes[id], symbolID)
    ensures r.Some? ==> exists i | 0 <= i < |ids| :: ids[i] == r.value && IsMasterFor(t.nodes[r.value], symbolID)
                          && forall j | 0 <= j < i :: !IsMasterFor(t.nodes[ids[j]], symbolID)
  {
    if ids == [] then None
    else if IsMasterFor(t.nodes[ids[0]], symbolID) then Some(ids[0])
    else
      var r := FirstMaster(t, ids[1..], symbolID);
      assert forall id | id in ids :: id == ids[0] || id in ids[1..];
      if r.Some? then
        var i :| 0 <= i < |ids[1..]| && ids[1..][i] == r.value && IsMasterFor(t.nodes[r.value], symbolID)
                 && forall j | 0 <= j < i :: !IsMasterFor(t.nodes[ids[1..][j]], symbolID);
        assert ids[i + 1] == r.value;
        assert forall j | 1 <= j < i + 1 :: ids[j] == ids[1..][j - 1];
        r
      else r
  }

  /** getSymbolInstanceStyles: nothing for an unknown node, a node that is
      not a symbol instance, or an instance without a master; otherwise the
      master's record with the instance's overrides applied. */
  function InstanceStylesFor(t: Tables, instanceId: string): (r: Option<InstanceStyles>)
    requires forall id | id in t.order :: id in t.nodes
    ensures r.Some? <==>
      && instanceId in t.nodes && t.nodes[instanceId].kind == Some("symbolInstance")
      && exists id | id in t.order :: IsMasterFor(t.nodes[id], t.nodes[instanceId].symbolID)
    ensures r.Some? ==> r.value.instanceId == instanceId && r.value.masterSymbolID == t.nodes[instanceId].symbolID
                          && r.value.overrides == t.nodes[instanceId].overrideValues.GetOr([])
    ensures r.Some? ==>
      var m := FirstMaster(t, t.order, t.nodes[instanceId].symbolID);
      && m.Some? && m.value in t.nodes
      && r.value.record == ApplyOverrides(NodeRecordOf(m.value, t.nodes[m.value]), r.value.overrides)
      && r.value.masterStyles == (if t.nodes[m.value].style.Some? then StyleRecordOf(t.nodes[m.value].style.value) else NoStyle())
  {
    if instanceId !in t.nodes || t.nodes[instanceId].kind != Some("symbolInstance") then None
    else
      var instance := t.nodes[instanceId];
      match FirstMaster(t, t.order, instance.symbolID)
      case None => None
      case Some(mid) =>
        Some(InstanceStylesOf(NodeRecordOf(mid, t.nodes[mid]), instance.symbolID, instanceId, instance.overrideValues))
  }

  // ------------------------------------------------------------ pages

  /** listPages: one entry per page, its layer count covering the
      identifier-bearing layers below it. */
  function LegacyPageEntries(pages: seq<Node>): (r: seq<Analyzer.PageEntry>)
    ensures |r| == |pages|
    ensures forall i | 0 <= i < |pages| ::
      r[i] == Analyzer.PageEntry(RawId(pages[i]), NameOf(pages[i]), IdCountAll(Kids(pages[i])))
  {
    if pages == [] then []
    else
      var page := pages[|pages| - 1];
      LegacyPageEntries(pages[..|pages| - 1]) + [Analyzer.PageEntry(RawId(page), NameOf(page), IdCountAll(Kids(page)))]
  }

  function SumCounts(es: seq<Analyzer.PageEntry>): nat
  {
    if es == [] then 0 else SumCounts(es[..|es| - 1]) + es[|es| - 1].layerCount
  }

  /** The layer counts listPages reports add up to the count analyzeConfig
      reports. */
  lemma {:induction false} PageCountsAddUp(pages: seq<Node>)
    ensures SumCounts(LegacyPageEntries(pages)) == PagesIdCount(pages)
  {
    if pages != [] {
      PageCountsAddUp(pages[..|pages| - 1]);
      var es := LegacyPageEntries(pages);
      assert es[..|es| - 1] == LegacyPageEntries(pages[..|pages| - 1]);
    }
  }

  /** What getPageInfo reports. */
  datatype PageInfoRecord = PageInfoRecord(id: string, name: string, totalNodeCount: nat)

  /** getPageInfo: any indexed node can be asked for, and its count covers
      the identifier-bearing nodes below its layers. */
  function PageInfoOf(t: Tables, pageId: string): Option<PageInfoRecord>
  {
    if pageId !in t.nodes then None
    else Some(PageInfoRecord(pageId, NameOf(t.nodes[pageId]), IdCountAll(Kids(t.nodes[pageId]))))
  }

  /** The count getPageInfo reports is the total listNodesByPage reports for
      the same page without filters, and both know the same pages. */
  lemma PageInfoMatchesListing(t: Tables, pageId: string, limit: int, offset: int)
    ensures var q := Analyzer.Query(limit, "", "", offset);
      && (PageInfoOf(t, pageId).None? <==> ListingByPage(t, pageId, q) == PageListing([], 0, 0) && pageId !in t.nodes)
      && (PageInfoOf(t, pageId).Some? ==> PageInfoOf(t, pageId).value.totalNodeCount == ListingByPage(t, pageId, q).totalNodes)
  {
    if pageId in t.nodes {
      UnfilteredCountAll(Kids(t.nodes[pageId]), Analyzer.Query(limit, "", "", offset));
    }
  }

  /** The first symbol master is found at the first matching index. */
  lemma {:induction false} FirstMasterAt(t: Tables, ids: seq<string>, symbolID: Option<string>, i: nat)
    requires forall id | id in ids :: id in t.nodes
    requires i < |ids| && IsMasterFor(t.nodes[ids[i]], symbolID)
    requires forall j | 0 <= j < i :: !IsMasterFor(t.nodes[ids[j]], symbolID)
    ensures FirstMaster(t, ids, symbolID) == Some(ids[i])
  {
    if i > 0 {
      FirstMasterAt(t, ids[1..], symbolID, i - 1);
    }
  }

  /** The matches among one more identifier. */
  lemma MatchStep(t: Tables, ids: seq<string>, i: nat, q: Analyzer.Query)
    requires i < |ids| && forall id | id in ids :: id in t.nodes
    ensures LegacyMatching(t, ids[..i + 1], q)
            == LegacyMatching(t, ids[..i], q)
               + if LegacyMatches(t.nodes[ids[i]], q.nodeType, q.nameContains) then [ids[i]] else []
  {
    assert ids[..i + 1][..i] == ids[..i];
  }

  /** A full window stays as it is whatever follows. */
  lemma ListStop(t: Tables, ids: seq<string>, i: nat, q: Analyzer.Query)
    requires i <= |ids| && forall id | id in ids :: id in t.nodes
    requires |Window(LegacyMatching(t, ids[..i], q), q.offset, q.limit)| >= q.limit
    ensures Window(LegacyMatching(t, ids, q), q.offset, q.limit) == Window(LegacyMatching(t, ids[..i], q), q.offset, q.limit)
  {
    WindowFull(LegacyMatching(t, ids[..i], q), LegacyMatching(t, ids[i..], q), q.offset, q.limit);
    assert ids == ids[..i] + ids[i..];
    LegacyMatchingAppend(t, ids[..i], ids[i..], q);
  }

  /** A match below the limit is skipped while fewer than `offset` have
      been, and listed after. */
  lemma TakeMatch(t: Tables, m: seq<string>, id: string, q: Analyzer.Query)
    requires id in t.nodes && forall x | x in m :: x in t.nodes
    requires |Window(m, q.offset, q.limit)| < q.limit
    ensures Skipped(m + [id], q.offset) == if Skipped(m, q.offset) < q.offset then Skipped(m, q.offset) + 1 else Skipped(m, q.offset)
    ensures Records(t, Window(m + [id], q.offset, q.limit))
            == if Skipped(m, q.offset) < q.offset then Records(t, Window(m, q.offset, q.limit))
               else Records(t, Window(m, q.offset, q.limit)) + [NodeRecordOf(id, t.nodes[id])]
  {
    WindowShape(m, q.offset, q.limit);
    SkipStep(m, id, q.offset);
    if Skipped(m, q.offset) < q.offset {
      WindowSkipping(m, id, q.offset, q.limit);
    } else {
      WindowGrows(m, id, q.offset, q.limit);
      RecordsSnoc(t, Window(m, q.offset, q.limit), id);
    }
  }

  /** One more page of analyzeConfig. */
  /** The legacy walk over one more layer walks it after the earlier ones. */
  lemma LegacyWalkAllStep(t: Tables, ls: seq<Node>, k: nat, parent: Option<string>)
    requires k < |ls|
    ensures LegacyWalkAll(t, ls[..k + 1], parent) == LegacyWalk(LegacyWalkAll(t, ls[..k], parent), ls[k], parent)
    ensures IdCountAll(ls[..k + 1]) == IdCountAll(ls[..k]) + IdCount(ls[k])
  {
    assert ls[..k + 1][..k] == ls[..k];
  }

  lemma LegacyPageStepOf(pages: seq<Node>, i: nat)
    requires i < |pages|
    ensures LegacyPagesFrom(EmptyTables(), pages[..i + 1]) == LegacyPageStep(LegacyPagesFrom(EmptyTables(), pages[..i]), pages[i])
    ensures PagesIdCount(pages[..i + 1]) == PagesIdCount(pages[..i]) + IdCountAll(Kids(pages[i]))
  {
    assert pages[..i + 1][..i] == pages[..i];
  }

  // ------------------------------------------------------------ the analyzer

  /** The legacy analyzer: the configuration it was given and its index. */
  class LegacyAnalyzer {
    var config: Option<Config>
    var idToNode: map<string, Node>
    var idToParentId: map<string, Option<string>>
    var nameToIds: map<string, seq<string>>
    var order: seq<string>

    function State(): Tables
      reads this
    {
      Tables(idToNode, idToParentId, nameToIds, order)
    }

    ghost predicate Valid()
      reads this
    {
      WellFormed(State())
    }

    constructor()
      ensures config.None? && State() == EmptyTables() && Valid()
    {
      config := None;
      idToNode, idToParentId, nameToIds, order := map[], map[], map[], [];
    }

    /** analyzeConfig: keeps the configuration, rebuilds the index and
        reports the pages and the identifier-bearing layers below them. */
    method AnalyzeConfig(c: Option<Config>) returns (pages: nat, layers: nat)
      modifies this
      ensures config == c && (State(), pages, layers) == LegacyIndexOf(c)
      ensures Valid()
    {
      idToNode, idToParentId, nameToIds, order := map[], map[], map[], [];
      LegacyIndexWellFormed(c);
      var found := PagesOf(c);
      if found.None? {
        config := c;
        return 0, 0;
      }
      var list := found.value;
      layers := 0;
      for i := 0 to |list|
        invariant State() == LegacyPagesFrom(EmptyTables(), list[..i])
        invariant layers == PagesIdCount(list[..i])
      {
        var page := list[i];
        var pageId := IdOf(page);
        if pageId.Some? {
          IndexNode(pageId.value, page, None);
        }
        ghost var t1 := State();
        ghost var before := layers;
        LegacyPageStepOf(list, i);
        match page.layers {
          case LayerList(ls) =>
            for k := 0 to |ls|
              invariant State() == LegacyWalkAll(t1, ls[..k], pageId)
              invariant layers == before + IdCountAll(ls[..k])
            {
              var n := WalkAndIndex(ls[k], pageId);
              LegacyWalkAllStep(t1, ls, k, pageId);
              layers := layers + n;
            }
            assert ls[..|ls|] == ls;
          case NoLayers =>
        }
      }
      assert list[..|list|] == list;
      pages := |list|;
      config := c;
    }

    /** walkAndIndex: indexes a subtree, the children of a node without
        identifier going under the parent it was handed, and returns the
        number of identifier-bearing nodes. */
    method WalkAndIndex(node: Node, parentId: Option<string>) returns (count: nat)
      modifies this
      ensures config == old(config)
      ensures State() == LegacyWalk(old(State()), node, parentId)
      ensures count == IdCount(node)
      decreases node
    {
      var nodeId := IdOf(node);
      if nodeId.Some? {
        IndexNode(nodeId.value, node, parentId);
      }
      ghost var t1 := State();
      count := if nodeId.Some? then 1 else 0;
      var under := if nodeId.Some? then nodeId else parentId;
      match node.layers {
        case LayerList(ls) =>
          for i := 0 to |ls|
            invariant config == old(config)
            invariant State() == LegacyWalkAll(t1, ls[..i], under)
            invariant count == (if nodeId.Some? then 1 else 0) + IdCountAll(ls[..i])
          {
            var n := WalkAndIndex(ls[i], under);
            assert ls[..i + 1][..i] == ls[..i];
            count := count + n;
          }
          assert ls[..|ls|] == ls;
        case NoLayers =>
      }
    }

    /** indexNode. */
    method IndexNode(id: string, node: Node, parentId: Option<string>)
      modifies this
      ensures config == old(config)
      ensures State() == Record(old(State()), id, node, parentId)
    {
      var name := NameOf(node);
      if id !in idToNode {
        order := order + [id];
      }
      idToNode := idToNode[id := node];
      idToParentId := idToParentId[id := parentId];
      if name != "" {
        var ids := if name in nameToIds then nameToIds[name] else [];
        if id !in ids {
          ids := ids + [id];
        }
        nameToIds := nameToIds[name := ids];
      }
    }

    /** countLayers: the identifier-bearing nodes of a subtree. */
    method CountLayers(node: Node) returns (count: nat)
      ensures count == IdCount(node)
      decreases node
    {
      count := if IdOf(node).Some? then 1 else 0;
      match node.layers {
        case LayerList(ls) =>
          for i := 0 to |ls|
            invariant count == (if IdOf(node).Some? then 1 else 0) + IdCountAll(ls[..i])
          {
            var n := CountLayers(ls[i]);
            assert ls[..i + 1][..i] == ls[..i];
            count := count + n;
          }
          assert ls[..|ls|] == ls;
        case NoLayers =>
      }
    }

    /** The identifier-bearing nodes below a list of layers. */
    method CountAll(ls: seq<Node>) returns (count: nat)
      ensures count == IdCountAll(ls)
    {
      count := 0;
      for i := 0 to |ls|
        invariant count == IdCountAll(ls[..i])
      {
        var n := CountLayers(ls[i]);
        assert ls[..i + 1][..i] == ls[..i];
        count := count + n;
      }
      assert ls[..|ls|] == ls;
    }

    /** listPages: nothing without a page list; otherwise one entry per page. */
    method ListPages() returns (r: seq<Analyzer.PageEntry>)
      ensures PagesOf(config).None? ==> r == []
      ensures PagesOf(config).Some? ==> r == LegacyPageEntries(PagesOf(config).value)
    {
      var found := PagesOf(config);
      if found.None? {
        return [];
      }
      var pages := found.value;
      r := [];
      for i := 0 to |pages|
        invariant r == LegacyPageEntries(pages[..i])
      {
        var page := pages[i];
        var count := CountAll(Kids(page));
        assert pages[..i + 1][..i] == pages[..i];
        r := r + [Analyzer.PageEntry(RawId(page), NameOf(page), count)];
      }
      assert pages[..|pages|] == pages;
    }

    /** getPageInfo. */
    method GetPageInfo(pageId: string) returns (r: Option<PageInfoRecord>)
      ensures r == PageInfoOf(State(), pageId)
    {
      if pageId !in idToNode {
        return None;
      }
      var page := idToNode[pageId];
      var total := CountAll(Kids(page));
      r := Some(PageInfoRecord(pageId, NameOf(page), total));
    }

    /** getNodeInfo: nothing for an unknown identifier. */
    function GetNodeInfo(nodeId: string): (r: Option<NodeRecord>)
      reads this
      ensures r.Some? <==> nodeId in idToNode
      ensures r.Some? ==> r.value == NodeRecordOf(nodeId, idToNode[nodeId])
    {
      if nodeId in idToNode then Some(NodeRecordOf(nodeId, idToNode[nodeId])) else None
    }

    /** listNodes, with the limit checked before a match is taken: the
        filtered records in insertion order, after `offset` matches, at most
        `limit` of them. */
    method ListNodes(q: Analyzer.Query) returns (r: seq<NodeRecord>)
      requires forall id | id in order :: id in idToNode
      ensures r == Listed(State(), q)
    {
      var t := State();
      var ids := order;
      r := [];
      var skipped := 0;
      var i := 0;
      while i < |ids|
        invariant 0 <= i <= |ids|
        invariant skipped == Skipped(LegacyMatching(t, ids[..i], q), q.offset)
        invariant r == Records(t, Window(LegacyMatching(t, ids[..i], q), q.offset, q.limit))
      {
        var id := ids[i];
        ghost var m := LegacyMatching(t, ids[..i], q);
        if |r| >= q.limit {
          ListStop(t, ids, i, q);
          assert r == Records(t, Window(LegacyMatching(t, t.order, q), q.offset, q.limit));
          break;
        }
        ghost var m1 := LegacyMatching(t, ids[..i + 1], q);
        MatchStep(t, ids, i, q);
        if LegacyMatches(t.nodes[id], q.nodeType, q.nameContains) {
          assert m1 == m + [id];
          TakeMatch(t, m, id, q);
          if skipped < q.offset {
            skipped := skipped + 1;
          } else {
            r := r + [NodeRecordOf(id, t.nodes[id])];
          }
        } else {
          assert m1 == m;
        }
        assert r == Records(t, Window(m1, q.offset, q.limit));
        i := i + 1;
      }
      assert ids[..|ids|] == ids;
    }

    /** listNodesByPage: an unknown page lists nothing; otherwise the
        matches below the page's layers are counted, then walked. */
    method ListNodesByPage(pageId: string, q: Analyzer.Query) returns (r: PageListing)
      ensures r == ListingByPage(State(), pageId, q)
    {
      if pageId !in idToNode {
        return PageListing([], 0, 0);
      }
      var ls := Kids(idToNode[pageId]);
      var total := 0;
      for i := 0 to |ls|
        invariant total == |CandidatesAll(ls[..i], q)|
      {
        var n := CountMatches(ls[i], q);
        assert ls[..i + 1][..i] == ls[..i];
        total := total + n;
      }
      assert ls[..|ls|] == ls;
      var walk := WalkLayers(State(), ls, q, PageWalk([], 0));
      WalkIsListing(State(), pageId, q);
      r := PageListing(walk.results, total, |walk.results|);
    }

    /** getAncestors, with the loop stopped at the first identifier it has
        already met: the ancestors nearest first. */
    method GetAncestors(nodeId: string) returns (r: seq<string>)
      ensures r == Ancestors(idToParentId, nodeId)
    {
      r := [];
      if nodeId == "" {
        return;
      }
      var parents := idToParentId;
      var current := nodeId;
      var seen := {nodeId};
      while true
        invariant current in seen
        invariant Ancestors(parents, nodeId) == r + Walkup(parents, current, seen)
        decreases 2 * |parents.Keys - seen| + (if current in parents then 1 else 0)
      {
        var p := ParentEntry(parents, current);
        if p.None? || p.value == "" || p.value in seen {
          assert r + Walkup(parents, current, seen) == r + [];
          break;
        }
        AncestorStep(parents, current, seen);
        Regroup(r, p.value, Walkup(parents, p.value, seen + {p.value}));
        r := r + [p.value];
        current := p.value;
        seen := seen + {p.value};
      }
    }

    /** getSymbolMasterBySymbolID: the identifier of the first symbol master,
        in insertion order, with that symbol identifier. */
    method GetSymbolMasterBySymbolId(symbolID: Option<string>) returns (r: Option<string>)
      requires Valid()
      ensures r == FirstMaster(State(), order, symbolID)
    {
      var t := State();
      for i := 0 to |order|
        invariant forall j | 0 <= j < i :: !IsMasterFor(t.nodes[order[j]], symbolID)
      {
        var node := idToNode[order[i]];
        if node.kind == Some("symbolMaster") && node.symbolID == symbolID {
          FirstMasterAt(t, order, symbolID, i);
          return Some(order[i]);
        }
      }
      assert forall id | id in order :: exists j | 0 <= j < |order| :: order[j] == id;
      return None;
    }

    /** getSymbolInstanceStyles. */
    method GetSymbolInstanceStyles(instanceId: string) returns (r: Option<InstanceStyles>)
      requires Valid()
      ensures r == InstanceStylesFor(State(), instanceId)
    {
      if instanceId !in idToNode || idToNode[instanceId].kind != Some("symbolInstance") {
        return None;
      }
      var instance := idToNode[instanceId];
      var master := GetSymbolMasterBySymbolId(instance.symbolID);
      if master.None? {
        return None;
      }
      var masterStyles := GetNodeInfo(master.value);
      r := Some(InstanceStylesOf(masterStyles.value, instance.symbolID, instanceId, instance.overrideValues));
    }
  }
}
