/** The node index of the modular analyzer: identifier to node, identifier to
    parent identifier and name to identifiers, built by one walk over the
    document. */
module Indexer {
  import opened Wrappers
  import opened Js
  import opened Sketch

  /** The three tables of the index, and the order in which identifiers were
      first inserted (the iteration order of the JavaScript Map). */
  datatype Tables = Tables(
    nodes: map<string, Node>,
    parents: map<string, Option<string>>,
    names: map<string, seq<string>>,
    order: seq<string>)

  /** What listing and name lookup report of a node. */
  datatype NodeSummary = NodeSummary(id: string, name: string, nodeType: string)

  function EmptyTables(): Tables
  {
    Tables(map[], map[], map[], [])
  }

  /** The invariant the index keeps: the order lists each indexed identifier
      once; every indexed identifier has a parent entry; a name lists only
      indexed identifiers, each once; every indexed node with a name is listed
      under that name; parents are never the empty string. */
  ghost predicate WellFormed(t: Tables)
  {
    && Distinct(t.order)
    && (forall id :: id in t.nodes <==> id in t.order)
    && t.parents.Keys == t.nodes.Keys
    && (forall id | id in t.parents :: t.parents[id] != Some(""))
    && (forall name | name in t.names :: Distinct(t.names[name]) && forall id | id in t.names[name] :: id in t.nodes)
    && (forall id | id in t.nodes && NameOf(t.nodes[id]) != "" ::
          NameOf(t.nodes[id]) in t.names && id in t.names[NameOf(t.nodes[id])])
  }

  /** indexNode: the node and its parent are (re)set; a non-empty name gains
      the identifier, and no name ever loses one. */
  function Record(t: Tables, id: string, node: Node, parent: Option<string>): Tables
  {
    var name := NameOf(node);
    Tables(
      t.nodes[id := node],
      t.parents[id := parent],
      if name == "" then t.names else AddName(t.names, name, id),
      if id in t.nodes then t.order else t.order + [id])
  }

  function AddName(names: map<string, seq<string>>, name: string, id: string): map<string, seq<string>>
  {
    var ids := if name in names then names[name] else [];
    names[name := if id in ids then ids else ids + [id]]
  }

  /** walkAndIndex: the node under its parent, then its children under the
      node's own identifier (none when it has none). */
  function Walk(t: Tables, n: Node, parent: Option<string>): Tables
    decreases n
  {
    var t1 := if IdOf(n).Some? then Record(t, IdOf(n).value, n, parent) else t;
    match n.layers
    case LayerList(ls) => WalkAll(t1, ls, IdOf(n))
    case NoLayers => t1
  }

  /** The walks of a list of siblings, left to right. */
  function WalkAll(t: Tables, ns: seq<Node>, parent: Option<string>): Tables
    decreases ns
  {
    if ns == [] then t else Walk(WalkAll(t, ns[..|ns| - 1], parent), ns[|ns| - 1], parent)
  }

  /** One page of indexConfig: the page itself as a root, then its layers. */
  function PageStep(t: Tables, page: Node): Tables
  {
    var t1 := if IdOf(page).Some? then Record(t, IdOf(page).value, page, None) else t;
    WalkAll(t1, Kids(page), IdOf(page))
  }

  function PagesFrom(t: Tables, pages: seq<Node>): Tables
  {
    if pages == [] then t else PageStep(PagesFrom(t, pages[..|pages| - 1]), pages[|pages| - 1])
  }

  /** The number of layers walked below a list of pages. */
  function LayerCount(pages: seq<Node>): nat
  {
    if pages == [] then 0 else LayerCount(pages[..|pages| - 1]) + Count(Kids(pages[|pages| - 1]))
  }

  /** The pages of a configuration, when it has a document with a pages array. */
  function PagesOf(config: Option<Config>): Option<seq<Node>>
  {
    if config.Some? && config.value.document.Some? && config.value.document.value.pages.Some?
    then config.value.document.value.pages
    else None
  }

  /** indexConfig: the index of a configuration, whatever was indexed before,
      with the number of pages and the number of layers walked. */
  function IndexOf(config: Option<Config>): (Tables, nat, nat)
  {
    match PagesOf(config)
    case None => (EmptyTables(), 0, 0)
    case Some(pages) => (PagesFrom(EmptyTables(), pages), |pages|, LayerCount(pages))
  }

  /** getNode for an identifier that may be absent. */
  function Lookup(t: Tables, id: Option<string>): (r: Option<Node>)
    ensures r.Some? <==> id.Some? && id.value in t.nodes
    ensures r.Some? ==> r.value == t.nodes[id.value]
  {
    if id.Some? && id.value in t.nodes then Some(t.nodes[id.value]) else None
  }

  // ----------------------------------------------------------- queries

  function Summary(t: Tables, id: string): NodeSummary
    requires id in t.nodes
  {
    NodeSummary(id, NameOf(t.nodes[id]), NodeType(t.nodes[id]))
  }

  function Summaries(t: Tables, ids: seq<string>): seq<NodeSummary>
    requires forall id | id in ids :: id in t.nodes
  {
    if ids == [] then [] else Summaries(t, ids[..|ids| - 1]) + [Summary(t, ids[|ids| - 1])]
  }

  lemma {:induction false} SummariesMeaning(t: Tables, ids: seq<string>)
    requires forall id | id in ids :: id in t.nodes
    ensures |Summaries(t, ids)| == |ids|
    ensures forall i | 0 <= i < |ids| :: Summaries(t, ids)[i] == Summary(t, ids[i])
  {
    if ids != [] {
      SummariesMeaning(t, ids[..|ids| - 1]);
    }
  }

  /** The type and name filters of listNodes: an exact type match when a type
      is given; a case-insensitive substring of a non-empty name when a
      fragment is given. */
  predicate Matches(n: Node, nodeType: string, nameContains: string)
  {
    (nodeType == "" || NodeType(n) == nodeType)
    && (nameContains == "" || (NameOf(n) != "" && Includes(ToLower(NameOf(n)), ToLower(nameContains))))
  }

  /** The identifiers among `ids` whose nodes pass the filters, in order. */
  function Matching(t: Tables, ids: seq<string>, nodeType: string, nameContains: string): (r: seq<string>)
    requires forall id | id in ids :: id in t.nodes
    ensures forall id | id in r :: id in ids
  {
    if ids == [] then []
    else
      var last := ids[|ids| - 1];
      Matching(t, ids[..|ids| - 1], nodeType, nameContains)
      + (if Matches(t.nodes[last], nodeType, nameContains) then [last] else [])
  }

  /** The matches are exactly the identifiers whose nodes pass the filters. */
  lemma {:induction false} MatchingMeaning(t: Tables, ids: seq<string>, nodeType: string, nameContains: string)
    requires forall id | id in ids :: id in t.nodes
    ensures forall id | id in Matching(t, ids, nodeType, nameContains) :: Matches(t.nodes[id], nodeType, nameContains)
    ensures forall id | id in ids && Matches(t.nodes[id], nodeType, nameContains) :: id in Matching(t, ids, nodeType, nameContains)
    ensures |Matching(t, ids, nodeType, nameContains)| <= |ids|
  {
    if ids != [] {
      MatchingMeaning(t, ids[..|ids| - 1], nodeType, nameContains);
      assert ids == ids[..|ids| - 1] + [ids[|ids| - 1]];
    }
  }

  /** The page of a list that skips `offset` entries and keeps at most `limit`. */
  function Window<T>(s: seq<T>, offset: int, limit: int): (r: seq<T>)
    ensures forall x | x in r :: x in s
  {
    var skip := Skipped(s, offset);
    var rest := s[skip..];
    var take := if limit < 0 then 0 else if limit > |rest| then |rest| else limit;
    rest[..take]
  }

  /** A window holds the entries that follow the skipped ones, as many as
      the limit allows and the list still has. */
  lemma WindowShape<T>(s: seq<T>, offset: int, limit: int)
    ensures var r := Window(s, offset, limit);
      && |r| <= (if limit < 0 then 0 else limit)
      && |r| == MinInt(|s| - Skipped(s, offset), if limit < 0 then 0 else limit)
      && forall i | 0 <= i < |r| :: r[i] == s[Skipped(s, offset) + i]
  {
  }

  /** How many entries the offset skips. */
  function Skipped<T>(s: seq<T>, offset: int): nat
  {
    if offset < 0 then 0 else if offset > |s| then |s| else offset
  }

  function MinInt(a: int, b: int): int { if a <= b then a else b }

  /** listNodes. */
  function Listing(t: Tables, limit: int, nodeType: string, nameContains: string, offset: int): seq<NodeSummary>
    requires forall id | id in t.order :: id in t.nodes
  {
    Summaries(t, Window(Matching(t, t.order, nodeType, nameContains), offset, limit))
  }

  /** The parent recorded for `id`, if any. */
  function ParentEntry(parents: map<string, Option<string>>, id: string): Option<string>
  {
    if id in parents then parents[id] else None
  }

  /** getAncestors as written: the chain of parents above `id`, nearest
      first, when it ends within `fuel` steps (None when it does not); an
      empty identifier, or a missing or empty parent, ends it. */
  function Chain(parents: map<string, Option<string>>, id: string, fuel: nat): Option<seq<string>>
    decreases fuel
  {
    var p := ParentEntry(parents, id);
    if id == "" || p.None? || p.value == "" then Some([])
    else if fuel == 0 then None
    else
      match Chain(parents, p.value, fuel - 1)
      case Some(rest) => Some([p.value] + rest)
      case None => None
  }

  function Reverse<T>(s: seq<T>): (r: seq<T>)
    ensures |r| == |s|
  {
    if s == [] then [] else Reverse(s[1..]) + [s[0]]
  }

  // ------------------------------------------------------ index lemmas

  /** The identifiers carried by a list of nodes. */
  function IdSet(ns: seq<Node>): set<string>
  {
    set n | n in ns && IdOf(n).Some? :: IdOf(n).value
  }

  lemma IdSetAppend(a: seq<Node>, b: seq<Node>)
    ensures IdSet(a + b) == IdSet(a) + IdSet(b)
  {
  }

  lemma {:induction false} IdSetSize(ns: seq<Node>)
    ensures |IdSet(ns)| <= |ns|
  {
    if ns != [] {
      var init := ns[..|ns| - 1];
      var last := ns[|ns| - 1];
      assert ns == init + [last];
      IdSetAppend(init, [last]);
      IdSetSize(init);
      IdSetOne(last);
      UnionSize(IdSet(init), IdSet([last]));
    }
  }

  lemma IdSetOne(n: Node)
    ensures |IdSet([n])| <= 1
  {
    if IdOf(n).Some? {
      assert IdSet([n]) == {IdOf(n).value};
    } else {
      assert IdSet([n]) == {};
    }
  }

  lemma UnionSize<T>(a: set<T>, b: set<T>)
    ensures |a + b| <= |a| + |b|
  {
  }

  /** The identifiers of the subtree rooted at `n`. */
  function TreeIds(n: Node): set<string>
  {
    IdSet(Subtree(n))
  }

  lemma TreeIdsSplit(n: Node)
    ensures TreeIds(n) == (if IdOf(n).Some? then {IdOf(n).value} else {}) + IdSet(PreOrder(Kids(n)))
  {
    assert Subtree(n) == [n] + PreOrder(Kids(n));
    IdSetAppend([n], PreOrder(Kids(n)));
  }

  lemma AddNameKeeps(t: Tables, name: string, id: string)
    requires forall n | n in t.names :: Distinct(t.names[n])
    ensures var names := AddName(t.names, name, id);
      && names.Keys == t.names.Keys + {name}
      && (forall n | n in names :: Distinct(names[n]))
      && (forall n | n in names :: forall x | x in names[n] :: (n in t.names && x in t.names[n]) || (n == name && x == id))
      && id in names[name]
      && (forall n | n in t.names :: forall x | x in t.names[n] :: x in names[n])
  {
    var ids := if name in t.names then t.names[name] else [];
    if id !in ids {
      assert forall i | 0 <= i < |ids| :: (ids + [id])[i] == ids[i];
    }
  }

  lemma RecordWellFormed(t: Tables, id: string, node: Node, parent: Option<string>)
    requires WellFormed(t) && id != "" && parent != Some("")
    ensures WellFormed(Record(t, id, node, parent))
  {
    RecordOrder(t, id, node, parent);
    RecordNames(t, id, node, parent);
  }

  /** Recording keeps the order a duplicate-free listing of the indexed identifiers. */
  lemma RecordOrder(t: Tables, id: string, node: Node, parent: Option<string>)
    requires Distinct(t.order) && forall x :: x in t.nodes <==> x in t.order
    ensures var r := Record(t, id, node, parent);
      Distinct(r.order) && forall x :: x in r.nodes <==> x in r.order
  {
    var r := Record(t, id, node, parent);
    if id !in t.nodes {
      assert r.order == t.order + [id];
      assert forall i | 0 <= i < |t.order| :: r.order[i] == t.order[i];
    }
  }

  /** Recording keeps the name lists duplicate-free, pointing at indexed
      nodes, and complete. */
  lemma RecordNames(t: Tables, id: string, node: Node, parent: Option<string>)
    requires WellFormed(t)
    ensures var r := Record(t, id, node, parent);
      && (forall name | name in r.names :: Distinct(r.names[name]) && forall x | x in r.names[name] :: x in r.nodes)
      && (forall x | x in r.nodes && NameOf(r.nodes[x]) != "" ::
            NameOf(r.nodes[x]) in r.names && x in r.names[NameOf(r.nodes[x])])
  {
    var r := Record(t, id, node, parent);
    if NameOf(node) != "" {
      AddNameKeeps(t, NameOf(node), id);
    }
    forall x | x in r.nodes && NameOf(r.nodes[x]) != ""
      ensures NameOf(r.nodes[x]) in r.names && x in r.names[NameOf(r.nodes[x])]
    {
      if x != id {
        assert r.nodes[x] == t.nodes[x];
      }
    }
  }

  /** Walking keeps the invariant of the index. */
  lemma {:induction false} WalkWellFormed(t: Tables, n: Node, parent: Option<string>)
    requires WellFormed(t) && parent != Some("")
    ensures WellFormed(Walk(t, n, parent))
    decreases n
  {
    var t1 := if IdOf(n).Some? then Record(t, IdOf(n).value, n, parent) else t;
    if IdOf(n).Some? {
      RecordWellFormed(t, IdOf(n).value, n, parent);
    }
    match n.layers
    case LayerList(ls) => WalkAllWellFormed(t1, ls, IdOf(n));
    case NoLayers =>
  }

  lemma {:induction false} WalkAllWellFormed(t: Tables, ns: seq<Node>, parent: Option<string>)
    requires WellFormed(t) && parent != Some("")
    ensures WellFormed(WalkAll(t, ns, parent))
    decreases ns
  {
    if ns != [] {
      WalkAllWellFormed(t, ns[..|ns| - 1], parent);
      WalkWellFormed(WalkAll(t, ns[..|ns| - 1], parent), ns[|ns| - 1], parent);
    }
  }

  lemma {:induction false} PagesWellFormed(t: Tables, pages: seq<Node>)
    requires WellFormed(t)
    ensures WellFormed(PagesFrom(t, pages))
  {
    if pages != [] {
      PagesWellFormed(t, pages[..|pages| - 1]);
      var t0 := PagesFrom(t, pages[..|pages| - 1]);
      var page := pages[|pages| - 1];
      var t1 := if IdOf(page).Some? then Record(t0, IdOf(page).value, page, None) else t0;
      if IdOf(page).Some? {
        RecordWellFormed(t0, IdOf(page).value, page, None);
      }
      WalkAllWellFormed(t1, Kids(page), IdOf(page));
    }
  }

  /** The index of any configuration satisfies the invariant. */
  lemma IndexWellFormed(config: Option<Config>)
    ensures WellFormed(IndexOf(config).0)
  {
    assert WellFormed(EmptyTables());
    if PagesOf(config).Some? {
      PagesWellFormed(EmptyTables(), PagesOf(config).value);
    }
  }

  /** Walking a subtree indexes exactly the identifiers it carries. */
  lemma {:induction false} WalkKeys(t: Tables, n: Node, parent: Option<string>)
    ensures Walk(t, n, parent).nodes.Keys == t.nodes.Keys + TreeIds(n)
    decreases n
  {
    TreeIdsSplit(n);
    var t1 := if IdOf(n).Some? then Record(t, IdOf(n).value, n, parent) else t;
    match n.layers
    case LayerList(ls) => WalkAllKeys(t1, ls, IdOf(n));
    case NoLayers =>
  }

  lemma {:induction false} WalkAllKeys(t: Tables, ns: seq<Node>, parent: Option<string>)
    ensures WalkAll(t, ns, parent).nodes.Keys == t.nodes.Keys + IdSet(PreOrder(ns))
    decreases ns
  {
    if ns != [] {
      var init := ns[..|ns| - 1];
      var last := ns[|ns| - 1];
      WalkAllKeys(t, init, parent);
      WalkKeys(WalkAll(t, init, parent), last, parent);
      assert ns == init + [last];
      PreOrderAppend(init, [last]);
      assert PreOrder([last]) == Subtree(last);
      IdSetAppend(PreOrder(init), Subtree(last));
    }
  }

  /** Walking a subtree leaves every identifier it does not carry as it was. */
  lemma {:induction false} WalkFrame(t: Tables, n: Node, parent: Option<string>, k: string)
    requires k !in TreeIds(n)
    ensures (k in Walk(t, n, parent).nodes <==> k in t.nodes)
    ensures k in t.nodes ==> Walk(t, n, parent).nodes[k] == t.nodes[k]
    ensures (k in Walk(t, n, parent).parents <==> k in t.parents)
    ensures k in t.parents ==> Walk(t, n, parent).parents[k] == t.parents[k]
    decreases n
  {
    TreeIdsSplit(n);
    var t1 := if IdOf(n).Some? then Record(t, IdOf(n).value, n, parent) else t;
    match n.layers
    case LayerList(ls) => WalkAllFrame(t1, ls, IdOf(n), k);
    case NoLayers =>
  }

  lemma {:induction false} WalkAllFrame(t: Tables, ns: seq<Node>, parent: Option<string>, k: string)
    requires k !in IdSet(PreOrder(ns))
    ensures (k in WalkAll(t, ns, parent).nodes <==> k in t.nodes)
    ensures k in t.nodes ==> WalkAll(t, ns, parent).nodes[k] == t.nodes[k]
    ensures (k in WalkAll(t, ns, parent).parents <==> k in t.parents)
    ensures k in t.parents ==> WalkAll(t, ns, parent).parents[k] == t.parents[k]
    decreases ns
  {
    if ns != [] {
      var init := ns[..|ns| - 1];
      var last := ns[|ns| - 1];
      assert ns == init + [last];
      PreOrderAppend(init, [last]);
      assert PreOrder([last]) == Subtree(last);
      IdSetAppend(PreOrder(init), Subtree(last));
      WalkAllFrame(t, init, parent, k);
      WalkFrame(WalkAll(t, init, parent), last, parent, k);
    }
  }

  /** A node whose identifier no descendant reuses is indexed as itself,
      under the parent it was walked with. */
  lemma WalkRoot(t: Tables, n: Node, parent: Option<string>)
    requires IdOf(n).Some? && IdOf(n).value !in IdSet(PreOrder(Kids(n)))
    ensures var r := Walk(t, n, parent);
      && IdOf(n).value in r.nodes && r.nodes[IdOf(n).value] == n
      && IdOf(n).value in r.parents && r.parents[IdOf(n).value] == parent
  {
    var t1 := Record(t, IdOf(n).value, n, parent);
    match n.layers
    case LayerList(ls) => WalkAllFrame(t1, ls, IdOf(n), IdOf(n).value);
    case NoLayers =>
  }

  lemma {:induction false} WalkAllAppend(t: Tables, a: seq<Node>, b: seq<Node>, parent: Option<string>)
    ensures WalkAll(t, a + b, parent) == WalkAll(WalkAll(t, a, parent), b, parent)
    decreases |b|
  {
    if b == [] {
      assert a + b == a;
    } else {
      assert (a + b)[..|a + b| - 1] == a + b[..|b| - 1];
      WalkAllAppend(t, a, b[..|b| - 1], parent);
    }
  }

  /** A child is indexed under its parent's identifier (or none, when the
      parent has none), provided no later node reuses the child's identifier. */
  lemma ChildParent(t: Tables, n: Node, parent: Option<string>, j: nat)
    requires j < |Kids(n)|
    requires var c := Kids(n)[j];
      IdOf(c).Some?
      && IdOf(c).value !in IdSet(PreOrder(Kids(c)))
      && IdOf(c).value !in IdSet(PreOrder(Kids(n)[j + 1..]))
    ensures var c := Kids(n)[j];
      IdOf(c).value in Walk(t, n, parent).parents && Walk(t, n, parent).parents[IdOf(c).value] == IdOf(n)
  {
    var ls := Kids(n);
    var c := ls[j];
    var k := IdOf(c).value;
    var t1 := if IdOf(n).Some? then Record(t, IdOf(n).value, n, parent) else t;
    var t2 := WalkAll(t1, ls[..j + 1], IdOf(n));
    SplitAfter(t1, ls, j, IdOf(n));
    assert t2 == Walk(WalkAll(t1, ls[..j], IdOf(n)), c, IdOf(n)) by {
      assert ls[..j + 1][..j] == ls[..j];
    }
    WalkRoot(WalkAll(t1, ls[..j], IdOf(n)), c, IdOf(n));
    WalkAllFrame(t2, ls[j + 1..], IdOf(n), k);
  }

  lemma SplitAfter(t: Tables, ls: seq<Node>, j: nat, parent: Option<string>)
    requires j < |ls|
    ensures WalkAll(t, ls, parent) == WalkAll(WalkAll(t, ls[..j + 1], parent), ls[j + 1..], parent)
  {
    assert ls == ls[..j + 1] + ls[j + 1..];
    WalkAllAppend(t, ls[..j + 1], ls[j + 1..], parent);
  }

  /** Indexing pages indexes exactly the identifiers they carry. */
  lemma {:induction false} PagesKeys(pages: seq<Node>)
    ensures PagesFrom(EmptyTables(), pages).nodes.Keys == IdSet(PreOrder(pages))
  {
    if pages != [] {
      var init := pages[..|pages| - 1];
      var page := pages[|pages| - 1];
      PagesKeys(init);
      var t0 := PagesFrom(EmptyTables(), init);
      var t1 := if IdOf(page).Some? then Record(t0, IdOf(page).value, page, None) else t0;
      WalkAllKeys(t1, Kids(page), IdOf(page));
      TreeIdsSplit(page);
      assert pages == init + [page];
      PagesPreOrder(init, page);
      IdSetAppend(PreOrder(init), Subtree(page));
    }
  }

  lemma PagesPreOrder(init: seq<Node>, page: Node)
    ensures PreOrder(init + [page]) == PreOrder(init) + Subtree(page)
    ensures Count(init + [page]) == Count(init) + Size(page)
  {
    PreOrderAppend(init, [page]);
    CountAppend(init, [page]);
    assert PreOrder([page]) == Subtree(page);
    assert Count([page]) == Size(page);
  }

  /** The pages and the layers below them are all the nodes of the pages. */
  lemma {:induction false} LayerTotal(pages: seq<Node>)
    ensures Count(pages) == |pages| + LayerCount(pages)
  {
    if pages != [] {
      var init := pages[..|pages| - 1];
      var page := pages[|pages| - 1];
      LayerTotal(init);
      assert pages == init + [page];
      PagesPreOrder(init, page);
      SizeIsKids(page);
    }
  }

  /** indexConfig indexes exactly the identifiers the document carries, at
      most one per visited node. */
  lemma IndexedIds(config: Option<Config>)
    requires PagesOf(config).Some?
    ensures var (t, pages, layers) := IndexOf(config);
      t.nodes.Keys == IdSet(PreOrder(PagesOf(config).value)) && |t.nodes.Keys| <= pages + layers
  {
    var pages := PagesOf(config).value;
    PagesKeys(pages);
    IdSetSize(PreOrder(pages));
    LayerTotal(pages);
  }

  // ------------------------------------------------------ query lemmas

  /** A chain that ends is the same whatever fuel it was given. */
  lemma {:induction false} ChainFuel(parents: map<string, Option<string>>, id: string, f1: nat, f2: nat)
    requires Chain(parents, id, f1).Some? && Chain(parents, id, f2).Some?
    ensures Chain(parents, id, f1) == Chain(parents, id, f2)
    decreases f1
  {
    var p := ParentEntry(parents, id);
    if id != "" && p.Some? && p.value != "" {
      ChainFuel(parents, p.value, f1 - 1, f2 - 1);
    }
  }

  /** Two ending chains of the same identifier are equal. */
  lemma ChainsAgree(parents: map<string, Option<string>>, a: string, b: string, f1: nat, f2: nat)
    requires Chain(parents, a, f1).Some? && Chain(parents, b, f2).Some?
    ensures a == b ==> Chain(parents, a, f1) == Chain(parents, b, f2)
  {
    if a == b {
      ChainFuel(parents, a, f1, f2);
    }
  }

  /** The part of a chain after its `i`-th entry is the chain of that entry. */
  lemma {:induction false} ChainSuffix(parents: map<string, Option<string>>, id: string, fuel: nat, i: nat)
    requires Chain(parents, id, fuel).Some? && i < |Chain(parents, id, fuel).value|
    ensures fuel > i
    ensures var c := Chain(parents, id, fuel).value;
      Chain(parents, c[i], fuel - 1 - i) == Some(c[i + 1..])
    decreases fuel
  {
    var p := parents[id].value;
    var c := Chain(parents, id, fuel).value;
    var rest := Chain(parents, p, fuel - 1).value;
    assert c == [p] + rest;
    if i > 0 {
      ChainSuffix(parents, p, fuel - 1, i - 1);
      assert c[i] == rest[i - 1];
      assert c[i + 1..] == rest[i..];
    }
  }

  /** A chain that ends never repeats an identifier, and never contains the
      identifier it started from: no node is its own ancestor. */
  lemma AncestorsDistinct(parents: map<string, Option<string>>, id: string, fuel: nat)
    requires Chain(parents, id, fuel).Some?
    ensures Distinct(Chain(parents, id, fuel).value)
    ensures id !in Chain(parents, id, fuel).value
  {
    var c := Chain(parents, id, fuel).value;
    forall i, j | 0 <= i < j < |c|
      ensures c[i] != c[j]
    {
      ChainSuffix(parents, id, fuel, i);
      ChainSuffix(parents, id, fuel, j);
      ChainsAgree(parents, c[i], c[j], fuel - 1 - i, fuel - 1 - j);
    }
    forall j | 0 <= j < |c|
      ensures c[j] != id
    {
      ChainSuffix(parents, id, fuel, j);
      ChainsAgree(parents, id, c[j], fuel, fuel - 1 - j);
    }
  }

  /** Consecutive pages of a listing tile it: the page after `limit1` entries
      continues where the first page stopped. */
  lemma WindowsTile<T>(s: seq<T>, offset: nat, limit1: nat, limit2: nat)
    ensures Window(s, offset, limit1) + Window(s, offset + limit1, limit2) == Window(s, offset, limit1 + limit2)
  {
  }

  /** Every listed node passes the filters, and no more than `limit` are listed. */
  lemma ListingSound(t: Tables, limit: int, nodeType: string, nameContains: string, offset: int)
    requires WellFormed(t)
    ensures var r := Listing(t, limit, nodeType, nameContains, offset);
      && |r| <= (if limit < 0 then 0 else limit)
      && forall i | 0 <= i < |r| :: r[i].id in t.nodes && Matches(t.nodes[r[i].id], nodeType, nameContains)
  {
    var m := Matching(t, t.order, nodeType, nameContains);
    var w := Window(m, offset, limit);
    MatchingMeaning(t, t.order, nodeType, nameContains);
    WindowShape(m, offset, limit);
    SummariesMeaning(t, w);
    forall i | 0 <= i < |w|
      ensures w[i] in m
    {
      assert w[i] == m[Skipped(m, offset) + i];
    }
  }

  /** With no offset and a large enough limit, every matching node is listed. */
  lemma ListingComplete(t: Tables, limit: int, nodeType: string, nameContains: string, id: string)
    requires (forall x | x in t.order :: x in t.nodes) && (forall x | x in t.nodes :: x in t.order)
    requires limit >= |t.order|
    requires id in t.nodes && Matches(t.nodes[id], nodeType, nameContains)
    ensures Summary(t, id) in Listing(t, limit, nodeType, nameContains, 0)
  {
    var m := Matching(t, t.order, nodeType, nameContains);
    MatchingMeaning(t, t.order, nodeType, nameContains);
    assert id in m;
    var w := Window(m, 0, limit);
    assert w == m by {
      assert Skipped(m, 0) == 0 && m[0..] == m && |m| <= limit;
    }
    var k :| 0 <= k < |m| && m[k] == id;
    assert Listing(t, limit, nodeType, nameContains, 0) == Summaries(t, m);
    SummariesMeaning(t, m);
  }

  /** The ancestors of `id` as the loop of getAncestors would collect them,
      nearest first, stopping at an identifier it has already seen. */
  function Ancestors(parents: map<string, Option<string>>, id: string): seq<string>
  {
    if id == "" then [] else Walkup(parents, id, {id})
  }

  function Walkup(parents: map<string, Option<string>>, cur: string, seen: set<string>): seq<string>
    decreases |parents.Keys - seen|
  {
    var p := ParentEntry(parents, cur);
    if p.None? || p.value == "" || p.value in seen then []
    else if p.value !in parents then [p.value]
    else
      var left := parents.Keys - seen;
      assert parents.Keys - (seen + {p.value}) == left - {p.value};
      assert left * {p.value} == {p.value};
      [p.value] + Walkup(parents, p.value, seen + {p.value})
  }

  /** The guarded walk never repeats an identifier and never returns to one
      it has seen, the node it started from included: whatever the parents
      recorded, getAncestors ends with no node listed as its own ancestor. */
  lemma AncestorsNeverRepeat(parents: map<string, Option<string>>, id: string)
    ensures Distinct(Ancestors(parents, id)) && id !in Ancestors(parents, id)
  {
    if id != "" {
      WalkupFresh(parents, id, {id});
    }
  }

  lemma {:induction false} WalkupFresh(parents: map<string, Option<string>>, cur: string, seen: set<string>)
    ensures Distinct(Walkup(parents, cur, seen)) && forall x | x in Walkup(parents, cur, seen) :: x !in seen
    decreases |parents.Keys - seen|
  {
    var p := ParentEntry(parents, cur);
    if p.Some? && p.value != "" && p.value !in seen && p.value in parents {
      MeasureStep(parents.Keys, seen, p.value);
      WalkupFresh(parents, p.value, seen + {p.value});
    }
  }

  /** When the parents of `id` end, the guarded walk finds exactly them. */
  lemma {:induction false} WalkupFindsChain(parents: map<string, Option<string>>, cur: string, seen: set<string>, fuel: nat)
    requires cur != "" && Chain(parents, cur, fuel).Some?
    requires forall x | x in Chain(parents, cur, fuel).value :: x !in seen
    ensures Walkup(parents, cur, seen) == Chain(parents, cur, fuel).value
    decreases fuel
  {
    var p := ParentEntry(parents, cur);
    if p.Some? && p.value != "" {
      var rest := Chain(parents, p.value, fuel - 1).value;
      assert Chain(parents, cur, fuel).value == [p.value] + rest;
      if p.value in parents {
        AncestorsDistinct(parents, p.value, fuel - 1);
        WalkupFindsChain(parents, p.value, seen + {p.value}, fuel - 1);
      } else {
        assert rest == [];
      }
    }
  }

  /** The guarded walk agrees with getAncestors as written whenever the
      latter ends. */
  lemma AncestorsAgree(parents: map<string, Option<string>>, id: string, fuel: nat)
    requires Chain(parents, id, fuel).Some?
    ensures Ancestors(parents, id) == Chain(parents, id, fuel).value
  {
    if id != "" {
      AncestorsDistinct(parents, id, fuel);
      WalkupFindsChain(parents, id, {id}, fuel);
    }
  }

  // ------------------------------------------- reused identifiers

  /** A page "p" holding a group "x", whose child "y" holds another "x". */
  function ReusedIdConfig(): Config
  {
    var inner := Blank("rectangle").(id := Some("x"));
    var middle := Blank("group").(id := Some("y"), layers := LayerList([inner]));
    var outer := Blank("group").(id := Some("x"), layers := LayerList([middle]));
    var page := Blank("page").(id := Some("p"), layers := LayerList([outer]));
    Config(Some(Document(Some([page]))), None)
  }

  /** Indexing that document records "x" under "y" and "y" under "x". */
  lemma ReusedIdParents()
    ensures var parents := IndexOf(Some(ReusedIdConfig())).0.parents;
      "x" in parents && "y" in parents && parents["x"] == Some("y") && parents["y"] == Some("x")
  {
    var config := ReusedIdConfig();
    var page := config.document.value.pages.value[0];
    var outer := Kids(page)[0];
    var middle := Kids(outer)[0];
    var inner := Kids(middle)[0];
    var t0 := Record(EmptyTables(), "p", page, None);
    var t1 := Record(t0, "x", outer, Some("p"));
    var t2 := Record(t1, "y", middle, Some("x"));
    var t3 := Record(t2, "x", inner, Some("y"));
    assert Walk(t2, inner, Some("y")) == t3;
    assert WalkAll(t2, [inner], Some("y")) == t3 by { assert [inner][..0] == []; }
    assert WalkAll(t1, [middle], Some("x")) == t3 by { assert [middle][..0] == []; }
    assert WalkAll(t0, [outer], Some("p")) == t3 by { assert [outer][..0] == []; }
    assert PagesFrom(EmptyTables(), [page]) == t3 by { assert [page][..0] == []; }
  }

  /** On those parents getAncestors as written never ends, whatever the
      number of steps it is given. */
  lemma {:induction false} ReusedIdChainNeverEnds(parents: map<string, Option<string>>, fuel: nat)
    requires "x" in parents && "y" in parents && parents["x"] == Some("y") && parents["y"] == Some("x")
    ensures Chain(parents, "x", fuel).None? && Chain(parents, "y", fuel).None?
  {
    if fuel > 0 {
      ReusedIdChainNeverEnds(parents, fuel - 1);
    }
  }

  /** The guarded walk lists "y" once and stops. */
  lemma ReusedIdAncestors(parents: map<string, Option<string>>)
    requires "x" in parents && "y" in parents && parents["x"] == Some("y") && parents["y"] == Some("x")
    ensures Ancestors(parents, "x") == ["y"]
  {
    assert ParentEntry(parents, "x") == Some("y");
    assert {"x"} + {"y"} == {"x", "y"};
    assert Walkup(parents, "y", {"x", "y"}) == [];
    assert Walkup(parents, "x", {"x"}) == ["y"] + Walkup(parents, "y", {"x"} + {"y"});
  }

  // ------------------------------------------------------ the indexer

  /** The identifiers listed under `name`. */
  function NamedIds(t: Tables, name: string): seq<string>
  {
    if name in t.names then t.names[name] else []
  }

  /** findNodesByName: the summaries of those of `ids` that are indexed. */
  function ByName(t: Tables, ids: seq<string>): seq<NodeSummary>
  {
    if ids == [] then []
    else
      var last := ids[|ids| - 1];
      ByName(t, ids[..|ids| - 1]) + (if last in t.nodes then [Summary(t, last)] else [])
  }

  /** The lookup reports exactly the indexed ones among `ids`. */
  lemma {:induction false} ByNameMeaning(t: Tables, ids: seq<string>)
    ensures forall s | s in ByName(t, ids) :: s.id in ids && s.id in t.nodes && s == Summary(t, s.id)
    ensures forall id | id in ids && id in t.nodes :: Summary(t, id) in ByName(t, ids)
  {
    if ids != [] {
      ByNameMeaning(t, ids[..|ids| - 1]);
      assert ids == ids[..|ids| - 1] + [ids[|ids| - 1]];
    }
  }

  /** In a well-formed index, looking a name up finds every indexed node
      carrying that name, and only indexed nodes. */
  lemma FindsEveryNamed(t: Tables, name: string, id: string)
    requires WellFormed(t) && id in t.nodes && name != "" && NameOf(t.nodes[id]) == name
    ensures Summary(t, id) in ByName(t, NamedIds(t, name))
  {
    ByNameMeaning(t, NamedIds(t, name));
  }

  class NodeIndexer {
    var idToNode: map<string, Node>
    var idToParentId: map<string, Option<string>>
    var nameToIds: map<string, seq<string>>
    var order: seq<string>

    function State(): Tables
      reads this
    {
      Tables(idToNode, idToParentId, nameToIds, order)
    }

    ghost predicate Valid()
      reads this
    {
      WellFormed(State())
    }

    constructor()
      ensures State() == EmptyTables() && Valid()
    {
      idToNode, idToParentId, nameToIds, order := map[], map[], map[], [];
    }

    method Clear()
      modifies this
      ensures State() == EmptyTables() && Valid()
    {
      idToNode, idToParentId, nameToIds, order := map[], map[], map[], [];
    }

    /** indexConfig: rebuilds the index from scratch and reports the number
        of pages and of layers walked. */
    method IndexConfig(config: Option<Config>) returns (pages: nat, layers: nat)
      modifies this
      ensures (State(), pages, layers) == IndexOf(config)
      ensures Valid()
    {
      Clear();
      IndexWellFormed(config);
      var found := PagesOf(config);
      if found.None? {
        return 0, 0;
      }
      var list := found.value;
      layers := 0;
      for i := 0 to |list|
        invariant State() == PagesFrom(EmptyTables(), list[..i])
        invariant layers == LayerCount(list[..i])
      {
        var page := list[i];
        var pageId := IdOf(page);
        if pageId.Some? {
          IndexNode(pageId.value, page, None);
        }
        PageStepOf(list, i);
        match page.layers {
          case LayerList(ls) =>
            var n := WalkLayers(ls, pageId);
            layers := layers + n;
          case NoLayers =>
        }
      }
      assert list[..|list|] == list;
      pages := |list|;
    }

    /** walkAndIndex: indexes a subtree under `parentId` and returns the
        number of nodes in it. */
    method WalkAndIndex(node: Node, parentId: Option<string>) returns (count: nat)
      modifies this
      ensures State() == Walk(old(State()), node, parentId)
      ensures count == Size(node)
      decreases node
    {
      var nodeId := IdOf(node);
      if nodeId.Some? {
        IndexNode(nodeId.value, node, parentId);
      }
      count := 1;
      SizeIsKids(node);
      match node.layers {
        case LayerList(ls) =>
          var n := WalkLayers(ls, nodeId);
          count := count + n;
        case NoLayers =>
      }
    }

    /** The loop over a node's layers: each walked in turn under `parentId`;
        returns the number of nodes walked. */
    method WalkLayers(ls: seq<Node>, parentId: Option<string>) returns (count: nat)
      modifies this
      ensures State() == WalkAll(old(State()), ls, parentId)
      ensures count == Count(ls)
      decreases ls, 0
    {
      ghost var t0 := State();
      count := 0;
      for i := 0 to |ls|
        invariant State() == WalkAll(t0, ls[..i], parentId)
        invariant count == Count(ls[..i])
      {
        var n := WalkAndIndex(ls[i], parentId);
        WalkAllStep(t0, ls, i, parentId);
        CountSnoc(ls, i);
        count := count + n;
      }
      assert ls[..|ls|] == ls;
    }

    /** indexNode. */
    method IndexNode(id: string, node: Node, parentId: Option<string>)
      modifies this
      ensures State() == Record(old(State()), id, node, parentId)
    {
      var name := NameOf(node);
      if id !in idToNode {
        order := order + [id];
      }
      idToNode := idToNode[id := node];
      idToParentId := idToParentId[id := parentId];
      if name != "" {
        var ids := if name in nameToIds then nameToIds[name] else [];
        if id !in ids {
          ids := ids + [id];
        }
        nameToIds := nameToIds[name := ids];
      }
    }

    /** countLayers: the number of nodes in the subtree. */
    method CountLayers(node: Node) returns (count: nat)
      ensures count == Size(node)
      decreases node
    {
      count := 1;
      SizeIsKids(node);
      match node.layers {
        case LayerList(ls) =>
          for i := 0 to |ls|
            invariant count == 1 + Count(ls[..i])
          {
            var n := CountLayers(ls[i]);
            CountSnoc(ls, i);
            count := count + n;
          }
          assert ls[..|ls|] == ls;
        case NoLayers =>
      }
    }

    /** getNode. */
    function GetNode(nodeId: string): (r: Option<Node>)
      reads this
      ensures r.Some? <==> nodeId in idToNode
      ensures r.Some? ==> r.value == idToNode[nodeId]
    {
      if nodeId in idToNode then Some(idToNode[nodeId]) else None
    }

    /** getParentId: an absent, missing or empty parent all read as none. */
    function GetParentId(nodeId: string): (r: Option<string>)
      reads this
      ensures r.Some? <==> nodeId in idToParentId && idToParentId[nodeId].Some? && idToParentId[nodeId].value != ""
      ensures r.Some? ==> r == idToParentId[nodeId]
    {
      var p := ParentEntry(idToParentId, nodeId);
      if p.Some? && p.value != "" then p else None
    }

    /** findNodesByName. */
    method FindNodesByName(name: string) returns (r: seq<NodeSummary>)
      ensures r == ByName(State(), NamedIds(State(), name))
    {
      var t := State();
      var ids := NamedIds(t, name);
      r := [];
      for i := 0 to |ids|
        invariant r == ByName(t, ids[..i])
      {
        assert ids[..i + 1][..i] == ids[..i];
        if ids[i] in t.nodes {
          r := r + [Summary(t, ids[i])];
        }
      }
      assert ids[..|ids|] == ids;
    }

    /** getAncestors, with the loop stopped at the first identifier it has
        already met: the ancestors farthest first. */
    method GetAncestors(nodeId: string) returns (r: seq<string>)
      ensures r == Reverse(Ancestors(idToParentId, nodeId))
    {
      r := [];
      if nodeId == "" {
        return;
      }
      var parents := idToParentId;
      var current := nodeId;
      var seen := {nodeId};
      ghost var done: seq<string> := [];
      while true
        invariant current in seen
        invariant Ancestors(parents, nodeId) == done + Walkup(parents, current, seen)
        invariant r == Reverse(done)
        decreases 2 * |parents.Keys - seen| + (if current in parents then 1 else 0)
      {
        var p := ParentEntry(parents, current);
        if p.None? || p.value == "" || p.value in seen {
          WalkupStops(parents, current, seen);
          assert done + [] == done;
          break;
        }
        AncestorsLoopStep(parents, nodeId, current, seen, done, r);
        r := [p.value] + r;
        done := done + [p.value];
        current := p.value;
        seen := seen + {p.value};
      }
    }

    /** listNodes: the filtered identifiers in insertion order, after
        `offset` matches are skipped, at most `limit` of them. */
    method ListNodes(limit: int, nodeType: string, nameContains: string, offset: int) returns (r: seq<NodeSummary>)
      requires forall id | id in order :: id in idToNode
      ensures r == Listing(State(), limit, nodeType, nameContains, offset)
    {
      var t := State();
      var ids := order;
      r := [];
      var count := 0;
      var skipped := 0;
      var i := 0;
      while i < |ids|
        invariant 0 <= i <= |ids|
        invariant skipped == Skipped(Matching(t, ids[..i], nodeType, nameContains), offset)
        invariant r == Summaries(t, Window(Matching(t, ids[..i], nodeType, nameContains), offset, limit))
        invariant count == |r|
      {
        var id := ids[i];
        ghost var m := Matching(t, ids[..i], nodeType, nameContains);
        ghost var m1 := Matching(t, ids[..i + 1], nodeType, nameContains);
        ListLoopStep(t, ids, i, nodeType, nameContains, offset, limit);
        if !Matches(t.nodes[id], nodeType, nameContains) {
          assert m1 == m;
          i := i + 1;
          continue;
        }
        if skipped < offset {
          assert Window(m1, offset, limit) == Window(m, offset, limit);
          skipped := skipped + 1;
          i := i + 1;
          continue;
        }
        if count >= limit {
          assert r == Summaries(t, Window(Matching(t, t.order, nodeType, nameContains), offset, limit));
          break;
        }
        assert Summaries(t, Window(m1, offset, limit)) == r + [Summary(t, id)];
        r := r + [Summary(t, id)];
        count := count + 1;
        i := i + 1;
      }
      assert ids[..|ids|] == ids;
    }

    /** getStats. */
    function GetStats(): (r: (nat, nat))
      reads this
      ensures r.0 == |idToNode| && r.1 == |nameToIds|
      ensures Valid() ==> r.0 == |order| && (r.0 == 0 <==> idToNode == map[])
    {
      StatsCountIds(State());
      (|idToNode|, |nameToIds|)
    }
  }

  /** A list without repeats has as many distinct elements as entries. */
  lemma {:induction false} DistinctSize(s: seq<string>)
    requires Distinct(s)
    ensures |set x | x in s| == |s|
  {
    if s != [] {
      var init := s[..|s| - 1];
      assert Distinct(init) by {
        forall i, j | 0 <= i < j < |init| ensures init[i] != init[j] {
          assert init[i] == s[i] && init[j] == s[j];
        }
      }
      DistinctSize(init);
      assert s[|s| - 1] !in init by {
        forall i | 0 <= i < |init| ensures init[i] != s[|s| - 1] {
          assert init[i] == s[i];
        }
      }
      assert (set x | x in s) == (set x | x in init) + {s[|s| - 1]} by {
        assert s == init + [s[|s| - 1]];
      }
    }
  }

  /** getStats' node total counts each indexed identifier once: a
      well-formed index has one node per entry of its insertion order. */
  lemma StatsCountIds(t: Tables)
    ensures WellFormed(t) ==> |t.nodes| == |t.order|
  {
    if WellFormed(t) {
      DistinctSize(t.order);
      assert t.nodes.Keys == set id | id in t.order;
    }
  }

  /** One step of the guarded walk: the parent joins and the measure drops. */
  lemma AncestorStep(parents: map<string, Option<string>>, current: string, seen: set<string>)
    requires ParentEntry(parents, current).Some?
    requires ParentEntry(parents, current).value != "" && ParentEntry(parents, current).value !in seen
    ensures var p := ParentEntry(parents, current).value;
      && Walkup(parents, current, seen) == [p] + Walkup(parents, p, seen + {p})
      && 2 * |parents.Keys - (seen + {p})| + (if p in parents then 1 else 0)
         < 2 * |parents.Keys - seen| + (if current in parents then 1 else 0)
  {
    var p := ParentEntry(parents, current).value;
    assert current in parents;
    MeasureStep(parents.Keys, seen, p);
    if p !in parents {
      assert ParentEntry(parents, p).None?;
      assert Walkup(parents, p, seen + {p}) == [];
    }
  }

  /** The guarded walk ends where the parent is missing, empty or already met. */
  lemma WalkupStops(parents: map<string, Option<string>>, current: string, seen: set<string>)
    requires var p := ParentEntry(parents, current); p.None? || p.value == "" || p.value in seen
    ensures Walkup(parents, current, seen) == []
  {
  }

  /** One turn of the loop of getAncestors keeps its invariants and lowers its measure. */
  lemma AncestorsLoopStep(parents: map<string, Option<string>>, nodeId: string, current: string,
                          seen: set<string>, done: seq<string>, r: seq<string>)
    requires Ancestors(parents, nodeId) == done + Walkup(parents, current, seen)
    requires r == Reverse(done)
    requires ParentEntry(parents, current).Some?
    requires ParentEntry(parents, current).value != "" && ParentEntry(parents, current).value !in seen
    ensures var p := ParentEntry(parents, current).value;
      && Ancestors(parents, nodeId) == (done + [p]) + Walkup(parents, p, seen + {p})
      && [p] + r == Reverse(done + [p])
      && 2 * |parents.Keys - (seen + {p})| + (if p in parents then 1 else 0)
         < 2 * |parents.Keys - seen| + (if current in parents then 1 else 0)
  {
    var p := ParentEntry(parents, current).value;
    AncestorStep(parents, current, seen);
    ReverseSnoc(done, p);
    Regroup(done, p, Walkup(parents, p, seen + {p}));
  }

  lemma MeasureStep(keys: set<string>, seen: set<string>, p: string)
    requires p !in seen
    ensures p in keys ==> |keys - (seen + {p})| == |keys - seen| - 1
    ensures p !in keys ==> |keys - (seen + {p})| == |keys - seen|
  {
    var left := keys - seen;
    if p in keys {
      assert keys - (seen + {p}) == left - {p};
      assert left * {p} == {p};
    } else {
      assert keys - (seen + {p}) == left;
    }
  }

  lemma Regroup<T>(a: seq<T>, x: T, b: seq<T>)
    ensures a + ([x] + b) == (a + [x]) + b
  {
  }

  lemma SummariesSnoc(t: Tables, ids: seq<string>, id: string)
    requires id in t.nodes && forall x | x in ids :: x in t.nodes
    ensures Summaries(t, ids + [id]) == Summaries(t, ids) + [Summary(t, id)]
  {
    assert (ids + [id])[..|ids|] == ids;
  }

  lemma {:induction false} ReverseSnoc<T>(s: seq<T>, x: T)
    ensures Reverse(s + [x]) == [x] + Reverse(s)
  {
    if s != [] {
      assert (s + [x])[1..] == s[1..] + [x];
      ReverseSnoc(s[1..], x);
    }
  }

  /** Reversal reads the sequence from its end. */
  lemma {:induction false} ReverseAt<T>(s: seq<T>)
    ensures forall i | 0 <= i < |s| :: Reverse(s)[i] == s[|s| - 1 - i]
  {
    if s != [] {
      ReverseAt(s[1..]);
    }
  }

  /** indexConfig's outer loop: one more page is indexed after the earlier ones. */
  lemma PageStepOf(pages: seq<Node>, i: nat)
    requires i < |pages|
    ensures PagesFrom(EmptyTables(), pages[..i + 1]) == PageStep(PagesFrom(EmptyTables(), pages[..i]), pages[i])
    ensures LayerCount(pages[..i + 1]) == LayerCount(pages[..i]) + Count(Kids(pages[i]))
  {
    assert pages[..i + 1][..i] == pages[..i];
  }

  /** The walk over one more layer walks it after the earlier ones. */
  lemma WalkAllStep(t: Tables, ls: seq<Node>, k: nat, parent: Option<string>)
    requires k < |ls|
    ensures WalkAll(t, ls[..k + 1], parent) == Walk(WalkAll(t, ls[..k], parent), ls[k], parent)
  {
    assert ls[..k + 1][..k] == ls[..k];
  }

  /** One identifier of the listNodes walk: what the matches, the skip count
      and the window become. */
  lemma ListLoopStep(t: Tables, ids: seq<string>, i: nat, nodeType: string, nameContains: string, offset: int, limit: int)
    requires i < |ids| && forall id | id in ids :: id in t.nodes
    ensures ids[i] in t.nodes
    ensures var m := Matching(t, ids[..i], nodeType, nameContains);
      var m1 := Matching(t, ids[..i + 1], nodeType, nameContains);
      var w := Window(m, offset, limit);
      && |Summaries(t, w)| == |w|
      && (!Matches(t.nodes[ids[i]], nodeType, nameContains) ==> m1 == m)
      && (Matches(t.nodes[ids[i]], nodeType, nameContains) ==>
            && Skipped(m1, offset) == (if Skipped(m, offset) < offset then Skipped(m, offset) + 1 else Skipped(m, offset))
            && (Skipped(m, offset) < offset ==> Window(m1, offset, limit) == w)
            && (Skipped(m, offset) >= offset && |w| < limit ==>
                  Summaries(t, Window(m1, offset, limit)) == Summaries(t, w) + [Summary(t, ids[i])])
            && (Skipped(m, offset) >= offset && |w| >= limit ==>
                  Window(Matching(t, ids, nodeType, nameContains), offset, limit) == w))
  {
    var id := ids[i];
    var m := Matching(t, ids[..i], nodeType, nameContains);
    var w := Window(m, offset, limit);
    ListStep(t, ids, i, nodeType, nameContains);
    SummariesMeaning(t, w);
    if Matches(t.nodes[id], nodeType, nameContains) {
      SkipStep(m, id, offset);
      if Skipped(m, offset) < offset {
        WindowSkipping(m, id, offset, limit);
      } else if |w| < limit {
        WindowGrows(m, id, offset, limit);
        SummariesSnoc(t, w, id);
      } else {
        MatchingSplit(t, ids, i, nodeType, nameContains);
        WindowFull(m, Matching(t, ids[i..], nodeType, nameContains), offset, limit);
      }
    }
  }

  lemma ListStep(t: Tables, ids: seq<string>, i: nat, nodeType: string, nameContains: string)
    requires i < |ids| && forall id | id in ids :: id in t.nodes
    ensures ids[i] in t.nodes
    ensures Matching(t, ids[..i + 1], nodeType, nameContains)
      == Matching(t, ids[..i], nodeType, nameContains)
         + (if Matches(t.nodes[ids[i]], nodeType, nameContains) then [ids[i]] else [])
  {
    assert ids[..i + 1][..i] == ids[..i];
  }

  lemma MatchingSplit(t: Tables, ids: seq<string>, i: nat, nodeType: string, nameContains: string)
    requires i <= |ids| && forall id | id in ids :: id in t.nodes
    ensures Matching(t, ids, nodeType, nameContains)
      == Matching(t, ids[..i], nodeType, nameContains) + Matching(t, ids[i..], nodeType, nameContains)
  {
    MatchingAppend(t, ids[..i], ids[i..], nodeType, nameContains);
    assert ids == ids[..i] + ids[i..];
  }

  lemma {:induction false} MatchingAppend(t: Tables, a: seq<string>, b: seq<string>, nodeType: string, nameContains: string)
    requires forall id | id in a + b :: id in t.nodes
    ensures Matching(t, a + b, nodeType, nameContains)
      == Matching(t, a, nodeType, nameContains) + Matching(t, b, nodeType, nameContains)
    decreases |b|
  {
    if b == [] {
      assert a + b == a;
    } else {
      assert (a + b)[..|a + b| - 1] == a + b[..|b| - 1];
      MatchingAppend(t, a, b[..|b| - 1], nodeType, nameContains);
    }
  }

  lemma SkipStep<T>(m: seq<T>, x: T, offset: int)
    ensures Skipped(m + [x], offset) == if Skipped(m, offset) < offset then Skipped(m, offset) + 1 else Skipped(m, offset)
  {
  }

  /** While entries are still being skipped, the window stays empty. */
  lemma WindowSkipping<T>(a: seq<T>, x: T, offset: int, limit: int)
    requires Skipped(a, offset) < offset
    ensures Window(a + [x], offset, limit) == Window(a, offset, limit) == []
  {
  }

  /** A window that is already full does not change when more entries follow. */
  lemma WindowFull<T>(a: seq<T>, b: seq<T>, offset: int, limit: int)
    requires |Window(a, offset, limit)| >= limit
    ensures Window(a + b, offset, limit) == Window(a, offset, limit)
  {
  }

  /** One more entry past the skipped ones joins a window that is not full. */
  lemma WindowGrows<T>(a: seq<T>, x: T, offset: int, limit: int)
    requires Skipped(a, offset) >= offset && |Window(a, offset, limit)| < limit
    ensures Window(a + [x], offset, limit) == Window(a, offset, limit) + [x]
  {
  }
}
