/** The nodes summary tool: the nodes of a page, or of every page, grouped
    by type, style signature, position bucket or size bucket, counted, and
    sampled, with statistics over the groups. */
module NodesSummary {
  import opened Wrappers
  import opened Js
  import opened Sketch
  import opened Indexer
  import opened Tallies
  import opened DocumentStructure
  import opened Analyzer

  // ------------------------------------------------------------ group keys

  /** `list?.length || 0`. */
  function LengthOr(list: Option<seq<Paint>>): nat
  {
    if list.Some? then |list.value| else 0
  }

  /** getStyleSignature: 'no-style' without a style, otherwise the numbers of
      fills, borders and shadows. */
  function StyleSignature(n: Node): (r: string)
    ensures r == "no-style" <==> n.style.None?
  {
    match n.style
    case None => "no-style"
    case Some(s) =>
      var r := "fills:" + Decimal(LengthOr(s.fills)) + "-borders:" + Decimal(LengthOr(s.borders))
               + "-shadows:" + Decimal(LengthOr(s.shadows));
      assert r[0] == 'f';
      r
  }

  /** `Math.floor(v / 100) * 100`: the multiple of 100 at or below `v`. */
  function Bucket(v: real): (b: int)
    ensures b % 100 == 0
    ensures b as real <= v < b as real + 100.0
  {
    var f := (v / 100.0).Floor;
    assert f as real <= v / 100.0 < f as real + 1.0;
    f * 100
  }

  /** getPositionGroup: 'no-position' without a frame, otherwise the buckets
      of x and y (0 when falsy). */
  function PositionGroup(n: Node): (r: string)
    ensures r == "no-position" <==> n.frame.None?
  {
    match n.frame
    case None => "no-position"
    case Some(f) =>
      var r := "x:" + Decimal(Bucket(NumOr(f.x, 0.0))) + "-y:" + Decimal(Bucket(NumOr(f.y, 0.0)));
      assert r[0] == 'x';
      r
  }

  /** The size buckets of getSizeGroup, by width and height. */
  function SizeClass(width: real, height: real): string
  {
    if width < 50.0 && height < 50.0 then "small"
    else if width < 200.0 && height < 200.0 then "medium"
    else if width < 500.0 && height < 500.0 then "large"
    else "xlarge"
  }

  /** getSizeGroup: 'no-size' without a frame, otherwise the size bucket of
      the width and height (0 when falsy). */
  function SizeGroup(n: Node): (r: string)
    ensures r == "no-size" <==> n.frame.None?
  {
    match n.frame
    case None => "no-size"
    case Some(f) => SizeClass(NumOr(f.width, 0.0), NumOr(f.height, 0.0))
  }

  /** The rank of a size bucket, smallest first. */
  function SizeRank(bucket: string): nat
  {
    if bucket == "small" then 0 else if bucket == "medium" then 1 else if bucket == "large" then 2 else 3
  }

  /** A node is small exactly when both sides are under 50, medium when not
      small and both under 200, large when neither and both under 500, and
      extra large when a side reaches 500; growing a node never moves it to
      a smaller bucket. */
  lemma SizeClassMeaning(w: real, h: real, w2: real, h2: real)
    ensures SizeClass(w, h) == "small" <==> w < 50.0 && h < 50.0
    ensures SizeClass(w, h) == "medium" <==> !(w < 50.0 && h < 50.0) && w < 200.0 && h < 200.0
    ensures SizeClass(w, h) == "large" <==> !(w < 200.0 && h < 200.0) && w < 500.0 && h < 500.0
    ensures SizeClass(w, h) == "xlarge" <==> w >= 500.0 || h >= 500.0
    ensures w <= w2 && h <= h2 ==> SizeRank(SizeClass(w, h)) <= SizeRank(SizeClass(w2, h2))
  {
  }

  /** getGroupKey: the type for 'type' and for any grouping it does not know. */
  function GroupKey(n: Node, groupBy: string): (r: string)
    ensures groupBy !in {"style", "position", "size"} ==> r == NodeType(n)
  {
    if groupBy == "style" then StyleSignature(n)
    else if groupBy == "position" then PositionGroup(n)
    else if groupBy == "size" then SizeGroup(n)
    else NodeType(n)
  }

  // ------------------------------------------------------------ page groups

  /** The groups of a page: the nodes counted, a tally of their keys in
      order of first appearance, and each group's samples (each group's
      `sampleIds` are the identifiers of its samples). */
  datatype PageGroups = PageGroups(totalNodes: nat, counts: Tally, samples: map<string, seq<Sample>>)

  function NoGroups(): PageGroups
  {
    PageGroups(0, EmptyTally(), map[])
  }

  function SamplesAt(m: map<string, seq<Sample>>, k: string): seq<Sample>
  {
    if k in m then m[k] else []
  }

  /** processNode on one node: count it, count it in its group, and keep it
      as a sample of the group while the group has fewer than `maxSamples`. */
  function GroupStep(groupBy: string, maxSamples: int): (PageGroups, Node) -> PageGroups
  {
    (g: PageGroups, n: Node) =>
      var k := GroupKey(n, groupBy);
      var current := SamplesAt(g.samples, k);
      PageGroups(g.totalNodes + 1, Add(g.counts, k, 1),
                 g.samples[k := if |current| < maxSamples then current + [SampleOf(n)] else current])
  }

  function KeysOf(ns: seq<Node>, groupBy: string): (r: seq<string>)
    ensures |r| == |ns| && forall i | 0 <= i < |ns| :: r[i] == GroupKey(ns[i], groupBy)
  {
    seq(|ns|, i requires 0 <= i < |ns| => GroupKey(ns[i], groupBy))
  }

  /** The nodes of group `k`, in order. */
  function WithKey(ns: seq<Node>, groupBy: string, k: string): seq<Node>
  {
    if ns == [] then []
    else WithKey(ns[..|ns| - 1], groupBy, k) + (if GroupKey(ns[|ns| - 1], groupBy) == k then [ns[|ns| - 1]] else [])
  }

  /** Grouping a run of nodes counts them all, tallies their keys, and keeps
      as each group's samples its first `maxSamples` nodes. */
  lemma {:induction false} GroupsMeaning(ns: seq<Node>, groupBy: string, maxSamples: int)
    ensures var g := Fold(NoGroups(), ns, GroupStep(groupBy, maxSamples));
      && g.totalNodes == |ns|
      && g.counts == TallyOf(KeysOf(ns, groupBy))
      && forall k :: SamplesAt(g.samples, k) == SamplesOf(WithKey(ns, groupBy, k)[..Cap(|WithKey(ns, groupBy, k)|, maxSamples)])
  {
    if ns != [] {
      var init, last := ns[..|ns| - 1], ns[|ns| - 1];
      GroupsMeaning(init, groupBy, maxSamples);
      assert KeysOf(ns, groupBy)[..|ns| - 1] == KeysOf(init, groupBy);
      var g := Fold(NoGroups(), ns, GroupStep(groupBy, maxSamples));
      forall k ensures SamplesAt(g.samples, k) == SamplesOf(WithKey(ns, groupBy, k)[..Cap(|WithKey(ns, groupBy, k)|, maxSamples)]) {
        GroupSamplesStep(init, last, groupBy, maxSamples, k);
      }
    }
  }

  lemma GroupSamplesStep(init: seq<Node>, last: Node, groupBy: string, maxSamples: int, k: string)
    requires var g0 := Fold(NoGroups(), init, GroupStep(groupBy, maxSamples));
      SamplesAt(g0.samples, k) == SamplesOf(WithKey(init, groupBy, k)[..Cap(|WithKey(init, groupBy, k)|, maxSamples)])
    ensures var ns := init + [last];
      var g := Fold(NoGroups(), ns, GroupStep(groupBy, maxSamples));
      SamplesAt(g.samples, k) == SamplesOf(WithKey(ns, groupBy, k)[..Cap(|WithKey(ns, groupBy, k)|, maxSamples)])
  {
    var ns := init + [last];
    GroupFoldSamples(init, last, groupBy, maxSamples, k);
    assert ns[..|ns| - 1] == init && ns[|ns| - 1] == last;
    var w0 := WithKey(init, groupBy, k);
    if GroupKey(last, groupBy) == k {
      assert WithKey(ns, groupBy, k) == w0 + [last];
      CappedSnoc(w0, last, maxSamples);
    } else {
      assert WithKey(ns, groupBy, k) == w0;
    }
  }

  /** One more node changes only its own group's samples, and only while
      that group has room. */
  lemma GroupFoldSamples(init: seq<Node>, last: Node, groupBy: string, maxSamples: int, k: string)
    ensures var s0 := SamplesAt(Fold(NoGroups(), init, GroupStep(groupBy, maxSamples)).samples, k);
      SamplesAt(Fold(NoGroups(), init + [last], GroupStep(groupBy, maxSamples)).samples, k)
      == if GroupKey(last, groupBy) == k && |s0| < maxSamples then s0 + [SampleOf(last)] else s0
  {
    var ns := init + [last];
    assert ns[..|ns| - 1] == init && ns[|ns| - 1] == last;
  }

  /** The first `maxSamples` of a group grow by its next node while there is room. */
  lemma CappedSnoc(w0: seq<Node>, last: Node, maxSamples: int)
    ensures var s0 := SamplesOf(w0[..Cap(|w0|, maxSamples)]);
      var w := w0 + [last];
      SamplesOf(w[..Cap(|w|, maxSamples)]) == if |s0| < maxSamples then s0 + [SampleOf(last)] else s0
  {
    var w := w0 + [last];
    if |w0| < maxSamples {
      assert w0[..|w0|] == w0 && w[..|w|] == w;
      assert SamplesOf(w0) + [SampleOf(last)] == SamplesOf(w);
    } else {
      assert w[..Cap(|w|, maxSamples)] == w0[..Cap(|w0|, maxSamples)];
    }
  }

  /** A page's groups: their counts form a well-formed tally whose total is
      the number of nodes, each count is how many nodes carry the key, and
      each group keeps at most `maxSamples` samples. */
  lemma GroupCounts(ns: seq<Node>, groupBy: string, maxSamples: int)
    ensures var g := Fold(NoGroups(), ns, GroupStep(groupBy, maxSamples));
      && Valid(g.counts)
      && Total(g.counts) == g.totalNodes
      && (forall k :: CountOf(g.counts, k) == Occurrences(KeysOf(ns, groupBy), k))
      && (forall k :: |SamplesAt(g.samples, k)| <= Bound(maxSamples))
  {
    GroupsMeaning(ns, groupBy, maxSamples);
    TallyOfMeaning(KeysOf(ns, groupBy));
  }

  /** The most samples a group keeps. */
  function Bound(maxSamples: int): nat
  {
    if maxSamples < 0 then 0 else maxSamples
  }

  // ------------------------------------------------------------ statistics

  /** generateStatistics, less the percentages: the number of groups, the
      largest group and the five largest. */
  datatype Statistics = Statistics(totalGroups: nat, largestGroup: Option<(string, nat)>, distribution: seq<(string, nat)>)

  function StatisticsOf(counts: Tally): Statistics
  {
    var sorted := SortByCount(Entries(counts));
    Statistics(|counts.keys|, if sorted == [] then None else Some(sorted[0]), TopGroups(counts, 5))
  }

  /** There is a largest group exactly when there is a group, and no group
      is larger; the distribution is the five largest groups, largest first. */
  lemma StatisticsMeaning(counts: Tally)
    ensures var s := StatisticsOf(counts);
      && (s.largestGroup.Some? <==> counts.keys != [])
      && (s.largestGroup.Some? ==>
            s.largestGroup.value in Entries(counts)
            && forall e | e in Entries(counts) :: e.1 <= s.largestGroup.value.1)
      && |s.distribution| == (if |counts.keys| < 5 then |counts.keys| else 5)
      && NonIncreasing(s.distribution)
      && (forall e | e in s.distribution :: e in Entries(counts))
  {
    SortedEntries(counts);
    TopGroupsMeaning(counts, 5);
    var sorted := SortByCount(Entries(counts));
    if sorted != [] {
      forall e | e in Entries(counts) ensures e.1 <= sorted[0].1 {
        assert e in multiset(Entries(counts));
        assert e in multiset(sorted);
        var j :| 0 <= j < |sorted| && sorted[j] == e;
      }
    }
  }

  // ------------------------------------------------------------ results

  /** One page of the document summary. */
  datatype PageSlice = PageSlice(pageId: Option<string>, pageName: string, nodeCount: nat, topGroups: seq<(string, nat)>)

  /** The groups of the whole document: counts, deduplicated samples, and
      the pages each group was seen on. */
  datatype DocGroups = DocGroups(counts: Tally, samples: map<string, seq<Sample>>, pages: map<string, seq<Option<string>>>)

  datatype NodesSummaryResult =
    | PageNotFound
    | PageNodes(pageId: Option<string>, pageName: string, groups: PageGroups, statistics: Option<Statistics>)
    | DocumentNodes(totalPages: nat, totalNodes: nat, docGroups: DocGroups, pages: seq<PageSlice>, statistics: Option<Statistics>)

  /** getPageNodesSummary: 'Page not found' unless a page is indexed under
      `pageId`; otherwise every node below it, grouped. */
  function PageNodesOf(t: Tables, pageId: Option<string>, groupBy: string, includeStats: bool, maxSamples: int): NodesSummaryResult
  {
    match Lookup(t, pageId)
    case None => PageNotFound
    case Some(page) =>
      var g := Fold(NoGroups(), PreOrder(Kids(page)), GroupStep(groupBy, maxSamples));
      PageNodes(pageId, NameOf(page), g, if includeStats then Some(StatisticsOf(g.counts)) else None)
  }

  /** A page summary exists exactly for an indexed page; it counts every
      node below the page, its group counts add up to that number, and no
      group keeps more than `maxSamples` samples. */
  lemma PageNodesMeaning(t: Tables, pageId: Option<string>, groupBy: string, includeStats: bool, maxSamples: int)
    ensures var r := PageNodesOf(t, pageId, groupBy, includeStats, maxSamples);
      && (r.PageNotFound? <==> Lookup(t, pageId).None?)
      && (r.PageNodes? ==>
            && r.groups.totalNodes == |PreOrder(Kids(Lookup(t, pageId).value))|
            && Valid(r.groups.counts)
            && Total(r.groups.counts) == r.groups.totalNodes
            && (forall k :: |SamplesAt(r.groups.samples, k)| <= Bound(maxSamples))
            && (r.statistics.Some? <==> includeStats))
  {
    if Lookup(t, pageId).Some? {
      GroupCounts(PreOrder(Kids(Lookup(t, pageId).value)), groupBy, maxSamples);
      GroupsMeaning(PreOrder(Kids(Lookup(t, pageId).value)), groupBy, maxSamples);
    }
  }

  // ------------------------------------------------------------ document groups

  function IdsOf(ss: seq<Sample>): (r: seq<Option<string>>)
    ensures |r| == |ss| && forall i | 0 <= i < |ss| :: r[i] == ss[i].id
  {
    seq(|ss|, i requires 0 <= i < |ss| => ss[i].id)
  }

  /** One sample offered to a document group: taken when its identifier is
      new to the group and the group has room. */
  function Admit(acc: seq<Sample>, s: Sample, maxSamples: int): seq<Sample>
  {
    if s.id !in IdsOf(acc) && |acc| < maxSamples then acc + [s] else acc
  }

  /** A page group's samples offered, in order, to the document group. */
  function AddSamples(acc: seq<Sample>, offered: seq<Sample>, maxSamples: int): seq<Sample>
  {
    if offered == [] then acc
    else Admit(AddSamples(acc, offered[..|offered| - 1], maxSamples), offered[|offered| - 1], maxSamples)
  }

  /** Adding samples keeps the group's earlier samples in front, takes only
      offered ones, never repeats an identifier and never exceeds
      `maxSamples`; an offered sample is left out only when its identifier
      is already there or the group is full. */
  lemma {:induction false} AddSamplesMeaning(acc: seq<Sample>, offered: seq<Sample>, maxSamples: int)
    requires Distinct(IdsOf(acc)) && |acc| <= Bound(maxSamples)
    ensures var r := AddSamples(acc, offered, maxSamples);
      && Distinct(IdsOf(r))
      && |r| <= Bound(maxSamples)
      && |acc| <= |r| && r[..|acc|] == acc
      && (forall i | |acc| <= i < |r| :: r[i] in offered)
      && (forall s | s in offered :: s.id in IdsOf(r) || |r| >= maxSamples)
  {
    if offered != [] {
      var init, last := offered[..|offered| - 1], offered[|offered| - 1];
      AddSamplesMeaning(acc, init, maxSamples);
      assert offered == init + [last];
      AdmitStep(acc, AddSamples(acc, init, maxSamples), init, last, maxSamples);
    }
  }

  /** One more offered sample keeps what AddSamplesMeaning states. */
  lemma AdmitStep(acc: seq<Sample>, before: seq<Sample>, init: seq<Sample>, last: Sample, maxSamples: int)
    requires Distinct(IdsOf(before)) && |before| <= Bound(maxSamples)
    requires |acc| <= |before| && before[..|acc|] == acc
    requires forall i | |acc| <= i < |before| :: before[i] in init
    requires forall s | s in init :: s.id in IdsOf(before) || |before| >= maxSamples
    ensures var r := Admit(before, last, maxSamples);
      && Distinct(IdsOf(r))
      && |r| <= Bound(maxSamples)
      && |acc| <= |r| && r[..|acc|] == acc
      && (forall i | |acc| <= i < |r| :: r[i] in init + [last])
      && (forall s | s in init + [last] :: s.id in IdsOf(r) || |r| >= maxSamples)
  {
    var r := Admit(before, last, maxSamples);
    if last.id !in IdsOf(before) && |before| < maxSamples {
      assert r == before + [last];
      assert IdsOf(r) == IdsOf(before) + [last.id];
      assert r[..|acc|] == before[..|acc|];
      forall s | s in init + [last] ensures s.id in IdsOf(r) {
        if s in init {
          var j :| 0 <= j < |before| && IdsOf(before)[j] == s.id;
          assert IdsOf(r)[j] == s.id;
        } else {
          assert IdsOf(r)[|before|] == s.id;
        }
      }
    }
  }

  function PagesAt(m: map<string, seq<Option<string>>>, k: string): seq<Option<string>>
  {
    if k in m then m[k] else []
  }

  /** One page group merged into the document's: its count added, the page
      recorded, and its samples offered. */
  function MergeGroup(d: DocGroups, pg: PageGroups, k: string, pageId: Option<string>, maxSamples: int): DocGroups
  {
    DocGroups(Add(d.counts, k, CountOf(pg.counts, k)),
              d.samples[k := AddSamples(SamplesAt(d.samples, k), SamplesAt(pg.samples, k), maxSamples)],
              d.pages[k := PagesAt(d.pages, k) + [pageId]])
  }

  /** The page's groups `ks` merged one after another. */
  function MergeGroups(d: DocGroups, pg: PageGroups, ks: seq<string>, pageId: Option<string>, maxSamples: int): DocGroups
  {
    if ks == [] then d
    else MergeGroup(MergeGroups(d, pg, ks[..|ks| - 1], pageId, maxSamples), pg, ks[|ks| - 1], pageId, maxSamples)
  }

  /** All of a page's groups merged, in the order the page first met them. */
  function MergePage(d: DocGroups, pg: PageGroups, pageId: Option<string>, maxSamples: int): DocGroups
  {
    MergeGroups(d, pg, pg.counts.keys, pageId, maxSamples)
  }

  function NoDocGroups(): DocGroups
  {
    DocGroups(EmptyTally(), map[], map[])
  }

  /** Every document group's samples are distinct by identifier and at most
      `maxSamples`. */
  ghost predicate SamplesWithin(m: map<string, seq<Sample>>, maxSamples: int)
  {
    forall k | k in m :: Distinct(IdsOf(m[k])) && |m[k]| <= Bound(maxSamples)
  }

  /** Merging a page's groups adds the page's counts to the document's, key
      by key, as the facade's type counts are merged. */
  lemma {:induction false} MergeGroupsCounts(d: DocGroups, pg: PageGroups, ks: seq<string>, pageId: Option<string>, maxSamples: int)
    ensures MergeGroups(d, pg, ks, pageId, maxSamples).counts == MergeKeys(d.counts, pg.counts, ks)
  {
    if ks != [] {
      MergeGroupsCounts(d, pg, ks[..|ks| - 1], pageId, maxSamples);
    }
  }

  /** Merging keeps every group's samples distinct and within the cap. */
  lemma {:induction false} MergeGroupsSamples(d: DocGroups, pg: PageGroups, ks: seq<string>, pageId: Option<string>, maxSamples: int)
    requires SamplesWithin(d.samples, maxSamples)
    ensures SamplesWithin(MergeGroups(d, pg, ks, pageId, maxSamples).samples, maxSamples)
  {
    if ks != [] {
      var before := MergeGroups(d, pg, ks[..|ks| - 1], pageId, maxSamples);
      var k := ks[|ks| - 1];
      MergeGroupsSamples(d, pg, ks[..|ks| - 1], pageId, maxSamples);
      assert Distinct(IdsOf(SamplesAt(before.samples, k))) && |SamplesAt(before.samples, k)| <= Bound(maxSamples) by {
        if k !in before.samples {
          assert IdsOf([]) == [];
        }
      }
      AddSamplesMeaning(SamplesAt(before.samples, k), SamplesAt(pg.samples, k), maxSamples);
    }
  }

  /** What the document pass carries from page to page. */
  datatype DocAcc = DocAcc(totalNodes: nat, groups: DocGroups, pages: seq<PageSlice>)

  /** getDocumentNodesSummary's walk over the listed pages: a page that is
      found adds its count, its three largest groups and its groups; any
      other page adds nothing. */
  function DocumentPass(t: Tables, entries: seq<PageEntry>, groupBy: string, maxSamples: int): DocAcc
  {
    if entries == [] then DocAcc(0, NoDocGroups(), [])
    else
      var acc := DocumentPass(t, entries[..|entries| - 1], groupBy, maxSamples);
      var e := entries[|entries| - 1];
      var r := PageNodesOf(t, e.id, groupBy, false, maxSamples);
      if r.PageNodes? then
        DocAcc(acc.totalNodes + r.groups.totalNodes,
               MergePage(acc.groups, r.groups, e.id, maxSamples),
               acc.pages + [PageSlice(e.id, e.name, r.groups.totalNodes, TopGroups(r.groups.counts, 3))])
      else acc
  }

  /** One more listed page extends the walk by that page alone. */
  lemma DocumentPassStep(t: Tables, entries: seq<PageEntry>, i: nat, groupBy: string, maxSamples: int)
    requires i < |entries|
    ensures var acc := DocumentPass(t, entries[..i], groupBy, maxSamples);
      var e := entries[i];
      var r := PageNodesOf(t, e.id, groupBy, false, maxSamples);
      DocumentPass(t, entries[..i + 1], groupBy, maxSamples)
      == if r.PageNodes? then
           DocAcc(acc.totalNodes + r.groups.totalNodes,
                  MergePage(acc.groups, r.groups, e.id, maxSamples),
                  acc.pages + [PageSlice(e.id, e.name, r.groups.totalNodes, TopGroups(r.groups.counts, 3))])
         else acc
  {
    assert entries[..i + 1][..i] == entries[..i];
  }

  function SliceNodes(ps: seq<PageSlice>): nat
  {
    if ps == [] then 0 else SliceNodes(ps[..|ps| - 1]) + ps[|ps| - 1].nodeCount
  }

  /** The document's group counts form a well-formed tally whose total is
      the total node count, which is the sum of the pages' counts; every
      group's samples are distinct by identifier and at most `maxSamples`. */
  lemma {:induction false} DocumentPassMeaning(t: Tables, entries: seq<PageEntry>, groupBy: string, maxSamples: int)
    ensures var acc := DocumentPass(t, entries, groupBy, maxSamples);
      && Valid(acc.groups.counts)
      && acc.totalNodes == Total(acc.groups.counts)
      && acc.totalNodes == SliceNodes(acc.pages)
      && SamplesWithin(acc.groups.samples, maxSamples)
  {
    if entries == [] {
      assert Valid(EmptyTally());
    } else {
      var acc := DocumentPass(t, entries[..|entries| - 1], groupBy, maxSamples);
      var e := entries[|entries| - 1];
      DocumentPassMeaning(t, entries[..|entries| - 1], groupBy, maxSamples);
      var r := PageNodesOf(t, e.id, groupBy, false, maxSamples);
      if r.PageNodes? {
        PageNodesMeaning(t, e.id, groupBy, false, maxSamples);
        MergeGroupsCounts(acc.groups, r.groups, r.groups.counts.keys, e.id, maxSamples);
        MergeMeaning(acc.groups.counts, r.groups.counts);
        MergeGroupsSamples(acc.groups, r.groups, r.groups.counts.keys, e.id, maxSamples);
        var next := DocumentPass(t, entries, groupBy, maxSamples);
        assert next.pages[..|next.pages| - 1] == acc.pages;
      }
    }
  }

  // ------------------------------------------------------------ the tool

  /** The options of getNodesSummary; an absent option takes its default. */
  datatype SummaryOptions = SummaryOptions(
    pageId: Option<string>,
    groupBy: Option<string>,
    includeStats: Option<bool>,
    maxSamples: Option<int>)

  /** getNodesSummary: one page when a non-empty page identifier is given,
      otherwise every listed page, grouped by type, with statistics and five
      samples unless told otherwise. */
  function NodesSummaryOf(t: Tables, config: Option<Config>, opts: SummaryOptions): NodesSummaryResult
  {
    var groupBy := opts.groupBy.GetOr("type");
    var includeStats := opts.includeStats.GetOr(true);
    var maxSamples := opts.maxSamples.GetOr(5);
    if opts.pageId.Some? && opts.pageId.value != "" then
      PageNodesOf(t, opts.pageId, groupBy, includeStats, maxSamples)
    else
      var entries := PageEntries(DocumentPages(config));
      var acc := DocumentPass(t, entries, groupBy, maxSamples);
      DocumentNodes(|entries|, acc.totalNodes, acc.groups, acc.pages,
                    if includeStats then Some(StatisticsOf(acc.groups.counts)) else None)
  }

  /** The sample loop of one document group, with the set of identifiers
      already taken. */
  method AddSamplesLoop(acc: seq<Sample>, offered: seq<Sample>, maxSamples: int) returns (r: seq<Sample>)
    ensures r == AddSamples(acc, offered, maxSamples)
  {
    r := acc;
    var existing: set<Option<string>> := set s | s in acc :: s.id;
    for i := 0 to |offered|
      invariant r == AddSamples(acc, offered[..i], maxSamples)
      invariant forall id :: id in existing <==> id in IdsOf(r)
    {
      assert offered[..i + 1][..i] == offered[..i];
      var sample := offered[i];
      if sample.id !in existing && |r| < maxSamples {
        r := r + [sample];
        existing := existing + {sample.id};
        assert IdsOf(r) == IdsOf(r[..|r| - 1]) + [sample.id];
      }
    }
    assert offered[..|offered|] == offered;
  }

  /** Merging one more group merges it after the earlier ones. */
  lemma MergeGroupsStep(d: DocGroups, pg: PageGroups, ks: seq<string>, i: nat, pageId: Option<string>, maxSamples: int)
    requires i < |ks|
    ensures MergeGroups(d, pg, ks[..i + 1], pageId, maxSamples)
            == MergeGroup(MergeGroups(d, pg, ks[..i], pageId, maxSamples), pg, ks[i], pageId, maxSamples)
  {
    assert ks[..i + 1][..i] == ks[..i];
  }

  /** The merge loop over a page's groups. */
  method MergePageGroups(d: DocGroups, pg: PageGroups, pageId: Option<string>, maxSamples: int) returns (r: DocGroups)
    ensures r == MergePage(d, pg, pageId, maxSamples)
  {
    var ks := pg.counts.keys;
    r := d;
    for i := 0 to |ks|
      invariant r == MergeGroups(d, pg, ks[..i], pageId, maxSamples)
    {
      MergeGroupsStep(d, pg, ks, i, pageId, maxSamples);
      var k := ks[i];
      var samples := AddSamplesLoop(SamplesAt(r.samples, k), SamplesAt(pg.samples, k), maxSamples);
      r := DocGroups(Add(r.counts, k, CountOf(pg.counts, k)), r.samples[k := samples],
                     r.pages[k := PagesAt(r.pages, k) + [pageId]]);
    }
    assert ks[..|ks|] == ks;
  }

  class NodesSummaryTool {
    const analyzer: SketchConfigAnalyzer

    constructor(analyzer: SketchConfigAnalyzer)
      ensures this.analyzer == analyzer
    {
      this.analyzer := analyzer;
    }

    /** getNodesSummary. */
    method GetNodesSummary(opts: SummaryOptions) returns (r: NodesSummaryResult)
      ensures r == NodesSummaryOf(analyzer.indexer.State(), analyzer.config, opts)
    {
      var groupBy := opts.groupBy.GetOr("type");
      var includeStats := opts.includeStats.GetOr(true);
      var maxSamples := opts.maxSamples.GetOr(5);
      if opts.pageId.Some? && opts.pageId.value != "" {
        r := GetPageNodesSummary(opts.pageId, groupBy, includeStats, maxSamples);
      } else {
        r := GetDocumentNodesSummary(groupBy, includeStats, maxSamples);
      }
    }

    /** getPageNodesSummary, for an identifier that may be absent. */
    method GetPageNodesSummary(pageId: Option<string>, groupBy: string, includeStats: bool, maxSamples: int)
      returns (r: NodesSummaryResult)
      ensures r == PageNodesOf(analyzer.indexer.State(), pageId, groupBy, includeStats, maxSamples)
    {
      var page := Lookup(analyzer.indexer.State(), pageId);
      if page.None? {
        return PageNotFound;
      }
      var groups := NoGroups();
      match page.value.layers {
        case LayerList(ls) => groups := CollectLayers(ls, groups, GroupStep(groupBy, maxSamples));
        case NoLayers =>
      }
      var statistics := if includeStats then Some(StatisticsOf(groups.counts)) else None;
      r := PageNodes(pageId, NameOf(page.value), groups, statistics);
    }

    /** getDocumentNodesSummary. */
    method GetDocumentNodesSummary(groupBy: string, includeStats: bool, maxSamples: int) returns (r: NodesSummaryResult)
      ensures r == NodesSummaryOf(analyzer.indexer.State(), analyzer.config,
                                  SummaryOptions(None, Some(groupBy), Some(includeStats), Some(maxSamples)))
    {
      var pages := analyzer.ListPages();
      var totalNodes: nat := 0;
      var groups := NoDocGroups();
      var slices := [];
      ghost var t := analyzer.indexer.State();
      for i := 0 to |pages|
        invariant DocumentPass(t, pages[..i], groupBy, maxSamples) == DocAcc(totalNodes, groups, slices)
      {
        var page := pages[i];
        DocumentPassStep(t, pages, i, groupBy, maxSamples);
        var pageSummary := GetPageNodesSummary(page.id, groupBy, false, maxSamples);
        if pageSummary.PageNodes? {
          var g := pageSummary.groups;
          totalNodes := totalNodes + g.totalNodes;
          slices := slices + [PageSlice(page.id, page.name, g.totalNodes, TopGroups(g.counts, 3))];
          groups := MergePageGroups(groups, g, page.id, maxSamples);
        }
      }
      assert pages[..|pages|] == pages;
      var statistics := if includeStats then Some(StatisticsOf(groups.counts)) else None;
      r := DocumentNodes(|pages|, totalNodes, groups, slices, statistics);
    }
  }
}
