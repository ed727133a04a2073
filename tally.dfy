/** Insertion-ordered tallies: a JavaScript object used as a dictionary from
    keys to counts, whose keys iterate in the order they were first set. */
module Tallies {
  import opened Wrappers

  datatype Tally = Tally(keys: seq<string>, counts: map<string, nat>)

  function EmptyTally(): Tally
  {
    Tally([], map[])
  }

  /** The keys listed once each, exactly the keys that carry a count. */
  ghost predicate Valid(t: Tally)
  {
    && Distinct(t.keys)
    && (forall k | k in t.counts :: k in t.keys)
    && (forall k | k in t.keys :: k in t.counts)
  }

  /** `counts[k] || 0`. */
  function CountOf(t: Tally, k: string): nat
  {
    if k in t.counts then t.counts[k] else 0
  }

  /** `groups[k] = (groups[k] || 0) + n`: a new key joins the end of the order. */
  function Add(t: Tally, k: string, n: nat): (r: Tally)
    ensures CountOf(r, k) == CountOf(t, k) + n
    ensures forall j | j != k :: CountOf(r, j) == CountOf(t, j)
  {
    if k in t.counts then Tally(t.keys, t.counts[k := t.counts[k] + n])
    else Tally(t.keys + [k], t.counts[k := n])
  }

  /** The sum of the counts of `keys`. */
  function Sum(keys: seq<string>, counts: map<string, nat>): nat
  {
    if keys == [] then 0
    else Sum(keys[..|keys| - 1], counts) + (if keys[|keys| - 1] in counts then counts[keys[|keys| - 1]] else 0)
  }

  function Total(t: Tally): nat
  {
    Sum(t.keys, t.counts)
  }

  /** How often `k` occurs in `ks`. */
  function Occurrences(ks: seq<string>, k: string): nat
  {
    if ks == [] then 0 else Occurrences(ks[..|ks| - 1], k) + (if ks[|ks| - 1] == k then 1 else 0)
  }

  /** The tally of a list of keys, one at a time. */
  function TallyOf(ks: seq<string>): Tally
  {
    if ks == [] then EmptyTally() else Add(TallyOf(ks[..|ks| - 1]), ks[|ks| - 1], 1)
  }

  lemma {:induction false} SumOutside(keys: seq<string>, counts: map<string, nat>, k: string, n: nat)
    requires k !in keys
    ensures Sum(keys, counts[k := n]) == Sum(keys, counts)
  {
    if keys != [] {
      assert keys[|keys| - 1] in keys;
      assert forall x | x in keys[..|keys| - 1] :: x in keys;
      SumOutside(keys[..|keys| - 1], counts, k, n);
    }
  }

  lemma {:induction false} SumInside(keys: seq<string>, counts: map<string, nat>, k: string, n: nat)
    requires Distinct(keys) && k in keys && k in counts
    ensures Sum(keys, counts[k := counts[k] + n]) == Sum(keys, counts) + n
  {
    var init, last := keys[..|keys| - 1], keys[|keys| - 1];
    assert keys == init + [last];
    if last == k {
      assert k !in init by {
        forall i | 0 <= i < |init| ensures init[i] != k {
          assert init[i] == keys[i];
        }
      }
      SumOutside(init, counts, k, counts[k] + n);
    } else {
      assert k in init by {
        var i :| 0 <= i < |keys| && keys[i] == k;
        assert i < |init| && init[i] == k;
      }
      assert Distinct(init) by {
        forall i, j | 0 <= i < j < |init| ensures init[i] != init[j] {
          assert init[i] == keys[i] && init[j] == keys[j];
        }
      }
      SumInside(init, counts, k, n);
    }
  }

  lemma AddExisting(t: Tally, k: string, n: nat)
    requires Valid(t) && k in t.counts
    ensures Valid(Add(t, k, n)) && Total(Add(t, k, n)) == Total(t) + n
  {
    SumInside(t.keys, t.counts, k, n);
  }

  lemma AddNew(t: Tally, k: string, n: nat)
    requires Valid(t) && k !in t.counts
    ensures Valid(Add(t, k, n)) && Total(Add(t, k, n)) == Total(t) + n
  {
    var keys := t.keys + [k];
    var counts := t.counts[k := n];
    assert keys[..|keys| - 1] == t.keys;
    SumOutside(t.keys, t.counts, k, n);
    assert Sum(keys, counts) == Sum(t.keys, counts) + n;
    assert Distinct(keys) by {
      forall i, j | 0 <= i < j < |keys| ensures keys[i] != keys[j] {
        assert keys[i] == t.keys[i];
        if j < |t.keys| {
          assert keys[j] == t.keys[j];
        }
      }
    }
    assert forall x | x in counts :: x in keys;
    assert forall x | x in keys :: x in counts by {
      forall x | x in keys ensures x in counts {
        assert x in t.keys || x == k;
      }
    }
  }

  /** Adding to a tally keeps it well formed and adds to its total. */
  lemma AddTotal(t: Tally, k: string, n: nat)
    requires Valid(t)
    ensures Valid(Add(t, k, n)) && Total(Add(t, k, n)) == Total(t) + n
  {
    if k in t.counts {
      AddExisting(t, k, n);
    } else {
      AddNew(t, k, n);
    }
  }

  /** A tally of keys counts each key as often as it occurs, lists exactly the
      keys that occur, and totals the number of keys counted. */
  lemma TallyOfMeaning(ks: seq<string>)
    ensures Valid(TallyOf(ks))
    ensures Total(TallyOf(ks)) == |ks|
    ensures forall k :: k in TallyOf(ks).keys <==> k in ks
    ensures forall k :: CountOf(TallyOf(ks), k) == Occurrences(ks, k)
  {
    TallyOfTotal(ks);
    TallyOfKeys(ks);
  }

  lemma {:induction false} TallyOfTotal(ks: seq<string>)
    ensures Valid(TallyOf(ks)) && Total(TallyOf(ks)) == |ks|
  {
    if ks != [] {
      var init := ks[..|ks| - 1];
      TallyOfTotal(init);
      AddTotal(TallyOf(init), ks[|ks| - 1], 1);
    }
  }

  lemma {:induction false} TallyOfKeys(ks: seq<string>)
    ensures forall k :: k in TallyOf(ks).keys <==> k in ks
    ensures forall k :: CountOf(TallyOf(ks), k) == Occurrences(ks, k)
  {
    if ks != [] {
      var init, last := ks[..|ks| - 1], ks[|ks| - 1];
      var before := TallyOf(init);
      var after := TallyOf(ks);
      TallyOfKeys(init);
      TallyOfTotal(init);
      assert after == Add(before, last, 1);
      assert ks == init + [last];
      forall k ensures k in after.keys <==> k in ks {
        assert k in ks <==> k in init || k == last;
        assert k in after.keys <==> k in before.keys || k == last;
      }
    }
  }

  // ------------------------------------------------------------ ordering

  /** A tally's entries, in key order. */
  function Entries(t: Tally): seq<(string, nat)>
  {
    seq(|t.keys|, i requires 0 <= i < |t.keys| => (t.keys[i], CountOf(t, t.keys[i])))
  }

  predicate NonIncreasing(es: seq<(string, nat)>)
  {
    forall i, j | 0 <= i < j < |es| :: es[i].1 >= es[j].1
  }

  /** Places an entry after every entry whose count is at least its own. */
  function Insert(e: (string, nat), sorted: seq<(string, nat)>): (r: seq<(string, nat)>)
    ensures multiset(r) == multiset(sorted) + multiset{e}
  {
    if sorted == [] then [e]
    else if sorted[0].1 >= e.1 then
      assert sorted == [sorted[0]] + sorted[1..];
      [sorted[0]] + Insert(e, sorted[1..])
    else [e] + sorted
  }

  lemma {:induction false} InsertSorted(e: (string, nat), sorted: seq<(string, nat)>)
    requires NonIncreasing(sorted)
    ensures NonIncreasing(Insert(e, sorted))
  {
    if sorted != [] && sorted[0].1 >= e.1 {
      var tail := sorted[1..];
      var rest := Insert(e, tail);
      assert NonIncreasing(tail) by {
        forall i, j | 0 <= i < j < |tail| ensures tail[i].1 >= tail[j].1 {
          assert tail[i] == sorted[i + 1] && tail[j] == sorted[j + 1];
        }
      }
      InsertSorted(e, tail);
      var r := [sorted[0]] + rest;
      forall j | 0 <= j < |rest| ensures sorted[0].1 >= rest[j].1 {
        assert rest[j] in multiset(rest);
        if rest[j] != e {
          assert rest[j] in multiset(tail);
          var k :| 0 <= k < |tail| && tail[k] == rest[j];
          assert tail[k] == sorted[k + 1];
        }
      }
      forall i, j | 0 <= i < j < |r| ensures r[i].1 >= r[j].1 {
        assert r[j] == rest[j - 1];
        if i > 0 {
          assert r[i] == rest[i - 1];
        }
      }
    }
  }

  /** `entries.sort((a, b) => b.count - a.count)`: a stable sort by count, largest first. */
  function SortByCount(es: seq<(string, nat)>): (r: seq<(string, nat)>)
    ensures multiset(r) == multiset(es)
    ensures NonIncreasing(r)
  {
    if es == [] then []
    else
      var sorted := SortByCount(es[..|es| - 1]);
      InsertSorted(es[|es| - 1], sorted);
      assert es == es[..|es| - 1] + [es[|es| - 1]];
      Insert(es[|es| - 1], sorted)
  }

  /** getTopGroups: the `limit` largest entries, largest first. */
  function TopGroups(t: Tally, limit: int): (r: seq<(string, nat)>)
  {
    var sorted := SortByCount(Entries(t));
    if limit <= 0 then [] else if limit >= |sorted| then sorted else sorted[..limit]
  }

  lemma SortedEntries(t: Tally)
    ensures |SortByCount(Entries(t))| == |t.keys|
    ensures forall e | e in SortByCount(Entries(t)) :: e in Entries(t)
  {
    var sorted := SortByCount(Entries(t));
    assert |multiset(sorted)| == |multiset(Entries(t))|;
    forall e | e in sorted ensures e in Entries(t) {
      assert e in multiset(sorted);
    }
  }

  /** The top groups are at most `limit` entries of the tally, by
      non-increasing count. */
  lemma TopGroupsMeaning(t: Tally, limit: int)
    ensures var r := TopGroups(t, limit);
      && |r| == (if limit <= 0 then 0 else if limit >= |t.keys| then |t.keys| else limit)
      && NonIncreasing(r)
      && (forall e | e in r :: e in Entries(t))
  {
    SortedEntries(t);
    var sorted := SortByCount(Entries(t));
    var r := TopGroups(t, limit);
    assert forall e | e in r :: e in sorted;
  }

  /** No entry the top groups leave out outweighs one they keep. */
  lemma TopGroupsAreLargest(t: Tally, limit: int, e: (string, nat), x: (string, nat))
    requires e in Entries(t) && e !in TopGroups(t, limit) && x in TopGroups(t, limit)
    ensures x.1 >= e.1
  {
    SortedEntries(t);
    var sorted := SortByCount(Entries(t));
    var r := TopGroups(t, limit);
    assert e in multiset(Entries(t));
    assert e in sorted;
    var j :| 0 <= j < |sorted| && sorted[j] == e;
    var i :| 0 <= i < |r| && r[i] == x;
    assert r[i] == sorted[i];
    assert j >= |r|;
  }
}
