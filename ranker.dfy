/**
 * The ranking step of `findLargestDirectories` (findLargestDirs.js): the
 * recorded (directory, size) entries are sorted by size, largest first, with
 * a stable sort, and the first `topN` of them are kept.
 */
module Ranker {

  /** A (directory path, total size) entry of the size map. */
  type Item<K> = (K, nat)

  /** Sizes never increase from one entry to the next. */
  predicate SortedBySizeDesc<K(==)>(s: seq<Item<K>>)
  {
    forall i, j :: 0 <= i < j < |s| ==> s[i].1 >= s[j].1
  }

  /** No key appears at two positions. */
  predicate DistinctKeys<K(==)>(s: seq<Item<K>>)
  {
    forall i, j :: 0 <= i < j < |s| ==> s[i].0 != s[j].0
  }

  /** The keys a sequence of entries mentions. */
  function KeysOf<K(==)>(s: seq<Item<K>>): set<K>
  {
    set i | 0 <= i < |s| :: s[i].0
  }

  /**
   * `Array.from(m.entries())`, in whatever order the map was filled: every
   * entry of `m` exactly once, with its value.
   */
  predicate ListsMap<K(==)>(items: seq<Item<K>>, m: map<K, nat>)
  {
    && DistinctKeys(items)
    && KeysOf(items) == m.Keys
    && (forall i :: 0 <= i < |items| ==> items[i].0 in m && m[items[i].0] == items[i].1)
  }

  /**
   * Inserts `x` into a size-descending sequence before the first entry that
   * is not larger, so entries of equal size keep their relative order.
   */
  function Insert<K(==)>(x: Item<K>, s: seq<Item<K>>): (r: seq<Item<K>>)
    requires SortedBySizeDesc(s)
    ensures SortedBySizeDesc(r)
    ensures multiset(r) == multiset(s) + multiset{x}
    ensures |r| == |s| + 1
  {
    if s == [] || s[0].1 <= x.1 then [x] + s
    else
      var rest := Insert(x, s[1..]);
      assert s == [s[0]] + s[1..];
      assert forall k :: 0 <= k < |rest| ==> rest[k].1 <= s[0].1 by {
        forall k | 0 <= k < |rest| ensures rest[k].1 <= s[0].1 {
          assert rest[k] in multiset(rest);
          if rest[k] != x {
            assert rest[k] in multiset(s[1..]);
          }
        }
      }
      [s[0]] + rest
  }

  /** The stable descending sort of `.sort((a, b) => b[1] - a[1])`. */
  function SortBySizeDesc<K(==)>(s: seq<Item<K>>): (r: seq<Item<K>>)
    ensures SortedBySizeDesc(r)
    ensures multiset(r) == multiset(s)
    ensures |r| == |s|
  {
    if s == [] then []
    else
      assert s == [s[0]] + s[1..];
      Insert(s[0], SortBySizeDesc(s[1..]))
  }

  /** `.slice(0, topN)` of the sorted entries: all of them when fewer than `topN`. */
  function Rank<K(==)>(items: seq<Item<K>>, topN: nat): (r: seq<Item<K>>)
    ensures |r| == if topN <= |items| then topN else |items|
    ensures SortedBySizeDesc(r)
    ensures multiset(r) <= multiset(items)
  {
    var sorted := SortBySizeDesc(items);
    if topN <= |sorted| then
      assert sorted == sorted[..topN] + sorted[topN..];
      sorted[..topN]
    else sorted
  }

  /**
   * What the report promises about its list: sorted largest first, made of
   * entries of `m` with no directory twice, `topN` long unless the map is
   * shorter, and no entry left out is larger than one that was kept.
   */
  predicate IsTopN<K(==)>(r: seq<Item<K>>, m: map<K, nat>, topN: nat)
  {
    && SortedBySizeDesc(r)
    && DistinctKeys(r)
    && (forall i :: 0 <= i < |r| ==> r[i].0 in m && m[r[i].0] == r[i].1)
    && |r| == (if topN <= |m| then topN else |m|)
    && (forall k, i :: k in m && k !in KeysOf(r) && 0 <= i < |r| ==> m[k] <= r[i].1)
  }

  /** A sequence with distinct keys has as many keys as entries. */
  lemma {:induction false} DistinctKeysCount<K>(s: seq<Item<K>>)
    requires DistinctKeys(s)
    ensures |KeysOf(s)| == |s|
  {
    if s != [] {
      var t := s[..|s| - 1];
      assert DistinctKeys(t);
      DistinctKeysCount(t);
      assert KeysOf(s) == KeysOf(t) + {s[|s| - 1].0};
      assert s[|s| - 1].0 !in KeysOf(t);
    }
  }

  /** A permutation of a sequence with distinct keys has distinct keys too. */
  lemma PermutationKeepsDistinctKeys<K>(a: seq<Item<K>>, b: seq<Item<K>>)
    requires multiset(a) == multiset(b)
    requires DistinctKeys(a)
    ensures DistinctKeys(b)
  {
    forall i, j | 0 <= i < j < |b| ensures b[i].0 != b[j].0 {
      if b[i].0 == b[j].0 {
        assert b[i] in multiset(a) && b[j] in multiset(a);
        var p :| 0 <= p < |a| && a[p] == b[i];
        var q :| 0 <= q < |a| && a[q] == b[j];
        if p == q {
          // the same pair stands at positions i and j of b, but only once in a
          MultiplicityOfDistinct(a, p);
          MultiplicityAtLeastTwo(b, i, j);
          assert false;
        }
      }
    }
  }

  /** In a sequence with distinct keys each entry occurs once. */
  lemma {:induction false} MultiplicityOfDistinct<K>(s: seq<Item<K>>, p: nat)
    requires DistinctKeys(s) && p < |s|
    ensures multiset(s)[s[p]] == 1
  {
    var t := s[..|s| - 1];
    assert s == t + [s[|s| - 1]];
    assert DistinctKeys(t);
    if p == |s| - 1 {
      assert s[p] !in t;
      assert multiset(t)[s[p]] == 0;
    } else {
      MultiplicityOfDistinct(t, p);
      assert t[p] == s[p];
    }
  }

  /** An entry standing at two positions occurs at least twice. */
  lemma MultiplicityAtLeastTwo<K>(s: seq<Item<K>>, i: nat, j: nat)
    requires i < j < |s| && s[i] == s[j]
    ensures multiset(s)[s[i]] >= 2
  {
    assert s == s[..i] + [s[i]] + s[i + 1..j] + [s[j]] + s[j + 1..];
  }

  /** The ranked list of a listing of `m` meets every promise of the report. */
  lemma RankIsTopN<K>(items: seq<Item<K>>, m: map<K, nat>, topN: nat)
    requires ListsMap(items, m)
    ensures IsTopN(Rank(items, topN), m, topN)
  {
    var sorted := SortBySizeDesc(items);
    var r := Rank(items, topN);
    assert r == sorted[..|r|];
    PermutationKeepsDistinctKeys(items, sorted);
    assert DistinctKeys(r);
    DistinctKeysCount(items);
    assert |r| == (if topN <= |m| then topN else |m|);
    SortedEntriesBelongToMap(items, m);
    assert forall i :: 0 <= i < |r| ==> r[i].0 in m && m[r[i].0] == r[i].1;
    LeftOutNoLarger(items, m, topN);
  }

  /** Sorting a listing of `m` keeps every entry an entry of `m`. */
  lemma SortedEntriesBelongToMap<K>(items: seq<Item<K>>, m: map<K, nat>)
    requires ListsMap(items, m)
    ensures forall i :: 0 <= i < |items| ==>
              SortBySizeDesc(items)[i].0 in m && m[SortBySizeDesc(items)[i].0] == SortBySizeDesc(items)[i].1
  {
    var sorted := SortBySizeDesc(items);
    forall i | 0 <= i < |sorted| ensures sorted[i].0 in m && m[sorted[i].0] == sorted[i].1 {
      assert sorted[i] in multiset(items);
    }
  }

  /** An entry of `m` that the ranking leaves out is no larger than any entry it keeps. */
  lemma LeftOutNoLarger<K>(items: seq<Item<K>>, m: map<K, nat>, topN: nat)
    requires ListsMap(items, m)
    ensures forall k, i :: k in m && k !in KeysOf(Rank(items, topN)) && 0 <= i < |Rank(items, topN)|
                           ==> m[k] <= Rank(items, topN)[i].1
  {
    var sorted := SortBySizeDesc(items);
    var r := Rank(items, topN);
    assert r == sorted[..|r|];
    forall k, i | k in m && k !in KeysOf(r) && 0 <= i < |r| ensures m[k] <= r[i].1 {
      var q := PositionInSorted(items, m, k);
      KeyInPrefix(sorted, |r|, q);
      assert r[i] == sorted[i];
      assert sorted[i].1 >= sorted[q].1;
    }
  }

  /** Where the entry of key `k` stands after sorting. */
  lemma PositionInSorted<K>(items: seq<Item<K>>, m: map<K, nat>, k: K) returns (q: nat)
    requires ListsMap(items, m) && k in m
    ensures q < |items| && SortBySizeDesc(items)[q] == (k, m[k])
  {
    var sorted := SortBySizeDesc(items);
    assert k in KeysOf(items);
    var p :| 0 <= p < |items| && items[p].0 == k;
    assert items[p] in multiset(sorted);
    q :| 0 <= q < |sorted| && sorted[q] == items[p];
  }

  /** The key at a position before `n` is a key of the first `n` entries. */
  lemma KeyInPrefix<K>(s: seq<Item<K>>, n: nat, q: nat)
    requires n <= |s| && q < |s|
    ensures q < n ==> s[q].0 in KeysOf(s[..n])
  {
  }
}
