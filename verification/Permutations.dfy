/** Sequences that list 0..n-1 exactly once, and what is unique about sorting one. */
module Permutations {

  ghost predicate IsPerm(s: seq<int>) {
    && (forall x :: 0 <= x < |s| ==> 0 <= s[x] < |s|)
    && (forall x, y :: 0 <= x < y < |s| ==> s[x] != s[y])
  }

  /** `s` visits its elements in non-decreasing order of `key`. */
  ghost predicate SortedBy(s: seq<int>, key: seq<int>) {
    && (forall x :: 0 <= x < |s| ==> 0 <= s[x] < |key|)
    && (forall x, y :: 0 <= x < y < |s| ==> key[s[x]] <= key[s[y]])
  }

  function Range(n: nat): (r: set<int>)
    ensures forall x :: x in r <==> 0 <= x < n
    ensures |r| == n
  {
    if n == 0 then {} else Range(n - 1) + {n - 1}
  }

  function Elements(s: seq<int>): (r: set<int>)
    ensures forall v :: v in r <==> v in s
  {
    set v | v in s
  }

  lemma {:induction false} DistinctSize(s: seq<int>)
    requires forall x, y :: 0 <= x < y < |s| ==> s[x] != s[y]
    ensures |Elements(s)| == |s|
  {
    if s != [] {
      var k := |s| - 1;
      DistinctSize(s[..k]);
      assert s == s[..k] + [s[k]];
      assert Elements(s) == Elements(s[..k]) + {s[k]};
      assert s[k] !in s[..k];
    } else {
      assert Elements(s) == {};
    }
  }

  lemma SubsetSize(a: set<int>, b: set<int>)
    requires a <= b
    ensures |a| <= |b|
    ensures |a| == |b| ==> a == b
  {
    assert b == a + (b - a);
    assert |b| == |a| + |b - a|;
  }

  /** A permutation hits every value below its length. */
  lemma PermOnto(s: seq<int>, v: int)
    requires IsPerm(s) && 0 <= v < |s|
    ensures v in s
  {
    DistinctSize(s);
    assert Elements(s) <= Range(|s|);
    SubsetSize(Elements(s), Range(|s|));
  }

  /** Two permutations sorted by the same key agree position by position, up to ties:
      the first k+1 elements of one cannot all fit among the first k of the other. */
  lemma SortedUnique(p: seq<int>, q: seq<int>, key: seq<int>, x: int)
    requires IsPerm(p) && IsPerm(q) && |p| == |q| == |key|
    requires SortedBy(p, key) && SortedBy(q, key)
    requires 0 <= x < |p|
    ensures key[p[x]] == key[q[x]]
  {
    SortedNotBelow(p, q, key, x);
    SortedNotBelow(q, p, key, x);
  }

  lemma SortedNotBelow(p: seq<int>, q: seq<int>, key: seq<int>, x: int)
    requires IsPerm(p) && IsPerm(q) && |p| == |q| == |key|
    requires SortedBy(p, key) && SortedBy(q, key)
    requires 0 <= x < |p|
    ensures key[p[x]] >= key[q[x]]
  {
    if key[p[x]] < key[q[x]] {
      forall v | v in p[..x + 1]
        ensures v in q[..x]
      {
        PermOnto(q, v);
        var y :| 0 <= y < |q| && q[y] == v;
        assert key[v] <= key[p[x]];
        assert y < x;
        assert q[..x][y] == v;
      }
      DistinctSize(p[..x + 1]);
      DistinctSize(q[..x]);
      SubsetSize(Elements(p[..x + 1]), Elements(q[..x]));
      assert false;
    }
  }
}
