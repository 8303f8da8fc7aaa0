/** Depths in the finished tree: bounded by the height of the root, and a complete code. */
module HuffmanKraft {
  import opened Counting
  import opened Bits
  import opened HuffmanCodes
  import opened HuffmanTree

  /** Steps from node k to a root. */
  function Depth(p: seq<int>, top: int, k: int): nat
    decreases top - k
  {
    if 0 <= k < |p| && k < p[k] <= top then 1 + Depth(p, top, p[k]) else 0
  }

  lemma {:induction false} DepthBound(p: seq<int>, kids: seq<(int, int)>, w: seq<int>, n: int, top: int, k: int)
    requires Forest(p, kids, n, top) && Weighed(p, w, top) && 1 <= k <= top && top < |w|
    requires forall r :: 1 <= r < top ==> !IsRoot(p, r)
    ensures Depth(p, top, k) + DepthOf(w[k]) <= DepthOf(w[top])
    decreases top - k
  {
    assert Child(p, kids, n, top, k) && Lower(p, w, top, k);
    if k < top {
      assert !IsRoot(p, k);
      DepthBound(p, kids, w, n, top, p[k]);
    }
  }

  /** What node k adds to the frontier left by inner nodes above m: leaves and inner nodes up to m whose
      parent lies above m. */
  function Share(p: seq<int>, top: int, longest: nat, m: int, k: int): nat
    requires 0 <= k < |p|
  {
    if (p[k] < 0 || p[k] > m) && Depth(p, top, k) <= longest then Pow2(longest - Depth(p, top, k)) else 0
  }

  function Frontier(p: seq<int>, top: int, longest: nat, m: int, j: nat): nat
    requires j < |p|
  {
    if j == 0 then 0 else Frontier(p, top, longest, m, j - 1) + Share(p, top, longest, m, j)
  }

  /** Opening inner node m replaces it by its two children, one step deeper. */
  lemma {:induction false} FrontierOpens(p: seq<int>, kids: seq<(int, int)>, n: int, top: int, longest: nat, m: int, j: nat)
    requires Forest(p, kids, n, top) && n < m <= top && j < m && Depth(p, top, m) < longest
    ensures Frontier(p, top, longest, m - 1, j)
         == Frontier(p, top, longest, m, j)
            + (if kids[m].0 <= j then Pow2(longest - Depth(p, top, m) - 1) else 0)
            + (if kids[m].1 <= j then Pow2(longest - Depth(p, top, m) - 1) else 0)
  {
    assert Inner(p, kids, m);
    if j != 0 {
      FrontierOpens(p, kids, n, top, longest, m, j - 1);
      assert Child(p, kids, n, top, j);
      assert p[j] == m <==> j == kids[m].0 || j == kids[m].1;
    }
  }

  lemma FrontierStep(p: seq<int>, kids: seq<(int, int)>, n: int, top: int, longest: nat, m: int)
    requires Forest(p, kids, n, top) && n < m <= top && Depth(p, top, m) < longest
    ensures Frontier(p, top, longest, m - 1, m - 1) == Frontier(p, top, longest, m, m)
  {
    assert Inner(p, kids, m) && Child(p, kids, n, top, m);
    FrontierOpens(p, kids, n, top, longest, m, m - 1);
    assert Pow2(longest - Depth(p, top, m)) == 2 * Pow2(longest - Depth(p, top, m) - 1);
  }

  lemma {:induction false} FrontierNone(p: seq<int>, top: int, longest: nat, m: int, j: nat)
    requires j < |p| && forall k :: 1 <= k <= j ==> 0 <= p[k] <= m
    ensures Frontier(p, top, longest, m, j) == 0
  {
    if j != 0 {
      FrontierNone(p, top, longest, m, j - 1);
    }
  }

  /** An inner node's children lie deeper, so its own depth is below the bound. */
  lemma InnerDepth(p: seq<int>, kids: seq<(int, int)>, n: int, top: int, longest: nat, m: int)
    requires Forest(p, kids, n, top) && n < m <= top
    requires forall k :: 1 <= k <= top ==> Depth(p, top, k) <= longest
    ensures Depth(p, top, m) < longest
  {
    assert Inner(p, kids, m);
    var c := kids[m].0;
    assert Depth(p, top, c) == 1 + Depth(p, top, m);
  }

  /** From the root alone down to the leaves alone the scaled sum stays 2^longest. */
  lemma {:induction false} FrontierWhole(p: seq<int>, kids: seq<(int, int)>, n: int, top: int, longest: nat, m: int)
    requires Forest(p, kids, n, top) && n <= m <= top && IsRoot(p, top)
    requires forall r :: 1 <= r < top ==> !IsRoot(p, r)
    requires forall k :: 1 <= k <= top ==> Depth(p, top, k) <= longest
    ensures Frontier(p, top, longest, m, m) == Pow2(longest)
    decreases top - m
  {
    if m == top {
      forall k | 1 <= k <= top - 1
        ensures 0 <= p[k] <= top
      {
        assert Child(p, kids, n, top, k) && !IsRoot(p, k);
      }
      FrontierNone(p, top, longest, top, top - 1);
    } else {
      FrontierWhole(p, kids, n, top, longest, m + 1);
      InnerDepth(p, kids, n, top, longest, m + 1);
      FrontierStep(p, kids, n, top, longest, m + 1);
    }
  }

  /** len lists the depths of leaves 1..n. */
  ghost predicate LeafDepths(len: seq<int>, p: seq<int>, top: int, n: int) {
    |len| == n && forall i {:trigger len[i]} :: 0 <= i < n ==> len[i] == Depth(p, top, i + 1)
  }

  lemma {:induction false} LeavesWeigh(p: seq<int>, top: int, longest: nat, m: int, len: seq<int>)
    requires |len| < |p| && LeafDepths(len, p, top, |len|) && forall k :: 1 <= k <= |len| ==> p[k] > m
    ensures Frontier(p, top, longest, m, |len|) == Weight(len, longest)
  {
    if len != [] {
      var k := |len| - 1;
      LeavesWeigh(p, top, longest, m, len[..k]);
      assert len[k] == Depth(p, top, k + 1);
    }
  }

  /** Lengths that nobody has change nothing. */
  lemma {:induction false} WeightScales(len: seq<int>, maxLen: nat, longest: nat)
    requires maxLen <= longest && forall i :: 0 <= i < |len| ==> len[i] <= maxLen
    ensures Weight(len, longest) == Pow2(longest) <==> Weight(len, maxLen) == Pow2(maxLen)
    decreases longest
  {
    if maxLen < longest {
      WeightScales(len, maxLen, longest - 1);
      WeightDoubles(len, longest - 1);
      NoneOf(len, longest);
    }
  }

  /** One root left: the depths of the leaves fill the code space exactly. */
  lemma DepthsComplete(p: seq<int>, kids: seq<(int, int)>, w: seq<int>, n: int, top: int, len: seq<int>)
    requires Forest(p, kids, n, top) && Weighed(p, w, top) && top < |w| && IsRoot(p, top) && n < top
    requires forall r :: 1 <= r < top ==> !IsRoot(p, r)
    requires LeafDepths(len, p, top, n)
    ensures Weight(len, DepthOf(w[top])) == Pow2(DepthOf(w[top]))
    ensures forall i :: 0 <= i < n ==> 1 <= len[i] <= DepthOf(w[top])
  {
    var longest := DepthOf(w[top]);
    forall k | 1 <= k <= top
      ensures Depth(p, top, k) <= longest
    {
      DepthBound(p, kids, w, n, top, k);
    }
    forall k | 1 <= k <= n
      ensures p[k] > n && Depth(p, top, k) >= 1
    {
      assert Child(p, kids, n, top, k) && !IsRoot(p, k);
    }
    FrontierWhole(p, kids, n, top, longest, n);
    LeavesWeigh(p, top, longest, n, len);
  }
}
