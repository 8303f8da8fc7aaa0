/** The forest that BZ2_hbMakeCodeLengths builds by merging its two lightest roots: heights are bounded by
    Fibonacci numbers, and the depths of the leaves satisfy the Kraft equality. */
module HuffmanTree {
  import opened Counting
  import opened Bits
  import opened HuffmanCodes

  function Fib(k: nat): nat {
    if k < 2 then k else Fib(k - 1) + Fib(k - 2)
  }

  lemma {:induction false} FibGrows(j: nat, k: nat)
    requires j <= k
    ensures Fib(j) <= Fib(k)
    decreases k
  {
    if j < k {
      FibGrows(j, k - 1);
    }
  }

  lemma FibValues()
    ensures Fib(15) == 610 && Fib(35) == 9227465
  {
    assert Fib(10) == 55 && Fib(11) == 89;
    assert Fib(14) == 377 && Fib(15) == 610 && Fib(16) == 987;
    assert Fib(20) == 6765 && Fib(21) == 10946;
    assert Fib(25) == 75025 && Fib(26) == 121393;
    assert Fib(30) == 832040 && Fib(31) == 1346269;
    assert Fib(34) == 5702887 && Fib(35) == 9227465;
  }

  // ----- packed weights

  /** Weight in the upper bits, height in the low byte. */
  function WeightOf(w: int): int {
    w / 256
  }

  function DepthOf(w: int): (d: int)
    ensures 0 <= d < 256
  {
    w % 256
  }

  function Max(x: int, y: int): int {
    if x > y then x else y
  }

  /** The two fields do not overlap as long as the height stays below 256. */
  function AddWeights(w1: int, w2: int): int {
    256 * (WeightOf(w1) + WeightOf(w2)) + (1 + Max(DepthOf(w1), DepthOf(w2)))
  }

  // ----- the forest

  ghost predicate IsRoot(p: seq<int>, k: int) {
    0 <= k < |p| && p[k] == -1
  }

  /** m is an inner node with two children. */
  ghost predicate Inner(p: seq<int>, kids: seq<(int, int)>, m: int) {
    && 0 <= m < |kids| && 1 <= kids[m].0 < m && 1 <= kids[m].1 < m && kids[m].0 != kids[m].1
    && kids[m].0 < |p| && kids[m].1 < |p| && p[kids[m].0] == m && p[kids[m].1] == m
  }

  /** k is a root or a child of a later, inner node. */
  ghost predicate Child(p: seq<int>, kids: seq<(int, int)>, n: int, top: int, k: int) {
    && 0 <= k < |p|
    && (p[k] == -1 || (n < p[k] <= top && k < p[k] < |kids| && (k == kids[p[k]].0 || k == kids[p[k]].1)))
  }

  /** Nodes 1..n are leaves, n+1..top inner nodes. */
  ghost predicate Forest(p: seq<int>, kids: seq<(int, int)>, n: int, top: int) {
    && 1 <= n <= top < |p| && top < |kids|
    && (forall m {:trigger Inner(p, kids, m)} :: n < m <= top ==> Inner(p, kids, m))
    && (forall k {:trigger Child(p, kids, n, top, k)} :: 1 <= k <= top ==> Child(p, kids, n, top, k))
  }

  function Merged(p: seq<int>, top: int, a: int, b: int): (q: seq<int>)
    requires 0 <= a < |p| && 0 <= b < |p| && 0 <= top < |p| - 1
    ensures |q| == |p|
  {
    p[a := top + 1][b := top + 1][top + 1 := -1]
  }

  lemma ForestGrows(p: seq<int>, kids: seq<(int, int)>, n: int, top: int, a: int, b: int)
    requires Forest(p, kids, n, top) && top + 1 < |p| && top + 1 < |kids|
    requires 1 <= a <= top && 1 <= b <= top && a != b && IsRoot(p, a) && IsRoot(p, b)
    ensures Forest(Merged(p, top, a, b), kids[top + 1 := (a, b)], n, top + 1)
  {
    var q, kids' := Merged(p, top, a, b), kids[top + 1 := (a, b)];
    forall m | n < m <= top + 1
      ensures Inner(q, kids', m)
    {
      if m <= top {
        assert Inner(p, kids, m);
      }
    }
    var next := top + 1;
    forall k | 1 <= k <= next
      ensures Child(q, kids', n, next, k)
    {
      if k <= top {
        assert Child(p, kids, n, top, k);
      }
    }
  }

  // ----- heights and weights

  /** A child's height is below its parent's. */
  ghost predicate Lower(p: seq<int>, w: seq<int>, top: int, k: int) {
    && 0 <= k < |p| && k < |w| && w[k] >= 256
    && (p[k] == -1 || (0 <= p[k] <= top < |w| && DepthOf(w[p[k]]) > DepthOf(w[k])))
  }

  /** A root of height d weighs at least Fib(d + 2). */
  ghost predicate Heavy(w: seq<int>, a: int) {
    0 <= a < |w| && WeightOf(w[a]) >= Fib(DepthOf(w[a]) + 2)
  }

  /** Root r was not lighter than the children of root a when a was made. */
  ghost predicate Spared(w: seq<int>, a: int, r: int) {
    0 <= a < |w| && 0 <= r < |w| && (DepthOf(w[a]) >= 1 ==> WeightOf(w[r]) >= Fib(DepthOf(w[a]) + 1))
  }

  ghost predicate Weighed(p: seq<int>, w: seq<int>, top: int) {
    && (forall k {:trigger Lower(p, w, top, k)} :: 1 <= k <= top ==> Lower(p, w, top, k))
    && (forall a {:trigger Heavy(w, a)} :: 1 <= a <= top && IsRoot(p, a) ==> Heavy(w, a))
    && (forall a, r {:trigger Spared(w, a, r)} ::
          1 <= a <= top && 1 <= r <= top && a != r && IsRoot(p, a) && IsRoot(p, r) ==> Spared(w, a, r))
  }

  /** The weight of all roots up to k. */
  function RootSum(p: seq<int>, w: seq<int>, k: nat): int
    requires k < |p| && k < |w|
  {
    if k == 0 then 0 else RootSum(p, w, k - 1) + if p[k] == -1 then WeightOf(w[k]) else 0
  }

  lemma {:induction false} RootSumDrops(p: seq<int>, w: seq<int>, k: nat, a: int, v: int)
    requires k < |p| && k < |w| && 1 <= a <= k && p[a] == -1 && v != -1
    ensures RootSum(p[a := v], w, k) == RootSum(p, w, k) - WeightOf(w[a])
  {
    if a < k {
      RootSumDrops(p, w, k - 1, a, v);
    } else {
      RootSumSame(p, w, p[a := v], w, k - 1);
    }
  }

  lemma {:induction false} RootSumSame(p: seq<int>, w: seq<int>, p': seq<int>, w': seq<int>, k: nat)
    requires k < |p| == |p'| && k < |w| == |w'|
    requires forall i :: 1 <= i <= k ==> p'[i] == p[i] && w'[i] == w[i]
    ensures RootSum(p', w', k) == RootSum(p, w, k)
  {
    if k != 0 {
      RootSumSame(p, w, p', w', k - 1);
    }
  }

  lemma {:induction false} RootSumNonNegative(p: seq<int>, w: seq<int>, k: nat)
    requires k < |p| && k < |w| && forall i :: 1 <= i <= k ==> w[i] >= 0
    ensures RootSum(p, w, k) >= 0
  {
    if k != 0 {
      RootSumNonNegative(p, w, k - 1);
    }
  }

  /** The new root's weight is part of the total, and the total stays. */
  lemma MergeSum(p: seq<int>, w: seq<int>, top: int, a: int, b: int)
    requires 0 <= top < |p| - 1 && |w| == |p| && 1 <= a <= top && 1 <= b <= top && a != b
    requires IsRoot(p, a) && IsRoot(p, b) && forall i :: 1 <= i <= top ==> w[i] >= 0
    requires 1 + Max(DepthOf(w[a]), DepthOf(w[b])) < 256
    ensures WeightOf(w[a]) + WeightOf(w[b]) <= RootSum(p, w, top)
    ensures RootSum(Merged(p, top, a, b), w[top + 1 := AddWeights(w[a], w[b])], top + 1) == RootSum(p, w, top)
  {
    var p1 := p[a := top + 1];
    var p2 := p1[b := top + 1];
    RootSumDrops(p, w, top, a, top + 1);
    RootSumDrops(p1, w, top, b, top + 1);
    RootSumNonNegative(p2, w, top);
    RootSumSame(p2, w, Merged(p, top, a, b), w[top + 1 := AddWeights(w[a], w[b])], top);
  }

  /** a and b weigh no more than any other root. */
  ghost predicate Lightest(p: seq<int>, w: seq<int>, top: int, a: int, b: int) {
    && 1 <= a <= top < |w| && 1 <= b <= top && a != b && IsRoot(p, a) && IsRoot(p, b)
    && forall r :: 1 <= r <= top && r != a && r != b && IsRoot(p, r) ==> w[r] >= w[a] && w[r] >= w[b]
  }

  /** Merging gives the new root the weight its height demands. */
  lemma MergeHeavy(p: seq<int>, w: seq<int>, top: int, a: int, b: int)
    requires Weighed(p, w, top) && Lightest(p, w, top, a, b)
    ensures WeightOf(w[a]) + WeightOf(w[b]) >= Fib(1 + Max(DepthOf(w[a]), DepthOf(w[b])) + 2)
  {
    assert Heavy(w, a) && Heavy(w, b) && Spared(w, a, b) && Spared(w, b, a) && Lower(p, w, top, a) && Lower(p, w, top, b);
    var d := Max(DepthOf(w[a]), DepthOf(w[b]));
    assert Fib(d + 3) == Fib(d + 2) + Fib(d + 1);
    assert Fib(1) == 1;
  }

  lemma HeightBound(weight: int, d: nat)
    requires Fib(d + 2) <= weight
    ensures weight < 0x80_0000 ==> d <= 32
    ensures weight < 610 ==> d <= 12
  {
    FibValues();
    if d >= 33 {
      FibGrows(35, d + 2);
    } else if d >= 13 {
      FibGrows(15, d + 2);
    }
  }

  /** Every height stays far below 256. */
  lemma HeightFits(p: seq<int>, w: seq<int>, top: int, a: int, b: int)
    requires Weighed(p, w, top) && Lightest(p, w, top, a, b) && top < |p| - 1 && |w| == |p|
    requires WeightOf(w[a]) + WeightOf(w[b]) < 0x80_0000
    ensures 1 + Max(DepthOf(w[a]), DepthOf(w[b])) <= 32
  {
    MergeHeavy(p, w, top, a, b);
    HeightBound(WeightOf(w[a]) + WeightOf(w[b]), 1 + Max(DepthOf(w[a]), DepthOf(w[b])));
  }

  lemma MergeWeighed(p: seq<int>, w: seq<int>, top: int, a: int, b: int)
    requires Weighed(p, w, top) && Lightest(p, w, top, a, b) && top < |p| - 1 && |w| == |p|
    requires 1 + Max(DepthOf(w[a]), DepthOf(w[b])) < 256
    ensures Weighed(Merged(p, top, a, b), w[top + 1 := AddWeights(w[a], w[b])], top + 1)
  {
    var q, v := Merged(p, top, a, b), AddWeights(w[a], w[b]);
    var u := w[top + 1 := v];
    MergeHeavy(p, w, top, a, b);
    assert Lower(p, w, top, a) && Lower(p, w, top, b);
    assert WeightOf(v) == WeightOf(w[a]) + WeightOf(w[b]);
    assert DepthOf(v) == 1 + Max(DepthOf(w[a]), DepthOf(w[b]));
    var next := top + 1;
    forall k | 1 <= k <= next
      ensures Lower(q, u, next, k)
    {
      if k <= top {
        assert Lower(p, w, top, k);
      }
    }
    forall k | 1 <= k <= top + 1 && IsRoot(q, k)
      ensures Heavy(u, k)
    {
      if k <= top {
        assert Heavy(w, k);
      }
    }
    forall k, r | 1 <= k <= top + 1 && 1 <= r <= top + 1 && k != r && IsRoot(q, k) && IsRoot(q, r)
      ensures Spared(u, k, r)
    {
      MergeSpared(p, w, top, a, b, k, r);
    }
  }

  lemma MergeSpared(p: seq<int>, w: seq<int>, top: int, a: int, b: int, k: int, r: int)
    requires Weighed(p, w, top) && Lightest(p, w, top, a, b) && top < |p| - 1 && |w| == |p|
    requires 1 + Max(DepthOf(w[a]), DepthOf(w[b])) < 256
    requires 1 <= k <= top + 1 && 1 <= r <= top + 1 && k != r
    requires IsRoot(Merged(p, top, a, b), k) && IsRoot(Merged(p, top, a, b), r)
    ensures Spared(w[top + 1 := AddWeights(w[a], w[b])], k, r)
  {
    var v := AddWeights(w[a], w[b]);
    assert Lower(p, w, top, a) && Lower(p, w, top, b) && Heavy(w, a) && Heavy(w, b);
    assert WeightOf(v) == WeightOf(w[a]) + WeightOf(w[b]);
    assert DepthOf(v) == 1 + Max(DepthOf(w[a]), DepthOf(w[b]));
    if k == top + 1 {
      assert w[r] >= w[a] && w[r] >= w[b];
    } else if r == top + 1 {
      assert Spared(w, k, a);
    } else {
      assert Spared(w, k, r);
    }
  }
}
