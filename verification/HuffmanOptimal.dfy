/** Merging the two lightest roots again and again leads to a code that no other code beats: its weighted length is least
    among all tables of lengths that satisfy Kraft's inequality. */
module HuffmanOptimal {
  import opened Counting
  import opened Bits
  import opened HuffmanCodes
  import opened HuffmanTree
  import opened HuffmanKraft

  // ----- lengths given to roots

  function Part(l: int, d: nat): nat {
    if 0 <= l <= d then Pow2(d - l) else 0
  }

  /** The Kraft sum over the roots up to k, scaled by 2^d. */
  function Space(p: seq<int>, ls: seq<int>, d: nat, k: nat): nat
    requires k < |p| <= |ls|
  {
    if k == 0 then 0 else Space(p, ls, d, k - 1) + if p[k] == -1 then Part(ls[k], d) else 0
  }

  /** The weighted length over the roots up to k. */
  function Cost(p: seq<int>, w: seq<int>, ls: seq<int>, k: nat): int
    requires k < |p| <= |ls| && |p| <= |w|
  {
    if k == 0 then 0 else Cost(p, w, ls, k - 1) + if p[k] == -1 then WeightOf(w[k]) * ls[k] else 0
  }

  ghost predicate Allowed(p: seq<int>, ls: seq<int>, d: nat, i: int)
    requires |p| <= |ls|
  {
    IsRoot(p, i) ==> 0 <= ls[i] <= d
  }

  ghost predicate Fits(p: seq<int>, top: nat, ls: seq<int>, d: nat) {
    && top < |p| == |ls| && (forall i {:trigger Allowed(p, ls, d, i)} :: 1 <= i <= top ==> Allowed(p, ls, d, i))
    && Space(p, ls, d, top) <= Pow2(d)
  }

  lemma {:induction false} SpaceSet(p: seq<int>, ls: seq<int>, d: nat, k: nat, i: nat, v: int)
    requires k < |p| <= |ls| && 1 <= i < |p| && p[i] == -1
    ensures Space(p, ls[i := v], d, k) == Space(p, ls, d, k) + if i <= k then Part(v, d) - Part(ls[i], d) else 0
  {
    if k != 0 {
      SpaceSet(p, ls, d, k - 1, i, v);
    }
  }

  lemma {:induction false} CostSet(p: seq<int>, w: seq<int>, ls: seq<int>, k: nat, i: nat, v: int)
    requires k < |p| <= |ls| && |p| <= |w| && 1 <= i < |p| && p[i] == -1
    ensures Cost(p, w, ls[i := v], k) == Cost(p, w, ls, k) + if i <= k then WeightOf(w[i]) * v - WeightOf(w[i]) * ls[i] else 0
  {
    if k != 0 {
      CostSet(p, w, ls, k - 1, i, v);
    }
  }

  lemma {:induction false} SpaceSame(p: seq<int>, ls: seq<int>, p1: seq<int>, ls1: seq<int>, d: nat, k: nat)
    requires k < |p| == |p1| && |p| <= |ls| && |p| <= |ls1| && forall i :: 1 <= i <= k ==> p1[i] == p[i] && ls1[i] == ls[i]
    ensures Space(p1, ls1, d, k) == Space(p, ls, d, k)
  {
    if k != 0 {
      SpaceSame(p, ls, p1, ls1, d, k - 1);
    }
  }

  lemma {:induction false} CostSame(p: seq<int>, w: seq<int>, ls: seq<int>, p1: seq<int>, w1: seq<int>, ls1: seq<int>, k: nat)
    requires k < |p| == |p1| && |p| <= |ls| && |p| <= |ls1| && |p| <= |w| && |p| <= |w1|
    requires forall i :: 1 <= i <= k ==> p1[i] == p[i] && ls1[i] == ls[i] && w1[i] == w[i]
    ensures Cost(p1, w1, ls1, k) == Cost(p, w, ls, k)
  {
    if k != 0 {
      CostSame(p, w, ls, p1, w1, ls1, k - 1);
    }
  }

  lemma {:induction false} SpaceDrops(p: seq<int>, ls: seq<int>, d: nat, k: nat, a: nat, v: int)
    requires k < |p| <= |ls| && 1 <= a <= k && p[a] == -1 && v != -1
    ensures Space(p[a := v], ls, d, k) == Space(p, ls, d, k) - Part(ls[a], d)
  {
    if a < k {
      SpaceDrops(p, ls, d, k - 1, a, v);
    } else {
      SpaceSame(p, ls, p[a := v], ls, d, k - 1);
    }
  }

  lemma {:induction false} CostDrops(p: seq<int>, w: seq<int>, ls: seq<int>, k: nat, a: nat, v: int)
    requires k < |p| <= |ls| && |p| <= |w| && 1 <= a <= k && p[a] == -1 && v != -1
    ensures Cost(p[a := v], w, ls, k) == Cost(p, w, ls, k) - WeightOf(w[a]) * ls[a]
  {
    if a < k {
      CostDrops(p, w, ls, k - 1, a, v);
    } else {
      CostSame(p, w, ls, p[a := v], w, ls, k - 1);
    }
  }

  // ----- exchanging lengths

  function Swapped(ls: seq<int>, i: nat, j: nat): seq<int>
    requires i < |ls| && j < |ls|
  {
    ls[i := ls[j]][j := ls[i]]
  }

  lemma Exchange(u: int, v: int, x: int, y: int)
    requires u <= v && x <= y
    ensures u * y + v * x <= u * x + v * y
  {
    assert (v - u) * (y - x) >= 0;
  }

  /** Giving the longer length to the lighter root costs no more. */
  lemma SwapFits(p: seq<int>, w: seq<int>, top: nat, ls: seq<int>, d: nat, a: nat, x: nat)
    requires Fits(p, top, ls, d) && |w| == |p| && 1 <= a <= top && 1 <= x <= top && IsRoot(p, a) && IsRoot(p, x)
    requires WeightOf(w[a]) <= WeightOf(w[x]) && ls[a] <= ls[x]
    ensures Fits(p, top, Swapped(ls, a, x), d) && Cost(p, w, Swapped(ls, a, x), top) <= Cost(p, w, ls, top)
  {
    if a == x {
      assert Swapped(ls, a, x) == ls;
    } else {
      var l1 := ls[a := ls[x]];
      SpaceSet(p, ls, d, top, a, ls[x]);
      SpaceSet(p, l1, d, top, x, ls[a]);
      CostSet(p, w, ls, top, a, ls[x]);
      CostSet(p, w, l1, top, x, ls[a]);
      Exchange(WeightOf(w[a]), WeightOf(w[x]), ls[a], ls[x]);
      forall i | 1 <= i <= top
        ensures Allowed(p, Swapped(ls, a, x), d, i)
      {
        assert Allowed(p, ls, d, i) && Allowed(p, ls, d, a) && Allowed(p, ls, d, x);
      }
    }
  }

  /** A root with the greatest length among those other than ex. */
  lemma {:induction false} Deepest(p: seq<int>, ls: seq<int>, top: nat, ex: int, r: nat) returns (x: nat)
    requires top < |p| <= |ls| && 1 <= r <= top && IsRoot(p, r) && r != ex
    ensures 1 <= x <= top && IsRoot(p, x) && x != ex
    ensures forall i :: 1 <= i <= top && IsRoot(p, i) && i != ex ==> ls[i] <= ls[x]
  {
    x := r;
    for k := 1 to top + 1
      invariant 1 <= x <= top && IsRoot(p, x) && x != ex
      invariant forall i :: 1 <= i < k && IsRoot(p, i) && i != ex ==> ls[i] <= ls[x]
    {
      if p[k] == -1 && k != ex && ls[k] > ls[x] {
        x := k;
      }
    }
  }

  // ----- the two lightest roots at the same depth

  /** All lengths up to y: the scaled sum is a multiple of 2^(d - y). */
  lemma {:induction false} SpaceMultiple(p: seq<int>, ls: seq<int>, d: nat, y: nat, k: nat)
    requires k < |p| <= |ls| && y <= d && forall i :: 1 <= i <= k && IsRoot(p, i) ==> 0 <= ls[i] <= y
    ensures Space(p, ls, d, k) == Space(p, ls, y, k) * Pow2(d - y)
  {
    if k != 0 {
      SpaceMultiple(p, ls, d, y, k - 1);
      if p[k] == -1 {
        assert IsRoot(p, k);
        Pow2Sum(y - ls[k], d - y);
        Distribute(Space(p, ls, y, k - 1), Pow2(y - ls[k]), Pow2(d - y));
      }
    }
  }

  lemma Distribute(a: nat, b: nat, c: nat)
    ensures (a + b) * c == a * c + b * c
  {
  }

  lemma Positive(x: int, q: nat)
    requires q > 0 && x * q > 0
    ensures x > 0
  {
  }

  lemma OneLess(c: nat, e: nat, q: nat, r: nat)
    requires r > 0 && q > 0 && c * q + r <= e * q
    ensures c * q + q <= e * q
  {
    assert (e - c) * q == e * q - c * q;
    Positive(e - c, q);
    assert (e - c - 1) * q >= 0;
  }

  /** The others leave room for two at the second greatest length. */
  lemma RoomToShorten(p: seq<int>, top: nat, ls: seq<int>, d: nat, a: nat, y: nat)
    requires Fits(p, top, ls, d) && 1 <= a <= top && IsRoot(p, a) && y <= ls[a] <= d
    requires forall i :: 1 <= i <= top && IsRoot(p, i) && i != a ==> 0 <= ls[i] <= y
    ensures Space(p, ls[a := y], d, top) <= Pow2(d)
  {
    var rest := p[a := 0];
    SpaceSet(p, ls, d, top, a, y);
    SpaceDrops(p, ls, d, top, a, 0);
    assert forall i :: 1 <= i <= top && IsRoot(rest, i) ==> IsRoot(p, i) && i != a;
    SpaceMultiple(rest, ls, d, y, top);
    Pow2Sum(y, d - y);
    OneLess(Space(rest, ls, y, top), Pow2(y), Pow2(d - y), Part(ls[a], d));
  }

  /** A length greater than all others is of no use: there is room to shorten it. */
  lemma Shorten(p: seq<int>, w: seq<int>, top: nat, ls: seq<int>, d: nat, a: nat, b: nat)
    requires Fits(p, top, ls, d) && |w| == |p| && 1 <= a <= top && 1 <= b <= top && a != b && IsRoot(p, a) && IsRoot(p, b)
    requires WeightOf(w[a]) >= 0 && ls[b] <= ls[a] && forall i :: 1 <= i <= top && IsRoot(p, i) && i != a ==> ls[i] <= ls[b]
    ensures Fits(p, top, ls[a := ls[b]], d) && Cost(p, w, ls[a := ls[b]], top) <= Cost(p, w, ls, top)
  {
    assert Allowed(p, ls, d, a) && Allowed(p, ls, d, b);
    var y, l1 := ls[b], ls[a := ls[b]];
    forall i | 1 <= i <= top && IsRoot(p, i) && i != a
      ensures 0 <= ls[i] <= y
    {
      assert Allowed(p, ls, d, i);
    }
    RoomToShorten(p, top, ls, d, a, y);
    CostSet(p, w, ls, top, a, y);
    assert WeightOf(w[a]) * (ls[a] - y) >= 0;
    forall i | 1 <= i <= top
      ensures Allowed(p, l1, d, i)
    {
      assert Allowed(p, ls, d, i);
    }
  }

  /** Lengths for the roots in which a and b share the greatest one, at no more cost. */
  lemma Siblings(p: seq<int>, w: seq<int>, top: nat, ls: seq<int>, d: nat, a: nat, b: nat) returns (l1: seq<int>)
    requires Fits(p, top, ls, d) && |w| == |p| && Lightest(p, w, top, a, b) && WeightOf(w[a]) >= 0
    requires w[a] <= w[b]
    ensures Fits(p, top, l1, d) && Cost(p, w, l1, top) <= Cost(p, w, ls, top) && l1[a] == l1[b]
  {
    var x := Deepest(p, ls, top, 0, a);
    SwapFits(p, w, top, ls, d, a, x);
    var s1 := Swapped(ls, a, x);
    var y := Deepest(p, s1, top, a, b);
    SwapFits(p, w, top, s1, d, b, y);
    var s2 := Swapped(s1, b, y);
    Shorten(p, w, top, s2, d, a, b);
    l1 := s2[a := s2[b]];
  }

  // ----- one merge

  lemma HalfPart(l: int, d: nat)
    requires 1 <= l <= d
    ensures Part(l - 1, d) == Part(l, d) + Part(l, d)
  {
  }

  /** The merged root gets one bit less than the two it is made of. */
  lemma MergeLengths(p: seq<int>, w: seq<int>, top: nat, ls: seq<int>, d: nat, a: nat, b: nat) returns (l1: seq<int>)
    requires Fits(p, top, ls, d) && |w| == |p| && top + 1 < |p| && Lightest(p, w, top, a, b) && ls[a] == ls[b]
    requires AddWeights(w[a], w[b]) / 256 == WeightOf(w[a]) + WeightOf(w[b])
    ensures Fits(Merged(p, top, a, b), top + 1, l1, d)
    ensures Cost(Merged(p, top, a, b), w[top + 1 := AddWeights(w[a], w[b])], l1, top + 1) + WeightOf(w[a]) + WeightOf(w[b]) == Cost(p, w, ls, top)
  {
    assert Allowed(p, ls, d, a) && Allowed(p, ls, d, b);
    var x := ls[a];
    var p1 := p[a := top + 1];
    var p2 := p1[b := top + 1];
    SpaceDrops(p, ls, d, top, a, top + 1);
    SpaceDrops(p1, ls, d, top, b, top + 1);
    CostDrops(p, w, ls, top, a, top + 1);
    CostDrops(p1, w, ls, top, b, top + 1);
    NotAllRoom(x, d, Space(p2, ls, d, top));
    HalfPart(x, d);
    l1 := ls[top + 1 := x - 1];
    var q, w1 := Merged(p, top, a, b), w[top + 1 := AddWeights(w[a], w[b])];
    SpaceSame(p2, ls, q, l1, d, top);
    CostSame(p2, w, ls, q, w1, l1, top);
    TwoBits(WeightOf(w[a]), WeightOf(w[b]), x);
    forall i | 1 <= i <= top + 1
      ensures Allowed(q, l1, d, i)
    {
      if i <= top {
        assert Allowed(p, ls, d, i);
      }
    }
  }

  lemma TwoBits(u: int, v: int, x: int)
    ensures (u + v) * (x - 1) + u + v == u * x + v * x
  {
  }

  /** Two roots cannot both have the empty code. */
  lemma NotAllRoom(x: int, d: nat, rest: nat)
    requires 0 <= x <= d && Part(x, d) + Part(x, d) + rest <= Pow2(d)
    ensures x >= 1
  {
  }

  // ----- no rival is better

  function LeafCost(leaf: seq<int>, len: seq<int>): int
    requires |leaf| == |len|
  {
    if leaf == [] then 0
    else
      var k := |leaf| - 1;
      LeafCost(leaf[..k], len[..k]) + WeightOf(leaf[k]) * len[k]
  }

  /** Lengths for the roots that, with the merges already made, cost no more than the rival's lengths for the leaves. */
  ghost predicate Matched(p: seq<int>, w: seq<int>, top: nat, spent: int, leaf: seq<int>, rival: seq<int>, d: nat, ls: seq<int>)
    requires |rival| == |leaf|
  {
    Fits(p, top, ls, d) && |w| == |p| && Cost(p, w, ls, top) + spent <= LeafCost(leaf, rival)
  }

  ghost predicate Best(p: seq<int>, w: seq<int>, top: nat, spent: int, leaf: seq<int>) {
    forall rival: seq<int>, d: nat {:trigger Kraft(rival, d)} :: |rival| == |leaf| && Kraft(rival, d) ==>
      exists ls :: Matched(p, w, top, spent, leaf, rival, d, ls)
  }

  lemma {:induction false} LeavesFit(p: seq<int>, w: seq<int>, leaf: seq<int>, rival: seq<int>, d: nat, ls: seq<int>)
    requires |leaf| == |rival| < |p| <= |ls| && |p| <= |w| && Lengths(rival, 1, d)
    requires forall i :: 1 <= i <= |leaf| ==> p[i] == -1 && w[i] == leaf[i - 1] && ls[i] == rival[i - 1]
    ensures Space(p, ls, d, |leaf|) == Weight(rival, d) && Cost(p, w, ls, |leaf|) == LeafCost(leaf, rival)
  {
    if leaf != [] {
      var k := |leaf| - 1;
      LeavesFit(p, w, leaf[..k], rival[..k], d, ls);
    }
  }

  /** At the start the roots are the leaves. */
  lemma BestStarts(p: seq<int>, w: seq<int>, leaf: seq<int>)
    requires |leaf| < |p| == |w| && forall i :: 1 <= i <= |leaf| ==> p[i] == -1 && w[i] == leaf[i - 1]
    ensures Best(p, w, |leaf|, 0, leaf)
  {
    forall rival: seq<int>, d: nat | |rival| == |leaf| && Kraft(rival, d)
      ensures exists ls :: Matched(p, w, |leaf|, 0, leaf, rival, d, ls)
    {
      var ls := seq(|p|, i => if 1 <= i <= |rival| then rival[i - 1] else 0);
      LeavesFit(p, w, leaf, rival, d, ls);
      forall i | 1 <= i <= |leaf|
        ensures Allowed(p, ls, d, i)
      {
        assert ls[i] == rival[i - 1];
      }
      assert Matched(p, w, |leaf|, 0, leaf, rival, d, ls);
    }
  }

  /** A merge of the two lightest roots keeps up with every rival. */
  lemma BestMerges(p: seq<int>, w: seq<int>, top: nat, spent: int, leaf: seq<int>, a: int, b: int)
    requires Best(p, w, top, spent, leaf) && |w| == |p| && top + 1 < |p| && Lightest(p, w, top, a, b)
    requires WeightOf(w[a]) >= 0 && WeightOf(w[b]) >= 0 && 1 + Max(DepthOf(w[a]), DepthOf(w[b])) < 256
    ensures Best(Merged(p, top, a, b), w[top + 1 := AddWeights(w[a], w[b])], top + 1, spent + WeightOf(w[a]) + WeightOf(w[b]), leaf)
  {
    var q, w1, more := Merged(p, top, a, b), w[top + 1 := AddWeights(w[a], w[b])], spent + WeightOf(w[a]) + WeightOf(w[b]);
    var next := top + 1;
    forall rival: seq<int>, d: nat | |rival| == |leaf| && Kraft(rival, d)
      ensures exists ls :: Matched(q, w1, next, more, leaf, rival, d, ls)
    {
      var ls :| Matched(p, w, top, spent, leaf, rival, d, ls);
      var l1;
      if w[a] <= w[b] {
        l1 := Siblings(p, w, top, ls, d, a, b);
      } else {
        l1 := Siblings(p, w, top, ls, d, b, a);
      }
      var l2 := MergeLengths(p, w, top, l1, d, a, b);
      assert Matched(q, w1, next, more, leaf, rival, d, l2);
    }
  }

  lemma {:induction false} CostNonNegative(p: seq<int>, w: seq<int>, ls: seq<int>, d: nat, k: nat, top: nat)
    requires Fits(p, top, ls, d) && k <= top && |w| == |p| && forall i :: 1 <= i <= top ==> w[i] >= 0
    ensures Cost(p, w, ls, k) >= 0
  {
    if k != 0 {
      CostNonNegative(p, w, ls, d, k - 1, top);
      assert Allowed(p, ls, d, k);
      if p[k] == -1 {
        assert WeightOf(w[k]) * ls[k] >= 0;
      }
    }
  }

  /** What was spent on merges is a lower bound for every code. */
  lemma BestBound(p: seq<int>, w: seq<int>, top: nat, spent: int, leaf: seq<int>, rival: seq<int>, d: nat)
    requires Best(p, w, top, spent, leaf) && |rival| == |leaf| && Kraft(rival, d) && forall i :: 1 <= i <= top && i < |w| ==> w[i] >= 0
    ensures spent <= LeafCost(leaf, rival)
  {
    var ls :| Matched(p, w, top, spent, leaf, rival, d, ls);
    CostNonNegative(p, w, ls, d, top, top);
  }

  // ----- what the tree costs

  /** Every inner node weighs what its children weigh. */
  ghost predicate Summed(w: seq<int>, kids: seq<(int, int)>, n: int, top: int) {
    && 0 <= n && top < |w| && top < |kids|
    && forall m {:trigger kids[m]} :: n < m <= top ==>
      && 1 <= kids[m].0 < m && 1 <= kids[m].1 < m && WeightOf(w[m]) == WeightOf(w[kids[m].0]) + WeightOf(w[kids[m].1])
  }

  /** The weights of all inner nodes. */
  function Inners(w: seq<int>, n: nat, top: nat): int
    requires top < |w|
  {
    if top <= n then 0 else Inners(w, n, top - 1) + WeightOf(w[top])
  }

  lemma {:induction false} InnersSame(w: seq<int>, w1: seq<int>, n: nat, top: nat)
    requires top < |w| && top < |w1| && forall i :: 1 <= i <= top ==> w1[i] == w[i]
    ensures Inners(w1, n, top) == Inners(w, n, top)
  {
    if top > n {
      InnersSame(w, w1, n, top - 1);
    }
  }

  lemma SummedMore(w: seq<int>, kids: seq<(int, int)>, n: int, top: int, a: int, b: int, v: int)
    requires Summed(w, kids, n, top) && top + 1 < |w| && top + 1 < |kids| && n <= top
    requires 1 <= a <= top && 1 <= b <= top && WeightOf(v) == WeightOf(w[a]) + WeightOf(w[b])
    ensures Summed(w[top + 1 := v], kids[top + 1 := (a, b)], n, top + 1)
    ensures Inners(w[top + 1 := v], n, top + 1) == Inners(w, n, top) + WeightOf(w[a]) + WeightOf(w[b])
  {
    var w1, kids1 := w[top + 1 := v], kids[top + 1 := (a, b)];
    InnersSame(w, w1, n, top);
    forall m | n < m <= top + 1
      ensures 1 <= kids1[m].0 < m && 1 <= kids1[m].1 < m && WeightOf(w1[m]) == WeightOf(w1[kids1[m].0]) + WeightOf(w1[kids1[m].1])
    {
      if m <= top {
        assert kids1[m] == kids[m];
      }
    }
  }

  /** The weighted depths of the nodes that are left when the inner nodes above m are opened. */
  function OpenCost(p: seq<int>, w: seq<int>, top: int, m: int, j: nat): int
    requires j < |p| && |p| <= |w|
  {
    if j == 0 then 0
    else OpenCost(p, w, top, m, j - 1) + if p[j] < 0 || p[j] > m then WeightOf(w[j]) * Depth(p, top, j) else 0
  }

  /** Opening an inner node replaces it by its children, one step deeper. */
  lemma {:induction false} OpenOne(p: seq<int>, w: seq<int>, kids: seq<(int, int)>, n: int, top: int, m: int, j: nat)
    requires Forest(p, kids, n, top) && n < m <= top && j < m && |p| <= |w| && Inner(p, kids, m)
    ensures OpenCost(p, w, top, m - 1, j)
         == OpenCost(p, w, top, m, j)
            + (if kids[m].0 <= j then WeightOf(w[kids[m].0]) * (Depth(p, top, m) + 1) else 0)
            + (if kids[m].1 <= j then WeightOf(w[kids[m].1]) * (Depth(p, top, m) + 1) else 0)
  {
    if j != 0 {
      OpenOne(p, w, kids, n, top, m, j - 1);
      assert Child(p, kids, n, top, j);
      assert p[j] == m <==> j == kids[m].0 || j == kids[m].1;
    }
  }

  lemma Deeper(u: int, v: int, d: int)
    ensures u * (d + 1) + v * (d + 1) == (u + v) * d + u + v
  {
  }

  lemma {:induction false} OpenNone(p: seq<int>, w: seq<int>, top: int, m: int, j: nat)
    requires j < |p| && |p| <= |w| && forall k :: 1 <= k <= j ==> 0 <= p[k] <= m
    ensures OpenCost(p, w, top, m, j) == 0
  {
    if j != 0 {
      OpenNone(p, w, top, m, j - 1);
    }
  }

  lemma OpenStep(p: seq<int>, w: seq<int>, kids: seq<(int, int)>, n: int, top: int, m: int)
    requires Forest(p, kids, n, top) && Summed(w, kids, n, top) && n < m <= top && |p| <= |w|
    ensures OpenCost(p, w, top, m - 1, m - 1) == OpenCost(p, w, top, m, m) + WeightOf(w[m])
  {
    assert Inner(p, kids, m) && Child(p, kids, n, top, m);
    OpenOne(p, w, kids, n, top, m, m - 1);
    Deeper(WeightOf(w[kids[m].0]), WeightOf(w[kids[m].1]), Depth(p, top, m));
  }

  /** The weighted depths of the leaves are the weights of all inner nodes. */
  lemma {:induction false} OpenAll(p: seq<int>, w: seq<int>, kids: seq<(int, int)>, n: nat, top: nat, m: nat)
    requires Forest(p, kids, n, top) && Summed(w, kids, n, top) && n <= m <= top && |p| <= |w| && IsRoot(p, top)
    requires forall r :: 1 <= r < top ==> !IsRoot(p, r)
    ensures OpenCost(p, w, top, m, m) + Inners(w, n, m) == Inners(w, n, top)
    decreases top - m
  {
    if m == top {
      forall k | 1 <= k <= top - 1
        ensures 0 <= p[k] <= top
      {
        assert Child(p, kids, n, top, k) && !IsRoot(p, k);
      }
      OpenNone(p, w, top, top, top - 1);
    } else {
      OpenAll(p, w, kids, n, top, m + 1);
      OpenStep(p, w, kids, n, top, m + 1);
    }
  }

  lemma {:induction false} LeavesCost(p: seq<int>, w: seq<int>, top: int, m: int, leaf: seq<int>, len: seq<int>)
    requires |len| == |leaf| < |p| <= |w| && LeafDepths(len, p, top, |len|) && forall k :: 1 <= k <= |len| ==> p[k] > m
    requires forall i :: 0 <= i < |leaf| ==> w[i + 1] == leaf[i]
    ensures OpenCost(p, w, top, m, |len|) == LeafCost(leaf, len)
  {
    if len != [] {
      var k := |len| - 1;
      LeavesCost(p, w, top, m, leaf[..k], len[..k]);
      assert len[k] == Depth(p, top, k + 1) && w[k + 1] == leaf[k];
    }
  }

  /** The depths of the leaves cost what was spent on merges. */
  lemma TreeCost(p: seq<int>, w: seq<int>, kids: seq<(int, int)>, top: nat, leaf: seq<int>, len: seq<int>)
    requires Forest(p, kids, |leaf|, top) && Summed(w, kids, |leaf|, top) && |p| <= |w| && IsRoot(p, top) && |leaf| < top
    requires forall r :: 1 <= r < top ==> !IsRoot(p, r)
    requires LeafDepths(len, p, top, |leaf|) && forall i :: 0 <= i < |leaf| ==> w[i + 1] == leaf[i]
    ensures LeafCost(leaf, len) == Inners(w, |leaf|, top)
  {
    var n := |leaf|;
    OpenAll(p, w, kids, n, top, n);
    forall k | 1 <= k <= n
      ensures p[k] > n
    {
      assert Child(p, kids, n, top, k) && !IsRoot(p, k);
    }
    LeavesCost(p, w, top, n, leaf, len);
  }
}
