/** BZ2_hbMakeCodeLengths: merges the two lightest roots until one is left, measures the leaves, and starts
    over with flatter weights while a code is too long. */
module HuffmanLengths {
  import opened Counting
  import opened Bits
  import opened HuffmanCodes
  import opened HuffmanTree
  import opened HuffmanKraft
  import opened HuffmanOptimal
  import opened Heap

  const NODES := 516

  /** Once the sentinel, and once every root. */
  ghost predicate HeapRoots(s: seq<int>, p: seq<int>, top: int) {
    0 <= top < |p| && forall k {:trigger multiset(s)[k]} ::
      multiset(s)[k] == if k == 0 || (1 <= k <= top && p[k] == -1) then 1 else 0
  }

  /** Everything that one merge keeps; leaf weights stay as they were. */
  ghost predicate Building(s: seq<int>, p: seq<int>, w: seq<int>, kids: seq<(int, int)>, leaf: seq<int>, top: int, sum: int) {
    && |p| == |w| == |kids| == NODES && 2 <= |leaf| <= MAX_ALPHA_SIZE && |leaf| <= top
    && Forest(p, kids, |leaf|, top) && Weighed(p, w, top) && p[top] == -1
    && IsHeap(s, w) && HeapRoots(s, p, top) && |s| - 1 + top == 2 * |leaf| && |s| >= 2
    && RootSum(p, w, top) == sum < 0x80_0000 && w[1..|leaf| + 1] == leaf
  }

  /** The merges made so far cost no more than any code for the leaves would. */
  ghost predicate Thrifty(p: seq<int>, w: seq<int>, kids: seq<(int, int)>, leaf: seq<int>, top: int) {
    && 0 <= top < |w| && Summed(w, kids, |leaf|, top) && Best(p, w, top, Inners(w, |leaf|, top), leaf)
  }

  lemma ThriftyStarts(p: seq<int>, w: seq<int>, kids: seq<(int, int)>, leaf: seq<int>)
    requires |leaf| < |p| == |w| == |kids| && w[1..|leaf| + 1] == leaf && forall k :: 1 <= k <= |leaf| ==> p[k] == -1
    ensures Thrifty(p, w, kids, leaf, |leaf|)
  {
    forall i | 1 <= i <= |leaf|
      ensures w[i] == leaf[i - 1]
    {
      assert w[1..|leaf| + 1][i - 1] == w[i];
    }
    BestStarts(p, w, leaf);
  }

  lemma ThriftyMerges(s: seq<int>, p: seq<int>, w: seq<int>, kids: seq<(int, int)>, leaf: seq<int>, top: int, sum: int, a: int, b: int)
    requires Building(s, p, w, kids, leaf, top, sum) && Thrifty(p, w, kids, leaf, top) && top + 1 < NODES && Lightest(p, w, top, a, b)
    ensures Thrifty(Merged(p, top, a, b), w[top + 1 := AddWeights(w[a], w[b])], kids[top + 1 := (a, b)], leaf, top + 1)
  {
    WeightsPositive(p, w, top);
    MergeFits(p, w, top, sum, a, b);
    SummedMore(w, kids, |leaf|, top, a, b, AddWeights(w[a], w[b]));
    BestMerges(p, w, top, Inners(w, |leaf|, top), leaf, a, b);
  }

  lemma InHeap(s: seq<int>, p: seq<int>, top: int, k: int)
    requires HeapRoots(s, p, top) && k != 0
    ensures k in s <==> 1 <= k <= top && p[k] == -1
  {
    assert k in s <==> multiset(s)[k] > 0;
  }

  /** What two pops leave of the heap. */
  ghost predicate Popped(s: seq<int>, t: seq<int>, a: int, b: int) {
    multiset(t) + multiset{b} + multiset{a} == multiset(s)
  }

  lemma TwoLightest(s: seq<int>, r: seq<int>, t: seq<int>, p: seq<int>, w: seq<int>, top: int, a: int, b: int)
    requires |s| >= 3 && |t| >= 1 && t[0] == 0 && HeapRoots(s, p, top) && top < |w|
    requires multiset(r) + multiset{a} == multiset(s) && multiset(t) + multiset{b} == multiset(r)
    requires 0 <= a < |w| && 0 <= b < |w|
    requires forall k :: k in s && k != 0 ==> 0 <= k < |w| && w[a] <= w[k]
    requires forall k :: k in r && k != 0 ==> 0 <= k < |w| && w[b] <= w[k]
    ensures Lightest(p, w, top, a, b) && Popped(s, t, a, b)
  {
    assert 0 in t && multiset(t)[0] >= 1;
    assert multiset(s)[a] >= 1 && multiset(s)[b] >= 1;
    assert multiset(s)[0] == 1;
    assert a != 0 && b != 0;
    assert a != b by { assert multiset(s)[a] == 1; }
    InHeap(s, p, top, a);
    InHeap(s, p, top, b);
    forall k | 1 <= k <= top && k != a && k != b && IsRoot(p, k)
      ensures w[k] >= w[a] && w[k] >= w[b]
    {
      InHeap(s, p, top, k);
      assert multiset(r)[k] == multiset(s)[k];
      assert k in r;
    }
  }

  lemma RootsAfter(s: seq<int>, t: seq<int>, u: seq<int>, p: seq<int>, top: int, a: int, b: int)
    requires HeapRoots(s, p, top) && Popped(s, t, a, b) && top + 1 < |p|
    requires 1 <= a <= top && 1 <= b <= top && a != b && p[a] == -1 && p[b] == -1
    requires multiset(u) == multiset(t) + multiset{top + 1}
    ensures HeapRoots(u, Merged(p, top, a, b), top + 1) && top + 1 !in t
  {
    var q := Merged(p, top, a, b);
    forall k
      ensures multiset(u)[k] == if k == 0 || (1 <= k <= top + 1 && q[k] == -1) then 1 else 0
    {
      assert multiset(s)[k] == multiset(t)[k] + multiset{b}[k] + multiset{a}[k];
    }
    assert multiset(s)[top + 1] == 0;
    assert multiset(t)[top + 1] == 0;
  }

  lemma MergeBuilds(s: seq<int>, t: seq<int>, u: seq<int>, p: seq<int>, w: seq<int>, kids: seq<(int, int)>, leaf: seq<int>,
                    top: int, sum: int, a: int, b: int)
    requires Building(s, p, w, kids, leaf, top, sum) && top + 1 < NODES
    requires Lightest(p, w, top, a, b) && Popped(s, t, a, b)
    requires multiset(u) == multiset(t) + multiset{top + 1} && |u| == |s| - 1 && |u| >= 2
    requires IsHeap(u, w[top + 1 := AddWeights(w[a], w[b])])
    ensures Building(u, Merged(p, top, a, b), w[top + 1 := AddWeights(w[a], w[b])], kids[top + 1 := (a, b)], leaf, top + 1, sum)
  {
    WeightsPositive(p, w, top);
    MergeFits(p, w, top, sum, a, b);
    ForestGrows(p, kids, |leaf|, top, a, b);
    MergeWeighed(p, w, top, a, b);
    MergeSum(p, w, top, a, b);
    RootsAfter(s, t, u, p, top, a, b);
  }

  lemma WeightsPositive(p: seq<int>, w: seq<int>, top: int)
    requires Weighed(p, w, top) && top < |w|
    ensures forall i :: 1 <= i <= top ==> w[i] >= 256
  {
    forall i | 1 <= i <= top
      ensures w[i] >= 256
    {
      assert Lower(p, w, top, i);
    }
  }

  lemma MergeFits(p: seq<int>, w: seq<int>, top: int, sum: int, a: int, b: int)
    requires Weighed(p, w, top) && Lightest(p, w, top, a, b) && 0 <= top < |p| - 1 && |w| == |p|
    requires RootSum(p, w, top) == sum < 0x80_0000
    ensures 1 + Max(DepthOf(w[a]), DepthOf(w[b])) <= 32
  {
    WeightsPositive(p, w, top);
    var p1 := p[a := top + 1];
    RootSumDrops(p, w, top, a, top + 1);
    RootSumDrops(p1, w, top, b, top + 1);
    RootSumNonNegative(p1[b := top + 1], w, top);
    HeightFits(p, w, top, a, b);
  }

  /** The two lightest roots leave the heap. */
  method PopTwo(heap: array<int>, weight: array<int>, nHeap: int, ghost p: seq<int>, ghost top: int)
    returns (n1: int, n2: int, h: int)
    requires heap != weight && 2 <= nHeap < heap.Length && IsHeap(heap[..nHeap + 1], weight[..])
    requires HeapRoots(heap[..nHeap + 1], p, top) && top < weight.Length
    modifies heap
    ensures h == nHeap - 2 && IsHeap(heap[..h + 1], weight[..])
    ensures Lightest(p, weight[..], top, n1, n2) && Popped(old(heap[..nHeap + 1]), heap[..h + 1], n1, n2)
  {
    ghost var s := heap[..nHeap + 1];
    n1, h := Pop(heap, weight, nHeap);
    ghost var r := heap[..h + 1];
    n2, h := Pop(heap, weight, h);
    TwoLightest(s, r, heap[..h + 1], p, weight[..], top, n1, n2);
  }

  /** The new node's entries. */
  method Link(weight: array<int>, parent: array<int>, n1: int, n2: int, nNodes: int)
    requires weight != parent && weight.Length == parent.Length == NODES && 0 <= nNodes && nNodes + 1 < NODES
    requires 1 <= n1 <= nNodes && 1 <= n2 <= nNodes
    modifies weight, parent
    ensures parent[..] == Merged(old(parent[..]), nNodes, n1, n2)
    ensures weight[..] == old(weight[..])[nNodes + 1 := AddWeights(old(weight[n1]), old(weight[n2]))]
  {
    parent[n1] := nNodes + 1;
    parent[n2] := nNodes + 1;
    var depth1, depth2 := weight[n1] % 256, weight[n2] % 256;
    weight[nNodes + 1] := weight[n1] - depth1 + (weight[n2] - depth2) + (1 + if depth1 > depth2 then depth1 else depth2);
    parent[nNodes + 1] := -1;
  }

  lemma NotYetListed(s: seq<int>, t: seq<int>, p: seq<int>, w: seq<int>, top: int, a: int, b: int)
    requires HeapRoots(s, p, top) && Popped(s, t, a, b) && top + 1 < |p| == |w| && IsHeap(t, w)
    requires Lightest(p, w, top, a, b) && Weighed(p, w, top)
    ensures IsHeap(t, w[top + 1 := AddWeights(w[a], w[b])]) && AddWeights(w[a], w[b]) >= 0
  {
    RootsAfter(s, t, t + [top + 1], p, top, a, b);
    OtherWeight(t, w, top + 1, AddWeights(w[a], w[b]));
    WeightsPositive(p, w, top);
  }

  /** Takes the two lightest roots and makes them children of a new one. */
  method Merge(heap: array<int>, weight: array<int>, parent: array<int>, nHeap: int, nNodes: int,
               ghost kids: seq<(int, int)>, ghost leaf: seq<int>, ghost sum: int)
    returns (nHeap': int, ghost kids': seq<(int, int)>)
    requires heap != weight && heap != parent && weight != parent && heap.Length == MAX_ALPHA_SIZE + 2
    requires weight.Length == parent.Length == NODES && 2 <= nHeap < heap.Length && nNodes + 1 < NODES
    requires Building(heap[..nHeap + 1], parent[..], weight[..], kids, leaf, nNodes, sum)
    requires Thrifty(parent[..], weight[..], kids, leaf, nNodes)
    modifies heap, weight, parent
    ensures nHeap' == nHeap - 1 && Building(heap[..nHeap' + 1], parent[..], weight[..], kids', leaf, nNodes + 1, sum)
    ensures Thrifty(parent[..], weight[..], kids', leaf, nNodes + 1)
  {
    ghost var s, p, w := heap[..nHeap + 1], parent[..], weight[..];
    var n1, n2, h := PopTwo(heap, weight, nHeap, p, nNodes);
    ghost var t := heap[..h + 1];
    NotYetListed(s, t, p, w, nNodes, n1, n2);
    assert parent[..] == p && weight[..] == w;
    Link(weight, parent, n1, n2, nNodes);
    assert heap[..h + 1] == t;
    nHeap' := Push(heap, weight, h, nNodes + 1);
    kids' := kids[nNodes + 1 := (n1, n2)];
    MergeBuilds(s, t, heap[..nHeap' + 1], p, w, kids, leaf, nNodes, sum, n1, n2);
    ThriftyMerges(s, p, w, kids, leaf, nNodes, sum, n1, n2);
  }

  // ----- leaves

  /** Leaf weights: at least 1, with height 0. */
  ghost predicate Leaves(leaf: seq<int>) {
    forall i :: 0 <= i < |leaf| ==> leaf[i] >= 256 && DepthOf(leaf[i]) == 0
  }

  function Total(leaf: seq<int>): int {
    if leaf == [] then 0 else Total(leaf[..|leaf| - 1]) + WeightOf(leaf[|leaf| - 1])
  }

  lemma {:induction false} TotalIsRootSum(leaf: seq<int>, p: seq<int>, w: seq<int>)
    requires |leaf| < |p| && |leaf| < |w| && forall i :: 0 <= i < |leaf| ==> w[i + 1] == leaf[i] && p[i + 1] == -1
    ensures RootSum(p, w, |leaf|) == Total(leaf)
  {
    if leaf != [] {
      assert w[|leaf| - 1 + 1] == leaf[|leaf| - 1];
      TotalIsRootSum(leaf[..|leaf| - 1], p, w);
    }
  }

  lemma BuildingStarts(s: seq<int>, p: seq<int>, w: seq<int>, kids: seq<(int, int)>, leaf: seq<int>)
    requires |p| == |w| == |kids| == NODES && 2 <= |leaf| <= MAX_ALPHA_SIZE && Leaves(leaf) && Total(leaf) < 0x80_0000
    requires w[1..|leaf| + 1] == leaf && forall k :: 1 <= k <= |leaf| ==> p[k] == -1
    requires IsHeap(s, w) && HeapRoots(s, p, |leaf|) && |s| == |leaf| + 1
    ensures Building(s, p, w, kids, leaf, |leaf|, Total(leaf))
  {
    var n := |leaf|;
    forall i | 0 <= i < n
      ensures w[i + 1] == leaf[i]
    {
      assert w[1..n + 1][i] == w[i + 1];
    }
    forall k | 1 <= k <= n
      ensures Lower(p, w, n, k) && Heavy(w, k) && DepthOf(w[k]) == 0
    {
      assert w[k] == leaf[k - 1];
      assert Fib(2) == 1;
    }
    TotalIsRootSum(leaf, p, w);
  }

  lemma OneMoreRoot(s: seq<int>, u: seq<int>, p: seq<int>, i: int)
    requires 1 <= i < |p| && HeapRoots(s, p, i - 1)
    requires multiset(u) == multiset(s) + multiset{i}
    ensures HeapRoots(u, p[i := -1], i)
  {
    var q := p[i := -1];
    forall k
      ensures multiset(u)[k] == if k == 0 || (1 <= k <= i && q[k] == -1) then 1 else 0
    {
      assert multiset(s)[k] == if k == 0 || (1 <= k <= i - 1 && p[k] == -1) then 1 else 0;
    }
  }

  /** The first i leaves are roots and in the heap. */
  ghost predicate Filling(s: seq<int>, p: seq<int>, w: seq<int>, leaf: seq<int>, i: int) {
    && |p| == |w| == NODES && 0 <= i <= |leaf| <= MAX_ALPHA_SIZE && Leaves(leaf) && w[1..|leaf| + 1] == leaf
    && |s| == i + 1 && IsHeap(s, w) && HeapRoots(s, p, i) && forall k :: 1 <= k <= i ==> p[k] == -1
  }

  method AddLeaf(heap: array<int>, weight: array<int>, parent: array<int>, i: int, ghost leaf: seq<int>)
    returns (nHeap: int)
    requires heap != weight && heap != parent && weight != parent && heap.Length == MAX_ALPHA_SIZE + 2
    requires 1 <= i <= |leaf| <= MAX_ALPHA_SIZE && Filling(heap[..i], parent[..], weight[..], leaf, i - 1)
    modifies heap, parent
    ensures nHeap == i && Filling(heap[..i + 1], parent[..], weight[..], leaf, i)
  {
    ghost var s, p := heap[..i], parent[..];
    parent[i] := -1;
    assert parent[..] == p[i := -1];
    assert weight[i] == weight[..][1..|leaf| + 1][i - 1];
    nHeap := Push(heap, weight, i - 1, i);
    OneMoreRoot(s, heap[..i + 1], p, i);
  }

  /** All leaves become roots and enter the heap. */
  method FillHeap(heap: array<int>, weight: array<int>, parent: array<int>, n: int, ghost kids: seq<(int, int)>, ghost leaf: seq<int>)
    returns (nHeap: int)
    requires heap != weight && heap != parent && weight != parent && heap.Length == MAX_ALPHA_SIZE + 2
    requires weight.Length == parent.Length == NODES == |kids| && 2 <= n == |leaf| <= MAX_ALPHA_SIZE
    requires weight[1..n + 1] == leaf && Leaves(leaf) && Total(leaf) < 0x80_0000
    modifies heap, weight, parent
    ensures nHeap == n && Building(heap[..nHeap + 1], parent[..], weight[..], kids, leaf, n, Total(leaf))
    ensures Thrifty(parent[..], weight[..], kids, leaf, n)
  {
    nHeap := 0;
    heap[0] := 0;
    weight[0] := 0;
    parent[0] := -2;
    assert weight[..][1..n + 1] == leaf && heap[..1] == [0];
    for i := 1 to n + 1
      invariant nHeap == i - 1 && Filling(heap[..i], parent[..], weight[..], leaf, i - 1)
    {
      nHeap := AddLeaf(heap, weight, parent, i, leaf);
    }
    BuildingStarts(heap[..n + 1], parent[..], weight[..], kids, leaf);
    ThriftyStarts(parent[..], weight[..], kids, leaf);
  }

  /** One root left. */
  lemma OneRoot(s: seq<int>, p: seq<int>, w: seq<int>, kids: seq<(int, int)>, leaf: seq<int>, top: int, sum: int)
    requires Building(s, p, w, kids, leaf, top, sum) && |s| == 2
    ensures forall r :: 1 <= r < top ==> !IsRoot(p, r)
    ensures top == 2 * |leaf| - 1 && WeightOf(w[top]) <= sum && Heavy(w, top)
  {
    InHeap(s, p, top, top);
    forall r | 1 <= r < top
      ensures !IsRoot(p, r)
    {
      InHeap(s, p, top, r);
    }
    WeightsPositive(p, w, top);
    RootSumNonNegative(p, w, top - 1);
    assert IsRoot(p, top);
  }

  /** The finished tree over the given leaf weights. */
  ghost predicate Tree(p: seq<int>, w: seq<int>, kids: seq<(int, int)>, leaf: seq<int>, top: int) {
    && |p| == |w| == |kids| == NODES && 2 <= |leaf| < top < NODES
    && Forest(p, kids, |leaf|, top) && Weighed(p, w, top) && IsRoot(p, top)
    && (forall r :: 1 <= r < top ==> !IsRoot(p, r))
    && WeightOf(w[top]) <= Total(leaf) && Heavy(w, top) && w[1..|leaf| + 1] == leaf
  }

  method BuildTree(heap: array<int>, weight: array<int>, parent: array<int>, n: int, ghost leaf: seq<int>)
    returns (nNodes: int, ghost kids: seq<(int, int)>)
    requires heap != weight && heap != parent && weight != parent && heap.Length == MAX_ALPHA_SIZE + 2
    requires weight.Length == parent.Length == NODES && 2 <= n == |leaf| <= MAX_ALPHA_SIZE
    requires weight[1..n + 1] == leaf && Leaves(leaf) && Total(leaf) < 0x80_0000
    modifies heap, weight, parent
    ensures Tree(parent[..], weight[..], kids, leaf, nNodes) && Thrifty(parent[..], weight[..], kids, leaf, nNodes)
  {
    kids := seq(NODES, _ => (0, 0));
    nNodes := n;
    var nHeap := FillHeap(heap, weight, parent, n, kids, leaf);
    assert nHeap < MAX_ALPHA_SIZE + 2; // 2001
    while nHeap > 1
      invariant 1 <= nHeap < heap.Length && nHeap + nNodes == 2 * n && n <= nNodes
      invariant Building(heap[..nHeap + 1], parent[..], weight[..], kids, leaf, nNodes, Total(leaf))
      invariant Thrifty(parent[..], weight[..], kids, leaf, nNodes)
      decreases nHeap
    {
      nHeap, kids := Merge(heap, weight, parent, nHeap, nNodes, kids, leaf, Total(leaf));
      nNodes := nNodes + 1;
    }
    assert nNodes < 2 * MAX_ALPHA_SIZE; // 2002
    OneRoot(heap[..nHeap + 1], parent[..], weight[..], kids, leaf, nNodes, Total(leaf));
  }

  /** Walks from every leaf to the root. */
  method Measure(parent: array<int>, len: array<int>, n: int, maxLen: int, ghost top: int, ghost kids: seq<(int, int)>)
    returns (tooLong: bool)
    requires parent != len && n <= len.Length && Forest(parent[..], kids, n, top)
    modifies len
    ensures LeafDepths(len[..n], parent[..], top, n)
    ensures tooLong <==> exists i :: 0 <= i < n && len[i] > maxLen
  {
    tooLong := false;
    ghost var p := parent[..];
    for i := 1 to n + 1
      invariant parent[..] == p
      invariant forall k :: 0 <= k < i - 1 ==> len[k] == Depth(p, top, k + 1)
      invariant tooLong <==> exists k :: 0 <= k < i - 1 && len[k] > maxLen
    {
      var j, k := 0, i;
      assert Child(p, kids, n, top, k);
      while parent[k] >= 0
        invariant 1 <= k <= top && j + Depth(p, top, k) == Depth(p, top, i) && Child(p, kids, n, top, k)
        decreases top - k
        modifies {}
      {
        assert p[k] == parent[k];
        k := parent[k];
        assert Child(p, kids, n, top, k);
        j := j + 1;
      }
      assert p[k] == parent[k];
      ghost var was := len[..];
      len[i - 1] := j;
      assert forall k :: 0 <= k < i - 1 ==> len[k] == was[k];
      if j > maxLen {
        tooLong := true;
      }
    }
  }

  // ----- rescaling

  function Rescaled(w: int): int {
    256 * (1 + WeightOf(w) / 2)
  }

  function RescaledAll(leaf: seq<int>): (r: seq<int>)
    ensures |r| == |leaf|
  {
    seq(|leaf|, i requires 0 <= i < |leaf| => Rescaled(leaf[i]))
  }

  /** Rescaling never raises a weight, and lowers every weight above 2. */
  lemma {:induction false} RescaleShrinks(leaf: seq<int>)
    requires Leaves(leaf)
    ensures Leaves(RescaledAll(leaf)) && 0 <= Total(RescaledAll(leaf)) <= Total(leaf)
    ensures Total(RescaledAll(leaf)) == Total(leaf) ==> Total(leaf) <= 2 * |leaf|
  {
    if leaf != [] {
      var k := |leaf| - 1;
      RescaleShrinks(leaf[..k]);
      assert RescaledAll(leaf)[..k] == RescaledAll(leaf[..k]);
    }
  }

  function RescaledTimes(leaf: seq<int>, rounds: nat): (r: seq<int>)
    ensures |r| == |leaf|
  {
    if rounds == 0 then leaf else RescaledAll(RescaledTimes(leaf, rounds - 1))
  }

  /** Before each of the first rounds of rescaling the weights allowed a code longer than maxLen. */
  ghost predicate TooHeavy(leaf: seq<int>, rounds: nat, maxLen: nat) {
    forall r: nat {:trigger RescaledTimes(leaf, r)} :: r < rounds ==> Total(RescaledTimes(leaf, r)) >= Fib(maxLen + 3)
  }

  lemma NextRound(leaf: seq<int>, rounds: nat, maxLen: nat)
    requires TooHeavy(leaf, rounds, maxLen) && Total(RescaledTimes(leaf, rounds)) >= Fib(maxLen + 3)
    ensures TooHeavy(leaf, rounds + 1, maxLen) && RescaledTimes(leaf, rounds + 1) == RescaledAll(RescaledTimes(leaf, rounds))
  {
  }

  method Rescale(weight: array<int>, n: int, ghost leaf: seq<int>)
    requires weight.Length == NODES && 2 <= n == |leaf| <= MAX_ALPHA_SIZE && weight[1..n + 1] == leaf
    modifies weight
    ensures weight[1..n + 1] == RescaledAll(leaf)
  {
    for i := 1 to n + 1
      invariant forall k :: 1 <= k < i ==> weight[k] == Rescaled(leaf[k - 1])
      invariant forall k :: i <= k <= n ==> weight[k] == leaf[k - 1]
    {
      var j := weight[i] / 256;
      j := 1 + j / 2;
      weight[i] := 256 * j;
    }
  }

  // ----- the whole

  /** The weight of a symbol: its frequency, but at least 1. */
  function LeafWeight(f: int): int {
    256 * if f == 0 then 1 else f
  }

  function LeafWeights(freq: seq<int>): (r: seq<int>)
    ensures |r| == |freq|
  {
    seq(|freq|, i requires 0 <= i < |freq| => LeafWeight(freq[i]))
  }

  method InitWeights(freq: seq<int>, weight: array<int>)
    requires weight.Length == NODES && |freq| <= MAX_ALPHA_SIZE
    modifies weight
    ensures weight[1..|freq| + 1] == LeafWeights(freq)
  {
    for i := 0 to |freq|
      invariant forall k :: 1 <= k <= i ==> weight[k] == LeafWeight(freq[k - 1])
    {
      weight[i + 1] := 256 * if freq[i] == 0 then 1 else freq[i];
    }
  }

  // ----- what the lengths cost

  /** What the weight of a symbol stands for after so many rounds: its frequency, at least 1, and then halved and 1 more each time. */
  function Eased(f: int, rounds: nat): int {
    if rounds == 0 then if f > 0 then f else 1
    else 1 + Eased(f, rounds - 1) / 2
  }

  /** Eased frequencies are the frequencies over a power of two, more than that by less than 2, and keep their order. */
  lemma {:induction false} EasedBounds(f: int, g: int, rounds: nat)
    requires f >= 0
    ensures f <= Eased(f, rounds) * Pow2(rounds) && (rounds > 0 ==> f < Eased(f, rounds) * Pow2(rounds)) && (Eased(f, rounds) - 2) * Pow2(rounds) < f + 1 && Eased(f, rounds) >= 1
    ensures g <= f ==> Eased(g, rounds) <= Eased(f, rounds)
    ensures rounds == 0 && f > 0 ==> Eased(f, rounds) == f
  {
    if rounds > 0 {
      EasedBounds(f, g, rounds - 1);
      EasedOnce(f, Eased(f, rounds - 1), Pow2(rounds - 1));
    }
  }

  lemma EasedOnce(f: int, e: int, p: nat)
    requires f <= e * p && (e - 2) * p < f + 1 && p >= 1 && e >= 1
    ensures f < (1 + e / 2) * (2 * p) && (1 + e / 2 - 2) * (2 * p) < f + 1
  {
    var x := 1 + e / 2;
    MulOrder(e + 1, 2 * x, p);
    MulOrder(2 * (x - 2), e - 2, p);
    assert (e + 1) * p == e * p + p;
    assert 2 * x * p == x * (2 * p);
    assert 2 * (x - 2) * p == (x - 2) * (2 * p);
  }

  lemma MulOrder(a: int, b: int, c: nat)
    requires a <= b
    ensures a * c <= b * c
  {
  }

  /** The cost of a code: the length of each symbol as often as it occurs. */
  function FreqCost(freq: seq<int>, rounds: nat, len: seq<int>): int
    requires |freq| == |len|
  {
    if freq == [] then 0
    else
      var k := |freq| - 1;
      FreqCost(freq[..k], rounds, len[..k]) + Eased(freq[k], rounds) * len[k]
  }

  /** No table of lengths within Kraft's inequality costs less. */
  ghost predicate LeastCost(freq: seq<int>, rounds: nat, len: seq<int>) {
    |len| == |freq| && forall rival: seq<int>, d: nat {:trigger Kraft(rival, d)} ::
      |rival| == |freq| && Kraft(rival, d) ==> FreqCost(freq, rounds, len) <= FreqCost(freq, rounds, rival)
  }

  lemma {:induction false} EasedWeight(freq: seq<int>, rounds: nat, i: nat)
    requires i < |freq| && freq[i] >= 0
    ensures WeightOf(RescaledTimes(LeafWeights(freq), rounds)[i]) == Eased(freq[i], rounds)
  {
    if rounds > 0 {
      EasedWeight(freq, rounds - 1, i);
    }
  }

  lemma {:induction false} RescaledPrefix(leaf: seq<int>, k: nat, rounds: nat)
    requires k <= |leaf|
    ensures RescaledTimes(leaf, rounds)[..k] == RescaledTimes(leaf[..k], rounds)
  {
    if rounds > 0 {
      RescaledPrefix(leaf, k, rounds - 1);
    }
  }

  lemma {:induction false} CostOfWeights(freq: seq<int>, rounds: nat, len: seq<int>)
    requires |freq| == |len| && forall i :: 0 <= i < |freq| ==> freq[i] >= 0
    ensures LeafCost(RescaledTimes(LeafWeights(freq), rounds), len) == FreqCost(freq, rounds, len)
  {
    if freq != [] {
      var k := |freq| - 1;
      CostOfWeights(freq[..k], rounds, len[..k]);
      EasedWeight(freq, rounds, k);
      RescaledPrefix(LeafWeights(freq), k, rounds);
      assert LeafWeights(freq)[..k] == LeafWeights(freq[..k]);
    }
  }

  lemma ShortestCosts(freq: seq<int>, rounds: nat, len: seq<int>)
    requires Shortest(RescaledTimes(LeafWeights(freq), rounds), len) && forall i :: 0 <= i < |freq| ==> freq[i] >= 0
    ensures LeastCost(freq, rounds, len)
  {
    CostOfWeights(freq, rounds, len);
    forall rival: seq<int>, d: nat | |rival| == |freq| && Kraft(rival, d)
      ensures FreqCost(freq, rounds, len) <= FreqCost(freq, rounds, rival)
    {
      CostOfWeights(freq, rounds, rival);
    }
  }

  /** A tree whose codes fit is a complete code. */
  lemma TreeIsCode(p: seq<int>, w: seq<int>, kids: seq<(int, int)>, leaf: seq<int>, top: int, len: seq<int>, maxLen: nat)
    requires Tree(p, w, kids, leaf, top) && LeafDepths(len, p, top, |leaf|)
    requires forall i :: 0 <= i < |leaf| ==> len[i] <= maxLen
    ensures Lengths(len, 1, maxLen) && Weight(len, maxLen) == Pow2(maxLen)
  {
    var longest := DepthOf(w[top]);
    DepthsComplete(p, kids, w, |leaf|, top, len);
    if maxLen <= longest {
      WeightScales(len, maxLen, longest);
    } else {
      WeightScales(len, longest, maxLen);
    }
  }

  /** No table of lengths that satisfies Kraft's inequality gives the weights a shorter code. */
  ghost predicate Shortest(leaf: seq<int>, len: seq<int>) {
    |len| == |leaf| && forall rival: seq<int>, d: nat {:trigger Kraft(rival, d)} ::
      |rival| == |leaf| && Kraft(rival, d) ==> LeafCost(leaf, len) <= LeafCost(leaf, rival)
  }

  lemma TreeIsShortest(p: seq<int>, w: seq<int>, kids: seq<(int, int)>, leaf: seq<int>, top: int, len: seq<int>)
    requires Tree(p, w, kids, leaf, top) && Thrifty(p, w, kids, leaf, top) && LeafDepths(len, p, top, |leaf|)
    ensures Shortest(leaf, len)
  {
    forall i | 0 <= i < |leaf|
      ensures w[i + 1] == leaf[i]
    {
      assert w[1..|leaf| + 1][i] == w[i + 1];
    }
    TreeCost(p, w, kids, top, leaf, len);
    WeightsPositive(p, w, top);
    forall rival: seq<int>, d: nat | |rival| == |leaf| && Kraft(rival, d)
      ensures LeafCost(leaf, len) <= LeafCost(leaf, rival)
    {
      BestBound(p, w, top, Inners(w, |leaf|, top), leaf, rival, d);
    }
  }

  /** A code longer than 12 bits needs a weight sum of at least Fib(15) = 610, so some weight above 2. */
  lemma LongNeedsWeight(p: seq<int>, w: seq<int>, kids: seq<(int, int)>, leaf: seq<int>, top: int, len: seq<int>, i: int)
    requires Tree(p, w, kids, leaf, top) && LeafDepths(len, p, top, |leaf|) && 0 <= i < |leaf| && len[i] > 12
    ensures Total(leaf) >= 610 && Total(leaf) >= Fib(len[i] + 2)
  {
    TopIsDeep(p, w, kids, leaf, top, len, i);
    TopIsHeavy(p, w, kids, leaf, top, len[i]);
  }

  lemma TopIsHeavy(p: seq<int>, w: seq<int>, kids: seq<(int, int)>, leaf: seq<int>, top: int, d: nat)
    requires Tree(p, w, kids, leaf, top) && 12 < d <= DepthOf(w[top])
    ensures Total(leaf) >= 610 && Total(leaf) >= Fib(d + 2)
  {
    HeightBound(WeightOf(w[top]), DepthOf(w[top]));
    FibGrows(d + 2, DepthOf(w[top]) + 2);
  }

  lemma TopIsDeep(p: seq<int>, w: seq<int>, kids: seq<(int, int)>, leaf: seq<int>, top: int, len: seq<int>, i: int)
    requires Tree(p, w, kids, leaf, top) && LeafDepths(len, p, top, |leaf|) && 0 <= i < |leaf| && len[i] > 12
    ensures DepthOf(w[top]) >= len[i] > 12
  {
    DepthsComplete(p, kids, w, |leaf|, top, len);
  }

  /** One round: a shortest code for the weights, unless that takes a code longer than maxLen. */
  method TryLengths(heap: array<int>, weight: array<int>, parent: array<int>, len: array<int>, alphaSize: int, maxLen: nat,
                    ghost used: seq<int>)
    returns (tooLong: bool)
    requires heap != weight && heap != parent && weight != parent && len != parent && len != weight
    requires heap.Length == MAX_ALPHA_SIZE + 2 && weight.Length == parent.Length == NODES && alphaSize <= len.Length && 12 <= maxLen
    requires 2 <= alphaSize == |used| <= MAX_ALPHA_SIZE
    requires weight[1..alphaSize + 1] == used && Leaves(used) && Total(used) < 0x80_0000
    modifies heap, weight, parent, len
    ensures weight[1..alphaSize + 1] == used
    ensures !tooLong ==> Lengths(len[..alphaSize], 1, maxLen) && Weight(len[..alphaSize], maxLen) == Pow2(maxLen)
    ensures !tooLong ==> Shortest(used, len[..alphaSize])
    ensures tooLong ==> Total(used) >= 610 && Total(used) >= Fib(maxLen + 3)
  {
    var nNodes;
    ghost var kids;
    nNodes, kids := BuildTree(heap, weight, parent, alphaSize, used);
    tooLong := Measure(parent, len, alphaSize, maxLen, nNodes, kids);
    assert weight[1..alphaSize + 1] == weight[..][1..alphaSize + 1];
    if tooLong {
      ghost var i :| 0 <= i < alphaSize && len[i] > maxLen;
      LongNeedsWeight(parent[..], weight[..], kids, used, nNodes, len[..alphaSize], i);
      FibGrows(maxLen + 3, len[i] + 2);
    } else {
      assert forall i :: 0 <= i < alphaSize ==> len[..alphaSize][i] == len[i];
      TreeIsCode(parent[..], weight[..], kids, used, nNodes, len[..alphaSize], maxLen);
      TreeIsShortest(parent[..], weight[..], kids, used, nNodes, len[..alphaSize]);
    }
  }

  /** Terminates for every frequency table, with lengths in 1..maxLen that form a complete code. It is the shortest code there
      is for the frequencies, rescaled as long as they add up to a Fibonacci number beyond the limit. */
  method MakeCodeLengths(len: array<int>, freq: seq<int>, maxLen: nat) returns (ghost rounds: nat)
    requires 2 <= |freq| <= MAX_ALPHA_SIZE && |freq| <= len.Length && 12 <= maxLen
    requires (forall i :: 0 <= i < |freq| ==> freq[i] >= 0) && Total(LeafWeights(freq)) < 0x80_0000
    modifies len
    ensures Lengths(len[..|freq|], 1, maxLen) && Weight(len[..|freq|], maxLen) == Pow2(maxLen)
    ensures LeastCost(freq, rounds, len[..|freq|])
    ensures Shortest(RescaledTimes(LeafWeights(freq), rounds), len[..|freq|]) && TooHeavy(LeafWeights(freq), rounds, maxLen)
  {
    var heap, weight, parent := new int[MAX_ALPHA_SIZE + 2], new int[NODES], new int[NODES];
    var alphaSize := |freq|;
    InitWeights(freq, weight);
    ghost var used := LeafWeights(freq);
    rounds := 0;
    RescaleShrinks(used);
    while true
      invariant |used| == alphaSize && weight[1..alphaSize + 1] == used && Leaves(used) && 0 <= Total(used) < 0x80_0000
      invariant used == RescaledTimes(LeafWeights(freq), rounds) && TooHeavy(LeafWeights(freq), rounds, maxLen)
      decreases Total(used)
    {
      var tooLong := TryLengths(heap, weight, parent, len, alphaSize, maxLen, used);
      if !tooLong {
        ShortestCosts(freq, rounds, len[..|freq|]);
        break;
      }
      RescaleShrinks(used);
      Rescale(weight, alphaSize, used);
      NextRound(LeafWeights(freq), rounds, maxLen);
      used, rounds := RescaledAll(used), rounds + 1;
    }
  }
}
