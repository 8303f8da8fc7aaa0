/** The binary heap of node numbers that BZ2_hbMakeCodeLengths keeps, ordered by weight, with entry 0 as sentinel. */
module Heap {

  /** s[1..] lists nodes with non-negative weights; node 0 is the sentinel of weight 0. */
  ghost predicate Nodes(s: seq<int>, w: seq<int>) {
    && |s| >= 1 && s[0] == 0 && |w| >= 1 && w[0] == 0
    && forall i :: 0 <= i < |s| ==> 0 <= s[i] < |w| && w[s[i]] >= 0
  }

  ghost predicate Above(s: seq<int>, w: seq<int>, i: int)
    requires 2 <= i < |s| && forall i :: 0 <= i < |s| ==> 0 <= s[i] < |w|
  {
    w[s[i / 2]] <= w[s[i]]
  }

  ghost predicate IsHeap(s: seq<int>, w: seq<int>) {
    Nodes(s, w) && forall i {:trigger Above(s, w, i)} :: 2 <= i < |s| ==> Above(s, w, i)
  }

  /** Heap order but at node z, and but below z's parent. */
  ghost predicate HeapButUp(s: seq<int>, w: seq<int>, z: int) {
    && Nodes(s, w) && 1 <= z < |s|
    && (forall i {:trigger Above(s, w, i)} :: 2 <= i < |s| && i != z ==> Above(s, w, i))
    && (z >= 2 ==> forall i :: 2 <= i < |s| && i / 2 == z ==> w[s[z / 2]] <= w[s[i]])
  }

  /** Heap order but between z and its children. */
  ghost predicate HeapButDown(s: seq<int>, w: seq<int>, z: int) {
    && Nodes(s, w) && 1 <= z < |s|
    && (forall i {:trigger Above(s, w, i)} :: 2 <= i < |s| && i / 2 != z ==> Above(s, w, i))
    && (z >= 2 ==> forall i :: 2 <= i < |s| && i / 2 == z ==> w[s[z / 2]] <= w[s[i]])
  }

  function Exchanged(s: seq<int>, i: int, j: int): (t: seq<int>)
    requires 0 <= i < |s| && 0 <= j < |s|
    ensures |t| == |s| && multiset(t) == multiset(s)
  {
    s[i := s[j]][j := s[i]]
  }

  lemma UpStep(s: seq<int>, w: seq<int>, z: int)
    requires HeapButUp(s, w, z) && z >= 2 && w[s[z]] < w[s[z / 2]]
    ensures HeapButUp(Exchanged(s, z, z / 2), w, z / 2)
  {
    var t := Exchanged(s, z, z / 2);
    forall i | 2 <= i < |t| && i != z / 2
      ensures Above(t, w, i)
    {
      if i != z {
        assert Above(s, w, i);
      }
    }
    if z / 2 >= 2 {
      assert Above(s, w, z / 2);
      forall i | 2 <= i < |t| && i / 2 == z / 2
        ensures w[t[z / 2 / 2]] <= w[t[i]]
      {
        if i != z {
          assert Above(s, w, i);
        }
      }
    }
  }

  lemma UpDone(s: seq<int>, w: seq<int>, z: int)
    requires HeapButUp(s, w, z) && (z >= 2 ==> w[s[z]] >= w[s[z / 2]])
    ensures IsHeap(s, w)
  {
  }

  lemma DownStep(s: seq<int>, w: seq<int>, z: int, y: int)
    requires HeapButDown(s, w, z) && 2 <= y < |s| && y / 2 == z && w[s[y]] <= w[s[z]]
    requires forall i :: 2 <= i < |s| && i / 2 == z ==> w[s[y]] <= w[s[i]]
    ensures HeapButDown(Exchanged(s, z, y), w, y)
  {
    var t := Exchanged(s, z, y);
    forall i | 2 <= i < |t| && i / 2 != y
      ensures Above(t, w, i)
    {
      if i / 2 != z {
        assert Above(s, w, i);
      }
    }
    forall i | 2 <= i < |t| && i / 2 == y
      ensures w[t[y / 2]] <= w[t[i]]
    {
      assert Above(s, w, i);
    }
  }

  lemma DownDone(s: seq<int>, w: seq<int>, z: int)
    requires HeapButDown(s, w, z) && forall i :: 2 <= i < |s| && i / 2 == z ==> w[s[z]] <= w[s[i]]
    ensures IsHeap(s, w)
  {
    forall i | 2 <= i < |s|
      ensures Above(s, w, i)
    {
    }
  }

  /** The top of the heap is lightest. */
  lemma {:induction false} TopLeast(s: seq<int>, w: seq<int>, i: int)
    requires IsHeap(s, w) && 1 <= i < |s|
    ensures w[s[1]] <= w[s[i]]
  {
    if i > 1 {
      assert Above(s, w, i);
      TopLeast(s, w, i / 2);
    }
  }

  lemma LiftStep(s: seq<int>, w: seq<int>, tmp: int, z: int)
    requires 1 <= z < |s| && HeapButUp(s[z := tmp], w, z) && 0 <= tmp < |w|
    requires 0 <= s[z / 2] < |w| && w[tmp] < w[s[z / 2]]
    ensures z >= 2 && HeapButUp(s[z := s[z / 2]][z / 2 := tmp], w, z / 2)
    ensures multiset(s[z := s[z / 2]][z / 2 := tmp]) == multiset(s[z := tmp])
  {
    var t := s[z := tmp];
    assert t[z / 2] == s[z / 2] && t[z] == tmp && w[t[z]] >= 0;
    UpStep(t, w, z);
    assert Exchanged(t, z, z / 2) == s[z := s[z / 2]][z / 2 := tmp];
  }

  lemma LiftDone(s: seq<int>, w: seq<int>, tmp: int, z: int)
    requires 1 <= z < |s| && HeapButUp(s[z := tmp], w, z) && 0 <= tmp < |w|
    requires 0 <= s[z / 2] < |w| && w[tmp] >= w[s[z / 2]]
    ensures IsHeap(s[z := tmp], w)
  {
    assert s[z := tmp][z / 2] == s[z / 2];
    UpDone(s[z := tmp], w, z);
  }

  lemma ParentInRange(s: seq<int>, w: seq<int>, tmp: int, z: int)
    requires 1 <= z < |s| && HeapButUp(s[z := tmp], w, z)
    ensures 0 <= s[z / 2] < |w|
  {
    assert s[z := tmp][z / 2] == s[z / 2];
  }

  /** UPHEAP: lifts the last entry. */
  method UpHeap(heap: array<int>, weight: array<int>, z: int)
    requires heap != weight && 1 <= z < heap.Length && HeapButUp(heap[..z + 1], weight[..], z)
    modifies heap
    ensures IsHeap(heap[..z + 1], weight[..]) && multiset(heap[..z + 1]) == multiset(old(heap[..z + 1]))
  {
    ghost var w, s := weight[..], heap[..z + 1];
    ghost var bag := multiset(s);
    var zz, tmp := z, heap[z];
    assert s[zz := tmp] == s;
    ParentInRange(s, w, tmp, zz);
    while weight[tmp] < weight[heap[zz / 2]]
      invariant 1 <= zz <= z && weight[..] == w && 0 <= tmp < weight.Length && s == heap[..z + 1]
      invariant 0 <= heap[zz / 2] < weight.Length
      invariant HeapButUp(s[zz := tmp], w, zz) && multiset(s[zz := tmp]) == bag
      decreases zz
    {
      LiftStep(s, w, tmp, zz);
      heap[zz] := heap[zz / 2];
      assert heap[..z + 1] == s[zz := s[zz / 2]];
      s := heap[..z + 1];
      zz := zz / 2;
      ParentInRange(s, w, tmp, zz);
    }
    LiftDone(s, w, tmp, zz);
    heap[zz] := tmp;
    assert heap[..z + 1] == s[zz := tmp];
  }

  /** The lighter child of entry z. */
  method LighterChild(heap: array<int>, weight: array<int>, z: int, n: int) returns (y: int)
    requires 1 <= z && 2 * z <= n < heap.Length
    requires forall i :: z < i <= n ==> 0 <= heap[i] < weight.Length
    ensures 2 * z <= y <= 2 * z + 1 && y <= n
    ensures forall i :: 2 <= i <= n && i / 2 == z ==> weight[heap[y]] <= weight[heap[i]]
  {
    y := 2 * z;
    if y < n && weight[heap[y + 1]] < weight[heap[y]] {
      y := y + 1;
    }
  }

  lemma SinkStep(s: seq<int>, w: seq<int>, tmp: int, z: int, y: int)
    requires 1 <= z < |s| && HeapButDown(s[z := tmp], w, z) && 2 * z <= y <= 2 * z + 1 && y < |s| && 0 <= tmp < |w|
    requires forall i :: z < i < |s| ==> 0 <= s[i] < |w|
    requires w[s[y]] <= w[tmp] && forall i :: 2 <= i < |s| && i / 2 == z ==> w[s[y]] <= w[s[i]]
    ensures HeapButDown(s[z := s[y]][y := tmp], w, y)
    ensures multiset(s[z := s[y]][y := tmp]) == multiset(s[z := tmp])
  {
    var t := s[z := tmp];
    forall i | 2 <= i < |t| && i / 2 == z
      ensures w[t[y]] <= w[t[i]]
    {
      assert t[i] == s[i];
    }
    DownStep(t, w, z, y);
    assert Exchanged(t, z, y) == s[z := s[y]][y := tmp];
  }

  lemma SinkDone(s: seq<int>, w: seq<int>, tmp: int, z: int)
    requires 1 <= z < |s| && HeapButDown(s[z := tmp], w, z) && 0 <= tmp < |w|
    requires forall i :: z < i < |s| ==> 0 <= s[i] < |w|
    requires forall i :: 2 <= i < |s| && i / 2 == z ==> w[tmp] <= w[s[i]]
    ensures IsHeap(s[z := tmp], w)
  {
    var t := s[z := tmp];
    forall i | 2 <= i < |t| && i / 2 == z
      ensures w[t[z]] <= w[t[i]]
    {
      assert t[i] == s[i];
    }
    DownDone(t, w, z);
  }

  /** DOWNHEAP(1): sinks the first of n entries. */
  method DownHeap(heap: array<int>, weight: array<int>, n: int)
    requires heap != weight && 1 <= n < heap.Length && HeapButDown(heap[..n + 1], weight[..], 1)
    modifies heap
    ensures IsHeap(heap[..n + 1], weight[..]) && multiset(heap[..n + 1]) == multiset(old(heap[..n + 1]))
  {
    ghost var w, s := weight[..], heap[..n + 1];
    ghost var bag := multiset(s);
    var zz, tmp := 1, heap[1];
    assert s[zz := tmp] == s;
    while true
      invariant 1 <= zz <= n && weight[..] == w && 0 <= tmp < weight.Length && s == heap[..n + 1]
      invariant HeapButDown(s[zz := tmp], w, zz) && multiset(s[zz := tmp]) == bag
      decreases n - zz
    {
      if 2 * zz > n {
        break;
      }
      assert forall i :: zz < i <= n ==> heap[i] == s[zz := tmp][i];
      var yy := LighterChild(heap, weight, zz, n);
      if weight[tmp] < weight[heap[yy]] {
        break;
      }
      SinkStep(s, w, tmp, zz, yy);
      heap[zz] := heap[yy];
      assert heap[..n + 1] == s[zz := s[yy]];
      s := heap[..n + 1];
      zz := yy;
    }
    assert forall i :: zz < i <= n ==> s[i] == s[zz := tmp][i];
    SinkDone(s, w, tmp, zz);
    heap[zz] := tmp;
    assert heap[..n + 1] == s[zz := tmp];
  }

  /** Adds a node at the end and lifts it. */
  method Push(heap: array<int>, weight: array<int>, nHeap: int, node: int) returns (nHeap': int)
    requires heap != weight && 0 <= nHeap && nHeap + 1 < heap.Length && IsHeap(heap[..nHeap + 1], weight[..])
    requires 0 <= node < weight.Length && weight[node] >= 0
    modifies heap
    ensures nHeap' == nHeap + 1 && IsHeap(heap[..nHeap' + 1], weight[..])
    ensures multiset(heap[..nHeap' + 1]) == multiset(old(heap[..nHeap + 1])) + multiset{node}
  {
    ghost var s := heap[..nHeap + 1];
    nHeap' := nHeap + 1;
    heap[nHeap'] := node;
    assert heap[..nHeap' + 1] == s + [node];
    forall i | 2 <= i < |s + [node]| && i != nHeap'
      ensures Above(s + [node], weight[..], i)
    {
      assert Above(s, weight[..], i);
    }
    UpHeap(heap, weight, nHeap');
  }

  lemma TopOfAll(s: seq<int>, w: seq<int>)
    requires IsHeap(s, w) && |s| >= 2
    ensures 0 <= s[1] < |w| && forall r :: r in s && r != 0 ==> 0 <= r < |w| && w[s[1]] <= w[r]
  {
    forall r | r in s && r != 0
      ensures 0 <= r < |w| && w[s[1]] <= w[r]
    {
      var i :| 0 <= i < |s| && s[i] == r;
      TopLeast(s, w, i);
    }
  }

  /** Puts the last entry in the top's place and sinks it. */
  method RemoveTop(heap: array<int>, weight: array<int>, nHeap: int) returns (nHeap': int)
    requires heap != weight && 1 <= nHeap < heap.Length && IsHeap(heap[..nHeap + 1], weight[..])
    modifies heap
    ensures nHeap' == nHeap - 1 && IsHeap(heap[..nHeap' + 1], weight[..])
    ensures multiset(heap[..nHeap' + 1]) + multiset{old(heap[1])} == multiset(old(heap[..nHeap + 1]))
  {
    ghost var s, w := heap[..nHeap + 1], weight[..];
    heap[1] := heap[nHeap];
    nHeap' := nHeap - 1;
    PopBag(s, nHeap);
    PopOne(s, w, nHeap);
    assert heap[..nHeap' + 1] == s[1 := s[nHeap]][..nHeap];
    if nHeap' >= 1 {
      DownHeap(heap, weight, nHeap');
    }
  }

  /** Takes the lightest node. */
  method Pop(heap: array<int>, weight: array<int>, nHeap: int) returns (top: int, nHeap': int)
    requires heap != weight && 1 <= nHeap < heap.Length && IsHeap(heap[..nHeap + 1], weight[..])
    modifies heap
    ensures nHeap' == nHeap - 1 && IsHeap(heap[..nHeap' + 1], weight[..])
    ensures multiset(heap[..nHeap' + 1]) + multiset{top} == multiset(old(heap[..nHeap + 1]))
    ensures 0 <= top < weight.Length
    ensures forall r :: r in old(heap[..nHeap + 1]) && r != 0 ==> 0 <= r < weight.Length && weight[top] <= weight[r]
  {
    TopOfAll(heap[..nHeap + 1], weight[..]);
    top := heap[1];
    nHeap' := RemoveTop(heap, weight, nHeap);
  }

  lemma PopBag(s: seq<int>, n: int)
    requires |s| == n + 1 && n >= 1
    ensures multiset(s[1 := s[n]][..n]) + multiset{s[1]} == multiset(s)
  {
    var t := s[1 := s[n]];
    assert t == t[..n] + [s[n]];
    assert s[1] in multiset(s);
    assert multiset(t) == multiset(s) - multiset{s[1]} + multiset{s[n]};
  }

  lemma PopOne(s: seq<int>, w: seq<int>, n: int)
    requires IsHeap(s, w) && |s| == n + 1 && n >= 1
    ensures n == 1 ==> IsHeap(s[1 := s[n]][..n], w)
    ensures n > 1 ==> HeapButDown(s[1 := s[n]][..n], w, 1)
  {
    var t := s[1 := s[n]][..n];
    forall i | 2 <= i < |t| && i / 2 != 1
      ensures Above(t, w, i)
    {
      assert Above(s, w, i);
    }
  }

  /** A node that the heap does not list may change its weight. */
  lemma OtherWeight(s: seq<int>, w: seq<int>, k: int, v: int)
    requires IsHeap(s, w) && 0 <= k < |w| && k !in s
    ensures IsHeap(s, w[k := v])
  {
    var w' := w[k := v];
    forall i | 2 <= i < |s|
      ensures Above(s, w', i)
    {
      assert Above(s, w, i);
    }
  }
}
