/** The free lists of the PPMd7 sub-allocator, threaded through the first word of each free block, and the ring of free
    nodes that gluing builds. */
module PpmdLists {
  import opened PpmdUnits

  /** A unit is three words. A free block's first word is the reference to the next block of its list; while blocks are
      glued it holds the stamp in its low half and the number of units in its high half. */
  datatype Unit = Unit(first: nat, next: nat, prev: nat)

  const HALF := 0x1_0000

  function Stamp(u: Unit): nat {
    u.first % 0x1_0000
  }

  function Units(u: Unit): nat {
    u.first / 0x1_0000
  }

  ghost predicate Place(s: seq<nat>, i: int) {
    0 <= i < |s|
  }

  ghost predicate Distinct(s: seq<nat>) {
    forall i, j {:trigger Place(s, i), Place(s, j)} :: Place(s, i) && Place(s, j) && i < j ==> s[i] != s[j]
  }

  lemma Differ(s: seq<nat>, i: nat, j: nat)
    requires Distinct(s) && i < j < |s|
    ensures s[i] != s[j]
  {
    assert Place(s, i) && Place(s, j);
  }

  lemma DistinctCons(s: seq<nat>, x: nat)
    requires Distinct(s) && x !in s
    ensures Distinct([x] + s)
  {
    forall i, j | 0 <= i < j < |s| + 1
      ensures ([x] + s)[i] != ([x] + s)[j]
    {
      if i > 0 {
        Differ(s, i - 1, j - 1);
      }
    }
  }

  lemma DistinctTail(s: seq<nat>)
    requires Distinct(s) && s != []
    ensures Distinct(s[1..]) && s[0] !in s[1..]
  {
    forall i, j | 0 <= i < j < |s| - 1
      ensures s[1..][i] != s[1..][j]
    {
      Differ(s, i + 1, j + 1);
    }
    forall j | 0 <= j < |s| - 1
      ensures s[1..][j] != s[0]
    {
      Differ(s, 0, j + 1);
    }
  }

  function Without(nodes: seq<nat>, q: nat): seq<nat>
    requires q < |nodes|
  {
    nodes[..q] + nodes[q + 1..]
  }

  lemma DistinctWithout(s: seq<nat>, q: nat)
    requires Distinct(s) && q < |s|
    ensures Distinct(Without(s, q))
  {
    forall i, j | 0 <= i < j < |s| - 1
      ensures Without(s, q)[i] != Without(s, q)[j]
    {
      Differ(s, if i < q then i else i + 1, if j < q then j else j + 1);
    }
  }

  lemma InWithout(s: seq<nat>, q: nat, x: nat)
    requires q < |s| && Distinct(s)
    ensures x in Without(s, q) <==> x in s && x != s[q]
  {
    if x in s && x != s[q] {
      var i :| 0 <= i < |s| && s[i] == x;
      assert Without(s, q)[if i < q then i else i - 1] == x;
    }
    if x in Without(s, q) {
      var i :| 0 <= i < |Without(s, q)| && Without(s, q)[i] == x;
      if i < q {
        Differ(s, i, q);
      } else {
        Differ(s, q, i + 1);
      }
    }
  }

  // ----- free lists

  /** The list that starts at head. */
  ghost predicate Chain(mem: seq<Unit>, head: nat, list: seq<nat>)
    decreases |list|
  {
    if list == [] then head == 0
    else head == list[0] && 0 < head < |mem| && Chain(mem, mem[head].first, list[1..])
  }

  lemma {:induction false} ChainFrame(mem: seq<Unit>, mem1: seq<Unit>, head: nat, list: seq<nat>)
    requires Chain(mem, head, list) && |mem1| == |mem|
    requires forall a :: a in list && a < |mem| ==> mem1[a].first == mem[a].first
    ensures Chain(mem1, head, list)
    decreases |list|
  {
    if list != [] {
      assert list[0] in list;
      ChainFrame(mem, mem1, mem[head].first, list[1..]);
    }
  }

  ghost predicate AllChains(mem: seq<Unit>, freeList: seq<nat>, lists: seq<seq<nat>>) {
    && |freeList| == |lists| == NUM_INDEXES
    && (forall i :: 0 <= i < NUM_INDEXES ==> Chain(mem, freeList[i], lists[i]) && Distinct(lists[i]))
  }

  /** The lists hold free blocks of their class. */
  ghost predicate Classed(lists: seq<seq<nat>>, blocks: Blocks, pending: set<nat>) {
    forall i, a {:trigger a in lists[i]} :: 0 <= i < |lists| && a in lists[i] ==> a in blocks && blocks[a] == Block(I2U(i), false) && a !in pending
  }

  ghost predicate OnList(lists: seq<seq<nat>>, a: nat, size: nat) {
    0 < size <= MAX_UNITS && I2U(U2I(size)) == size && U2I(size) < |lists| && a in lists[U2I(size)]
  }

  /** Every free block is on the list of its class, but for those that are about to be inserted. */
  ghost predicate Kept(lists: seq<seq<nat>>, blocks: Blocks, pending: set<nat>) {
    forall a {:trigger blocks[a]} :: a in blocks && !blocks[a].live ==> a in pending || OnList(lists, a, blocks[a].size)
  }

  ghost predicate Listed(mem: seq<Unit>, freeList: seq<nat>, lists: seq<seq<nat>>, blocks: Blocks, pending: set<nat>) {
    AllChains(mem, freeList, lists) && Classed(lists, blocks, pending) && Kept(lists, blocks, pending)
  }

  /** InsertNode. */
  lemma InsertChains(mem: seq<Unit>, freeList: seq<nat>, lists: seq<seq<nat>>, node: nat, i: nat)
    requires AllChains(mem, freeList, lists) && 0 < node < |mem| && i < NUM_INDEXES
    requires forall j :: 0 <= j < NUM_INDEXES ==> node !in lists[j]
    ensures AllChains(mem[node := mem[node].(first := freeList[i])], freeList[i := node], lists[i := [node] + lists[i]])
  {
    var mem1 := mem[node := mem[node].(first := freeList[i])];
    forall j | 0 <= j < NUM_INDEXES
      ensures Chain(mem1, freeList[j], lists[j])
    {
      ChainFrame(mem, mem1, freeList[j], lists[j]);
    }
    assert ([node] + lists[i])[1..] == lists[i];
    DistinctCons(lists[i], node);
  }

  lemma InsertListed(mem: seq<Unit>, freeList: seq<nat>, lists: seq<seq<nat>>, blocks: Blocks, pending: set<nat>, node: nat, i: nat)
    requires Listed(mem, freeList, lists, blocks, pending) && 0 < node < |mem| && i < NUM_INDEXES
    requires node in pending && node in blocks && blocks[node] == Block(I2U(i), false)
    ensures Listed(mem[node := mem[node].(first := freeList[i])], freeList[i := node], lists[i := [node] + lists[i]], blocks, pending - {node})
  {
    InsertChains(mem, freeList, lists, node, i);
    ClassOfClass(i);
    var lists1 := lists[i := [node] + lists[i]];
    forall a | a in blocks && !blocks[a].live && a !in pending - {node}
      ensures OnList(lists1, a, blocks[a].size)
    {
      assert a == node || OnList(lists, a, blocks[a].size);
    }
  }

  /** RemoveNode: the block is handed out. */
  lemma RemoveListed(mem: seq<Unit>, freeList: seq<nat>, lists: seq<seq<nat>>, blocks: Blocks, pending: set<nat>, i: nat)
    requires Listed(mem, freeList, lists, blocks, pending) && i < NUM_INDEXES && freeList[i] != 0
    ensures lists[i] != [] && lists[i][0] == freeList[i] < |mem| && freeList[i] in blocks && blocks[freeList[i]] == Block(I2U(i), false)
    ensures Listed(mem, freeList[i := mem[freeList[i]].first], lists[i := lists[i][1..]], Mark(blocks, freeList[i], true), pending)
  {
    var node := freeList[i];
    assert node in lists[i];
    var lists1, blocks1 := lists[i := lists[i][1..]], Mark(blocks, node, true);
    DistinctTail(lists[i]);
    ClassOfClass(i);
    forall j, a | 0 <= j < |lists1| && a in lists1[j]
      ensures a in blocks1 && blocks1[a] == Block(I2U(j), false) && a !in pending
    {
      assert a in lists[j];
      if j < i {
        ClassMono(j, i);
      } else if i < j {
        ClassMono(i, j);
      }
    }
    forall a | a in blocks1 && !blocks1[a].live && a !in pending
      ensures OnList(lists1, a, blocks1[a].size)
    {
      assert a != node && blocks1[a] == blocks[a] && OnList(lists, a, blocks[a].size);
    }
  }

  /** Blocks that the lists do not hold may change as they like, as long as new free ones are pending. */
  lemma ChangeListed(mem: seq<Unit>, freeList: seq<nat>, lists: seq<seq<nat>>, b: Blocks, c: Blocks, pending: set<nat>, pending1: set<nat>)
    requires Listed(mem, freeList, lists, b, pending)
    requires forall a :: a in b && !b[a].live && a !in pending ==> a in c && c[a] == b[a] && a !in pending1
    requires forall a :: a in c && !c[a].live && a !in pending1 ==> a in b && c[a] == b[a] && a !in pending
    ensures Listed(mem, freeList, lists, c, pending1)
  {
    forall i, a | 0 <= i < |lists| && a in lists[i]
      ensures a in c && c[a] == Block(I2U(i), false) && a !in pending1
    {
      assert a in b && b[a] == Block(I2U(i), false) && a !in pending;
    }
  }

  /** Writing into live blocks leaves the lists as they are. */
  lemma WriteListed(mem: seq<Unit>, mem1: seq<Unit>, freeList: seq<nat>, lists: seq<seq<nat>>, blocks: Blocks, pending: set<nat>)
    requires Listed(mem, freeList, lists, blocks, pending) && |mem1| == |mem|
    requires forall a :: a in blocks && !blocks[a].live && a < |mem| ==> mem1[a] == mem[a]
    ensures Listed(mem1, freeList, lists, blocks, pending)
  {
    forall i | 0 <= i < NUM_INDEXES
      ensures Chain(mem1, freeList[i], lists[i])
    {
      ChainFrame(mem, mem1, freeList[i], lists[i]);
    }
  }

  // ----- the ring of free nodes

  function RingAt(nodes: seq<nat>, head: nat, i: int): nat {
    if 0 <= i < |nodes| then nodes[i] else head
  }

  ghost predicate Tied(mem: seq<Unit>, head: nat, nodes: seq<nat>, i: int) {
    var a, b := RingAt(nodes, head, i), RingAt(nodes, head, i + 1);
    a < |mem| && b < |mem| && mem[a].next == b && mem[b].prev == a
  }

  ghost predicate Inside(mem: seq<Unit>, head: nat, nodes: seq<nat>) {
    head < |mem| && Distinct(nodes) && forall i :: 0 <= i < |nodes| ==> nodes[i] < head
  }

  /** The nodes in order, doubly linked through the head, which lies behind all blocks. */
  ghost predicate Ring(mem: seq<Unit>, head: nat, nodes: seq<nat>) {
    Inside(mem, head, nodes) && forall i {:trigger Tied(mem, head, nodes, i)} :: -1 <= i < |nodes| ==> Tied(mem, head, nodes, i)
  }

  function Unlinked(mem: seq<Unit>, node: nat): seq<Unit>
    requires node < |mem| && mem[node].prev < |mem| && mem[node].next < |mem|
  {
    var p, x := mem[node].prev, mem[node].next;
    var mem1 := mem[p := mem[p].(next := x)];
    mem1[x := mem1[x].(prev := p)]
  }

  lemma WithoutAt(nodes: seq<nat>, head: nat, q: nat, i: int)
    requires q < |nodes| && -1 <= i <= |nodes| - 1
    ensures RingAt(Without(nodes, q), head, i) == RingAt(nodes, head, if i < q then i else i + 1)
  {
  }

  /** Two places of the ring are the same only if they are the same place, or both the head. */
  lemma RingPlaces(mem: seq<Unit>, head: nat, nodes: seq<nat>, i: int, j: int)
    requires Inside(mem, head, nodes) && -1 <= i < j <= |nodes| && !(i == -1 && j == |nodes|)
    ensures RingAt(nodes, head, i) != RingAt(nodes, head, j)
  {
    if i >= 0 && j < |nodes| {
      Differ(nodes, i, j);
    }
  }

  lemma UnlinkTied(mem: seq<Unit>, head: nat, nodes: seq<nat>, q: nat, i: int)
    requires Ring(mem, head, nodes) && q < |nodes| && -1 <= i < |nodes| - 1
    requires nodes[q] < |mem| && mem[nodes[q]].prev == RingAt(nodes, head, q - 1) < |mem| && mem[nodes[q]].next == RingAt(nodes, head, q + 1) < |mem|
    ensures Tied(Unlinked(mem, nodes[q]), head, Without(nodes, q), i)
  {
    WithoutAt(nodes, head, q, i);
    WithoutAt(nodes, head, q, i + 1);
    if i < q - 1 {
      assert Tied(mem, head, nodes, i);
      RingPlaces(mem, head, nodes, i, q - 1);
      if !(i + 1 == 0 && q + 1 == |nodes| + 1) {
        RingPlaces(mem, head, nodes, i + 1, q + 1);
      }
    } else if i >= q {
      assert Tied(mem, head, nodes, i + 1);
      RingPlaces(mem, head, nodes, q - 1, i + 1);
      RingPlaces(mem, head, nodes, q + 1, i + 2);
    }
  }

  /** Taking a node out of the ring. */
  lemma UnlinkRing(mem: seq<Unit>, head: nat, nodes: seq<nat>, q: nat)
    requires Ring(mem, head, nodes) && q < |nodes|
    ensures nodes[q] < |mem| && mem[nodes[q]].prev < |mem| && mem[nodes[q]].next < |mem|
    ensures Ring(Unlinked(mem, nodes[q]), head, Without(nodes, q))
  {
    assert Tied(mem, head, nodes, q - 1) && Tied(mem, head, nodes, q);
    var mem1, nodes1 := Unlinked(mem, nodes[q]), Without(nodes, q);
    DistinctWithout(nodes, q);
    forall i | -1 <= i < |nodes1|
      ensures Tied(mem1, head, nodes1, i)
    {
      UnlinkTied(mem, head, nodes, q, i);
    }
  }
}
