/** Gluing free neighbours: what holds while the ring of free nodes is built, walked and taken apart. */
module PpmdGlue {
  import opened PpmdLists
  import opened PpmdUnits

  /** What live blocks hold is not touched. */
  ghost predicate LiveKept(blocks: Blocks, mem: seq<Unit>, mem1: seq<Unit>) {
    |mem1| == |mem| && forall u: nat :: u < |mem| && LiveAt(blocks, u) ==> mem1[u] == mem[u]
  }

  /** Live blocks start with a word whose low half is not zero. */
  ghost predicate LiveStamped(mem: seq<Unit>, blocks: Blocks) {
    forall a {:trigger blocks[a]} :: a in blocks && blocks[a].live ==> a < |mem| && Stamp(mem[a]) != 0
  }

  /** A free node with a zero stamp and its number of units. */
  ghost predicate NodeWord(mem: seq<Unit>, blocks: Blocks, a: nat) {
    && a < |mem| && a in blocks && !blocks[a].live && blocks[a].size < HALF
    && Stamp(mem[a]) == 0 && Units(mem[a]) == blocks[a].size
  }

  ghost predicate NodeWords(mem: seq<Unit>, nodes: seq<nat>, blocks: Blocks) {
    forall a {:trigger NodeWord(mem, blocks, a)} :: a in nodes ==> NodeWord(mem, blocks, a)
  }

  ghost predicate AllIn(blocks: Blocks, nodes: seq<nat>) {
    forall a {:trigger blocks[a]} :: a in blocks && !blocks[a].live ==> a in nodes
  }

  /** The word with stamp zero and a number of units. */
  function Word(nu: nat): nat {
    0x1_0000 * nu
  }

  lemma WordIs(nu: nat)
    ensures Word(nu) % 0x1_0000 == 0 && Word(nu) / 0x1_0000 == nu
  {
  }

  // ----- building the ring

  /** All links of the ring but those between the head and the first node. */
  ghost predicate PartRing(mem: seq<Unit>, head: nat, nodes: seq<nat>) {
    Inside(mem, head, nodes) && forall i {:trigger Tied(mem, head, nodes, i)} :: 0 <= i < |nodes| ==> Tied(mem, head, nodes, i)
  }

  function Linked(mem: seq<Unit>, node: nat, n: nat, nu: nat): seq<Unit>
    requires node < |mem| && n < |mem|
  {
    var mem1 := mem[node := Unit(Word(nu), n, mem[node].prev)];
    mem1[n := mem1[n].(prev := node)]
  }

  lemma LinkPart(mem: seq<Unit>, head: nat, nodes: seq<nat>, node: nat, nu: nat)
    requires PartRing(mem, head, nodes) && node < head && node !in nodes
    ensures RingAt(nodes, head, 0) < |mem| && PartRing(Linked(mem, node, RingAt(nodes, head, 0), nu), head, [node] + nodes)
  {
    var n := RingAt(nodes, head, 0);
    var mem1, nodes1 := Linked(mem, node, n, nu), [node] + nodes;
    DistinctCons(nodes, node);
    forall i | 0 <= i < |nodes1|
      ensures Tied(mem1, head, nodes1, i)
    {
      assert RingAt(nodes1, head, i + 1) == RingAt(nodes, head, i);
      if i > 0 {
        assert Tied(mem, head, nodes, i - 1);
        RingPlaces(mem, head, nodes, 0, i);
      }
    }
  }

  /** The word with stamp one. */
  function Marked(first: nat): nat {
    first / 0x1_0000 * 0x1_0000 + 1
  }

  lemma MarkedStamp(first: nat)
    ensures Marked(first) % 0x1_0000 == 1
  {
  }

  /** The head is linked to the first node. */
  function Closed(mem: seq<Unit>, head: nat, n: nat): seq<Unit>
    requires head < |mem| && n < |mem|
  {
    var mem1 := mem[head := Unit(Marked(mem[head].first), n, mem[head].prev)];
    mem1[n := mem1[n].(prev := head)]
  }

  lemma CloseRing(mem: seq<Unit>, head: nat, nodes: seq<nat>)
    requires PartRing(mem, head, nodes)
    ensures RingAt(nodes, head, 0) < |mem| && Ring(Closed(mem, head, RingAt(nodes, head, 0)), head, nodes)
  {
    var n := RingAt(nodes, head, 0);
    var mem1 := Closed(mem, head, n);
    forall i | -1 <= i < |nodes|
      ensures Tied(mem1, head, nodes, i)
    {
      if i >= 0 {
        assert Tied(mem, head, nodes, i);
        RingPlaces(mem, head, nodes, 0, i + 1);
      }
    }
  }

  // ----- gluing

  ghost predicate Stamps(mem: seq<Unit>, blocks: Blocks, lo: nat, hi: nat, end: nat) {
    LiveStamped(mem, blocks) && end < |mem| && Stamp(mem[end]) != 0 && (lo < hi ==> lo < |mem| && Stamp(mem[lo]) != 0)
  }

  /** All free blocks are in the ring, and nothing else looks like one. */
  ghost predicate Gluing(mem: seq<Unit>, nodes: seq<nat>, blocks: Blocks, start: nat, lo: nat, hi: nat, end: nat) {
    && Tiles(blocks, start, lo, hi, end) && Ring(mem, end, nodes) && NodeWords(mem, nodes, blocks)
    && AllIn(blocks, nodes) && Stamps(mem, blocks, lo, hi, end)
  }

  /** A zero stamp behind a block is that of another free node. */
  lemma Neighbour(mem: seq<Unit>, nodes: seq<nat>, blocks: Blocks, start: nat, lo: nat, hi: nat, end: nat, a: nat)
    requires Gluing(mem, nodes, blocks, start, lo, hi, end) && a in blocks
    ensures var b := a + blocks[a].size; b <= end < |mem| && (Stamp(mem[b]) == 0 ==> b in nodes && b in blocks && NodeWord(mem, blocks, b))
  {
    Follower(blocks, a, start, lo, hi, end);
    assert Fits(blocks[a], a, start, lo, hi, end);
    var b := a + blocks[a].size;
    if b in blocks && !blocks[b].live {
      assert NodeWord(mem, blocks, b);
    }
  }

  function Glued(mem: seq<Unit>, a: nat, b: nat, nu: nat): seq<Unit>
    requires a < |mem| && b < |mem| && mem[b].prev < |mem| && mem[b].next < |mem|
  {
    var mem1 := Unlinked(mem, b);
    mem1[a := mem1[a].(first := Word(nu))]
  }

  lemma RingFirst(mem: seq<Unit>, head: nat, nodes: seq<nat>, a: nat, x: nat)
    requires Ring(mem, head, nodes) && a < |mem|
    ensures Ring(mem[a := mem[a].(first := x)], head, nodes)
  {
    var mem1 := mem[a := mem[a].(first := x)];
    forall i | -1 <= i < |nodes|
      ensures Tied(mem1, head, nodes, i)
    {
      assert Tied(mem, head, nodes, i);
    }
  }

  /** Only first words tell nodes from live blocks, and gluing changes one of them. */
  lemma GluedFirst(mem: seq<Unit>, a: nat, b: nat, nu: nat)
    requires a < |mem| && b < |mem| && mem[b].prev < |mem| && mem[b].next < |mem|
    ensures |Glued(mem, a, b, nu)| == |mem|
    ensures forall u :: 0 <= u < |mem| ==> Glued(mem, a, b, nu)[u].first == if u == a then Word(nu) else mem[u].first
  {
  }

  lemma GluedStamps(mem: seq<Unit>, blocks: Blocks, lo: nat, hi: nat, end: nat, a: nat, b: nat, nu: nat, start: nat)
    requires Stamps(mem, blocks, lo, hi, end) && Tiles(blocks, start, lo, hi, end)
    requires a in blocks && !blocks[a].live && b == a + blocks[a].size && b in blocks && !blocks[b].live && b < |mem|
    requires mem[b].prev < |mem| && mem[b].next < |mem|
    ensures Stamps(Glued(mem, a, b, nu), Join(blocks, a), lo, hi, end)
  {
    GluedFirst(mem, a, b, nu);
    assert Fits(blocks[a], a, start, lo, hi, end);
  }

  lemma GluedNodes(mem: seq<Unit>, nodes: seq<nat>, blocks: Blocks, a: nat, q: nat)
    requires NodeWords(mem, nodes, blocks) && AllIn(blocks, nodes) && Distinct(nodes) && q < |nodes| && Apart(blocks)
    requires a in blocks && a in nodes && blocks[a].size > 0 && nodes[q] == a + blocks[a].size && nodes[q] in blocks
    requires blocks[a].size + blocks[nodes[q]].size < HALF
    requires nodes[q] < |mem| && mem[nodes[q]].prev < |mem| && mem[nodes[q]].next < |mem| && a < |mem|
    ensures var nu := blocks[a].size + blocks[nodes[q]].size;
      NodeWords(Glued(mem, a, nodes[q], nu), Without(nodes, q), Join(blocks, a)) && AllIn(Join(blocks, a), Without(nodes, q))
  {
    var b, nodes1 := nodes[q], Without(nodes, q);
    var nu := blocks[a].size + blocks[b].size;
    var mem1, blocks1 := Glued(mem, a, b, nu), Join(blocks, a);
    GluedFirst(mem, a, b, nu);
    WordIs(nu);
    assert NodeWord(mem, blocks, a);
    forall x | x in nodes1
      ensures NodeWord(mem1, blocks1, x)
    {
      InWithout(nodes, q, x);
      assert NodeWord(mem, blocks, x);
    }
    forall x | x in blocks1 && !blocks1[x].live
      ensures x in nodes1
    {
      assert x in blocks && !blocks[x].live;
      InWithout(nodes, q, x);
    }
  }

  /** One neighbour is taken out of the ring and joined. */
  lemma GlueStep(mem: seq<Unit>, nodes: seq<nat>, blocks: Blocks, start: nat, lo: nat, hi: nat, end: nat, a: nat, q: nat)
    requires Gluing(mem, nodes, blocks, start, lo, hi, end) && a in nodes && q < |nodes|
    requires a in blocks && nodes[q] == a + blocks[a].size && nodes[q] in blocks && blocks[a].size + blocks[nodes[q]].size < HALF
    ensures nodes[q] < |mem| && mem[nodes[q]].prev < |mem| && mem[nodes[q]].next < |mem| && a < |mem|
    ensures Gluing(Glued(mem, a, nodes[q], blocks[a].size + blocks[nodes[q]].size), Without(nodes, q), Join(blocks, a), start, lo, hi, end)
  {
    UnlinkRing(mem, end, nodes, q);
    assert NodeWord(mem, blocks, a) && NodeWord(mem, blocks, nodes[q]) && Fits(blocks[a], a, start, lo, hi, end);
    RingFirst(Unlinked(mem, nodes[q]), end, Without(nodes, q), a, Word(blocks[a].size + blocks[nodes[q]].size));
    JoinTiles(blocks, a, start, lo, hi, end);
    GluedNodes(mem, nodes, blocks, a, q);
    GluedStamps(mem, blocks, lo, hi, end, a, nodes[q], blocks[a].size + blocks[nodes[q]].size, start);
  }

  /** Neither the ring's nodes nor its head are live. */
  lemma RingNotLive(mem: seq<Unit>, nodes: seq<nat>, blocks: Blocks, start: nat, lo: nat, hi: nat, end: nat, i: int)
    requires Gluing(mem, nodes, blocks, start, lo, hi, end)
    ensures !LiveAt(blocks, RingAt(nodes, end, i))
  {
    var u := RingAt(nodes, end, i);
    if u in nodes {
      assert NodeWord(mem, blocks, u);
      assert Fits(blocks[u], u, start, lo, hi, end);
      FreeStart(blocks, u);
    }
  }

  lemma GlueLive(mem: seq<Unit>, nodes: seq<nat>, blocks: Blocks, start: nat, lo: nat, hi: nat, end: nat, a: nat, q: nat, nu: nat)
    requires Gluing(mem, nodes, blocks, start, lo, hi, end) && a in nodes && q < |nodes|
    ensures nodes[q] < |mem| && mem[nodes[q]].prev < |mem| && mem[nodes[q]].next < |mem| && a < |mem|
    ensures LiveKept(blocks, mem, Glued(mem, a, nodes[q], nu))
  {
    UnlinkRing(mem, end, nodes, q);
    assert Tied(mem, end, nodes, q - 1) && Tied(mem, end, nodes, q);
    var i :| 0 <= i < |nodes| && nodes[i] == a;
    RingNotLive(mem, nodes, blocks, start, lo, hi, end, i);
    RingNotLive(mem, nodes, blocks, start, lo, hi, end, q - 1);
    RingNotLive(mem, nodes, blocks, start, lo, hi, end, q + 1);
  }

  // ----- the lists while they are being emptied

  /** The classes from i on are still on their lists, and what is left of list i - 1 starts at next. */
  ghost predicate Remaining(mem: seq<Unit>, freeList: seq<nat>, lists: seq<seq<nat>>, i: nat, next: nat, rest: seq<nat>) {
    && |freeList| == |lists| == NUM_INDEXES && i <= NUM_INDEXES && Chain(mem, next, rest) && Distinct(rest)
    && (forall j :: i <= j < NUM_INDEXES ==> Chain(mem, freeList[j], lists[j]) && Distinct(lists[j]))
    && (forall j :: 0 <= j < i ==> freeList[j] == 0)
  }

  /** Each free block is a node already, or still on its list. */
  ghost predicate Sorted(lists: seq<seq<nat>>, blocks: Blocks, nodes: seq<nat>, i: nat, rest: seq<nat>) {
    && |lists| == NUM_INDEXES && i <= NUM_INDEXES
    && (forall a {:trigger blocks[a]} :: a in blocks && !blocks[a].live ==>
          || a in nodes || a in rest
          || (OnList(lists, a, blocks[a].size) && i <= U2I(blocks[a].size)))
    && (forall a :: a in rest ==> a in blocks && !blocks[a].live && i > 0 && blocks[a].size == I2U(i - 1) && a !in nodes)
    && (forall j, a :: i <= j < NUM_INDEXES && a in lists[j] ==> a in blocks && !blocks[a].live && blocks[a].size == I2U(j) && a !in nodes)
  }

  lemma LinkedFrame(mem: seq<Unit>, node: nat, n: nat, nu: nat, u: nat)
    requires node < |mem| && n < |mem| && u < |mem|
    ensures |Linked(mem, node, n, nu)| == |mem|
    ensures Linked(mem, node, n, nu)[u].first == if u == node then Word(nu) else mem[u].first
  {
  }

  lemma LinkRemaining(mem: seq<Unit>, freeList: seq<nat>, lists: seq<seq<nat>>, blocks: Blocks, nodes: seq<nat>, i: nat, rest: seq<nat>,
                      n: nat, nu: nat)
    requires rest != [] && Remaining(mem, freeList, lists, i, rest[0], rest) && Sorted(lists, blocks, nodes, i, rest)
    requires rest[0] < |mem| && n < |mem|
    ensures Remaining(Linked(mem, rest[0], n, nu), freeList, lists, i, mem[rest[0]].first, rest[1..])
  {
    var node := rest[0];
    var mem1 := Linked(mem, node, n, nu);
    assert node in rest;
    DistinctTail(rest);
    forall a | a in rest[1..] && a < |mem|
      ensures mem1[a].first == mem[a].first
    {
      LinkedFrame(mem, node, n, nu, a);
    }
    ChainFrame(mem, mem1, mem[node].first, rest[1..]);
    forall j | i <= j < NUM_INDEXES
      ensures Chain(mem1, freeList[j], lists[j])
    {
      ClassMono(i - 1, j);
      forall a | a in lists[j] && a < |mem|
        ensures mem1[a].first == mem[a].first
      {
        LinkedFrame(mem, node, n, nu, a);
      }
      ChainFrame(mem, mem1, freeList[j], lists[j]);
    }
  }

  lemma LinkSorted(lists: seq<seq<nat>>, blocks: Blocks, nodes: seq<nat>, i: nat, rest: seq<nat>)
    requires rest != [] && Sorted(lists, blocks, nodes, i, rest) && Distinct(rest)
    ensures Sorted(lists, blocks, [rest[0]] + nodes, i, rest[1..])
  {
    var node := rest[0];
    assert node in rest;
    DistinctTail(rest);
    forall j, a | i <= j < NUM_INDEXES && a in lists[j]
      ensures a !in [node] + nodes
    {
      ClassMono(i - 1, j);
    }
  }

  lemma LinkWords(mem: seq<Unit>, blocks: Blocks, nodes: seq<nat>, node: nat, n: nat)
    requires NodeWords(mem, nodes, blocks) && node < |mem| && n < |mem| && node in blocks && !blocks[node].live && blocks[node].size < HALF
    ensures NodeWords(Linked(mem, node, n, blocks[node].size), [node] + nodes, blocks)
  {
    var nu := blocks[node].size;
    var mem1 := Linked(mem, node, n, nu);
    WordIs(nu);
    forall a | a in [node] + nodes
      ensures NodeWord(mem1, blocks, a)
    {
      if a != node {
        assert NodeWord(mem, blocks, a);
      }
      LinkedFrame(mem, node, n, nu, a);
    }
  }

  /** The next list is begun. */
  lemma NextList(mem: seq<Unit>, freeList: seq<nat>, lists: seq<seq<nat>>, blocks: Blocks, nodes: seq<nat>, i: nat)
    requires i < NUM_INDEXES && Remaining(mem, freeList, lists, i, 0, []) && Sorted(lists, blocks, nodes, i, [])
    ensures Remaining(mem, freeList[i := 0], lists, i + 1, freeList[i], lists[i]) && Sorted(lists, blocks, nodes, i + 1, lists[i])
  {
    ClassOfClass(i);
  }

  lemma AllLinked(lists: seq<seq<nat>>, blocks: Blocks, nodes: seq<nat>)
    requires Sorted(lists, blocks, nodes, NUM_INDEXES, [])
    ensures AllIn(blocks, nodes)
  {
  }
}
