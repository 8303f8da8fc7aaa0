/** The PPMd7 sub-allocator: free lists by size class, splitting, gluing, and the gap between text and contexts. */
module PpmdAlloc {
  import opened PpmdGlue
  import opened PpmdLists
  import opened PpmdSeams
  import opened PpmdUnits

  /** Bytes in a unit; unit u holds the bytes from 12 u on. */
  const UNIT_SIZE := 12

  /** Blocks other than a are the same in both, and what b has more lies within n units from a and is free. */
  ghost predicate Within(b: Blocks, c: Blocks, a: nat, n: nat) {
    && (forall x {:trigger x in b} {:trigger x in c} :: x in b && x != a ==> x in c && c[x] == b[x])
    && (forall x {:trigger x in b} {:trigger x in c} :: x in c && x != a && x !in b ==> a <= x < a + n && !c[x].live)
  }

  /** Only first words of the n units from a differ. */
  ghost predicate FirstOnly(mem: seq<Unit>, mem1: seq<Unit>, a: nat, n: nat) {
    && |mem1| == |mem|
    && forall u :: 0 <= u < |mem| ==> mem1[u] == (if a <= u < a + n then mem[u].(first := mem1[u].first) else mem[u])
  }

  lemma FirstBoth(mem: seq<Unit>, mem1: seq<Unit>, mem2: seq<Unit>, a: nat, k: nat, n: nat)
    requires FirstOnly(mem, mem1, a + k, 1) && FirstOnly(mem1, mem2, a, 1) && k < n
    ensures FirstOnly(mem, mem2, a, n)
  {
  }

  lemma CutWithin(blocks: Blocks, a: nat, k: nat)
    requires a in blocks && 0 < k < blocks[a].size && a + k !in blocks
    ensures Within(blocks, Cut(blocks, a, k, false, false), a, blocks[a].size)
  {
  }

  lemma LiveTrans(b: Blocks, c: Blocks, mem: seq<Unit>, mem1: seq<Unit>, mem2: seq<Unit>)
    requires LiveKept(b, mem, mem1) && LiveKept(c, mem1, mem2) && Lives(b) == Lives(c)
    ensures LiveKept(b, mem, mem2)
  {
    forall u: nat | u < |mem| && LiveAt(b, u)
      ensures LiveAt(c, u)
    {
      var a: nat :| Covers(b, a, u) && b[a].live;
      assert a in Lives(b) && a in Lives(c);
      assert Covers(c, a, u);
    }
  }

  lemma JoinLives(blocks: Blocks, a: nat)
    requires a in blocks && a + blocks[a].size in blocks && !blocks[a].live && !blocks[a + blocks[a].size].live && blocks[a].size > 0
    ensures Lives(Join(blocks, a)) == Lives(blocks)
  {
  }

  /** A node's place once another one is gone. */
  lemma WithoutPlace(nodes: seq<nat>, p: nat, q: nat)
    requires p < |nodes| && q < |nodes| && p != q
    ensures var p1 := if q < p then p - 1 else p; p1 < |nodes| - 1 && Without(nodes, q)[p1] == nodes[p]
  {
  }

  /** What is needed to take one node in, and the node afterwards. */
  lemma Absorbs(mem: seq<Unit>, nodes: seq<nat>, blocks: Blocks, start: nat, lo: nat, hi: nat, end: nat, a: nat, b: nat, nu: nat, q: nat)
    requires Gluing(mem, nodes, blocks, start, lo, hi, end) && a in nodes && q < |nodes| && nodes[q] == b
    requires a in blocks && b == a + blocks[a].size && b in blocks && nu == blocks[a].size + blocks[b].size < HALF
    ensures a < |mem| && b < |mem| && mem[b].prev < |mem| && mem[b].next < |mem|
    ensures Gluing(Glued(mem, a, b, nu), Without(nodes, q), Join(blocks, a), start, lo, hi, end)
    ensures NodeWord(Glued(mem, a, b, nu), Join(blocks, a), a)
  {
    assert NodeWord(mem, blocks, a) && NodeWord(mem, blocks, b);
    assert Fits(blocks[a], a, start, lo, hi, end);
    GlueStep(mem, nodes, blocks, start, lo, hi, end, a, q);
    InWithout(nodes, q, a);
    assert NodeWord(Glued(mem, a, b, nu), Join(blocks, a), a);
  }

  /** What stays. */
  lemma AbsorbKeeps(mem: seq<Unit>, nodes: seq<nat>, blocks: Blocks, start: nat, lo: nat, hi: nat, end: nat, a: nat, b: nat, nu: nat, q: nat)
    requires Gluing(mem, nodes, blocks, start, lo, hi, end) && a in nodes && q < |nodes| && nodes[q] == b
    requires a in blocks && b == a + blocks[a].size && b in blocks
    ensures a < |mem| && b < |mem| && mem[b].prev < |mem| && mem[b].next < |mem|
    ensures LiveKept(blocks, mem, Glued(mem, a, b, nu)) && Lives(Join(blocks, a)) == Lives(blocks)
    ensures forall u :: FreeAt(Join(blocks, a), u) <==> FreeAt(blocks, u)
  {
    assert NodeWord(mem, blocks, a) && NodeWord(mem, blocks, b);
    assert Fits(blocks[a], a, start, lo, hi, end);
    GlueLive(mem, nodes, blocks, start, lo, hi, end, a, q, nu);
    JoinLives(blocks, a);
    forall u: nat
      ensures FreeAt(Join(blocks, a), u) <==> FreeAt(blocks, u)
    {
      JoinFree(blocks, a, u);
    }
  }

  lemma WithinTrans(b: Blocks, c: Blocks, d: Blocks, a: nat, n: nat, a1: nat, n1: nat)
    requires Within(b, c, a, n) && Within(c, d, a1, n1) && Apart(b) && a in b && b[a].size == n
    requires a <= a1 && a1 + n1 == a + n && 0 < n1 && a1 in c && !c[a1].live && a1 in d && !d[a1].live && a in c && !c[a].live
    ensures Within(b, d, a, n) && a in d && !d[a].live
  {
    assert a1 != a ==> a1 !in b;
  }

  lemma FirstTrans(mem: seq<Unit>, mem1: seq<Unit>, mem2: seq<Unit>, a: nat, k: nat, n: nat, m: nat)
    requires FirstOnly(mem, mem1, a, k) && FirstOnly(mem1, mem2, a + k, n) && n <= m
    ensures FirstOnly(mem, mem2, a, k + m)
  {
  }

  ghost predicate Seen(x: int) {
    true
  }

  function Elements(s: seq<nat>): set<nat> {
    set x | x in s
  }

  lemma NextElements(nodes: seq<nat>, p: nat)
    requires p < |nodes| && Distinct(nodes)
    ensures Elements(nodes[p..]) - {nodes[p]} == Elements(nodes[p + 1..])
  {
    assert nodes[p..] == [nodes[p]] + nodes[p + 1..];
    forall i | p + 1 <= i < |nodes|
      ensures nodes[i] != nodes[p]
    {
      Differ(nodes, p, i);
    }
  }

  ghost predicate Waits(mem: seq<Unit>, head: nat, nodes: seq<nat>, i: nat)
  {
    i < |nodes| && nodes[i] < |mem| && mem[nodes[i]].next == RingAt(nodes, head, i + 1)
  }

  /** The nodes from place p on are as they were linked. */
  ghost predicate Unfinished(mem: seq<Unit>, blocks: Blocks, head: nat, nodes: seq<nat>, p: nat) {
    forall i: nat {:trigger Waits(mem, head, nodes, i)} {:trigger nodes[i]} :: p <= i < |nodes| ==>
      Waits(mem, head, nodes, i) && NodeWord(mem, blocks, nodes[i])
  }

  lemma StillWaiting(mem: seq<Unit>, mem1: seq<Unit>, b: Blocks, c: Blocks, head: nat, nodes: seq<nat>, p: nat)
    requires Unfinished(mem, b, head, nodes, p) && p < |nodes| && Distinct(nodes) && Apart(b)
    requires nodes[p] in b && FirstOnly(mem, mem1, nodes[p], b[nodes[p]].size) && Within(b, c, nodes[p], b[nodes[p]].size)
    ensures Unfinished(mem1, c, head, nodes, p + 1)
  {
    forall i: nat | p + 1 <= i < |nodes|
      ensures Waits(mem1, head, nodes, i) && NodeWord(mem1, c, nodes[i])
    {
      assert Waits(mem, head, nodes, i) && NodeWord(mem, b, nodes[i]);
      Differ(nodes, p, i);
    }
  }

  /** Spreading a free block over the lists touches nothing that is live. */
  lemma SpreadLives(b: Blocks, c: Blocks, mem: seq<Unit>, mem1: seq<Unit>, a: nat)
    requires Apart(b) && a in b && !b[a].live && a in c && !c[a].live
    requires Within(b, c, a, b[a].size) && FirstOnly(mem, mem1, a, b[a].size)
    ensures Lives(c) == Lives(b) && LiveKept(b, mem, mem1)
  {
    forall u: nat | u < |mem| && LiveAt(b, u)
      ensures mem1[u] == mem[u]
    {
      var x: nat :| Covers(b, x, u) && b[x].live;
      assert !Covers(b, a, u);
    }
  }

  lemma StampsKept(mem: seq<Unit>, mem1: seq<Unit>, blocks: Blocks)
    requires LiveStamped(mem, blocks) && LiveKept(blocks, mem, mem1) && forall a :: a in blocks ==> blocks[a].size > 0
    ensures LiveStamped(mem1, blocks)
  {
    forall a | a in blocks && blocks[a].live
      ensures Stamp(mem1[a]) != 0
    {
      assert Covers(blocks, a, a);
    }
  }

  /** What is kept for more live blocks is kept for fewer. */
  lemma MoreLive(b: Blocks, c: Blocks, mem: seq<Unit>, mem1: seq<Unit>)
    requires LiveKept(c, mem, mem1) && forall a :: a in Lives(b) ==> a in Lives(c) && Lives(c)[a] == Lives(b)[a]
    ensures LiveKept(b, mem, mem1)
  {
    forall u: nat | u < |mem| && LiveAt(b, u)
      ensures LiveAt(c, u)
    {
      var a: nat :| Covers(b, a, u) && b[a].live;
      assert a in Lives(b) && a in Lives(c);
      assert Covers(c, a, u);
    }
  }

  lemma ThenSplit(b: Blocks, c: Blocks, d: Blocks, r: nat, n: nat, k: nat, mem: seq<Unit>, mem1: seq<Unit>)
    requires r !in Lives(b) && Lives(c) == Lives(b)[r := n] && Lives(d) == Lives(c)[r := k] && LiveKept(d, mem, mem1)
    ensures Lives(d) == Lives(b)[r := k] && LiveKept(b, mem, mem1)
  {
    MoreLive(b, d, mem, mem1);
  }

  /** A live block's units are not free. */
  lemma CoversOnly(blocks: Blocks, a: nat, u: nat)
    requires Apart(blocks) && a in blocks && blocks[a].live && Covers(blocks, a, u)
    ensures !FreeAt(blocks, u)
  {
  }

  lemma MarkLives(blocks: Blocks, a: nat)
    requires a in blocks && !blocks[a].live
    ensures a !in Lives(blocks) && Lives(Mark(blocks, a, true)) == Lives(blocks)[a := blocks[a].size]
  {
  }

  lemma UnmarkLives(blocks: Blocks, a: nat)
    requires a in blocks
    ensures Lives(Mark(blocks, a, false)) == Lives(blocks) - {a}
  {
  }

  lemma CutLives(blocks: Blocks, a: nat, k: nat)
    requires a in blocks && blocks[a].live && 0 < k < blocks[a].size && a + k !in blocks
    ensures Lives(Cut(blocks, a, k, true, false)) == Lives(blocks)[a := k]
  {
  }

  lemma GrowLives(blocks: Blocks, a: nat, n: nat)
    requires a !in blocks
    ensures Lives(blocks[a := Block(n, true)]) == Lives(blocks)[a := n]
  {
  }

  /** What was granted after the same blocks were live. */
  lemma SameLives(b: Blocks, c: Blocks, d: Blocks, r: nat, n: nat)
    requires Lives(b) == Lives(c)
    ensures (r !in Lives(c) && Lives(d) == Lives(c)[r := n]) ==> (r !in Lives(b) && Lives(d) == Lives(b)[r := n])
  {
  }

  /** What live blocks other than p hold is not touched. */
  ghost predicate OthersKept(b: Blocks, p: nat, mem: seq<Unit>, mem1: seq<Unit>) {
    |mem1| == |mem| && forall u: nat :: u < |mem| && LiveAt(b, u) && !Covers(b, p, u) ==> mem1[u] == mem[u]
  }

  /** A live block that is cut short keeps its first units, and the others keep all. */
  lemma ShortKept(b: Blocks, c: Blocks, mem: seq<Unit>, mem1: seq<Unit>, p: nat, n: nat, k: nat)
    requires LiveKept(c, mem, mem1) && p in Lives(b) && n <= Lives(b)[p] && Lives(c) == Lives(b)[p := n] && k <= n && p + k <= |mem|
    ensures mem1[p..p + k] == mem[p..p + k] && Lives(c) == (Lives(b) - {p})[p := n]
    ensures OthersKept(b, p, mem, mem1)
  {
    forall u: nat | p <= u < p + k
      ensures mem1[u] == mem[u]
    {
      assert p in Lives(c) && Covers(c, p, u);
      assert LiveAt(c, u);
    }
    forall u: nat | u < |mem| && LiveAt(b, u) && !Covers(b, p, u)
      ensures mem1[u] == mem[u]
    {
      var a: nat :| Covers(b, a, u) && b[a].live;
      assert a in Lives(b) && a in Lives(c) && Covers(c, a, u);
      assert LiveAt(c, u);
    }
  }

  /** The first units of block p moved to block r, and p's first word used for a list. */
  lemma MovedKept(b: Blocks, mem: seq<Unit>, mem1: seq<Unit>, mem2: seq<Unit>, p: nat, r: nat, n: nat)
    requires Apart(b) && p in b && b[p].live && r in b && !b[r].live && 0 < n <= b[r].size && n <= b[p].size
    requires p + n <= |mem| && r + n <= |mem| && |mem1| == |mem| && FirstOnly(mem1, mem2, p, 1)
    requires forall u :: 0 <= u < |mem| ==> mem1[u] == mem[if r <= u < r + n then p + (u - r) else u]
    ensures mem2[r..r + n] == mem[p..p + n]
    ensures OthersKept(b, p, mem, mem2)
  {
    forall u: nat | u < |mem| && LiveAt(b, u) && !Covers(b, p, u)
      ensures mem2[u] == mem[u]
    {
      var a: nat :| Covers(b, a, u) && b[a].live;
      assert !Covers(b, r, u);
    }
  }

  lemma SameLive(lives: map<nat, nat>, p: nat)
    requires p in lives
    ensures (lives - {p})[p := lives[p]] == lives
  {
  }

  lemma MovedLives(lives: map<nat, nat>, p: nat, r: nat, n: nat)
    requires p != r
    ensures lives[r := n] - {p} == (lives - {p})[r := n]
  {
  }

  class Allocator {
    const mem: array<Unit>
    const freeList: array<nat>
    /** The head of the ring lies behind the last unit. */
    const end: nat
    var glueCount: nat
    /** The first byte behind the text. */
    var text: nat
    var unitsStart: nat
    var loUnit: nat
    var hiUnit: nat
    ghost var lists: seq<seq<nat>>
    ghost var blocks: Blocks

    /** All is in order, but for the free blocks that are about to be inserted in a list. */
    ghost predicate Ok(pending: set<nat>)
      reads this, mem, freeList
    {
      && mem.Length == end + 1 && freeList.Length == NUM_INDEXES
      && Tiles(blocks, unitsStart, loUnit, hiUnit, end) && text <= UNIT_SIZE * unitsStart
      && Listed(mem[..], freeList[..], lists, blocks, pending)
      && (forall a :: a in pending ==> a in blocks && !blocks[a].live)
    }

    method InsertNode(node: nat, indx: nat, ghost pending: set<nat>)
      requires Ok(pending) && indx < NUM_INDEXES && node in pending && node in blocks && blocks[node] == Block(I2U(indx), false)
      modifies `lists, mem, freeList
      ensures Ok(pending - {node}) && FirstOnly(old(mem[..]), mem[..], node, 1)
    {
      assert Fits(blocks[node], node, unitsStart, loUnit, hiUnit, end);
      InsertListed(mem[..], freeList[..], lists, blocks, pending, node, indx);
      mem[node] := mem[node].(first := freeList[indx]);
      freeList[indx] := node;
      lists := lists[indx := [node] + lists[indx]];
      assert mem[..] == old(mem[..])[node := old(mem[node]).(first := old(freeList[indx]))];
      assert freeList[..] == old(freeList[..])[indx := node];
    }

    method RemoveNode(indx: nat) returns (node: nat)
      requires Ok({}) && indx < NUM_INDEXES && freeList[indx] != 0
      modifies `lists, `blocks, freeList
      ensures Ok({}) && node == old(freeList[indx]) && node in old(blocks) && old(blocks)[node] == Block(I2U(indx), false)
      ensures blocks == Mark(old(blocks), node, true)
    {
      RemoveListed(mem[..], freeList[..], lists, blocks, {}, indx);
      node := freeList[indx];
      MarkTiles(blocks, node, true, unitsStart, loUnit, hiUnit, end);
      freeList[indx] := mem[node].first;
      lists := lists[indx := lists[indx][1..]];
      blocks := Mark(blocks, node, true);
      assert freeList[..] == old(freeList[..])[indx := old(mem[..])[node].first];
    }

    /** A free block of any size up to 128 units goes to one list, or in two pieces to two. */
    method GiveBack(ptr: nat, nu: nat, ghost pending: set<nat>)
      requires Ok(pending) && ptr in pending && ptr in blocks && blocks[ptr] == Block(nu, false) && 0 < nu <= MAX_UNITS
      modifies `lists, `blocks, mem, freeList
      ensures Ok(pending - {ptr}) && FirstOnly(old(mem[..]), mem[..], ptr, nu)
      ensures Within(old(blocks), blocks, ptr, nu) && ptr in blocks && !blocks[ptr].live
      ensures forall u :: FreeAt(blocks, u) <==> FreeAt(old(blocks), u)
      ensures Fused(old(blocks), pending) ==> Fused(blocks, pending - {ptr})
    {
      var i := U2I(nu);
      ClassFits(nu);
      if I2U(i) != nu {
        i := i - 1;
        var k := I2U(i);
        GiveTail(ptr, k, nu - k, pending);
        CutWithin(old(blocks), ptr, k);
        CutFused(old(blocks), ptr, k, pending, pending - {ptr});
        ghost var mem1 := mem[..];
        InsertNode(ptr, i, pending);
        FirstBoth(old(mem[..]), mem1, mem[..], ptr, k, nu);
      } else {
        InsertNode(ptr, i, pending);
        FewerPending(blocks, pending, pending - {ptr});
      }
    }

    /** What is left over behind the first k units is a class of its own. */
    method GiveTail(ptr: nat, k: nat, left: nat, ghost pending: set<nat>)
      requires Ok(pending) && ptr in pending && blocks[ptr] == Block(k + left, false) && 0 < k && 1 <= left <= 3
      modifies `lists, `blocks, mem, freeList
      ensures Ok(pending) && FirstOnly(old(mem[..]), mem[..], ptr + k, 1)
      ensures blocks == Cut(old(blocks), ptr, k, false, false) && ptr + k !in old(blocks)
      ensures forall u :: FreeAt(blocks, u) <==> FreeAt(old(blocks), u)
    {
      CutOff(ptr, k, pending);
      InsertNode(ptr + k, left - 1, pending + {ptr + k});
      assert pending + {ptr + k} - {ptr + k} == pending;
    }

    /** A block about to be inserted is cut in two. */
    ghost method CutOff(ptr: nat, k: nat, pending: set<nat>)
      requires Ok(pending) && ptr in pending && ptr in blocks && !blocks[ptr].live && 0 < k < blocks[ptr].size
      modifies `blocks
      ensures Ok(pending + {ptr + k}) && ptr + k !in old(blocks) && blocks == Cut(old(blocks), ptr, k, false, false)
      ensures forall u :: FreeAt(blocks, u) <==> FreeAt(old(blocks), u)
    {
      CutTiles(blocks, ptr, k, false, false, unitsStart, loUnit, hiUnit, end);
      var was := blocks;
      blocks := Cut(blocks, ptr, k, false, false);
      ChangeListed(mem[..], freeList[..], lists, was, blocks, pending, pending + {ptr + k});
      forall u: nat
        ensures FreeAt(blocks, u) <==> FreeAt(was, u)
      {
        CutFree(was, ptr, k, false, false, u);
        assert Covers(was, ptr, u) ==> FreeAt(was, u);
      }
    }

    // ----- GlueFreeBlocks

    /** The lists from i on, and what is left of list i - 1, are yet to be linked; n is the node linked last. */
    ghost predicate Linking(nodes: seq<nat>, n: nat, i: nat, next: nat, rest: seq<nat>)
      reads this, mem, freeList
    {
      && mem.Length == end + 1 && freeList.Length == NUM_INDEXES
      && Tiles(blocks, unitsStart, loUnit, hiUnit, end) && text <= UNIT_SIZE * unitsStart
      && Remaining(mem[..], freeList[..], lists, i, next, rest) && Sorted(lists, blocks, nodes, i, rest)
      && PartRing(mem[..], end, nodes) && NodeWords(mem[..], nodes, blocks) && n == RingAt(nodes, end, 0)
    }

    method LinkNode(n: nat, nu: nat, ghost nodes: seq<nat>, i: nat, node: nat, ghost rest: seq<nat>) returns (next: nat)
      requires Linking(nodes, n, i, node, rest) && node != 0 && 0 < i && nu == I2U(i - 1)
      modifies mem
      ensures rest != [] && rest[0] == node && Linking([node] + nodes, node, i, next, rest[1..])
      ensures mem[..] == Linked(old(mem[..]), node, n, nu) && node in blocks && !blocks[node].live
    {
      assert rest != [] && rest[0] == node && node in rest;
      assert Fits(blocks[node], node, unitsStart, loUnit, hiUnit, end);
      ClassOfClass(i - 1);
      WordIs(nu);
      LinkPart(mem[..], end, nodes, node, nu);
      LinkRemaining(mem[..], freeList[..], lists, blocks, nodes, i, rest, n, nu);
      LinkSorted(lists, blocks, nodes, i, rest);
      LinkWords(mem[..], blocks, nodes, node, n);
      next := mem[node].first;
      mem[node] := Unit(Word(nu), n, mem[node].prev);
      mem[n] := mem[n].(prev := node);
      assert mem[..] == Linked(old(mem[..]), node, n, nu);
    }

    /** The first loop: all free blocks are linked, and the lists are emptied. */
    method LinkAll() returns (n: nat, ghost nodes: seq<nat>)
      requires Ok({})
      modifies mem, freeList
      ensures Linking(nodes, n, NUM_INDEXES, 0, []) && LiveKept(blocks, old(mem[..]), mem[..])
    {
      n, nodes := end, [];
      Begin();
      ghost var rest: seq<nat> := [];
      for i := 0 to NUM_INDEXES
        invariant Linking(nodes, n, i, 0, []) && LiveKept(blocks, old(mem[..]), mem[..])
      {
        NextList(mem[..], freeList[..], lists, blocks, nodes, i);
        var nu, next := I2U(i), freeList[i];
        rest := lists[i];
        ghost var was := freeList[..];
        freeList[i] := 0;
        assert freeList[..] == was[i := 0];
        n, nodes := LinkList(n, nu, nodes, i + 1, next, rest);
      }
    }

    lemma Begin()
      requires Ok({})
      ensures Linking([], end, 0, 0, [])
    {
      forall a | a in blocks && !blocks[a].live
        ensures OnList(lists, a, blocks[a].size)
      {
      }
    }

    method LinkList(n0: nat, nu: nat, ghost nodes0: seq<nat>, i: nat, next0: nat, ghost rest0: seq<nat>) returns (n: nat, ghost nodes: seq<nat>)
      requires Linking(nodes0, n0, i, next0, rest0) && 0 < i && nu == I2U(i - 1)
      modifies mem
      ensures Linking(nodes, n, i, 0, []) && LiveKept(blocks, old(mem[..]), mem[..])
    {
      n, nodes := n0, nodes0;
      var next := next0;
      ghost var rest := rest0;
      while next != 0
        invariant Linking(nodes, n, i, next, rest) && LiveKept(blocks, old(mem[..]), mem[..])
        decreases |rest|
      {
        ghost var was := mem[..];
        ghost var m := n;
        var node := next;
        next := LinkNode(n, nu, nodes, i, node, rest);
        LinkLive(was, nodes, node, m, nu);
        n, nodes, rest := node, [node] + nodes, rest[1..];
      }
    }

    lemma LinkLive(was: seq<Unit>, nodes: seq<nat>, node: nat, n: nat, nu: nat)
      requires Tiles(blocks, unitsStart, loUnit, hiUnit, end) && |was| == end + 1 && NodeWords(was, nodes, blocks)
      requires node in blocks && !blocks[node].live && node < |was| && n == RingAt(nodes, end, 0) < |was|
      ensures LiveKept(blocks, was, Linked(was, node, n, nu))
    {
      assert Fits(blocks[node], node, unitsStart, loUnit, hiUnit, end);
      FreeStart(blocks, node);
      HeadOrNode(was, nodes, n);
    }

    /** Neither the head nor a node is live. */
    lemma HeadOrNode(was: seq<Unit>, nodes: seq<nat>, n: nat)
      requires Tiles(blocks, unitsStart, loUnit, hiUnit, end) && NodeWords(was, nodes, blocks) && (n == end || n in nodes)
      ensures !LiveAt(blocks, n)
    {
      if n in nodes {
        assert NodeWord(was, blocks, n);
        assert Fits(blocks[n], n, unitsStart, loUnit, hiUnit, end);
        FreeStart(blocks, n);
      }
    }

    ghost predicate Glues(nodes: seq<nat>)
      reads this, mem, freeList
    {
      && mem.Length == end + 1 && text <= UNIT_SIZE * unitsStart && Gluing(mem[..], nodes, blocks, unitsStart, loUnit, hiUnit, end)
    }

    /** The lists are empty. */
    ghost predicate Emptied()
      reads `lists, freeList
    {
      freeList.Length == |lists| == NUM_INDEXES && forall i :: 0 <= i < NUM_INDEXES ==> freeList[i] == 0
    }

    /** The ring is closed, and the gap is stamped if there is one. */
    method Close(n: nat, ghost nodes: seq<nat>)
      requires Linking(nodes, n, NUM_INDEXES, 0, []) && LiveStamped(mem[..], blocks)
      modifies mem
      ensures Glues(nodes) && LiveKept(blocks, old(mem[..]), mem[..])
    {
      CloseRing(mem[..], end, nodes);
      AllLinked(lists, blocks, nodes);
      ghost var was := mem[..];
      mem[end] := Unit(Marked(mem[end].first), n, mem[end].prev);
      mem[n] := mem[n].(prev := end);
      assert mem[..] == Closed(was, end, n);
      ghost var ring := mem[..];
      ClosedStamps(was, nodes, n);
      if loUnit != hiUnit {
        mem[loUnit] := mem[loUnit].(first := Marked(mem[loUnit].first));
        assert mem[..] == ring[loUnit := ring[loUnit].(first := Marked(ring[loUnit].first))];
        GapStamps(ring, nodes);
      }
    }

    lemma ClosedNodes(was: seq<Unit>, nodes: seq<nat>, n: nat)
      requires Tiles(blocks, unitsStart, loUnit, hiUnit, end) && |was| == end + 1 && n <= end && NodeWords(was, nodes, blocks)
      ensures NodeWords(Closed(was, end, n), nodes, blocks)
    {
      var ring := Closed(was, end, n);
      forall a | a in nodes
        ensures NodeWord(ring, blocks, a)
      {
        assert NodeWord(was, blocks, a);
        assert Fits(blocks[a], a, unitsStart, loUnit, hiUnit, end);
      }
    }

    lemma ClosedStamps(was: seq<Unit>, nodes: seq<nat>, n: nat)
      requires Tiles(blocks, unitsStart, loUnit, hiUnit, end) && |was| == end + 1 && n == RingAt(nodes, end, 0) <= end
      requires NodeWords(was, nodes, blocks) && LiveStamped(was, blocks)
      ensures var ring := Closed(was, end, n);
        LiveKept(blocks, was, ring) && NodeWords(ring, nodes, blocks) && LiveStamped(ring, blocks) && Stamp(ring[end]) != 0
    {
      var ring := Closed(was, end, n);
      MarkedStamp(was[end].first);
      HeadOrNode(was, nodes, n);
      HeadOrNode(was, nodes, end);
      ClosedNodes(was, nodes, n);
      forall a | a in blocks && blocks[a].live
        ensures a < |ring| && Stamp(ring[a]) != 0
      {
        assert Fits(blocks[a], a, unitsStart, loUnit, hiUnit, end);
      }
    }

    /** No block holds the first unit of the gap. */
    lemma GapStamps(ring: seq<Unit>, nodes: seq<nat>)
      requires Tiles(blocks, unitsStart, loUnit, hiUnit, end) && |ring| == end + 1 && loUnit < hiUnit
      requires Ring(ring, end, nodes) && NodeWords(ring, nodes, blocks) && LiveStamped(ring, blocks) && Stamp(ring[end]) != 0
      ensures var stamped := ring[loUnit := ring[loUnit].(first := Marked(ring[loUnit].first))];
        && LiveKept(blocks, ring, stamped) && Ring(stamped, end, nodes) && NodeWords(stamped, nodes, blocks)
        && LiveStamped(stamped, blocks) && Stamp(stamped[end]) != 0 && Stamp(stamped[loUnit]) != 0
    {
      MarkedStamp(ring[loUnit].first);
      var stamped := ring[loUnit := ring[loUnit].(first := Marked(ring[loUnit].first))];
      RingFirst(ring, end, nodes, loUnit, Marked(ring[loUnit].first));
      forall a | a in blocks
        ensures a != loUnit && !Covers(blocks, a, loUnit)
      {
        assert Fits(blocks[a], a, unitsStart, loUnit, hiUnit, end);
      }
      forall a | a in nodes
        ensures NodeWord(stamped, blocks, a)
      {
        assert NodeWord(ring, blocks, a);
      }
    }

    /** The second loop: each node takes in the free blocks right behind it. */
    method GlueAll(ghost nodes0: seq<nat>) returns (ghost nodes: seq<nat>)
      requires Glues(nodes0)
      modifies mem, `blocks
      ensures Glues(nodes) && LiveKept(old(blocks), old(mem[..]), mem[..]) && Lives(blocks) == Lives(old(blocks))
      ensures forall u :: FreeAt(blocks, u) <==> FreeAt(old(blocks), u)
      ensures AllAlone(blocks)
    {
      nodes := nodes0;
      var n := mem[end].next;
      ghost var p: nat := 0;
      assert Tied(mem[..], end, nodes, -1);
      while n != end
        invariant Glues(nodes) && p <= |nodes| && n == RingAt(nodes, end, p) && AloneUpTo(blocks, nodes, p)
        invariant LiveKept(old(blocks), old(mem[..]), mem[..]) && Lives(blocks) == Lives(old(blocks))
        invariant forall u :: FreeAt(blocks, u) <==> FreeAt(old(blocks), u)
        decreases |nodes| - p
      {
        ghost var was, words := blocks, mem[..];
        nodes, p := GlueNode(n, nodes, p);
        LiveTrans(old(blocks), was, old(mem[..]), words, mem[..]);
        assert Tied(mem[..], end, nodes, p);
        n := mem[n].next;
        p := p + 1;
      }
      RingAlone(mem[..], nodes, blocks, unitsStart, loUnit, hiUnit, end, p);
    }

    method GlueNode(n: nat, ghost nodes0: seq<nat>, ghost p0: nat) returns (ghost nodes: seq<nat>, ghost p: nat)
      requires Glues(nodes0) && p0 < |nodes0| && nodes0[p0] == n && AloneUpTo(blocks, nodes0, p0)
      modifies mem, `blocks
      ensures Glues(nodes) && p < |nodes| && nodes[p] == n && |nodes| - p <= |nodes0| - p0 && AloneUpTo(blocks, nodes, p + 1)
      ensures LiveKept(old(blocks), old(mem[..]), mem[..]) && Lives(blocks) == Lives(old(blocks))
      ensures forall u :: FreeAt(blocks, u) <==> FreeAt(old(blocks), u)
    {
      nodes, p := nodes0, p0;
      assert NodeWord(mem[..], blocks, n);
      var nu := Units(mem[n]);
      var going := true;
      while going
        invariant Glues(nodes) && p < |nodes| && nodes[p] == n && |nodes| - p <= |nodes0| - p0
        invariant NodeWord(mem[..], blocks, n) && (if going then nu == blocks[n].size else Alone(blocks, n))
        invariant AloneUpTo(blocks, nodes, p)
        invariant LiveKept(old(blocks), old(mem[..]), mem[..]) && Lives(blocks) == Lives(old(blocks))
        invariant forall u :: FreeAt(blocks, u) <==> FreeAt(old(blocks), u)
        decreases going, |nodes|
      {
        Neighbour(mem[..], nodes, blocks, unitsStart, loUnit, hiUnit, end, n);
        var node2 := n + nu;
        nu := nu + Units(mem[node2]);
        if Stamp(mem[node2]) != 0 || nu >= HALF {
          StopsAlone(mem[..], nodes, blocks, n);
          going := false;
        } else {
          ghost var was, words := blocks, mem[..];
          nodes, p := Absorb(n, node2, nu, nodes, p);
          LiveTrans(old(blocks), was, old(mem[..]), words, mem[..]);
        }
      }
      OneMoreAlone(blocks, nodes, p);
    }

    /** The node behind is taken out of the ring, and its units are added. */
    method Absorb(n: nat, node2: nat, nu: nat, ghost nodes0: seq<nat>, ghost p0: nat) returns (ghost nodes: seq<nat>, ghost p: nat)
      requires Glues(nodes0) && p0 < |nodes0| && nodes0[p0] == n && n in blocks && nu < HALF && AloneUpTo(blocks, nodes0, p0)
      requires node2 in nodes0 && node2 in blocks && node2 == n + blocks[n].size && nu == blocks[n].size + blocks[node2].size
      modifies mem, `blocks
      ensures Glues(nodes) && p < |nodes| && nodes[p] == n && |nodes| - p <= |nodes0| - p0 && |nodes| < |nodes0|
      ensures NodeWord(mem[..], blocks, n) && blocks[n].size == nu && AloneUpTo(blocks, nodes, p)
      ensures LiveKept(old(blocks), old(mem[..]), mem[..]) && Lives(blocks) == Lives(old(blocks))
      ensures forall u :: FreeAt(blocks, u) <==> FreeAt(old(blocks), u)
    {
      ghost var q :| 0 <= q < |nodes0| && nodes0[q] == node2;
      Absorbs(mem[..], nodes0, blocks, unitsStart, loUnit, hiUnit, end, n, node2, nu, q);
      AbsorbKeeps(mem[..], nodes0, blocks, unitsStart, loUnit, hiUnit, end, n, node2, nu, q);
      WithoutPlace(nodes0, p0, q);
      JoinAloneUpTo(mem[..], nodes0, blocks, unitsStart, loUnit, hiUnit, end, p0, q);
      nodes, p := Without(nodes0, q), if q < p0 then p0 - 1 else p0;
      Unlink(n, node2, nu);
      blocks := Join(blocks, n);
    }

    method Unlink(n: nat, node2: nat, nu: nat)
      requires n < mem.Length && node2 < mem.Length && mem[node2].prev < mem.Length && mem[node2].next < mem.Length
      requires nu < 0x1_0000  // NU has 16 bits
      modifies mem
      ensures mem[..] == Glued(old(mem[..]), n, node2, nu)
    {
      var before, after := mem[node2].prev, mem[node2].next;
      mem[before] := mem[before].(next := after);
      mem[after] := mem[after].(prev := before);
      mem[n] := mem[n].(first := Word(nu));
      assert mem[..] == Glued(old(mem[..]), n, node2, nu);
    }

    /** The first k of at least 128 units go to the last list. */
    method SpreadStep(node: nat, nu: nat, ghost pending: set<nat>)
      requires Ok(pending) && node in pending && blocks[node] == Block(nu, false) && nu > MAX_UNITS
      modifies `lists, `blocks, mem, freeList
      ensures Ok(pending - {node} + {node + MAX_UNITS}) && FirstOnly(old(mem[..]), mem[..], node, 1)
      ensures blocks == Cut(old(blocks), node, MAX_UNITS, false, false) && node + MAX_UNITS !in old(blocks)
      ensures forall u :: FreeAt(blocks, u) <==> FreeAt(old(blocks), u)
      ensures Fused(old(blocks), pending) ==> Fused(blocks, pending - {node} + {node + MAX_UNITS})
    {
      CutOff(node, MAX_UNITS, pending);
      CutFused(old(blocks), node, MAX_UNITS, pending, pending - {node} + {node + MAX_UNITS});
      InsertNode(node, NUM_INDEXES - 1, pending + {node + MAX_UNITS});
      assert pending + {node + MAX_UNITS} - {node} == pending - {node} + {node + MAX_UNITS};
    }

    /** A node of any size is given back to the lists. */
    method SpreadNode(node0: nat, nu0: nat, ghost pending: set<nat>)
      requires Ok(pending) && node0 in pending && blocks[node0] == Block(nu0, false) && nu0 > 0 && Fused(blocks, pending)
      modifies `lists, `blocks, mem, freeList
      ensures Ok(pending - {node0}) && Fused(blocks, pending - {node0}) && FirstOnly(old(mem[..]), mem[..], node0, nu0)
      ensures Within(old(blocks), blocks, node0, nu0) && node0 in blocks && !blocks[node0].live
      ensures forall u :: FreeAt(blocks, u) <==> FreeAt(old(blocks), u)
    {
      var node: nat, nu: nat := node0, nu0;
      ghost var rest: set<nat> := pending - {node0};
      SpreadBegin(node0, nu0, pending);
      while nu > MAX_UNITS
        invariant Spreading(rest, node, nu, node0, nu0, old(blocks), old(mem[..]))
      {
        SpreadOn(rest, node, nu, node0, nu0, old(blocks), old(mem[..]));
        node, nu := node + MAX_UNITS, nu - MAX_UNITS;
      }
      SpreadLast(rest, node, nu, node0, nu0, old(blocks), old(mem[..]));
    }

    lemma SpreadBegin(node: nat, nu: nat, pending: set<nat>)
      requires Ok(pending) && node in pending && blocks[node] == Block(nu, false) && nu > 0 && Fused(blocks, pending)
      ensures Spreading(pending - {node}, node, nu, node, nu, blocks, mem[..])
    {
      assert pending - {node} + {node} == pending;
    }

    /** What is left of node0 is nu units at node; blocks and memory were b and words before. */
    ghost predicate Spreading(rest: set<nat>, node: nat, nu: nat, node0: nat, nu0: nat, b: Blocks, words: seq<Unit>)
      reads this, mem, freeList
    {
      forall x {:trigger Seen(x)} :: Seen(x) ==>
      && Ok(rest + {node}) && Fused(blocks, rest + {node}) && node !in rest && node in blocks && blocks[node] == Block(nu, false) && nu > 0
      && node0 <= node && node + nu == node0 + nu0 && FirstOnly(words, mem[..], node0, node - node0)
      && Within(b, blocks, node0, nu0) && node0 in blocks && !blocks[node0].live
      && Apart(b) && node0 in b && b[node0].size == nu0 && (forall u :: FreeAt(blocks, u) <==> FreeAt(b, u))
    }

    method SpreadOn(ghost rest: set<nat>, node: nat, nu: nat, ghost node0: nat, ghost nu0: nat, ghost b: Blocks, ghost words: seq<Unit>)
      requires Spreading(rest, node, nu, node0, nu0, b, words) && nu > MAX_UNITS
      modifies `lists, `blocks, mem, freeList
      ensures Spreading(rest, node + MAX_UNITS, nu - MAX_UNITS, node0, nu0, b, words)
    {
      assert Seen(0);
      ghost var was, mid := blocks, mem[..];
      SpreadStep(node, nu, rest + {node});
      CutWithin(was, node, MAX_UNITS);
      WithinTrans(b, was, blocks, node0, nu0, node, nu);
      FirstTrans(words, mid, mem[..], node0, node - node0, 1, MAX_UNITS);
      assert rest + {node} - {node} == rest;
    }

    method SpreadLast(ghost rest: set<nat>, node: nat, nu: nat, ghost node0: nat, ghost nu0: nat, ghost b: Blocks, ghost words: seq<Unit>)
      requires Spreading(rest, node, nu, node0, nu0, b, words) && nu <= MAX_UNITS
      modifies `lists, `blocks, mem, freeList
      ensures Ok(rest) && Fused(blocks, rest) && FirstOnly(words, mem[..], node0, nu0)
      ensures Within(b, blocks, node0, nu0) && node0 in blocks && !blocks[node0].live
      ensures forall u :: FreeAt(blocks, u) <==> FreeAt(b, u)
    {
      assert Seen(0);
      ghost var was, mid := blocks, mem[..];
      GiveBack(node, nu, rest + {node});
      WithinTrans(b, was, blocks, node0, nu0, node, nu);
      FirstTrans(words, mid, mem[..], node0, node - node0, nu, nu);
      assert rest + {node} - {node} == rest;
    }

    /** The third loop: the nodes from place p on are still in the ring, all others are on the lists. */
    ghost predicate Emptying(nodes: seq<nat>, n: nat, p: nat, b: Blocks, words: seq<Unit>)
      reads this, mem, freeList
    {
      forall x {:trigger Seen(x)} :: Seen(x) ==>
      && p <= |nodes| && Ok(Elements(nodes[p..])) && Fused(blocks, Elements(nodes[p..])) && Distinct(nodes) && n == RingAt(nodes, end, p) && Unfinished(mem[..], blocks, end, nodes, p)
      && LiveKept(b, words, mem[..]) && Lives(blocks) == Lives(b) && (forall u :: FreeAt(blocks, u) <==> FreeAt(b, u))
    }

    method EmptyNode(ghost nodes: seq<nat>, n: nat, ghost p: nat, ghost b: Blocks, ghost words: seq<Unit>) returns (next: nat)
      requires n != end && Emptying(nodes, n, p, b, words)
      modifies `lists, `blocks, mem, freeList
      ensures p < |nodes| && Emptying(nodes, next, p + 1, b, words)
    {
      assert Seen(0);
      ghost var was, mid := blocks, mem[..];
      assert n in Elements(nodes[p..]) && NodeWord(mem[..], blocks, n) && Waits(mem[..], end, nodes, p);
      assert Fits(blocks[n], n, unitsStart, loUnit, hiUnit, end);
      next := mem[n].next;
      SpreadNode(n, Units(mem[n]), Elements(nodes[p..]));
      NextElements(nodes, p);
      StillWaiting(mid, mem[..], was, blocks, end, nodes, p);
      SpreadLives(was, blocks, mid, mem[..], n);
      LiveTrans(b, was, words, mid, mem[..]);
    }

    method EmptyRing(ghost nodes: seq<nat>)
      requires Glues(nodes) && Emptied() && (forall i :: 0 <= i < NUM_INDEXES ==> lists[i] == []) && AllAlone(blocks)
      modifies `lists, `blocks, mem, freeList
      ensures Ok({}) && Fused(blocks, {}) && LiveKept(old(blocks), old(mem[..]), mem[..]) && Lives(blocks) == Lives(old(blocks))
      ensures forall u :: FreeAt(blocks, u) <==> FreeAt(old(blocks), u)
    {
      StartEmptying(nodes);
      var n := mem[end].next;
      ghost var p: nat := 0;
      while n != end
        invariant Emptying(nodes, n, p, old(blocks), old(mem[..]))
        decreases |nodes| - p
      {
        n := EmptyNode(nodes, n, p, old(blocks), old(mem[..]));
        p := p + 1;
      }
      EndEmptying(nodes, n, p, old(blocks), old(mem[..]));
    }

    lemma StartEmptying(nodes: seq<nat>)
      requires Glues(nodes) && Emptied() && (forall i :: 0 <= i < NUM_INDEXES ==> lists[i] == []) && AllAlone(blocks)
      ensures Emptying(nodes, mem[end].next, 0, blocks, mem[..])
    {
      AloneFused(blocks, Elements(nodes));
      assert nodes[0..] == nodes;
      assert Tied(mem[..], end, nodes, -1);
      forall i | 0 <= i < |nodes|
        ensures Waits(mem[..], end, nodes, i) && NodeWord(mem[..], blocks, nodes[i])
      {
        assert Tied(mem[..], end, nodes, i);
        assert nodes[i] in nodes;
      }
      forall a | a in Elements(nodes)
        ensures a in blocks && !blocks[a].live
      {
        assert NodeWord(mem[..], blocks, a);
      }
    }

    lemma EndEmptying(nodes: seq<nat>, n: nat, p: nat, b: Blocks, words: seq<Unit>)
      requires Emptying(nodes, n, p, b, words) && n == end
      ensures Ok({}) && Fused(blocks, {}) && LiveKept(b, words, mem[..]) && Lives(blocks) == Lives(b) && (forall u :: FreeAt(blocks, u) <==> FreeAt(b, u))
    {
      assert Seen(0);
      forall i | p <= i < |nodes|
        ensures nodes[i] < end
      {
        assert NodeWord(mem[..], blocks, nodes[i]);
        assert Fits(blocks[nodes[i]], nodes[i], unitsStart, loUnit, hiUnit, end);
      }
      assert nodes[p..] == [];
      assert Elements(nodes[p..]) == {};
    }

    /**
     * GlueFreeBlocks: neighbours are joined and given back in the largest pieces that the lists take; the same units are
     * free, and no live block is touched.
     */
    method GlueFreeBlocks()
      requires Ok({}) && LiveStamped(mem[..], blocks)
      modifies this, mem, freeList
      ensures Fused(blocks, {})
      ensures Ok({}) && LiveKept(old(blocks), old(mem[..]), mem[..]) && Lives(blocks) == Lives(old(blocks))
      ensures forall u :: FreeAt(blocks, u) <==> FreeAt(old(blocks), u)
      ensures glueCount == 255 && text == old(text) && unitsStart == old(unitsStart) && loUnit == old(loUnit) && hiUnit == old(hiUnit)
    {
      glueCount := 255;
      var n;
      ghost var nodes;
      ghost var words := mem[..];
      n, nodes := LinkAll();
      StampsKept(words, mem[..], blocks);
      ghost var mid := mem[..];
      Close(n, nodes);
      LiveTrans(blocks, blocks, words, mid, mem[..]);
      mid := mem[..];
      ghost var was := blocks;
      nodes := GlueAll(nodes);
      LiveTrans(old(blocks), was, words, mid, mem[..]);
      mid, was := mem[..], blocks;
      lists := seq(NUM_INDEXES, i => []);
      EmptyRing(nodes);
      LiveTrans(old(blocks), was, words, mid, mem[..]);
    }

    // ----- handing out and taking back

    /** SplitBlock: of a block that has been handed out, what its new class does not need is given back. */
    method SplitBlock(ptr: nat, oldIndx: nat, newIndx: nat)
      requires Ok({}) && newIndx < oldIndx < NUM_INDEXES && ptr in blocks && blocks[ptr] == Block(I2U(oldIndx), true)
      modifies `lists, `blocks, mem, freeList
      ensures Ok({}) && Lives(blocks) == Lives(old(blocks))[ptr := I2U(newIndx)] && LiveKept(blocks, old(mem[..]), mem[..])
      ensures forall u: nat :: FreeAt(blocks, u) <==> FreeAt(old(blocks), u) || ptr + I2U(newIndx) <= u < ptr + I2U(oldIndx)
    {
      ClassMono(newIndx, oldIndx);
      ClassOfClass(oldIndx);
      ClassOfClass(newIndx);
      var nu: nat := I2U(oldIndx) - I2U(newIndx);
      var rest: nat := ptr + I2U(newIndx);
      CutLive(ptr, I2U(newIndx));
      ghost var was, words := blocks, mem[..];
      GiveBack(rest, nu, {rest});
      assert {rest} - {rest} == {};
      SpreadLives(was, blocks, words, mem[..], rest);
      LiveTrans(blocks, was, words, words, mem[..]);
    }

    /** A block that has been handed out is cut, and its second part is free. */
    ghost method CutLive(ptr: nat, k: nat)
      requires Ok({}) && ptr in blocks && blocks[ptr].live && 0 < k < blocks[ptr].size
      modifies `blocks
      ensures Ok({ptr + k}) && ptr + k in blocks && blocks[ptr + k] == Block(old(blocks)[ptr].size - k, false)
      ensures Lives(blocks) == Lives(old(blocks))[ptr := k]
      ensures forall u: nat :: FreeAt(blocks, u) <==> FreeAt(old(blocks), u) || ptr + k <= u < ptr + old(blocks)[ptr].size
    {
      CutTiles(blocks, ptr, k, true, false, unitsStart, loUnit, hiUnit, end);
      var was := blocks;
      CutLives(blocks, ptr, k);
      blocks := Cut(blocks, ptr, k, true, false);
      ChangeListed(mem[..], freeList[..], lists, was, blocks, {}, {ptr + k});
      forall u: nat
        ensures FreeAt(blocks, u) <==> FreeAt(was, u) || ptr + k <= u < ptr + was[ptr].size
      {
        CutFree(was, ptr, k, true, false, u);
        if Covers(was, ptr, u) {
          CoversOnly(was, ptr, u);
        }
      }
    }

    /** A client's block of a class goes back to its list. */
    method Release(node: nat, indx: nat)
      requires Ok({}) && indx < NUM_INDEXES && node in blocks && blocks[node] == Block(I2U(indx), true)
      modifies `lists, `blocks, mem, freeList
      ensures Ok({}) && Lives(blocks) == Lives(old(blocks)) - {node} && FirstOnly(old(mem[..]), mem[..], node, 1)
      ensures blocks == Mark(old(blocks), node, false)
    {
      MarkTiles(blocks, node, false, unitsStart, loUnit, hiUnit, end);
      ghost var was := blocks;
      UnmarkLives(blocks, node);
      blocks := Mark(blocks, node, false);
      ChangeListed(mem[..], freeList[..], lists, was, blocks, {}, {node});
      InsertNode(node, indx, {node});
      assert {node} - {node} == {};
    }

    /** Nothing happened, or a block of n units that was not live before is live now. */
    ghost predicate Granted(was: Blocks, r: nat, n: nat)
      reads `blocks
    {
      if r == 0 then Lives(blocks) == Lives(was) else r !in Lives(was) && Lives(blocks) == Lives(was)[r := n]
    }

    method TakeFirst(indx: nat) returns (r: nat)
      requires Ok({}) && indx < NUM_INDEXES && freeList[indx] != 0
      modifies `lists, `blocks, freeList
      ensures Ok({}) && r != 0 && Granted(old(blocks), r, I2U(indx))
      ensures r in old(blocks) && old(blocks)[r] == Block(I2U(indx), false) && blocks == Mark(old(blocks), r, true)
    {
      r := RemoveNode(indx);
      MarkLives(old(blocks), r);
      assert Fits(blocks[r], r, unitsStart, loUnit, hiUnit, end);
    }

    /** A block of a larger class is split. */
    method TakeLarger(i: nat, indx: nat) returns (r: nat)
      requires Ok({}) && indx < i < NUM_INDEXES && freeList[i] != 0
      modifies `lists, `blocks, mem, freeList
      ensures Ok({}) && r != 0 && Granted(old(blocks), r, I2U(indx)) && LiveKept(old(blocks), old(mem[..]), mem[..])
    {
      r := TakeFirst(i);
      ghost var mid := blocks;
      SplitBlock(r, i, indx);
      ThenSplit(old(blocks), mid, blocks, r, I2U(i), I2U(indx), old(mem[..]), mem[..]);
    }

    /** Units below the first block, if the text leaves room for them. */
    method TakeBelow(n: nat) returns (r: nat)
      requires Ok({}) && n > 0
      modifies `unitsStart, `blocks
      ensures Ok({}) && Granted(old(blocks), r, n) && (r == 0 <==> UNIT_SIZE * (old(unitsStart) - n) <= text)
      ensures r == 0 ==> blocks == old(blocks) && unitsStart == old(unitsStart)
    {
      if UNIT_SIZE * unitsStart - text > UNIT_SIZE * n {
        r := unitsStart - n;
        Grow(r, n, r, loUnit, hiUnit);
        unitsStart := r;
      } else {
        r := 0;
      }
    }

    /** Units from the gap's low end. */
    method TakeLow(n: nat) returns (r: nat)
      requires Ok({}) && 0 < n <= hiUnit - loUnit
      modifies `loUnit, `blocks
      ensures Ok({}) && r == old(loUnit) > 0 && loUnit == r + n && r !in Lives(old(blocks)) && Lives(blocks) == Lives(old(blocks))[r := n]
    {
      r := loUnit;
      Grow(r, n, unitsStart, loUnit + n, hiUnit);
      loUnit := loUnit + n;
    }

    /** One unit from the gap's high end. */
    method TakeHigh() returns (r: nat)
      requires Ok({}) && loUnit < hiUnit
      modifies `hiUnit, `blocks
      ensures Ok({}) && r == hiUnit == old(hiUnit) - 1 && r !in Lives(old(blocks)) && Lives(blocks) == Lives(old(blocks))[r := 1]
    {
      r := hiUnit - 1;
      Grow(r, 1, unitsStart, loUnit, r);
      hiUnit := r;
    }

    /** A new live block beside the others. */
    ghost method Grow(a: nat, n: nat, start1: nat, lo1: nat, hi1: nat)
      requires Ok({}) && n > 0
      requires || (a == loUnit && start1 == unitsStart && lo1 == loUnit + n <= hiUnit && hi1 == hiUnit)
               || (a == hi1 && start1 == unitsStart && lo1 == loUnit && hi1 + n == hiUnit && loUnit <= hi1)
               || (a == start1 && 0 < start1 && start1 + n == unitsStart && lo1 == loUnit && hi1 == hiUnit)
      modifies `blocks
      ensures Tiles(blocks, start1, lo1, hi1, end) && Listed(mem[..], freeList[..], lists, blocks, {})
      ensures a !in old(blocks) && blocks == old(blocks)[a := Block(n, true)] && Lives(blocks) == Lives(old(blocks))[a := n]
    {
      GrowTiles(blocks, a, n, unitsStart, loUnit, hiUnit, end, start1, lo1, hi1);
      var was := blocks;
      GrowLives(blocks, a, n);
      blocks := blocks[a := Block(n, true)];
      ChangeListed(mem[..], freeList[..], lists, was, blocks, {}, {});
    }

    /** No block of class indx or larger is free. */
    ghost predicate NoneFree(indx: nat)
      reads `blocks
    {
      forall a {:trigger blocks[a]} :: a in blocks && !blocks[a].live ==> blocks[a].size < I2U(indx)
    }

    lemma EmptyLists(indx: nat)
      requires Ok({}) && indx < NUM_INDEXES && forall j :: indx <= j < NUM_INDEXES ==> freeList[j] == 0
      ensures NoneFree(indx)
    {
      forall j | indx <= j < NUM_INDEXES
        ensures lists[j] == []
      {
        assert Chain(mem[..], freeList[..][j], lists[j]);
      }
      forall a | a in blocks && !blocks[a].live
        ensures blocks[a].size < I2U(indx)
      {
        assert OnList(lists, a, blocks[a].size);
        ClassMono(U2I(blocks[a].size), indx);
      }
    }

    /** All lists of larger blocks are empty. */
    ghost predicate NothingAbove(indx: nat)
      reads freeList
    {
      forall j :: indx < j < NUM_INDEXES && j < freeList.Length ==> freeList[j] == 0
    }

    /** AllocUnitsRare: after gluing if it is time, a larger block is split, or room is taken from the text's side; 0 only
        if neither is possible. */
    method AllocUnitsRare(indx: nat) returns (r: nat)
      requires Ok({}) && indx < NUM_INDEXES && freeList[indx] == 0 && LiveStamped(mem[..], blocks) && glueCount <= 255
      modifies this, mem, freeList
      ensures Ok({}) && Granted(old(blocks), r, I2U(indx)) && LiveKept(old(blocks), old(mem[..]), mem[..]) && glueCount <= 255
      ensures r == 0 ==> NoneFree(indx) && UNIT_SIZE * (unitsStart - I2U(indx)) <= text
      ensures text == old(text) && loUnit == old(loUnit) && hiUnit == old(hiUnit)
      ensures old(glueCount) != 0 ==> glueCount == old(glueCount) - if old(NothingAbove(indx)) then 1 else 0
    {
      ClassOfClass(indx);
      if glueCount == 0 {
        GlueFreeBlocks();
        if freeList[indx] != 0 {
          ghost var was, words := blocks, mem[..];
          r := TakeFirst(indx);
          SameLives(old(blocks), was, blocks, r, I2U(indx));
          return;
        }
      }
      ghost var was, words := blocks, mem[..];
      r := SearchLarger(indx);
      SameLives(old(blocks), was, blocks, r, I2U(indx));
      LiveTrans(old(blocks), was, old(mem[..]), words, mem[..]);
    }

    method SearchLarger(indx: nat) returns (r: nat)
      requires Ok({}) && indx < NUM_INDEXES && freeList[indx] == 0 && 0 < glueCount <= 255
      modifies this, mem, freeList
      ensures Ok({}) && Granted(old(blocks), r, I2U(indx)) && LiveKept(old(blocks), old(mem[..]), mem[..]) && glueCount <= 255
      ensures r == 0 ==> NoneFree(indx) && UNIT_SIZE * (unitsStart - I2U(indx)) <= text
      ensures text == old(text) && loUnit == old(loUnit) && hiUnit == old(hiUnit)
      ensures glueCount == old(glueCount) - if old(NothingAbove(indx)) then 1 else 0
    {
      ClassOfClass(indx);
      var i := indx + 1;
      while i != NUM_INDEXES && freeList[i] == 0
        invariant indx < i <= NUM_INDEXES && forall j :: indx <= j < i ==> freeList[j] == 0
        decreases NUM_INDEXES - i
      {
        i := i + 1;
      }
      if i == NUM_INDEXES {
        glueCount := glueCount - 1;
        EmptyLists(indx);
        r := TakeBelow(I2U(indx));
      } else {
        r := TakeLarger(i, indx);
      }
    }

    /** AllocUnits: a block of the class, units from the gap, or the rare case. */
    method AllocUnits(indx: nat) returns (r: nat)
      requires Ok({}) && indx < NUM_INDEXES && LiveStamped(mem[..], blocks) && glueCount <= 255
      modifies this, mem, freeList
      ensures Ok({}) && Granted(old(blocks), r, I2U(indx)) && LiveKept(old(blocks), old(mem[..]), mem[..]) && glueCount <= 255
      ensures r == 0 ==> NoneFree(indx) && hiUnit - loUnit < I2U(indx) && UNIT_SIZE * (unitsStart - I2U(indx)) <= text
      ensures text == old(text)
    {
      ClassOfClass(indx);
      if freeList[indx] != 0 {
        r := TakeFirst(indx);
        return;
      }
      var n := I2U(indx);
      if n <= hiUnit - loUnit {
        r := TakeLow(n);
        return;
      }
      r := AllocUnitsRare(indx);
    }

    /** The unit for a new context, as in CreateSuccessors: from the gap's high end, from the first list, or the rare case. */
    method AllocContext() returns (r: nat)
      requires Ok({}) && LiveStamped(mem[..], blocks) && glueCount <= 255
      modifies this, mem, freeList
      ensures Ok({}) && Granted(old(blocks), r, 1) && LiveKept(old(blocks), old(mem[..]), mem[..]) && glueCount <= 255
      ensures text == old(text)
      ensures r == 0 ==> NoneFree(0) && hiUnit == loUnit && UNIT_SIZE * (unitsStart - 1) <= text
    {
      if hiUnit != loUnit {
        r := TakeHigh();
      } else if freeList[0] != 0 {
        r := TakeFirst(0);
      } else {
        r := AllocUnitsRare(0);
      }
    }

    /** MyMem12Cpy. */
    method CopyUnits(dest: nat, src: nat, num: nat)
      requires num > 0 && dest + num <= mem.Length && src + num <= mem.Length && (dest + num <= src || src + num <= dest)
      modifies mem
      ensures forall u :: 0 <= u < mem.Length ==> mem[u] == old(mem[if dest <= u < dest + num then src + (u - dest) else u])
    {
      for k := 0 to num
        invariant forall u :: 0 <= u < mem.Length ==> mem[u] == old(mem[if dest <= u < dest + k then src + (u - dest) else u])
      {
        mem[dest + k] := mem[src + k];
      }
    }

    /** ShrinkUnits: the first newNU units keep what they hold, in the old block cut short or in another one; no other live
        block is touched. */
    method ShrinkUnits(oldPtr: nat, oldNU: nat, newNU: nat) returns (r: nat)
      requires Ok({}) && 0 < newNU <= oldNU <= MAX_UNITS && oldPtr in blocks && blocks[oldPtr] == Block(I2U(U2I(oldNU)), true)
      modifies `lists, `blocks, mem, freeList
      ensures Ok({}) && Lives(blocks) == (Lives(old(blocks)) - {oldPtr})[r := I2U(U2I(newNU))]
      ensures r == oldPtr || r !in Lives(old(blocks))
      ensures oldPtr + newNU <= mem.Length && r + newNU <= mem.Length && mem[r..r + newNU] == old(mem[oldPtr..oldPtr + newNU])
      ensures OthersKept(old(blocks), oldPtr, old(mem[..]), mem[..])
    {
      var i0, i1 := U2I(oldNU), U2I(newNU);
      ClassFits(oldNU);
      ClassFits(newNU);
      assert Fits(blocks[oldPtr], oldPtr, unitsStart, loUnit, hiUnit, end);
      if i0 == i1 {
        SameLive(Lives(blocks), oldPtr);
        return oldPtr;
      }
      if freeList[i1] != 0 {
        r := MoveBlock(oldPtr, i0, newNU, i1);
      } else {
        r := oldPtr;
        ShrinkHere(oldPtr, i0, newNU, i1);
      }
    }

    /** The block is cut short where it is. */
    method ShrinkHere(ptr: nat, i0: nat, newNU: nat, i1: nat)
      requires Ok({}) && i1 < i0 < NUM_INDEXES && ptr in blocks && blocks[ptr] == Block(I2U(i0), true) && newNU <= I2U(i1)
      modifies `lists, `blocks, mem, freeList
      ensures Ok({}) && Lives(blocks) == (Lives(old(blocks)) - {ptr})[ptr := I2U(i1)]
      ensures ptr + newNU <= mem.Length && mem[ptr..ptr + newNU] == old(mem[ptr..ptr + newNU])
      ensures OthersKept(old(blocks), ptr, old(mem[..]), mem[..])
    {
      assert Fits(blocks[ptr], ptr, unitsStart, loUnit, hiUnit, end);
      ClassMono(i1, i0);
      SplitBlock(ptr, i0, i1);
      ShortKept(old(blocks), blocks, old(mem[..]), mem[..], ptr, I2U(i1), newNU);
    }

    /** The units move to a block of class i1, and the old block is given back. */
    method MoveBlock(oldPtr: nat, i0: nat, newNU: nat, i1: nat) returns (r: nat)
      requires Ok({}) && i0 < NUM_INDEXES && i1 < NUM_INDEXES && freeList[i1] != 0
      requires oldPtr in blocks && blocks[oldPtr] == Block(I2U(i0), true) && 0 < newNU <= I2U(i1) && newNU <= I2U(i0)
      modifies `lists, `blocks, mem, freeList
      ensures Ok({}) && r !in Lives(old(blocks)) && Lives(blocks) == (Lives(old(blocks)) - {oldPtr})[r := I2U(i1)]
      ensures oldPtr + newNU <= mem.Length && r + newNU <= mem.Length && mem[r..r + newNU] == old(mem[oldPtr..oldPtr + newNU])
      ensures OthersKept(old(blocks), oldPtr, old(mem[..]), mem[..])
    {
      assert Fits(blocks[oldPtr], oldPtr, unitsStart, loUnit, hiUnit, end);
      r := TakeFirst(i1);
      assert Fits(blocks[r], r, unitsStart, loUnit, hiUnit, end);
      FillBlock(r, oldPtr, newNU);
      ghost var mid := mem[..];
      Release(oldPtr, i0);
      MovedKept(old(blocks), old(mem[..]), mid, mem[..], oldPtr, r, newNU);
      MovedLives(Lives(old(blocks)), oldPtr, r, I2U(i1));
    }

    /** A live block takes over the first units of another one. */
    method FillBlock(r: nat, oldPtr: nat, newNU: nat)
      requires Ok({}) && r in blocks && oldPtr in blocks && r != oldPtr && blocks[r].live && blocks[oldPtr].live
      requires 0 < newNU <= blocks[r].size && newNU <= blocks[oldPtr].size
      modifies mem
      ensures Ok({})
      ensures forall u :: 0 <= u < mem.Length ==> mem[..][u] == old(mem[..])[if r <= u < r + newNU then oldPtr + (u - r) else u]
    {
      assert Fits(blocks[r], r, unitsStart, loUnit, hiUnit, end) && Fits(blocks[oldPtr], oldPtr, unitsStart, loUnit, hiUnit, end);
      CopyUnits(r, oldPtr, newNU);
      WriteListed(old(mem[..]), mem[..], freeList[..], lists, blocks, {});
    }

    // ----- the start

    /** RestartModel: the lists are empty; the root context takes the last unit, and its 256 symbols the first 128 units
        behind an eighth of the memory that is for the text. */
    method Restart(size: nat)
      requires mem.Length == end + 1 && freeList.Length == NUM_INDEXES && 2048 <= size <= UNIT_SIZE * end
      modifies this, freeList
      ensures Ok({}) && Lives(blocks) == map[end - 1 := 1, loUnit - MAX_UNITS := MAX_UNITS] && glueCount == 0
      ensures text == 12 * end - size && loUnit == end - size / 8 / 12 * 7 + MAX_UNITS && hiUnit == end - 1
    {
      ClearLists();
      text, glueCount := UNIT_SIZE * end - size, 0;
      unitsStart := end - size / 8 / 12 * 7;
      loUnit, hiUnit := unitsStart, end;
      NoBlocks();
      var context := TakeHigh();
      var stats := TakeLow(MAX_UNITS);
    }

    method ClearLists()
      requires freeList.Length == NUM_INDEXES
      modifies freeList
      ensures forall i :: 0 <= i < NUM_INDEXES ==> freeList[i] == 0
    {
      for i := 0 to NUM_INDEXES
        invariant forall j :: 0 <= j < i ==> freeList[j] == 0
      {
        freeList[i] := 0;
      }
    }

    ghost method NoBlocks()
      requires mem.Length == end + 1 && freeList.Length == NUM_INDEXES && forall i :: 0 <= i < NUM_INDEXES ==> freeList[i] == 0
      requires 0 < unitsStart == loUnit <= hiUnit == end && text <= UNIT_SIZE * unitsStart
      modifies `lists, `blocks
      ensures Ok({}) && Lives(blocks) == map[]
    {
      lists, blocks := seq(NUM_INDEXES, i => []), map[];
    }
  }
}
