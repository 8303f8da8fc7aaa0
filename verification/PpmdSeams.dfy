/** What gluing achieves: where two free blocks may still lie side by side. */
module PpmdSeams {
  import opened PpmdGlue
  import opened PpmdLists
  import opened PpmdUnits

  // ----- what gluing achieves

  /** A block with no free neighbour behind it that it could be joined with: together they would have 65536 units or more. */
  ghost predicate Alone(blocks: Blocks, a: nat) {
    a in blocks && var b := a + blocks[a].size;
    b in blocks && !blocks[b].live ==> blocks[a].size + blocks[b].size >= HALF
  }

  ghost predicate AllAlone(blocks: Blocks) {
    forall a {:trigger blocks[a]} :: a in blocks && !blocks[a].live ==> Alone(blocks, a)
  }

  ghost predicate AloneUpTo(blocks: Blocks, nodes: seq<nat>, p: nat) {
    forall i {:trigger Place(nodes, i)} :: Place(nodes, i) && i < p ==> Alone(blocks, nodes[i])
  }

  /** The test that ends the inner loop. */
  lemma StopsAlone(mem: seq<Unit>, nodes: seq<nat>, blocks: Blocks, n: nat)
    requires NodeWords(mem, nodes, blocks) && AllIn(blocks, nodes) && n in blocks && n + blocks[n].size < |mem|
    requires var x := mem[n + blocks[n].size]; Stamp(x) != 0 || blocks[n].size + Units(x) >= HALF
    ensures Alone(blocks, n)
  {
    var b := n + blocks[n].size;
    if b in blocks && !blocks[b].live {
      assert NodeWord(mem, blocks, b);
    }
  }

  /** Joining elsewhere leaves a block alone: what is behind it can only grow. */
  lemma JoinAlone(blocks: Blocks, n: nat, a: nat)
    requires Apart(blocks) && n in blocks && n + blocks[n].size in blocks && 0 < blocks[n].size && 0 < blocks[n + blocks[n].size].size
    requires Alone(blocks, a) && a != n && a != n + blocks[n].size && 0 < blocks[a].size
    ensures Alone(Join(blocks, n), a)
  {
  }

  lemma JoinAloneUpTo(mem: seq<Unit>, nodes: seq<nat>, blocks: Blocks, start: nat, lo: nat, hi: nat, end: nat, p: nat, q: nat)
    requires Gluing(mem, nodes, blocks, start, lo, hi, end) && p < |nodes| && q < |nodes| && AloneUpTo(blocks, nodes, p)
    requires nodes[p] in blocks && nodes[q] in blocks && nodes[q] == nodes[p] + blocks[nodes[p]].size
    ensures AloneUpTo(Join(blocks, nodes[p]), Without(nodes, q), if q < p then p - 1 else p)
  {
    var n := nodes[p];
    var p1, nodes1: seq<nat> := if q < p then p - 1 else p, Without(nodes, q);
    assert Fits(blocks[n], n, start, lo, hi, end) && Fits(blocks[nodes[q]], nodes[q], start, lo, hi, end);
    forall i | 0 <= i < |nodes1| && i < p1
      ensures Alone(Join(blocks, n), nodes1[i])
    {
      var j := if i < q then i else i + 1;
      assert Place(nodes, j) && Alone(blocks, nodes[j]);
      Differ(nodes, j, p);
      if j < q {
        Differ(nodes, j, q);
      } else {
        Differ(nodes, q, j);
      }
      assert Fits(blocks[nodes[j]], nodes[j], start, lo, hi, end);
      JoinAlone(blocks, n, nodes[j]);
    }
  }

  lemma OneMoreAlone(blocks: Blocks, nodes: seq<nat>, p: nat)
    requires p < |nodes| && AloneUpTo(blocks, nodes, p) && Alone(blocks, nodes[p])
    ensures AloneUpTo(blocks, nodes, p + 1)
  {
  }

  lemma RingAlone(mem: seq<Unit>, nodes: seq<nat>, blocks: Blocks, start: nat, lo: nat, hi: nat, end: nat, p: nat)
    requires Gluing(mem, nodes, blocks, start, lo, hi, end) && AloneUpTo(blocks, nodes, p) && RingAt(nodes, end, p) == end && p <= |nodes|
    ensures AllAlone(blocks)
  {
    assert p == |nodes|;
    forall a | a in blocks && !blocks[a].live
      ensures Alone(blocks, a)
    {
      var i :| 0 <= i < |nodes| && nodes[i] == a;
      assert Place(nodes, i);
    }
  }

  // ----- after the nodes have been given back to the lists

  ghost predicate Stretch(blocks: Blocks, x: nat, y: nat) {
    forall u: nat {:trigger FreeAt(blocks, u)} :: x <= u < y ==> FreeAt(blocks, u)
  }

  /** Unit u lies inside, or at the end, of 65536 or more free units in a row. */
  ghost predicate LongRun(blocks: Blocks, u: nat) {
    exists x: nat, y: nat :: Stretch(blocks, x, y) && x <= u < y && y - x >= HALF
  }

  /** No list has blocks of exactly n units. */
  ghost predicate NoClass(n: nat) {
    n <= MAX_UNITS && I2U(U2I(n)) != n
  }

  /**
   * Free block a is not followed by another free one, unless it has 128 units, the largest size on a list, or the two
   * together would fit no list exactly, or they are part of 65536 or more free units. Of a block that is still to be given
   * back only the last is said.
   */
  ghost predicate Seam(blocks: Blocks, pending: set<nat>, a: nat) {
    a in blocks && var b := a + blocks[a].size;
    b in blocks && !blocks[b].live ==>
      || LongRun(blocks, b)
      || (a !in pending && blocks[a].size == MAX_UNITS)
      || (a !in pending && b !in pending && NoClass(blocks[a].size + blocks[b].size))
  }

  ghost predicate Fused(blocks: Blocks, pending: set<nat>) {
    forall a {:trigger blocks[a]} :: a in blocks && !blocks[a].live ==> Seam(blocks, pending, a)
  }

  lemma SameRun(blocks: Blocks, blocks1: Blocks, u: nat)
    requires LongRun(blocks, u) && forall v :: FreeAt(blocks1, v) <==> FreeAt(blocks, v)
    ensures LongRun(blocks1, u)
  {
    var x: nat, y: nat :| Stretch(blocks, x, y) && x <= u < y && y - x >= HALF;
    assert Stretch(blocks1, x, y);
  }

  lemma FewerPending(blocks: Blocks, pending: set<nat>, pending1: set<nat>)
    requires pending1 <= pending
    ensures Fused(blocks, pending) ==> Fused(blocks, pending1)
  {
    if Fused(blocks, pending) {
      forall a | a in blocks && !blocks[a].live
        ensures Seam(blocks, pending1, a)
      {
        assert Seam(blocks, pending, a);
      }
    }
  }

  /** Once all free blocks are alone, two side by side make up a long run. */
  lemma AloneFused(blocks: Blocks, pending: set<nat>)
    requires AllAlone(blocks) && forall a :: a in blocks ==> blocks[a].size > 0
    ensures Fused(blocks, pending)
  {
    forall a | a in blocks && !blocks[a].live
      ensures Seam(blocks, pending, a)
    {
      assert Alone(blocks, a);
      var b := a + blocks[a].size;
      if b in blocks && !blocks[b].live {
        var y := b + blocks[b].size;
        forall u: nat | a <= u < y
          ensures FreeAt(blocks, u)
        {
          assert Covers(blocks, if u < b then a else b, u);
        }
        assert Stretch(blocks, a, y);
      }
    }
  }

  /** Other blocks have the same behind them, or less of it; what lies behind the second piece lay behind both. */
  lemma CutSeam(blocks: Blocks, a: nat, k: nat, pending: set<nat>, pending1: set<nat>, x: nat)
    requires Apart(blocks) && a in blocks && !blocks[a].live && a in pending && 0 < k < blocks[a].size && a + k !in blocks
    requires pending1 <= pending - {a} + {a + k} && x != a && x in Cut(blocks, a, k, false, false) && !Cut(blocks, a, k, false, false)[x].live
    requires forall u :: FreeAt(Cut(blocks, a, k, false, false), u) <==> FreeAt(blocks, u)
    requires Seam(blocks, pending, if x == a + k then a else x) && blocks[if x == a + k then a else x].size > 0
    ensures Seam(Cut(blocks, a, k, false, false), pending1, x)
  {
    var blocks1 := Cut(blocks, a, k, false, false);
    var b := x + blocks1[x].size;
    assert x != a + k ==> b != a + k;
    if b in blocks && LongRun(blocks, b) {
      SameRun(blocks, blocks1, b);
    }
  }

  /** The first 128 units of a block, or the first of two pieces of a block that fits no list, are given back. */
  lemma CutFused(blocks: Blocks, a: nat, k: nat, pending: set<nat>, pending1: set<nat>)
    requires Apart(blocks) && a in blocks && !blocks[a].live && a in pending && 0 < k < blocks[a].size && a + k !in blocks
    requires pending1 <= pending - {a} + {a + k} && (k == MAX_UNITS || (NoClass(blocks[a].size) && a + k !in pending1))
    requires forall u :: FreeAt(Cut(blocks, a, k, false, false), u) <==> FreeAt(blocks, u)
    requires forall x :: x in blocks ==> blocks[x].size > 0
    ensures Fused(blocks, pending) ==> Fused(Cut(blocks, a, k, false, false), pending1)
  {
    var blocks1 := Cut(blocks, a, k, false, false);
    if Fused(blocks, pending) {
      assert Seam(blocks1, pending1, a);
      forall x | x in blocks1 && !blocks1[x].live && x != a
        ensures Seam(blocks1, pending1, x)
      {
        CutSeam(blocks, a, k, pending, pending1, x);
      }
    }
  }
}
