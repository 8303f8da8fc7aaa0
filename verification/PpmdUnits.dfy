/** Units and blocks of the PPMd7 sub-allocator: the size classes, and how blocks tile the memory. */
module PpmdUnits {

  const NUM_INDEXES := 38
  const MAX_UNITS := 128

  // ----- size classes

  /** Indx2Units: 1 to 4, then in steps of two to 12, of three to 24, of four to 128. */
  function I2U(i: int): int {
    if i < 4 then i + 1 else if i < 8 then 2 * i - 2 else if i < 12 then 3 * i - 9 else 4 * i - 20
  }

  /** Units2Indx. */
  function U2I(nu: int): int {
    if nu <= 4 then nu - 1 else if nu <= 12 then (nu + 3) / 2 else if nu <= 24 then (nu + 11) / 3 else (nu + 23) / 4
  }

  /** The class of a size is the smallest one that is large enough, and at most three units are left over. */
  lemma ClassFits(nu: int)
    requires 0 < nu <= MAX_UNITS
    ensures 0 <= U2I(nu) < NUM_INDEXES && I2U(U2I(nu)) >= nu
    ensures U2I(nu) > 0 ==> I2U(U2I(nu) - 1) < nu
    ensures I2U(U2I(nu)) != nu ==> U2I(nu) > 0 && 1 <= nu - I2U(U2I(nu) - 1) <= 3
  {
  }

  lemma ClassOfClass(i: int)
    requires 0 <= i < NUM_INDEXES
    ensures 0 < I2U(i) <= MAX_UNITS && U2I(I2U(i)) == i
  {
  }

  lemma ClassMono(i: int, j: int)
    requires 0 <= i < j
    ensures I2U(i) < I2U(j)
  {
  }

  /** The part of Ppmd7_Construct that fills both tables. */
  method Construct(units2Indx: array<int>, indx2Units: array<int>)
    requires units2Indx.Length == MAX_UNITS && indx2Units.Length == NUM_INDEXES && units2Indx != indx2Units
    modifies units2Indx, indx2Units
    ensures forall i :: 0 <= i < NUM_INDEXES ==> indx2Units[i] == I2U(i)
    ensures forall nu :: 1 <= nu <= MAX_UNITS ==> units2Indx[nu - 1] == U2I(nu)
  {
    var k := 0;
    for i := 0 to NUM_INDEXES
      invariant k == (if i == 0 then 0 else I2U(i - 1))
      invariant forall j :: 0 <= j < i ==> indx2Units[j] == I2U(j)
      invariant forall j :: 0 <= j < k ==> units2Indx[j] == U2I(j + 1)
    {
      var step := if i >= 12 then 4 else i / 4 + 1;
      ClassOfClass(i);
      while step != 0
        invariant 0 <= step <= 4 && k + step == I2U(i) && k >= (if i == 0 then 0 else I2U(i - 1))
        invariant forall j :: 0 <= j < i ==> indx2Units[j] == I2U(j)
        invariant forall j :: 0 <= j < k ==> units2Indx[j] == U2I(j + 1)
        decreases step
      {
        units2Indx[k] := i;
        k, step := k + 1, step - 1;
      }
      indx2Units[i] := k;
    }
  }

  // ----- blocks

  datatype Block = Block(size: nat, live: bool)

  type Blocks = map<nat, Block>

  ghost predicate Covers(blocks: Blocks, a: nat, u: nat) {
    a in blocks && a <= u < a + blocks[a].size
  }

  ghost predicate Covered(blocks: Blocks, u: nat) {
    exists a :: Covers(blocks, a, u)
  }

  /** Different blocks have no unit in common. */
  ghost predicate Apart(blocks: Blocks) {
    forall a, b :: a in blocks && b in blocks && a < b ==> a + blocks[a].size <= b
  }

  ghost predicate Fits(b: Block, a: nat, start: nat, lo: nat, hi: nat, end: nat) {
    0 < b.size && start <= a && a + b.size <= end && (a + b.size <= lo || hi <= a || lo == hi)
  }

  /** The blocks and the gap from lo to hi together are the memory from start to end, with nothing in common. */
  ghost predicate Tiles(blocks: Blocks, start: nat, lo: nat, hi: nat, end: nat) {
    && 0 < start <= lo <= hi <= end && Apart(blocks)
    && (forall a :: a in blocks ==> Fits(blocks[a], a, start, lo, hi, end))
    && (forall u :: start <= u < lo || hi <= u < end ==> Covered(blocks, u))
  }

  ghost predicate FreeAt(blocks: Blocks, u: nat) {
    exists a :: Covers(blocks, a, u) && !blocks[a].live
  }

  ghost predicate LiveAt(blocks: Blocks, u: nat) {
    exists a :: Covers(blocks, a, u) && blocks[a].live
  }

  /** A block is cut in two. */
  function Cut(blocks: Blocks, a: nat, k: nat, first: bool, second: bool): Blocks
    requires a in blocks && k <= blocks[a].size
  {
    blocks[a + k := Block(blocks[a].size - k, second)][a := Block(k, first)]
  }

  lemma CutCovers(blocks: Blocks, a: nat, k: nat, first: bool, second: bool, x: nat, u: nat) returns (y: nat)
    requires Apart(blocks) && a in blocks && 0 < k < blocks[a].size && Covers(blocks, x, u)
    ensures var c := Cut(blocks, a, k, first, second);
      Covers(c, y, u) && (if x == a then y == (if u < a + k then a else a + k) else y == x && c[y] == blocks[x])
  {
    y := if x != a then x else if u < a + k then a else a + k;
  }

  lemma CutTiles(blocks: Blocks, a: nat, k: nat, first: bool, second: bool, start: nat, lo: nat, hi: nat, end: nat)
    requires Tiles(blocks, start, lo, hi, end) && a in blocks && 0 < k < blocks[a].size
    ensures Tiles(Cut(blocks, a, k, first, second), start, lo, hi, end) && a + k !in blocks
  {
    var c := Cut(blocks, a, k, first, second);
    forall u | Covered(blocks, u)
      ensures Covered(c, u)
    {
      var x :| Covers(blocks, x, u);
      var y := CutCovers(blocks, a, k, first, second, x, u);
    }
  }

  /** Cutting frees exactly what it says. */
  lemma CutFree(blocks: Blocks, a: nat, k: nat, first: bool, second: bool, u: nat)
    requires Apart(blocks) && a in blocks && 0 < k < blocks[a].size
    ensures FreeAt(Cut(blocks, a, k, first, second), u) <==>
      if Covers(blocks, a, u) then (if u < a + k then !first else !second) else FreeAt(blocks, u)
  {
    var c := Cut(blocks, a, k, first, second);
    if Covers(blocks, a, u) {
      assert Covers(c, if u < a + k then a else a + k, u);
    } else {
      if FreeAt(blocks, u) {
        var x :| Covers(blocks, x, u) && !blocks[x].live;
        assert Covers(c, x, u);
      }
      if FreeAt(c, u) {
        var x :| Covers(c, x, u) && !c[x].live;
        assert Covers(blocks, x, u);
      }
    }
  }

  /** A block changes hands. */
  function Mark(blocks: Blocks, a: nat, live: bool): Blocks
    requires a in blocks
  {
    blocks[a := Block(blocks[a].size, live)]
  }

  lemma MarkTiles(blocks: Blocks, a: nat, live: bool, start: nat, lo: nat, hi: nat, end: nat)
    requires Tiles(blocks, start, lo, hi, end) && a in blocks
    ensures Tiles(Mark(blocks, a, live), start, lo, hi, end)
  {
    var c := Mark(blocks, a, live);
    forall u | Covered(blocks, u)
      ensures Covered(c, u)
    {
      var x :| Covers(blocks, x, u);
      assert Covers(c, x, u);
    }
  }

  /** Two neighbours become one block. */
  function Join(blocks: Blocks, a: nat): Blocks
    requires a in blocks && a + blocks[a].size in blocks
  {
    var b := a + blocks[a].size;
    map x | x in blocks && x != b :: if x == a then Block(blocks[a].size + blocks[b].size, blocks[a].live) else blocks[x]
  }

  /** What follows a block: the end, the gap, or another block. */
  lemma Follower(blocks: Blocks, a: nat, start: nat, lo: nat, hi: nat, end: nat)
    requires Tiles(blocks, start, lo, hi, end) && a in blocks
    ensures var b := a + blocks[a].size; b == end || (b == lo < hi) || b in blocks
  {
    var b := a + blocks[a].size;
    if b < lo || hi <= b < end {
      assert Covered(blocks, b);
      var x :| Covers(blocks, x, b);
    }
  }

  lemma JoinCovers(blocks: Blocks, a: nat, x: nat, u: nat)
    requires Apart(blocks) && a in blocks && 0 < blocks[a].size && a + blocks[a].size in blocks && Covers(blocks, x, u)
    ensures Covers(Join(blocks, a), if x == a + blocks[a].size then a else x, u)
  {
  }

  lemma JoinTiles(blocks: Blocks, a: nat, start: nat, lo: nat, hi: nat, end: nat)
    requires Tiles(blocks, start, lo, hi, end) && a in blocks && a + blocks[a].size in blocks
    ensures Tiles(Join(blocks, a), start, lo, hi, end)
  {
    var c := Join(blocks, a);
    var b := a + blocks[a].size;
    forall u | Covered(blocks, u)
      ensures Covered(c, u)
    {
      var x :| Covers(blocks, x, u);
      JoinCovers(blocks, a, x, u);
    }
    assert Fits(blocks[a], a, start, lo, hi, end) && Fits(blocks[b], b, start, lo, hi, end);
  }

  /** Joining two free blocks leaves the same units free. */
  lemma JoinFree(blocks: Blocks, a: nat, u: nat)
    requires Apart(blocks) && a in blocks && 0 < blocks[a].size && a + blocks[a].size in blocks
    requires !blocks[a].live && !blocks[a + blocks[a].size].live
    ensures FreeAt(blocks, u) <==> FreeAt(Join(blocks, a), u)
  {
    var c := Join(blocks, a);
    if FreeAt(blocks, u) {
      var x: nat :| Covers(blocks, x, u) && !blocks[x].live;
      JoinCovers(blocks, a, x, u);
    }
    if FreeAt(c, u) {
      var x: nat :| Covers(c, x, u) && !c[x].live;
      if x == a && u >= a + blocks[a].size {
        assert Covers(blocks, a + blocks[a].size, u);
      } else {
        assert Covers(blocks, x, u);
      }
    }
  }

  /** A new block takes units from the gap's low end, from its high end, or from below the start. */
  lemma GrowTiles(blocks: Blocks, a: nat, n: nat, start: nat, lo: nat, hi: nat, end: nat,
                  start1: nat, lo1: nat, hi1: nat)
    requires Tiles(blocks, start, lo, hi, end) && n > 0
    requires || (a == lo && start1 == start && lo1 == lo + n <= hi && hi1 == hi)
             || (a == hi1 && start1 == start && lo1 == lo && hi1 + n == hi && lo <= hi1)
             || (a == start1 && 0 < start1 && start1 + n == start && lo1 == lo && hi1 == hi)
    ensures a !in blocks && Tiles(blocks[a := Block(n, true)], start1, lo1, hi1, end)
  {
    var c := blocks[a := Block(n, true)];
    forall x | x in blocks
      ensures x != a
    {
      assert Fits(blocks[x], x, start, lo, hi, end);
    }
    forall u | start1 <= u < lo1 || hi1 <= u < end
      ensures Covered(c, u)
    {
      if a <= u < a + n {
        assert Covers(c, a, u);
      } else {
        assert Covered(blocks, u);
        var x :| Covers(blocks, x, u);
        assert Covers(c, x, u);
      }
    }
  }

  // ----- what is live

  ghost function Lives(blocks: Blocks): map<nat, nat> {
    map a | a in blocks && blocks[a].live :: blocks[a].size
  }

  /** No unit is both free and live. */
  lemma NotBoth(blocks: Blocks, u: nat)
    requires Apart(blocks) && FreeAt(blocks, u)
    ensures !LiveAt(blocks, u)
  {
  }

  lemma FreeStart(blocks: Blocks, a: nat)
    requires Apart(blocks) && a in blocks && !blocks[a].live && blocks[a].size > 0
    ensures FreeAt(blocks, a) && !LiveAt(blocks, a)
  {
    assert Covers(blocks, a, a);
    NotBoth(blocks, a);
  }

  // ----- the balance

  ghost function UnitsFrom(start: nat, end: nat): (s: set<nat>)
    requires start <= end
    ensures |s| == end - start && forall u :: u in s <==> start <= u < end
    decreases end - start
  {
    if start == end then {} else {start} + UnitsFrom(start + 1, end)
  }

  ghost function FreeUnits(blocks: Blocks, end: nat): set<nat> {
    set u: nat | u < end && FreeAt(blocks, u)
  }

  ghost function LiveUnits(blocks: Blocks, end: nat): set<nat> {
    set u: nat | u < end && LiveAt(blocks, u)
  }

  /** Free units, live units and the gap are all units there are. */
  lemma Balance(blocks: Blocks, start: nat, lo: nat, hi: nat, end: nat)
    requires Tiles(blocks, start, lo, hi, end)
    ensures |FreeUnits(blocks, end)| + |LiveUnits(blocks, end)| + (hi - lo) == end - start
  {
    var f, l := FreeUnits(blocks, end), LiveUnits(blocks, end);
    forall u: nat | u < end
      ensures !(u in f && u in l) && (u in f || u in l <==> (start <= u < lo || hi <= u))
    {
      WhoHolds(blocks, start, lo, hi, end, u);
    }
    Parts(f, l, UnitsFrom(lo, hi), UnitsFrom(start, end));
  }

  lemma Parts(a: set<nat>, b: set<nat>, c: set<nat>, all: set<nat>)
    requires a !! b && a !! c && b !! c && forall u :: u in all <==> u in a || u in b || u in c
    ensures |a| + |b| + |c| == |all|
  {
    assert all == a + b + c;
  }

  lemma WhoHolds(blocks: Blocks, start: nat, lo: nat, hi: nat, end: nat, u: nat)
    requires Tiles(blocks, start, lo, hi, end) && u < end
    ensures !(FreeAt(blocks, u) && LiveAt(blocks, u))
    ensures FreeAt(blocks, u) || LiveAt(blocks, u) <==> (start <= u < lo || hi <= u)
  {
    if FreeAt(blocks, u) {
      NotBoth(blocks, u);
    }
    if start <= u < lo || hi <= u {
      assert Covered(blocks, u);
    }
    forall a: nat | Covers(blocks, a, u)
      ensures start <= u < lo || hi <= u
    {
      assert Fits(blocks[a], a, start, lo, hi, end);
    }
  }
}
