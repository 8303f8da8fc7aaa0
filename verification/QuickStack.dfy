/** What the explicit stacks of both quicksorts keep: pending segments are disjoint, everything not
    inside one common segment is already in order, and the stack stays shallow. */
module QuickStack {
  import opened Slices

  datatype Seg = Seg(lo: int, hi: int)

  ghost predicate Covers(st: seq<Seg>, x: int, y: int) {
    exists k :: 0 <= k < |st| && st[k].lo <= x && y <= st[k].hi
  }

  ghost predicate Ordered(s: seq<int>, key: seq<int>, x: int, y: int)
    requires 0 <= x < |s| && 0 <= y < |s|
  {
    0 <= s[x] < |key| && 0 <= s[y] < |key| && key[s[x]] <= key[s[y]]
  }

  /** Positions a <= x < y <= b are in order unless one pending segment holds both. */
  ghost predicate PartSorted(s: seq<int>, key: seq<int>, st: seq<Seg>, a: int, b: int) {
    && 0 <= a && b < |s|
    && forall x, y :: a <= x < y <= b ==> Ordered(s, key, x, y) || Covers(st, x, y)
  }

  ghost predicate Disjoint(st: seq<Seg>) {
    forall j, k :: 0 <= j < k < |st| ==> st[j].hi < st[k].lo || st[k].hi < st[j].lo
  }

  ghost predicate Within(st: seq<Seg>, a: int, b: int) {
    forall k :: 0 <= k < |st| ==> a <= st[k].lo && st[k].hi <= b && st[k].lo <= st[k].hi + 1
  }

  lemma CoversTop(st: seq<Seg>, seg: Seg, x: int, y: int)
    ensures Covers(st + [seg], x, y) <==> Covers(st, x, y) || (seg.lo <= x && y <= seg.hi)
  {
    if Covers(st, x, y) {
      var k :| 0 <= k < |st| && st[k].lo <= x && y <= st[k].hi;
      assert (st + [seg])[k] == st[k];
    }
    if seg.lo <= x && y <= seg.hi {
      assert (st + [seg])[|st|] == seg;
    }
    if Covers(st + [seg], x, y) {
      var k :| 0 <= k < |st + [seg]| && (st + [seg])[k].lo <= x && y <= (st + [seg])[k].hi;
      if k < |st| {
        assert st[k] == (st + [seg])[k];
      }
    }
  }

  lemma CoversAppend(st: seq<Seg>, parts: seq<Seg>, x: int, y: int)
    requires Covers(st, x, y) || Covers(parts, x, y)
    ensures Covers(st + parts, x, y)
  {
    if Covers(st, x, y) {
      var k :| 0 <= k < |st| && st[k].lo <= x && y <= st[k].hi;
      assert (st + parts)[k] == st[k];
    } else {
      var k :| 0 <= k < |parts| && parts[k].lo <= x && y <= parts[k].hi;
      assert (st + parts)[|st| + k] == parts[k];
    }
  }

  /** A segment disjoint from the popped one cannot reach into it. */
  lemma CoversAvoids(st: seq<Seg>, seg: Seg, x: int, y: int)
    requires Disjoint(st + [seg]) && Covers(st, x, y) && x <= y
    ensures y < seg.lo || seg.hi < x
  {
    var k :| 0 <= k < |st| && st[k].lo <= x && y <= st[k].hi;
    assert (st + [seg])[k] == st[k] && (st + [seg])[|st|] == seg;
  }

  /** Replacing the popped segment by parts that leave it part-sorted keeps the whole part-sorted. */
  lemma PopPush(s: seq<int>, t: seq<int>, key: seq<int>, st: seq<Seg>, seg: Seg, parts: seq<Seg>,
                a: int, b: int)
    requires PartSorted(s, key, st + [seg], a, b) && Disjoint(st + [seg])
    requires a <= seg.lo <= seg.hi + 1 <= b + 1
    requires PermOn(s, t, seg.lo, seg.hi + 1)
    requires PartSorted(t, key, parts, seg.lo, seg.hi)
    ensures PartSorted(t, key, st + parts, a, b)
  {
    forall x, y | a <= x < y <= b
      ensures Ordered(t, key, x, y) || Covers(st + parts, x, y)
    {
      if seg.lo <= x && y <= seg.hi {
        if Covers(parts, x, y) {
          CoversAppend(st, parts, x, y);
        }
      } else {
        var x' := PermSource(s, t, seg.lo, seg.hi + 1, x);
        var y' := PermSource(s, t, seg.lo, seg.hi + 1, y);
        CoversTop(st, seg, x', y');
        if Covers(st, x', y') {
          CoversAvoids(st, seg, x', y');
          CoversAppend(st, parts, x, y);
        }
      }
    }
  }

  /** Cutting the popped segment into disjoint pieces keeps the stack disjoint. */
  lemma PushDisjoint(st: seq<Seg>, seg: Seg, parts: seq<Seg>, a: int, b: int)
    requires Disjoint(st + [seg]) && Within(st + [seg], a, b) && seg.lo <= seg.hi
    requires Disjoint(parts) && Within(parts, seg.lo, seg.hi)
    ensures Disjoint(st + parts) && Within(st + parts, a, b)
  {
    var u := st + parts;
    forall j, k | 0 <= j < k < |u|
      ensures u[j].hi < u[k].lo || u[k].hi < u[j].lo
    {
      if k < |st| {
        assert (st + [seg])[j] == st[j] && (st + [seg])[k] == st[k];
      } else if j < |st| {
        assert (st + [seg])[j] == st[j] && (st + [seg])[|st|] == seg;
      }
    }
    forall k | 0 <= k < |u|
      ensures a <= u[k].lo && u[k].hi <= b && u[k].lo <= u[k].hi + 1
    {
      if k < |st| {
        assert (st + [seg])[k] == st[k];
      } else {
        assert (st + [seg])[|st|] == seg;
      }
    }
  }

  lemma PopRest(st: seq<Seg>, seg: Seg, a: int, b: int)
    requires Disjoint(st + [seg]) && Within(st + [seg], a, b)
    ensures Disjoint(st) && Within(st, a, b)
    ensures a <= seg.lo && seg.hi <= b && seg.lo <= seg.hi + 1
  {
    forall k | 0 <= k < |st|
      ensures (st + [seg])[k] == st[k]
    {
    }
    assert (st + [seg])[|st|] == seg;
  }

  // ----- depth and termination

  function Size(seg: Seg): int {
    seg.hi - seg.lo + 1
  }

  /** Twice the size of the k-th stacked segment times nothing less than 3^(k/2) fits the whole:
      the part pushed last is at most a third of its parent, the one before it at most half. */
  function Weight(k: nat): (w: nat)
    ensures w >= 2
  {
    if k == 0 then 2 else if k == 1 then 3 else 3 * Weight(k - 2)
  }

  lemma {:induction false} WeightGrows(k: nat)
    ensures Weight(k) < Weight(k + 1) <= 2 * Weight(k)
  {
    if k >= 2 {
      WeightGrows(k - 2);
    }
  }

  lemma {:induction false} WeightMonotone(j: nat, k: nat)
    requires j <= k
    ensures Weight(j) <= Weight(k)
    decreases k - j
  {
    if j < k {
      WeightGrows(j);
      WeightMonotone(j + 1, k);
    }
  }

  lemma WeightTen(k: nat)
    ensures Weight(k + 10) == 243 * Weight(k)
  {
    assert Weight(k + 2) == 3 * Weight(k);
    assert Weight(k + 4) == 3 * Weight(k + 2);
    assert Weight(k + 6) == 3 * Weight(k + 4);
    assert Weight(k + 8) == 3 * Weight(k + 6);
  }

  ghost predicate Shallow(st: seq<Seg>, total: int) {
    forall k :: 0 <= k < |st| ==> Size(st[k]) * Weight(k) <= 2 * total
  }

  /** While the segment on top still has more than ten elements, fewer than 41 are stacked, whatever
      the 32-bit block length: the stacks of 100 entries cannot overflow. */
  lemma DepthBound(st: seq<Seg>, total: int)
    requires st != [] && Shallow(st, total) && total < 0x8000_0000
    requires Size(st[|st| - 1]) > 10
    ensures |st| <= 40
  {
    var k := |st| - 1;
    if k >= 40 {
      WeightMonotone(40, k);
      WeightTen(0);
      WeightTen(10);
      WeightTen(20);
      WeightTen(30);
      assert Weight(k) >= 6_973_568_802;
      Product(Size(st[k]), Weight(k), 11, 6_973_568_802);
    }
  }

  lemma Product(a: int, b: int, c: int, d: int)
    requires a >= c >= 0 && b >= d >= 0
    ensures a * b >= c * d
  {
    assert a * b >= a * d;
    assert a * d >= c * d;
  }

  /** Pushing at most the whole, then at most half of the popped segment. */
  lemma PushTwoShallow(st: seq<Seg>, seg: Seg, p: Seg, q: Seg, total: int)
    requires Shallow(st + [seg], total)
    requires 0 <= Size(p) <= Size(seg) && 0 <= 2 * Size(q) <= Size(seg)
    ensures Shallow(st + [p, q], total)
  {
    var k := |st|;
    assert (st + [seg])[k] == seg;
    WeightGrows(k);
    Product(Size(seg), Weight(k), Size(p), Weight(k));
    Product(Size(seg), Weight(k), 2 * Size(q), Weight(k));
    Product(2 * Weight(k), Size(q), Weight(k + 1), Size(q));
    forall j | 0 <= j < |st + [p, q]|
      ensures Size((st + [p, q])[j]) * Weight(j) <= 2 * total
    {
      if j < k {
        assert (st + [seg])[j] == st[j];
      }
    }
  }

  lemma PopShallow(st: seq<Seg>, seg: Seg, total: int)
    requires Shallow(st + [seg], total)
    ensures Shallow(st, total)
  {
    forall j | 0 <= j < |st|
      ensures Size(st[j]) * Weight(j) <= 2 * total
    {
      assert (st + [seg])[j] == st[j];
    }
  }

  /** Pushing at most the whole, then at most half, then at most a third of the popped segment. */
  lemma PushThreeShallow(st: seq<Seg>, seg: Seg, p: Seg, q: Seg, r: Seg, total: int)
    requires Shallow(st + [seg], total)
    requires 0 <= Size(r) && 0 <= Size(q) && 3 * Size(r) <= Size(seg)
    requires 0 <= Size(p) <= Size(seg) && 2 * Size(q) <= Size(seg)
    ensures Shallow(st + [p, q, r], total)
  {
    var k := |st|;
    PushTwoShallow(st, seg, p, q, total);
    assert (st + [seg])[k] == seg;
    Product(Size(seg), Weight(k), 3 * Size(r), Weight(k));
    assert Weight(k + 2) == 3 * Weight(k);
    forall j | 0 <= j < |st + [p, q, r]|
      ensures Size((st + [p, q, r])[j]) * Weight(j) <= 2 * total
    {
      if j < k + 2 {
        assert (st + [p, q])[j] == (st + [p, q, r])[j];
      }
    }
  }

  // ----- the state of the sorting loops

  /** The stack arrays spell out st. */
  ghost predicate Holds(stackLo: seq<int>, stackHi: seq<int>, st: seq<Seg>) {
    && |st| <= |stackLo| == |stackHi|
    && forall k :: 0 <= k < |st| ==> stackLo[k] == st[k].lo && stackHi[k] == st[k].hi
  }

  /** Everything the quicksort loop keeps about its stack. */
  ghost predicate StackOk(st: seq<Seg>, a: int, b: int) {
    Disjoint(st) && Within(st, a, b) && Shallow(st, b - a + 1)
  }

  lemma PopOk(st: seq<Seg>, seg: Seg, a: int, b: int)
    requires StackOk(st + [seg], a, b)
    ensures StackOk(st, a, b)
    ensures a <= seg.lo && seg.hi <= b && 0 <= Size(seg)
  {
    PopRest(st, seg, a, b);
    PopShallow(st, seg, b - a + 1);
  }

  /** What the quicksort loop keeps between two pops. */
  ghost predicate SortState(was: seq<int>, s: seq<int>, key: seq<int>, st: seq<Seg>, a: int, b: int) {
    PermOn(was, s, a, b + 1) && PartSorted(s, key, st, a, b) && StackOk(st, a, b)
  }

  lemma SortStep(was: seq<int>, s: seq<int>, t: seq<int>, key: seq<int>, rest: seq<Seg>, seg: Seg, a: int, b: int)
    requires SortState(was, s, key, rest + [seg], a, b)
    requires PermOn(s, t, seg.lo, seg.hi + 1)
    ensures PermOn(was, t, a, b + 1)
  {
    PopOk(rest, seg, a, b);
    PermWiden(s, t, seg.lo, seg.hi + 1, a, b + 1);
    PermTrans(was, s, t, a, b + 1);
  }

  lemma SegmentSorted(was: seq<int>, s: seq<int>, t: seq<int>, key: seq<int>, rest: seq<Seg>, seg: Seg, a: int, b: int)
    requires SortState(was, s, key, rest + [seg], a, b)
    requires PermOn(s, t, seg.lo, seg.hi + 1) && PartSorted(t, key, [], seg.lo, seg.hi)
    ensures SortState(was, t, key, rest, a, b)
  {
    SortStep(was, s, t, key, rest, seg, a, b);
    PopOk(rest, seg, a, b);
    PopPush(s, t, key, rest, seg, [], a, b);
    assert rest + [] == rest;
  }

  lemma StackStarts(s: seq<int>, key: seq<int>, lo: int, hi: int)
    requires 0 <= lo <= hi < |s|
    ensures SortState(s, s, key, [Seg(lo, hi)], lo, hi)
  {
    PermSame(s, lo, hi + 1);
    var st := [Seg(lo, hi)];
    forall x, y | lo <= x < y <= hi
      ensures Covers(st, x, y)
    {
      assert st[0] == Seg(lo, hi);
    }
  }
}
