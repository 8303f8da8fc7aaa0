/** mainSort: radix sort, quicksort of what is left, two scans per big bucket, quadrants. */
module MainSort {
  import opened Permutations
  import opened Bits
  import opened Rotations
  import opened Counting
  import opened Slices
  import opened QuickStack
  import opened MainCompare
  import opened MainScan
  import opened MainBuckets
  import opened MainQSort
  import opened MainRadix
  import opened MainOrder
  import opened MainFinish
  import opened MainScans

  /** What holds between the steps of mainSort: every finished small bucket is sorted, ftab says which, and
      block and quadrant are fit for comparing rotations. */
  ghost predicate Shape(ptr: array<int>, block: array<int>, quadrant: array<int>, ftab: array<int>,
                        b: seq<Byte>, fin: set<int>)
    reads ptr, block, quadrant, ftab
  {
    && ptr != block && ptr != quadrant && ptr != ftab && block != quadrant && block != ftab && quadrant != ftab
    && Inputs(block, quadrant, b) && |b| <= ptr.Length < 0x8000_0000 && |b| < SETMASK
    && Finished(b, Two(b), ptr[..|b|], fin) && Flagged(ftab[..], Two(b), fin)
  }

  // ----- step 1

  lemma SpanSorted(b: seq<Byte>, ptr: seq<int>, lo: int, hi: int)
    requires 0 <= lo && hi < |ptr| && hi <= lo
    ensures PartSorted(ptr, Rank(b), [], lo, hi)
  {
  }

  lemma SmallDoneIn(b: seq<Byte>, s: seq<int>, t: seq<int>, n: nat, sb: int, fin: set<int>)
    requires |b| == n <= |s| && Finished(b, Two(b), s[..n], fin) && CountBelow(Two(b), sb + 1) <= n
    requires PermOn(s, t, CountBelow(Two(b), sb), CountBelow(Two(b), sb + 1))
    requires PartSorted(t, Rank(b), [], CountBelow(Two(b), sb), CountBelow(Two(b), sb + 1) - 1)
    ensures |t| == |s| && Finished(b, Two(b), t[..n], fin + {sb})
  {
    var lo, hi := CountBelow(Two(b), sb), CountBelow(Two(b), sb + 1);
    PermPrefix(s, t, lo, hi, n);
    forall x, y | lo <= x < y < hi
      ensures Ordered(t[..n], Rank(b), x, y)
    {
      assert Ordered(t, Rank(b), x, y) || Covers([], x, y);
    }
    SmallDone(b, Two(b), s[..n], t[..n], sb, fin);
  }

  /** Sorts one unfinished small bucket; a negative budget means sorting is abandoned. */
  method SortSmall(ptr: array<int>, block: array<int>, quadrant: array<int>, ftab: array<int>, n: nat, sb: int,
                   budget: int, ghost b: seq<Byte>, ghost fin: set<int>)
    returns (budget': int)
    requires n == |b| && Shape(ptr, block, quadrant, ftab, b, fin) && 0 <= sb < 65536 && budget >= 0
    modifies ptr
    ensures budget' >= 0 ==> Finished(b, Two(b), ptr[..n], fin + {sb})
    ensures budget' <= budget
  {
    budget' := budget;
    ghost var two, s := Two(b), ptr[..];
    assert ptr[..n] == s[..n];
    FlagReads(ftab[..], two, fin, sb);
    FlagReads(ftab[..], two, fin, sb + 1);
    var lo := Clear(ftab[sb]);
    var hi := Clear(ftab[sb + 1]) - 1;
    BucketAgrees(b, s, n, sb);
    PermSame(s, lo, hi + 1);
    if hi > lo {
      budget' := MainQSort3(ptr, block, quadrant, n, lo, hi, budget, b);
    } else {
      SpanSorted(b, s, lo, hi);
    }
    if budget' >= 0 {
      SmallDoneIn(b, s, ptr[..], n, sb, fin);
    }
  }

  /** The small buckets [ss, j] that step 1 has dealt with. */
  ghost predicate RowDone(ss: Byte, upto: int, fin: set<int>) {
    forall j: Byte {:trigger Sb(ss, j)} :: j < upto && j != ss ==> Sb(ss, j) in fin
  }

  /** Step 1: completes big bucket ss but for [ss, ss]. */
  method SortRow(ptr: array<int>, block: array<int>, quadrant: array<int>, ftab: array<int>, n: nat, ss: Byte,
                 budget: int, ghost b: seq<Byte>, ghost fin: set<int>)
    returns (budget': int, ghost fin': set<int>)
    requires n == |b| && Shape(ptr, block, quadrant, ftab, b, fin) && budget >= 0
    modifies ptr, ftab
    ensures budget' >= 0 ==> Shape(ptr, block, quadrant, ftab, b, fin') && fin <= fin' && RowDone(ss, 256, fin')
    ensures budget' <= budget
  {
    budget', fin' := budget, fin;
    for j := 0 to 256
      invariant 0 <= budget' <= budget && Shape(ptr, block, quadrant, ftab, b, fin')
      invariant fin <= fin' && RowDone(ss, j, fin')
    {
      if j != ss {
        var sb := Sb(ss, j);
        ghost var f := ftab[..];
        FlagReads(f, Two(b), fin', sb);
        FlagSets(f, Two(b), fin', sb);
        if !IsSet(ftab[sb]) {
          budget' := SortSmall(ptr, block, quadrant, ftab, n, sb, budget', b, fin');
          if budget' < 0 {
            return;
          }
        } else {
          assert fin' + {sb} == fin';
        }
        ftab[sb] := Set(ftab[sb]);
        assert ftab[..] == f[sb := Set(f[sb])];
        fin' := fin' + {sb};
      }
    }
  }

  // ----- step 2

  ghost predicate Ok(ptr: array<int>, block: array<int>, ftab: array<int>, bigDone: array<bool>, n: nat, ss: Byte,
                     b: seq<Byte>, fin: set<int>)
    reads ptr, block, ftab, bigDone
  {
    && ptr != block && ptr != ftab && block != ftab && bigDone.Length == 256
    && 0 < n == |b| <= ptr.Length && n <= block.Length && block[..n] == b
    && Finished(b, Two(b), ptr[..n], fin) && Flagged(ftab[..], Two(b), fin) && Ready(bigDone[..], fin, ss)
  }

  lemma CursorStarts(b: seq<Byte>, two: seq<int>, done: seq<bool>, ss: Byte, s0: seq<int>, s1: seq<int>,
                     copyStart: seq<int>, copyEnd: seq<int>)
    requires |done| == |copyStart| == |copyEnd| == 256
    requires forall c: Byte :: copyStart[c] == CountBelow(two, Sb(c, ss))
    requires forall c: Byte :: copyEnd[c] == CountBelow(two, Sb(c, ss) + 1) - 1
    ensures Cursors(b, two, done, ss, Scan([], [], s0, s1), copyStart, copyEnd)
  {
    forall c: Byte
      ensures AtCursors(b, two, ss, Scan([], [], s0, s1), copyStart, copyEnd, c)
    {
    }
  }

  method FillCursors(ftab: array<int>, copyStart: array<int>, copyEnd: array<int>, ss: Byte,
                     ghost two: seq<int>, ghost fin: set<int>)
    requires copyStart != copyEnd && ftab !in {copyStart, copyEnd}
    requires copyStart.Length == copyEnd.Length == 256 && Flagged(ftab[..], two, fin)
    modifies copyStart, copyEnd
    ensures forall c: Byte :: copyStart[c] == CountBelow(two, Sb(c, ss))
    ensures forall c: Byte :: copyEnd[c] == CountBelow(two, Sb(c, ss) + 1) - 1
  {
    for j := 0 to 256
      invariant Flagged(ftab[..], two, fin)
      invariant forall c: Byte :: c < j ==> copyStart[c] == CountBelow(two, Sb(c, ss))
      invariant forall c: Byte :: c < j ==> copyEnd[c] == CountBelow(two, Sb(c, ss) + 1) - 1
    {
      FlagReads(ftab[..], two, fin, Sb(j, ss));
      FlagReads(ftab[..], two, fin, Sb(j, ss) + 1);
      copyStart[j] := Clear(ftab[Sb(j, ss)]);
      copyEnd[j] := Clear(ftab[Sb(j, ss) + 1]) - 1;
    }
  }

  /** The state from which both scans start. */
  lemma ScanBegins(f: Frame, fin: set<int>, copyStart: seq<int>, copyEnd: seq<int>) returns (sc: Scan)
    requires f.two == Two(f.b) && Finished(f.b, f.two, f.p0, fin) && Ready(f.done, fin, f.ss)
    requires Bounds(f.two, f.ss, f.a, f.m, f.z, f.e) && |copyStart| == |copyEnd| == 256
    requires forall c: Byte :: copyStart[c] == CountBelow(f.two, Sb(c, f.ss))
    requires forall c: Byte :: copyEnd[c] == CountBelow(f.two, Sb(c, f.ss) + 1) - 1
    ensures Scanning(f, sc, f.p0, copyStart, copyEnd) && sc.left == [] && sc.right == []
  {
    var s0, s1 := f.p0[f.a..f.m], Backwards(f.p0[f.z..f.e]);
    sc := Scan([], [], s0, s1);
    StaticsBegin(f, fin, sc);
    CursorStarts(f.b, f.two, f.done, f.ss, s0, s1, copyStart, copyEnd);
    NothingScanned(f, sc);
  }

  lemma StaticsBegin(f: Frame, fin: set<int>, sc: Scan)
    requires f.two == Two(f.b) && Finished(f.b, f.two, f.p0, fin) && Ready(f.done, fin, f.ss) && Bounds(f.two, f.ss, f.a, f.m, f.z, f.e)
    requires 0 <= f.a <= f.m <= f.z <= f.e <= |f.p0| && sc == Scan([], [], f.p0[f.a..f.m], Backwards(f.p0[f.z..f.e]))
    ensures StaticsOf(sc, f.p0, f.a, f.m, f.z, f.e) && ScanOk(f.b, f.ss, sc)
  {
    StaticLeft(f.b, f.two, f.p0, fin, f.done, f.ss, f.a, f.m, f.z, f.e);
    StaticRight(f.b, f.two, f.p0, fin, f.done, f.ss, f.a, f.m, f.z, f.e);
  }

  lemma NothingScanned(f: Frame, sc: Scan)
    requires |f.done| == 256 && sc.left == [] && sc.right == []
    ensures ScanState(f.b, f.two, f.done, f.ss, sc, f.p0, f.p0)
  {
  }

  lemma {:induction false} UniformCounts(two: seq<int>, k: int)
    requires forall i :: 0 <= i < |two| ==> two[i] == k
    ensures CountBelow(two, k) == 0 && CountBelow(two, k + 1) == |two|
  {
    if two != [] {
      UniformCounts(two[..|two| - 1], k);
    }
  }

  /** How the cursors of [ss, ss] meet. */
  ghost predicate Met(start: int, end: int, n: int) {
    start - 1 == end || (start == 0 && end == n - 1)
  }

  lemma ScanEnds(f: Frame, fin: set<int>, sc: Scan, ptr: seq<int>, copyStart: seq<int>, copyEnd: seq<int>)
    requires Scanning(f, sc, ptr, copyStart, copyEnd) && Finished(f.b, f.two, f.p0, fin) && Ready(f.done, fin, f.ss)
    requires Exhausted(f.b, f.ss, sc)
    ensures Finished(f.b, f.two, ptr, fin + Column(f.ss))
  {
    ScansDone(f.b, f.two, f.done, f.ss, sc, f.p0, ptr);
    ScansFinish(f.b, f.two, f.done, fin, f.ss, sc, f.p0, ptr);
  }

  lemma MeetAt(b: seq<Byte>, two: seq<int>, ss: Byte, sc: Scan)
    requires two == Two(b) && ScanOk(b, ss, sc) && Exhausted(b, ss, sc)
    ensures Met(StartAt(b, two, ss, sc, ss), EndAt(b, two, ss, sc, ss), |b|)
  {
    if x :| 0 <= x < |b| && b[x] != ss {
      AllFound(b, ss, sc, ss, x);
    } else {
      UniformScan(b, ss, -1, sc.s0, sc.left);
      UniformScan(b, ss, 1, sc.s1, sc.right);
      UniformCounts(two, Sb(ss, ss));
    }
  }

  lemma ScansMeet(f: Frame, sc: Scan, ptr: seq<int>, copyStart: seq<int>, copyEnd: seq<int>)
    requires Scanning(f, sc, ptr, copyStart, copyEnd) && Exhausted(f.b, f.ss, sc)
    ensures |copyStart| == |copyEnd| == 256 && Met(copyStart[f.ss], copyEnd[f.ss], |f.b|)
  {
    assert AtCursors(f.b, f.two, f.ss, sc, copyStart, copyEnd, f.ss);
    MeetAt(f.b, f.two, f.ss, sc);
  }

  method FlagColumn(ftab: array<int>, ss: Byte, ghost two: seq<int>, ghost fin: set<int>)
    requires Flagged(ftab[..], two, fin)
    modifies ftab
    ensures Flagged(ftab[..], two, fin + Column(ss))
  {
    ghost var fin' := fin;
    for j := 0 to 256
      invariant Flagged(ftab[..], two, fin')
      invariant fin <= fin' <= fin + Column(ss)
      invariant forall c: Byte {:trigger Sb(c, ss)} :: c < j ==> Sb(c, ss) in fin'
    {
      var sb := Sb(j, ss);
      ghost var f := ftab[..];
      FlagSets(f, two, fin', sb);
      ftab[sb] := Set(ftab[sb]);
      assert ftab[..] == f[sb := Set(f[sb])];
      fin' := fin' + {sb};
    }
    forall sb | sb in Column(ss)
      ensures sb in fin'
    {
      var c: Byte := sb / 256;
      assert sb == Sb(c, ss);
    }
    assert fin' == fin + Column(ss);
  }

  /** Step 2: the upward scan, the downward scan, and the flags of all [t, ss]. */
  method ScanBig(ptr: array<int>, block: array<int>, ftab: array<int>, bigDone: array<bool>, n: nat, ss: Byte,
                 ghost b: seq<Byte>, ghost fin: set<int>)
    requires Ok(ptr, block, ftab, bigDone, n, ss, b, fin)
    modifies ptr, ftab
    ensures Finished(b, Two(b), ptr[..n], fin + Column(ss)) && Flagged(ftab[..], Two(b), fin + Column(ss))
  {
    ghost var two, p0, done := Two(b), ptr[..n], bigDone[..];
    var copyStart, copyEnd := new int[256], new int[256];
    FillCursors(ftab, copyStart, copyEnd, ss, two, fin);
    ghost var a, m, z, e := BoundsExist(two, ss);
    ghost var f := Frame(b, two, done, ss, p0, a, m, z, e);
    ghost var sc := ScanBegins(f, fin, copyStart[..], copyEnd[..]);
    FlagReads(ftab[..], two, fin, Sb(ss, 0));
    FlagReads(ftab[..], two, fin, Sb(ss, 0) + 256);
    var from := Clear(ftab[256 * (ss as int)]);
    var down := Clear(ftab[256 * (ss as int + 1)]) - 1;
    assert ptr[..n] == p0;
    sc := ScanUp(ptr, block, bigDone, copyStart, copyEnd[..], n, ss, from, f, sc);
    sc := ScanDown(ptr, block, bigDone, copyStart[..], copyEnd, n, ss, down, f, sc);
    ScansMeet(f, sc, ptr[..n], copyStart[..], copyEnd[..]);
    ScanEnds(f, fin, sc, ptr[..n], copyStart[..], copyEnd[..]);
    assert copyStart[ss] - 1 == copyEnd[ss] || (copyStart[ss] == 0 && copyEnd[ss] == n - 1); // 1007
    FlagColumn(ftab, ss, two, fin);
  }

  // ----- step 3

  ghost predicate Mirrored(quadrant: seq<int>, n: nat) {
    n + OVERSHOOT <= |quadrant| && forall i :: 0 <= i < OVERSHOOT ==> quadrant[n + i] == quadrant[i]
  }

  /** A new quadrant value, in the overshoot area too if necessary. */
  function WithQuadrant(quadrant: seq<int>, n: nat, u: int, q: int): (r: seq<int>)
    requires OVERSHOOT < n && 0 <= u < n && n + OVERSHOOT <= |quadrant|
    ensures |r| == |quadrant|
  {
    if u < OVERSHOOT then quadrant[u := q][u + n := q] else quadrant[u := q]
  }

  lemma QuadrantStep(b: seq<Byte>, was: seq<int>, quadrant: seq<int>, ptr: seq<int>, n: nat, a: int, p: int, e: int,
                     unit: nat, ss: Byte)
    requires OVERSHOOT < n == |b| == |ptr| && IsPerm(ptr) && Mirrored(quadrant, n)
    requires a <= p < e && Ranked(quadrant, ptr, a, p + 1, e, unit) && OthersKept(b, was, quadrant, ss) && b[ptr[p]] == ss
    ensures var q := WithQuadrant(quadrant, n, ptr[p], (p - a) / unit);
      Ranked(q, ptr, a, p, e, unit) && OthersKept(b, was, q, ss) && Mirrored(q, n)
  {
  }

  lemma InBig(b: seq<Byte>, two: seq<int>, ptr: seq<int>, ss: Byte, p: int)
    requires two == Two(b) && InBuckets(ptr, two) && 0 <= p < |ptr|
    requires CountBelow(two, Sb(ss, 0)) <= p < CountBelow(two, Sb(ss, 0) + 256)
    ensures b[ptr[p]] == ss
  {
    KeySpan(two, ptr, p, Sb(ss, 0), Sb(ss, 0) + 256);
  }

  /** The least number of bits to drop so that every index of a bucket fits 16 bits. */
  ghost predicate LeastShift(bbSize: nat, shifts: nat) {
    bbSize / Pow2(shifts) <= 65534 && (shifts > 0 ==> bbSize / Pow2(shifts - 1) > 65534)
  }

  method Shifts(bbSize: nat) returns (shifts: nat)
    ensures LeastShift(bbSize, shifts)
  {
    shifts := 0;
    while bbSize / Pow2(shifts) > 65534
      invariant shifts > 0 ==> bbSize / Pow2(shifts - 1) > 65534
      decreases bbSize / Pow2(shifts)
    {
      Halves(bbSize, Pow2(shifts));
      shifts := shifts + 1;
    }
  }

  lemma Halves(x: nat, d: nat)
    requires d >= 1
    ensures x / d > 0 ==> x / (2 * d) < x / d
  {
    var u, v := x / d, x / (2 * d);
    QuotientBounds(x, d);
    QuotientBounds(x, 2 * d);
    assert 2 * d * v == d * (2 * v);
    MultiplesApart(d, u, 2 * v);
  }

  lemma FitsWord(x: nat, y: nat, d: nat)
    requires d >= 1 && x <= y && y / d <= 65534
    ensures (x / d) % 65536 == x / d
  {
    if x / d > y / d {
      ShiftsOrder(y, x, d);
    }
  }

  /** The index of a rotation in its bucket, shifted; it fits 16 bits. */
  function QVal(j: nat, bbSize: nat, shifts: nat): (q: int)
    requires j <= bbSize && bbSize / Pow2(shifts) <= 65534
    ensures q == j / Pow2(shifts)
  {
    FitsWord(j, bbSize, Pow2(shifts));
    (j / Pow2(shifts)) % 65536
  }

  method RankOne(ptr: array<int>, quadrant: array<int>, n: nat, ss: Byte, a: int, j: int, e: int, qVal: int,
                 ghost b: seq<Byte>, ghost was: seq<int>, ghost s: seq<int>, ghost unit: nat)
    requires ptr != quadrant && OVERSHOOT < n == |b| == |s| <= ptr.Length && ptr[..n] == s && IsPerm(s) && Mirrored(quadrant[..], n)
    requires 0 <= a && 0 <= j && a + j < e <= n && unit > 0 && qVal == j / unit && b[s[a + j]] == ss
    requires Ranked(quadrant[..], s, a, a + j + 1, e, unit) && OthersKept(b, was, quadrant[..], ss)
    modifies quadrant
    ensures Ranked(quadrant[..], s, a, a + j, e, unit) && OthersKept(b, was, quadrant[..], ss) && Mirrored(quadrant[..], n)
  {
    ghost var q := quadrant[..];
    QuadrantStep(b, was, q, s, n, a, a + j, e, unit, ss);
    assert a + j - a == j;
    SetQuadrant(quadrant, n, ptr[a + j], qVal);
  }

  method RankBucket(ptr: array<int>, quadrant: array<int>, n: nat, ss: Byte, bbStart: int, bbSize: int, shifts: nat,
                    ghost b: seq<Byte>)
    requires ptr != quadrant && OVERSHOOT < n == |b| <= ptr.Length && InBuckets(ptr[..n], Two(b))
    requires bbStart == CountBelow(Two(b), Sb(ss, 0)) && bbStart + bbSize == CountBelow(Two(b), Sb(ss, 0) + 256) <= n
    requires bbSize >= 0 && bbSize / Pow2(shifts) <= 65534 && Mirrored(quadrant[..], n)
    modifies quadrant
    ensures Ranked(quadrant[..], ptr[..n], bbStart, bbStart, bbStart + bbSize, Pow2(shifts))
    ensures OthersKept(b, old(quadrant[..]), quadrant[..], ss) && Mirrored(quadrant[..], n)
  {
    ghost var was, s, unit := quadrant[..], ptr[..n], Pow2(shifts);
    var j := bbSize - 1;
    while j >= 0
      invariant -1 <= j < bbSize && ptr[..n] == s
      invariant Ranked(quadrant[..], s, bbStart, bbStart + j + 1, bbStart + bbSize, unit)
      invariant OthersKept(b, was, quadrant[..], ss) && Mirrored(quadrant[..], n)
    {
      InBig(b, Two(b), s, ss, bbStart + j);
      RankOne(ptr, quadrant, n, ss, bbStart, j, bbStart + bbSize, QVal(j, bbSize, shifts), b, was, s, unit);
      j := j - 1;
    }
  }

  method SetQuadrant(quadrant: array<int>, n: nat, a2update: int, qVal: int)
    requires OVERSHOOT < n && 0 <= a2update < n && n + OVERSHOOT <= quadrant.Length
    modifies quadrant
    ensures quadrant[..] == WithQuadrant(old(quadrant[..]), n, a2update, qVal)
  {
    quadrant[a2update] := qVal;
    if a2update < OVERSHOOT {
      quadrant[a2update + n] := qVal;
    }
  }

  /**
   * The rotations of a big bucket have their places in it as quadrants, in the overshoot area as well, less the lowest bits
   * that must go for all of these to fit 16 bits.
   */
  ghost predicate BucketRanked(quadrant: seq<int>, ptr: seq<int>, b: seq<Byte>, ss: Byte, shifts: nat) {
    var lo, hi := CountBelow(Two(b), Sb(ss, 0)), CountBelow(Two(b), Sb(ss, 0) + 256);
    && lo <= hi <= |ptr| && LeastShift(hi - lo, shifts)
    && Ranked(quadrant, ptr, lo, lo, hi, Pow2(shifts)) && Mirrored(quadrant, |b|)
  }

  /** Step 3: the finished big bucket's rotations get their (shifted) index as quadrant. */
  method UpdateQuadrants(ptr: array<int>, block: array<int>, quadrant: array<int>, ftab: array<int>, n: nat, ss: Byte,
                         ghost b: seq<Byte>, ghost fin: set<int>)
    returns (shifts: nat)
    requires n == |b| && Shape(ptr, block, quadrant, ftab, b, fin)
    requires forall j: Byte :: Sb(ss, j) in fin
    modifies quadrant
    ensures Shape(ptr, block, quadrant, ftab, b, fin) && BucketRanked(quadrant[..], ptr[..n], b, ss, shifts)
    ensures OthersKept(b, old(quadrant[..]), quadrant[..], ss)
  {
    ghost var two, was, s := Two(b), quadrant[..], ptr[..n];
    FlagReads(ftab[..], two, fin, Sb(ss, 0));
    FlagReads(ftab[..], two, fin, Sb(ss, 0) + 256);
    var bbStart := Clear(ftab[256 * (ss as int)]);
    var bbSize := Clear(ftab[256 * (ss as int + 1)]) - bbStart;
    CountMonotone(two, Sb(ss, 0), Sb(ss, 0) + 256);
    CountSteps(two, Sb(ss, 0) + 256);
    shifts := Shifts(bbSize);
    RankBucket(ptr, quadrant, n, ss, bbStart, bbSize, shifts, b);
    assert (bbSize - 1) / Pow2(shifts) <= 65535 by { // 1002
      if bbSize > 0 {
        FitsWord(bbSize - 1, bbSize, Pow2(shifts));
      }
    }
    QuadrantsStay(b, two, s, fin, was, quadrant[..], ss, Pow2(shifts));
  }

  // ----- the whole

  /** The big buckets that are done are the first i of the running order, and all their small buckets are finished. */
  ghost predicate DoneFirst(done: seq<bool>, order: seq<int>, i: int, fin: set<int>) {
    && |done| == 256 && |order| == 256 && IsPerm(order) && 0 <= i <= 256
    && (forall k :: 0 <= k < 256 ==> (done[order[k]] <==> k < i))
    && (forall c: Byte, j: Byte :: done[c] ==> Sb(c, j) in fin)
  }

  lemma RowReady(done: seq<bool>, order: seq<int>, i: int, fin: set<int>, fin': set<int>, ss: Byte)
    requires DoneFirst(done, order, i, fin) && i < 256 && ss == order[i] && fin <= fin' && RowDone(ss, 256, fin')
    ensures Ready(done, fin', ss)
  {
  }

  lemma BigIsDone(done: seq<bool>, order: seq<int>, i: int, fin: set<int>, fin': set<int>, ss: Byte)
    requires DoneFirst(done, order, i, fin) && i < 256 && ss == order[i] && fin <= fin'
    requires Ready(done, fin', ss)
    ensures DoneFirst(done[ss := true], order, i + 1, fin' + Column(ss))
    ensures forall j: Byte :: Sb(ss, j) in fin' + Column(ss)
  {
    forall j: Byte
      ensures Sb(ss, j) in fin' + Column(ss)
    {
      assert j == ss ==> Sb(ss, j) in Column(ss);
    }
  }

  lemma AllDone(b: seq<Byte>, ptr: seq<int>, done: seq<bool>, order: seq<int>, fin: set<int>)
    requires DoneFirst(done, order, 256, fin) && Finished(b, Two(b), ptr, fin)
    ensures SortsRotations(ptr, b)
  {
    forall c: Byte
      ensures done[c]
    {
      PermOnto(order, c);
      var k :| 0 <= k < 256 && order[k] == c;
    }
    AllFinished(b, Two(b), ptr, fin);
  }

  /** The overshoot area repeats the start of the block; no quadrant is known yet. */
  method Overshoot(block: array<int>, quadrant: array<int>, n: nat, ghost b: seq<Byte>)
    requires block != quadrant && OVERSHOOT < n == |b| && block.Length >= n + OVERSHOOT && quadrant.Length >= n + OVERSHOOT
    requires block[..n] == b && forall x :: 0 <= x < n ==> quadrant[x] == 0
    modifies block, quadrant
    ensures Inputs(block, quadrant, b)
  {
    for i := 0 to OVERSHOOT
      invariant block[..n] == b && forall x :: 0 <= x < n ==> quadrant[x] == 0
      invariant forall x :: n <= x < n + i ==> block[x] == b[x - n] && quadrant[x] == 0
    {
      assert block[i] == b[i];
      block[n + i] := block[i];
      quadrant[n + i] := 0;
    }
    forall i | 0 <= i < OVERSHOOT
      ensures block[..][n + i] == b[i] && quadrant[..][n + i] == quadrant[..][i]
    {
      assert quadrant[i] == 0;
    }
    assert block[..][..n] == b;
  }

  lemma NothingFinished(two: seq<int>, f: seq<int>)
    requires f == Undealt(two, 0) && |two| < SETMASK
    ensures Flagged(f, two, {})
  {
    assert two[..0] == [];
  }

  /** Everything before the main loop. */
  method Prepare(ptr: array<int>, block: array<int>, quadrant: array<int>, ftab: array<int>, n: nat, ghost b: seq<Byte>)
    requires ptr != block && ptr != quadrant && ptr != ftab && block != quadrant && block != ftab && quadrant != ftab
    requires OVERSHOOT < n == |b| < SETMASK && n <= ptr.Length < 0x8000_0000 && ftab.Length == 65537
    requires block.Length >= n + OVERSHOOT && quadrant.Length >= n + OVERSHOOT && block[..n] == b
    modifies ptr, block, quadrant, ftab
    ensures Shape(ptr, block, quadrant, ftab, b, {})
  {
    CountKeys(block, quadrant, ftab, n, b);
    Overshoot(block, quadrant, n, b);
    assert Two(b)[..0] == [];
    Accumulate(ftab, Two(b));
    DealKeys(ptr, block, ftab, n, b);
    NothingFinished(Two(b), ftab[..]);
  }

  /** Steps 1 to 3 for one big bucket. */
  method BigBucket(ptr: array<int>, block: array<int>, quadrant: array<int>, ftab: array<int>, bigDone: array<bool>,
                   n: nat, ss: Byte, i: int, budget: int, ghost order: seq<int>, ghost b: seq<Byte>, ghost fin: set<int>)
    returns (budget': int, ghost fin': set<int>, ghost shifts: nat)
    requires n == |b| && Shape(ptr, block, quadrant, ftab, b, fin) && budget >= 0
    requires DoneFirst(bigDone[..], order, i, fin) && i < 256 && ss == order[i]
    modifies ptr, quadrant, ftab, bigDone
    ensures budget' >= 0 ==> Shape(ptr, block, quadrant, ftab, b, fin')
    ensures budget' >= 0 ==> DoneFirst(bigDone[..], order, i + 1, fin')
    ensures budget' >= 0 && i < 255 ==> BucketRanked(quadrant[..], ptr[..n], b, ss, shifts)
    ensures budget' <= budget
  {
    ghost var done := bigDone[..];
    shifts := 0;
    budget', fin' := SortRow(ptr, block, quadrant, ftab, n, ss, budget, b, fin);
    if budget' < 0 {
      return;
    }
    RowReady(done, order, i, fin, fin', ss);
    assert !bigDone[ss]; // 1006
    assert bigDone[..] == done;
    ScanBig(ptr, block, ftab, bigDone, n, ss, b, fin');
    BigIsDone(done, order, i, fin, fin', ss);
    fin' := fin' + Column(ss);
    bigDone[ss] := true;
    assert bigDone[..] == done[ss := true];
    if i < 255 {
      shifts := UpdateQuadrants(ptr, block, quadrant, ftab, n, ss, b, fin');
    }
  }

  /** Sorts the rotations unless the budget runs out. */
  method MainSort(ptr: array<int>, block: array<int>, quadrant: array<int>, ftab: array<int>, n: nat, budget: int,
                  ghost b: seq<Byte>)
    returns (budget': int)
    requires ptr != block && ptr != quadrant && ptr != ftab && block != quadrant && block != ftab && quadrant != ftab
    requires OVERSHOOT < n == |b| < SETMASK && n <= ptr.Length < 0x8000_0000 && ftab.Length == 65537
    requires block.Length >= n + OVERSHOOT && quadrant.Length >= n + OVERSHOOT && block[..n] == b && budget >= 0
    modifies ptr, block, quadrant, ftab
    ensures block[..n] == b && budget' <= budget
    ensures budget' >= 0 ==> SortsRotations(ptr[..n], b)
  {
    Prepare(ptr, block, quadrant, ftab, n, b);
    var bigDone, runningOrder := new bool[256](_ => false), new int[256];
    RunningOrder(runningOrder, ftab);
    budget' := budget;
    ghost var fin, order: seq<int> := {}, runningOrder[..];
    for i := 0 to 256
      invariant budget' >= 0 && budget' <= budget && Shape(ptr, block, quadrant, ftab, b, fin)
      invariant DoneFirst(bigDone[..], order, i, fin) && runningOrder[..] == order
    {
      var ss := runningOrder[i];
      ghost var shifts;
      budget', fin, shifts := BigBucket(ptr, block, quadrant, ftab, bigDone, n, ss, i, budget', order, b, fin);
      if budget' < 0 {
        return;
      }
    }
    AllDone(b, ptr[..n], bigDone[..], order, fin);
  }
}
