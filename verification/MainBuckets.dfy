/** Small buckets of rotations that share two symbols, and their state while a big bucket is scanned. */
module MainBuckets {
  import opened Permutations
  import opened Rotations
  import opened Counting
  import opened MainCompare
  import opened MainScan

  /** The two-symbol key of rotation i. */
  function Key2(b: seq<Byte>, i: nat): (k: int)
    requires i < |b|
    ensures 0 <= k < 65536
  {
    256 * (b[i] as int) + b[Succ(|b|, i)] as int
  }

  function Two(b: seq<Byte>): (two: seq<int>)
    ensures |two| == |b|
    ensures forall i :: 0 <= i < |b| ==> two[i] == Key2(b, i)
  {
    seq(|b|, i requires 0 <= i < |b| => Key2(b, i))
  }

  /** Every position holds a rotation of the small bucket that covers the position. */
  ghost predicate InBuckets(ptr: seq<int>, two: seq<int>) {
    && IsPerm(ptr) && |ptr| == |two|
    && forall p {:trigger InBucket(two, p, ptr[p])} :: 0 <= p < |ptr| ==> InBucket(two, p, ptr[p])
  }

  ghost predicate InBucket(two: seq<int>, p: int, v: int)
    requires 0 <= v < |two|
  {
    CountBelow(two, two[v]) <= p < CountBelow(two, two[v] + 1)
  }

  /** A position determines the small bucket. */
  lemma BucketAt(two: seq<int>, p: int, v: int, sb: int)
    requires 0 <= v < |two| && InBucket(two, p, v)
    requires CountBelow(two, sb) <= p < CountBelow(two, sb + 1)
    ensures two[v] == sb
  {
    if two[v] < sb {
      CountMonotone(two, two[v] + 1, sb);
    } else if sb < two[v] {
      CountMonotone(two, sb + 1, two[v]);
    }
  }

  ghost function Members(two: seq<int>, sb: int): (r: set<int>)
    ensures forall i :: i in r <==> 0 <= i < |two| && two[i] == sb
  {
    set i | 0 <= i < |two| && two[i] == sb
  }

  lemma {:induction false} MembersSize(two: seq<int>, sb: int)
    ensures |Members(two, sb)| == CountOf(two, sb)
  {
    if two == [] {
      assert Members(two, sb) == {};
    } else {
      var k := |two| - 1;
      MembersSize(two[..k], sb);
      if two[k] == sb {
        assert Members(two, sb) == Members(two[..k], sb) + {k};
      } else {
        assert Members(two, sb) == Members(two[..k], sb);
      }
    }
  }

  lemma SpanIsCount(two: seq<int>, sb: int)
    ensures CountBelow(two, sb + 1) - CountBelow(two, sb) == |Members(two, sb)|
  {
    MembersSize(two, sb);
    CountSteps(two, sb);
  }

  function Sb(c: Byte, ss: Byte): (sb: int)
    ensures 0 <= sb < 65536
  {
    256 * (c as int) + ss as int
  }

  // ----- both scans of big bucket ss

  /** The two lists of rotations scanned so far, with the static queues they started from. */
  datatype Scan = Scan(left: seq<int>, right: seq<int>, s0: seq<int>, s1: seq<int>)

  ghost predicate ScanOk(b: seq<Byte>, ss: Byte, sc: Scan) {
    Scanned(b, ss, -1, sc.s0, sc.left) && Scanned(b, ss, 1, sc.s1, sc.right)
  }

  function Lefts(b: seq<Byte>, sc: Scan, c: int): seq<int>
  {
    Preds(b, sc.left, c)
  }

  function Rights(b: seq<Byte>, sc: Scan, c: int): seq<int>
  {
    Preds(b, sc.right, c)
  }

  lemma KeyParts(b: seq<Byte>, v: nat, c: Byte, ss: Byte)
    requires v < |b|
    ensures Two(b)[v] == Sb(c, ss) <==> b[v] == c && b[Succ(|b|, v)] == ss
  {
  }

  /** Predecessors with first byte c of scanned rotations are distinct members of [c, ss] that know their side. */
  lemma SideMembers(b: seq<Byte>, ss: Byte, side: int, s0: seq<int>, sc: seq<int>, c: Byte)
    requires Scanned(b, ss, side, s0, sc)
    ensures InOrder(b, side, Preds(b, sc, c))
    ensures |Elements(Preds(b, sc, c))| == |Preds(b, sc, c)|
    ensures forall v :: v in Elements(Preds(b, sc, c)) ==>
              v in Members(Two(b), Sb(c, ss)) && Lean(b, ss, Succ(|b|, v)) == side
  {
    var q, w := Queue(b, ss, s0, sc), Preds(b, sc, c);
    ScannedRegular(b, ss, side, s0, sc);
    assert forall i :: 0 <= i < |sc| ==> sc[i] == q[i];
    PredsInOrder(b, side, sc, c);
    DistinctSize(w);
    forall v | v in w
      ensures v in Members(Two(b), Sb(c, ss)) && Lean(b, ss, Succ(|b|, v)) == side
    {
      var i :| 0 <= i < |w| && w[i] == v;
      var j := PredsFrom(b, sc, c, i);
      assert sc[j] in q;
      KeyParts(b, v, c, ss);
    }
  }

  ghost function Found(b: seq<Byte>, sc: Scan, c: int): set<int>
  {
    Elements(Lefts(b, sc, c)) + Elements(Rights(b, sc, c))
  }

  /** What both sides found in [c, ss] is disjoint and inside the bucket. */
  lemma BothSides(b: seq<Byte>, ss: Byte, sc: Scan, c: Byte)
    requires ScanOk(b, ss, sc)
    ensures Found(b, sc, c) <= Members(Two(b), Sb(c, ss))
    ensures |Found(b, sc, c)| == |Lefts(b, sc, c)| + |Rights(b, sc, c)|
  {
    SidesApart(b, ss, sc, c);
    SideMembers(b, ss, -1, sc.s0, sc.left, c);
    SideMembers(b, ss, 1, sc.s1, sc.right, c);
  }

  lemma SidesApart(b: seq<Byte>, ss: Byte, sc: Scan, c: Byte)
    requires ScanOk(b, ss, sc)
    ensures Elements(Lefts(b, sc, c)) !! Elements(Rights(b, sc, c))
  {
    SideMembers(b, ss, -1, sc.s0, sc.left, c);
    SideMembers(b, ss, 1, sc.s1, sc.right, c);
  }

  /** The bucket has room for all of them. */
  lemma Room(b: seq<Byte>, ss: Byte, sc: Scan, c: Byte)
    requires ScanOk(b, ss, sc)
    ensures |Lefts(b, sc, c)| + |Rights(b, sc, c)| <= Span(Two(b), Sb(c, ss))
  {
    BothSides(b, ss, sc, c);
    var k := RoomFor(Two(b), Sb(c, ss), Found(b, sc, c));
  }

  /** The number of positions of small bucket sb. */
  ghost function Span(two: seq<int>, sb: int): int {
    CountBelow(two, sb + 1) - CountBelow(two, sb)
  }

  lemma RoomFor(two: seq<int>, sb: int, found: set<int>) returns (k: int)
    requires found <= Members(two, sb)
    ensures k == |found| && k <= Span(two, sb)
    ensures Members(two, sb) <= found ==> k == Span(two, sb)
  {
    k := |found|;
    SubsetSize(found, Members(two, sb));
    SpanIsCount(two, sb);
    if Members(two, sb) <= found {
      assert found == Members(two, sb);
    }
  }

  ghost predicate Exhausted(b: seq<Byte>, ss: Byte, sc: Scan)
    requires ScanOk(b, ss, sc)
  {
    && |sc.left| == |Queue(b, ss, sc.s0, sc.left)|
    && |sc.right| == |Queue(b, ss, sc.s1, sc.right)|
  }

  /** After both scans every member of [c, ss] has been found, so the two lists fill the bucket. */
  lemma AllFound(b: seq<Byte>, ss: Byte, sc: Scan, c: Byte, x: nat)
    requires ScanOk(b, ss, sc) && Exhausted(b, ss, sc) && x < |b| && b[x] != ss
    ensures |Lefts(b, sc, c)| + |Rights(b, sc, c)|
         == Span(Two(b), Sb(c, ss))
  {
    forall v | v in Members(Two(b), Sb(c, ss))
      ensures v in Found(b, sc, c)
    {
      FoundOnce(b, ss, sc, c, x, v);
    }
    BothSides(b, ss, sc, c);
    var k := RoomFor(Two(b), Sb(c, ss), Found(b, sc, c));
  }

  lemma FoundOnce(b: seq<Byte>, ss: Byte, sc: Scan, c: Byte, x: nat, v: int)
    requires ScanOk(b, ss, sc) && Exhausted(b, ss, sc) && x < |b| && b[x] != ss
    requires v in Members(Two(b), Sb(c, ss))
    ensures v in Lefts(b, sc, c) || v in Rights(b, sc, c)
  {
    var u := Succ(|b|, v);
    KeyParts(b, v, c, ss);
    LeansSomewhere(b, ss, u, x);
    if Lean(b, ss, u) == -1 {
      ScannedRegular(b, ss, -1, sc.s0, sc.left);
      ScanComplete(b, ss, -1, sc.s0, sc.left, u, |b|);
      PredsHas(b, sc.left, c, v);
    } else {
      ScannedRegular(b, ss, 1, sc.s1, sc.right);
      ScanComplete(b, ss, 1, sc.s1, sc.right, u, |b|);
      PredsHas(b, sc.right, c, v);
    }
  }

  // ----- the pointer array during the scans

  /** What stands at position p of bucket [c, ss]: an entry synthesised from either side, or the old pointer. */
  ghost function Cell(b: seq<Byte>, two: seq<int>, ss: Byte, sc: Scan, c: Byte, p: int, old0: int): int
  {
    var i, j := p - CountBelow(two, Sb(c, ss)), CountBelow(two, Sb(c, ss) + 1) - 1 - p;
    var l, r := Lefts(b, sc, c), Rights(b, sc, c);
    if 0 <= i < |l| then l[i] else if 0 <= j < |r| then r[j] else old0
  }

  ghost predicate InSpan(two: seq<int>, sb: int, p: int) {
    CountBelow(two, sb) <= p < CountBelow(two, sb + 1)
  }

  /** Bucket sb is being filled by the scans. */
  ghost predicate IsOpen(done: seq<bool>, ss: Byte, sb: int)
    requires |done| == 256
  {
    0 <= sb < 65536 && sb % 256 == ss && !done[sb / 256]
  }

  /** Buckets [c, ss] of unfinished c hold cells; every other pointer is as before the scans. */
  ghost predicate ScanState(b: seq<Byte>, two: seq<int>, done: seq<bool>, ss: Byte, sc: Scan,
                            p0: seq<int>, ptr: seq<int>) {
    |done| == 256 && ptr == Cells(b, two, done, ss, sc, p0)
  }

  ghost function Cells(b: seq<Byte>, two: seq<int>, done: seq<bool>, ss: Byte, sc: Scan, p0: seq<int>): (r: seq<int>)
    requires |done| == 256
    ensures |r| == |p0|
  {
    seq(|p0|, p requires 0 <= p < |p0| => CellAt(b, two, done, ss, sc, p0, p))
  }

  ghost function CellAt(b: seq<Byte>, two: seq<int>, done: seq<bool>, ss: Byte, sc: Scan, p0: seq<int>, p: int): int
    requires |done| == 256 && 0 <= p < |p0|
  {
    if 0 <= p0[p] < |two| && IsOpen(done, ss, two[p0[p]])
    then Cell(b, two, ss, sc, two[p0[p]] / 256, p, p0[p])
    else p0[p]
  }

  lemma CellOpen(b: seq<Byte>, two: seq<int>, done: seq<bool>, ss: Byte, sc: Scan, p0: seq<int>, c: Byte, p: int)
    requires |done| == 256 && InBuckets(p0, two) && 0 <= p < |p0|
    requires !done[c] && InSpan(two, Sb(c, ss), p)
    ensures CellAt(b, two, done, ss, sc, p0, p) == Cell(b, two, ss, sc, c, p, p0[p])
  {
    BucketAt(two, p, p0[p], Sb(c, ss));
  }

  lemma CellClosed(b: seq<Byte>, two: seq<int>, done: seq<bool>, ss: Byte, sc: Scan, p0: seq<int>, sb: int, p: int)
    requires |done| == 256 && InBuckets(p0, two) && 0 <= p < |p0|
    requires !IsOpen(done, ss, sb) && InSpan(two, sb, p)
    ensures CellAt(b, two, done, ss, sc, p0, p) == p0[p]
  {
    BucketAt(two, p, p0[p], sb);
  }

  // ----- where the scans read and write

  /** The bounds of big bucket ss and of its small bucket [ss, ss]. */
  ghost predicate Bounds(two: seq<int>, ss: Byte, a: int, m: int, z: int, e: int) {
    && a == CountBelow(two, Sb(ss, 0)) && m == CountBelow(two, Sb(ss, ss))
    && z == CountBelow(two, Sb(ss, ss) + 1) && e == CountBelow(two, Sb(ss, 0) + 256)
    && 0 <= a <= m <= z <= e <= |two|
  }

  lemma BoundsExist(two: seq<int>, ss: Byte) returns (a: int, m: int, z: int, e: int)
    ensures Bounds(two, ss, a, m, z, e)
  {
    a, m := CountBelow(two, Sb(ss, 0)), CountBelow(two, Sb(ss, ss));
    z, e := CountBelow(two, Sb(ss, ss) + 1), CountBelow(two, Sb(ss, 0) + 256);
    CountMonotone(two, Sb(ss, 0), Sb(ss, ss));
    CountSteps(two, Sb(ss, ss));
    CountMonotone(two, Sb(ss, ss) + 1, Sb(ss, 0) + 256);
    CountSteps(two, Sb(ss, 0) + 255);
  }

  /** s0 lists the pointers of [ss, 0..ss) upwards, s1 those of [ss, ss+1..] downwards. */
  ghost predicate StaticsOf(sc: Scan, p0: seq<int>, a: int, m: int, z: int, e: int) {
    && 0 <= a <= m <= z <= e <= |p0|
    && |sc.s0| == m - a && |sc.s1| == e - z
    && (forall i :: 0 <= i < m - a ==> sc.s0[i] == p0[a + i])
    && (forall i :: 0 <= i < e - z ==> sc.s1[i] == p0[e - 1 - i])
  }

  /** Positions of big bucket ss outside [ss, ss] are never written. */
  lemma StaticCell(b: seq<Byte>, two: seq<int>, done: seq<bool>, ss: Byte, sc: Scan, p0: seq<int>,
                   a: int, m: int, z: int, e: int, j: int)
    requires |done| == 256 && InBuckets(p0, two) && Bounds(two, ss, a, m, z, e)
    requires a <= j < m || z <= j < e
    ensures j < |p0| && CellAt(b, two, done, ss, sc, p0, j) == p0[j]
  {
    var sb := two[p0[j]];
    assert InBucket(two, j, p0[j]);
    if sb < Sb(ss, 0) {
      CountMonotone(two, sb + 1, Sb(ss, 0));
    } else if Sb(ss, 0) + 256 <= sb {
      CountMonotone(two, Sb(ss, 0) + 256, sb);
    }
  }

  /** Reading the upward scan position yields the next element of its queue. */
  lemma ReadLeft(b: seq<Byte>, two: seq<int>, done: seq<bool>, ss: Byte, sc: Scan, p0: seq<int>,
                 a: int, m: int, z: int, e: int)
    requires |done| == 256 && !done[ss] && InBuckets(p0, two)
    requires |Lefts(b, sc, ss)| + |Rights(b, sc, ss)| <= Span(two, Sb(ss, ss))
    requires Bounds(two, ss, a, m, z, e) && StaticsOf(sc, p0, a, m, z, e)
    requires |sc.left| < |Queue(b, ss, sc.s0, sc.left)|
    ensures 0 <= a + |sc.left| < |p0|
    ensures CellAt(b, two, done, ss, sc, p0, a + |sc.left|) == Queue(b, ss, sc.s0, sc.left)[|sc.left|]
  {
    var j := a + |sc.left|;
    if j < m {
      StaticCell(b, two, done, ss, sc, p0, a, m, z, e, j);
    } else {
      CellOpen(b, two, done, ss, sc, p0, ss, j);
    }
  }

  /** Reading the downward scan position yields the next element of its queue. */
  lemma ReadRight(b: seq<Byte>, two: seq<int>, done: seq<bool>, ss: Byte, sc: Scan, p0: seq<int>,
                  a: int, m: int, z: int, e: int)
    requires |done| == 256 && !done[ss] && InBuckets(p0, two)
    requires |Lefts(b, sc, ss)| + |Rights(b, sc, ss)| <= Span(two, Sb(ss, ss))
    requires Bounds(two, ss, a, m, z, e) && StaticsOf(sc, p0, a, m, z, e)
    requires |sc.right| < |Queue(b, ss, sc.s1, sc.right)|
    ensures 0 <= e - 1 - |sc.right| < |p0|
    ensures CellAt(b, two, done, ss, sc, p0, e - 1 - |sc.right|) == Queue(b, ss, sc.s1, sc.right)[|sc.right|]
  {
    var j := e - 1 - |sc.right|;
    if j >= z {
      StaticCell(b, two, done, ss, sc, p0, a, m, z, e, j);
    } else {
      CellOpen(b, two, done, ss, sc, p0, ss, j);
    }
  }

  function PushLeft(sc: Scan, x: int): Scan {
    sc.(left := sc.left + [x])
  }

  function PushRight(sc: Scan, x: int): Scan {
    sc.(right := sc.right + [x])
  }

  /** Scanning x upwards changes only the cell behind the left entries of its predecessor's bucket. */
  lemma CellAfterLeft(b: seq<Byte>, two: seq<int>, ss: Byte, sc: Scan, x: int, c: Byte, p: int, old0: int)
    requires 0 <= x < |b|
    ensures var k := Pred(|b|, x);
      Cell(b, two, ss, PushLeft(sc, x), c, p, old0)
      == if c == b[k] && p == CountBelow(two, Sb(c, ss)) + |Lefts(b, sc, c)| then k
         else Cell(b, two, ss, sc, c, p, old0)
  {
    PredsStep(b, sc.left, x, c);
  }

  lemma CellAfterRight(b: seq<Byte>, two: seq<int>, ss: Byte, sc: Scan, x: int, c: Byte, p: int, old0: int)
    requires 0 <= x < |b| && CountBelow(two, Sb(c, ss)) <= p
    ensures var k := Pred(|b|, x);
      Cell(b, two, ss, PushRight(sc, x), c, p, old0)
      == if c == b[k] && p == CountBelow(two, Sb(c, ss) + 1) - 1 - |Rights(b, sc, c)|
            && CountBelow(two, Sb(c, ss)) + |Lefts(b, sc, c)| <= p then k
         else Cell(b, two, ss, sc, c, p, old0)
  {
    PredsStep(b, sc.right, x, c);
  }

  lemma OpenParts(done: seq<bool>, ss: Byte, sb: int)
    requires |done| == 256 && IsOpen(done, ss, sb)
    ensures 0 <= sb / 256 < 256 && sb == Sb(sb / 256, ss) && !done[sb / 256]
  {
  }

  /** The write of the upward scan, if its target bucket is unfinished. */
  lemma PutLeft(b: seq<Byte>, two: seq<int>, done: seq<bool>, ss: Byte, sc: Scan, p0: seq<int>, ptr: seq<int>,
                x: int, k: nat, c1: Byte, pos: int)
    requires ScanState(b, two, done, ss, sc, p0, ptr) && InBuckets(p0, two) && 0 <= x < |b|
    requires k == Pred(|b|, x) && c1 == b[k] && 0 <= pos < |ptr|
    requires pos == CountBelow(two, Sb(c1, ss)) + |Lefts(b, sc, c1)| < CountBelow(two, Sb(c1, ss) + 1)
    ensures ScanState(b, two, done, ss, PushLeft(sc, x), p0, if done[c1] then ptr else ptr[pos := k])
  {
    var sc', ptr' := PushLeft(sc, x), if done[c1] then ptr else ptr[pos := k];
    BucketAt(two, pos, p0[pos], Sb(c1, ss));
    forall p | 0 <= p < |ptr|
      ensures ptr'[p] == CellAt(b, two, done, ss, sc', p0, p)
    {
      var sb := two[p0[p]];
      assert InBucket(two, p, p0[p]);
      if IsOpen(done, ss, sb) {
        OpenParts(done, ss, sb);
        CellAfterLeft(b, two, ss, sc, x, sb / 256, p, p0[p]);
      }
    }
  }

  /** The write of the downward scan, if its target bucket is unfinished. */
  lemma PutRight(b: seq<Byte>, two: seq<int>, done: seq<bool>, ss: Byte, sc: Scan, p0: seq<int>, ptr: seq<int>,
                x: int, k: nat, c1: Byte, pos: int)
    requires ScanState(b, two, done, ss, sc, p0, ptr) && InBuckets(p0, two) && 0 <= x < |b|
    requires k == Pred(|b|, x) && c1 == b[k] && 0 <= pos < |ptr|
    requires pos == CountBelow(two, Sb(c1, ss) + 1) - 1 - |Rights(b, sc, c1)|
    requires CountBelow(two, Sb(c1, ss)) + |Lefts(b, sc, c1)| <= pos
    ensures ScanState(b, two, done, ss, PushRight(sc, x), p0, if done[c1] then ptr else ptr[pos := k])
  {
    var sc', ptr' := PushRight(sc, x), if done[c1] then ptr else ptr[pos := k];
    BucketAt(two, pos, p0[pos], Sb(c1, ss));
    forall p | 0 <= p < |ptr|
      ensures ptr'[p] == CellAt(b, two, done, ss, sc', p0, p)
    {
      var sb := two[p0[p]];
      assert InBucket(two, p, p0[p]);
      if IsOpen(done, ss, sb) {
        OpenParts(done, ss, sb);
        CellAfterRight(b, two, ss, sc, x, sb / 256, p, p0[p]);
      }
    }
  }

  // ----- after the scans

  /** Small bucket sb lists its rotations in order. */
  ghost predicate SbSorted(b: seq<Byte>, two: seq<int>, ptr: seq<int>, sb: int)
    requires |ptr| == |b| == |two| && forall p :: 0 <= p < |ptr| ==> 0 <= ptr[p] < |b|
  {
    forall p, q :: 0 <= p < q < |ptr| && two[ptr[p]] == two[ptr[q]] == sb ==> Cmp(b, ptr[p], ptr[q], |b|) <= 0
  }

  /** The final content of one scanned bucket: found from the left, then found from the right, reversed. */
  lemma FullCell(b: seq<Byte>, two: seq<int>, ss: Byte, sc: Scan, c: Byte, p: int, old0: int)
    requires InSpan(two, Sb(c, ss), p)
    requires |Lefts(b, sc, c)| + |Rights(b, sc, c)| == Span(two, Sb(c, ss))
    ensures var i, j := p - CountBelow(two, Sb(c, ss)), CountBelow(two, Sb(c, ss) + 1) - 1 - p;
      if i < |Lefts(b, sc, c)| then Cell(b, two, ss, sc, c, p, old0) == Lefts(b, sc, c)[i]
      else 0 <= j < |Rights(b, sc, c)| && Cell(b, two, ss, sc, c, p, old0) == Rights(b, sc, c)[j]
  {
  }

  /** Two positions of a full bucket: both cells are members, distinct and in order. */
  lemma FullCells(b: seq<Byte>, ss: Byte, sc: Scan, c: Byte, p: int, q: int, oldp: int, oldq: int)
    requires ScanOk(b, ss, sc) && p <= q && InSpan(Two(b), Sb(c, ss), p) && InSpan(Two(b), Sb(c, ss), q)
    requires |Lefts(b, sc, c)| + |Rights(b, sc, c)| == Span(Two(b), Sb(c, ss))
    ensures var v, w := Cell(b, Two(b), ss, sc, c, p, oldp), Cell(b, Two(b), ss, sc, c, q, oldq);
      && v in Members(Two(b), Sb(c, ss)) && w in Members(Two(b), Sb(c, ss))
      && (p < q ==> v != w && Cmp(b, v, w, |b|) <= 0)
  {
    var two, l, r := Two(b), Lefts(b, sc, c), Rights(b, sc, c);
    var v, w := Cell(b, two, ss, sc, c, p, oldp), Cell(b, two, ss, sc, c, q, oldq);
    FullCell(b, two, ss, sc, c, p, oldp);
    FullCell(b, two, ss, sc, c, q, oldq);
    SideMembers(b, ss, -1, sc.s0, sc.left, c);
    SideMembers(b, ss, 1, sc.s1, sc.right, c);
    var i, i' := p - CountBelow(two, Sb(c, ss)), q - CountBelow(two, Sb(c, ss));
    assert v in Elements(if i < |l| then l else r) && w in Elements(if i' < |l| then l else r);
    if i < |l| <= i' {
      KeyParts(b, v, c, ss);
      KeyParts(b, w, c, ss);
      KindOrders(b, ss, Succ(|b|, v), Succ(|b|, w), |b|);
      CmpShift(b, v, w);
    }
  }

  /** The scans have ended with every open bucket full. */
  ghost predicate AllFull(b: seq<Byte>, two: seq<int>, done: seq<bool>, ss: Byte, sc: Scan)
    requires |done| == 256
  {
    forall c: Byte :: !done[c] ==> |Lefts(b, sc, c)| + |Rights(b, sc, c)| == Span(two, Sb(c, ss))
  }

  /** Every position of an open bucket holds its cell. */
  lemma OpenCell(b: seq<Byte>, two: seq<int>, done: seq<bool>, ss: Byte, sc: Scan, p0: seq<int>, ptr: seq<int>, p: int)
    returns (c: Byte)
    requires ScanState(b, two, done, ss, sc, p0, ptr) && InBuckets(p0, two) && 0 <= p < |ptr|
    requires IsOpen(done, ss, two[p0[p]])
    ensures two[p0[p]] == Sb(c, ss) && !done[c] && InSpan(two, Sb(c, ss), p)
    ensures ptr[p] == Cell(b, two, ss, sc, c, p, p0[p])
  {
    OpenParts(done, ss, two[p0[p]]);
    c := two[p0[p]] / 256;
    assert InBucket(two, p, p0[p]);
  }

  lemma FullPosition(b: seq<Byte>, two: seq<int>, done: seq<bool>, ss: Byte, sc: Scan, p0: seq<int>, ptr: seq<int>, p: int)
    requires two == Two(b) && ScanState(b, two, done, ss, sc, p0, ptr) && ScanOk(b, ss, sc) && InBuckets(p0, two)
    requires AllFull(b, two, done, ss, sc) && 0 <= p < |ptr|
    ensures 0 <= ptr[p] < |two| && two[ptr[p]] == two[p0[p]]
  {
    if IsOpen(done, ss, two[p0[p]]) {
      var c := OpenCell(b, two, done, ss, sc, p0, ptr, p);
      FullCells(b, ss, sc, c, p, p, p0[p], p0[p]);
    }
  }

  lemma FullPair(b: seq<Byte>, two: seq<int>, done: seq<bool>, ss: Byte, sc: Scan, p0: seq<int>, ptr: seq<int>, p: int, q: int)
    requires two == Two(b) && ScanState(b, two, done, ss, sc, p0, ptr) && ScanOk(b, ss, sc) && InBuckets(p0, two)
    requires AllFull(b, two, done, ss, sc) && 0 <= p < q < |ptr| && two[p0[p]] == two[p0[q]]
    requires IsOpen(done, ss, two[p0[p]])
    ensures ptr[p] != ptr[q]
    ensures 0 <= ptr[p] < |b| && 0 <= ptr[q] < |b| && Cmp(b, ptr[p], ptr[q], |b|) <= 0
  {
    var c := OpenCell(b, two, done, ss, sc, p0, ptr, p);
    var c' := OpenCell(b, two, done, ss, sc, p0, ptr, q);
    assert c' == c;
    var v, w := ptr[p], ptr[q];
    assert v != w && v in Members(two, Sb(c, ss)) && w in Members(two, Sb(c, ss)) && Cmp(b, v, w, |b|) <= 0 by {
      FullCells(b, ss, sc, c, p, q, p0[p], p0[q]);
    }
  }

  /** Full buckets leave a permutation of the rotations, each in its bucket, the scanned ones sorted. */
  lemma ScansFill(b: seq<Byte>, two: seq<int>, done: seq<bool>, ss: Byte, sc: Scan, p0: seq<int>, ptr: seq<int>)
    requires two == Two(b) && ScanState(b, two, done, ss, sc, p0, ptr) && ScanOk(b, ss, sc) && InBuckets(p0, two)
    requires AllFull(b, two, done, ss, sc)
    ensures InBuckets(ptr, two)
    ensures forall sb :: IsOpen(done, ss, sb) ==> SbSorted(b, two, ptr, sb)
  {
    forall p | 0 <= p < |ptr|
      ensures 0 <= ptr[p] < |two| && two[ptr[p]] == two[p0[p]] && InBucket(two, p, ptr[p])
    {
      FullPosition(b, two, done, ss, sc, p0, ptr, p);
      assert InBucket(two, p, p0[p]);
    }
    forall p, q | 0 <= p < q < |ptr|
      ensures ptr[p] != ptr[q]
    {
      if two[p0[p]] == two[p0[q]] && IsOpen(done, ss, two[p0[p]]) {
        FullPair(b, two, done, ss, sc, p0, ptr, p, q);
      }
    }
    forall sb, p, q | IsOpen(done, ss, sb) && 0 <= p < q < |ptr| && two[ptr[p]] == two[ptr[q]] == sb
      ensures Cmp(b, ptr[p], ptr[q], |b|) <= 0
    {
      FullPair(b, two, done, ss, sc, p0, ptr, p, q);
    }
  }

  /** A block of one repeated byte: nothing is ever scanned, and all rotations are equal. */
  lemma UniformScan(b: seq<Byte>, ss: Byte, side: int, s0: seq<int>, sc: seq<int>)
    requires Scanned(b, ss, side, s0, sc) && forall x :: 0 <= x < |b| ==> b[x] == ss
    ensures sc == []
  {
    if sc != [] {
      var x := sc[0];
      ScannedRegular(b, ss, side, s0, sc);
      assert x == Queue(b, ss, s0, sc)[0];
      assert Lean(b, ss, x) == side;
      UniformLean(b, ss, x, |b|);
    }
  }

  lemma {:induction false} UniformLean(b: seq<Byte>, ss: Byte, x: nat, k: nat)
    requires x < |b| && forall x :: 0 <= x < |b| ==> b[x] == ss
    ensures Kind(b, ss, x, k) == 0
    decreases k
  {
    if k != 0 {
      UniformLean(b, ss, Succ(|b|, x), k - 1);
    }
  }

  lemma {:induction false} UniformCmp(b: seq<Byte>, ss: Byte, x: nat, y: nat, k: nat)
    requires x < |b| && y < |b| && forall x :: 0 <= x < |b| ==> b[x] == ss
    ensures Cmp(b, x, y, k) == 0
    decreases k
  {
    if k != 0 {
      UniformCmp(b, ss, Succ(|b|, x), Succ(|b|, y), k - 1);
    }
  }

  /** The outcome of both scans. */
  lemma ScansDone(b: seq<Byte>, two: seq<int>, done: seq<bool>, ss: Byte, sc: Scan, p0: seq<int>, ptr: seq<int>)
    requires two == Two(b) && ScanState(b, two, done, ss, sc, p0, ptr) && ScanOk(b, ss, sc) && InBuckets(p0, two)
    requires Exhausted(b, ss, sc)
    ensures InBuckets(ptr, two)
    ensures forall sb :: IsOpen(done, ss, sb) ==> SbSorted(b, two, ptr, sb)
    ensures AllFull(b, two, done, ss, sc) || (ptr == p0 && sc.left == [] && sc.right == [] && forall x :: 0 <= x < |b| ==> b[x] == ss)
  {
    if x :| 0 <= x < |b| && b[x] != ss {
      forall c: Byte | !done[c]
        ensures |Lefts(b, sc, c)| + |Rights(b, sc, c)| == Span(two, Sb(c, ss))
      {
        AllFound(b, ss, sc, c, x);
      }
      ScansFill(b, two, done, ss, sc, p0, ptr);
    } else {
      UniformScan(b, ss, -1, sc.s0, sc.left);
      UniformScan(b, ss, 1, sc.s1, sc.right);
      assert ptr == p0;
      forall sb | IsOpen(done, ss, sb)
        ensures SbSorted(b, two, ptr, sb)
      {
        UniformSorted(b, two, ss, ptr, sb);
      }
    }
  }

  lemma UniformSorted(b: seq<Byte>, two: seq<int>, ss: Byte, ptr: seq<int>, sb: int)
    requires |ptr| == |b| == |two| && forall p :: 0 <= p < |ptr| ==> 0 <= ptr[p] < |b|
    requires forall x :: 0 <= x < |b| ==> b[x] == ss
    ensures SbSorted(b, two, ptr, sb)
  {
    forall p, q | 0 <= p < q < |ptr|
      ensures Cmp(b, ptr[p], ptr[q], |b|) <= 0
    {
      UniformCmp(b, ss, ptr[p], ptr[q], |b|);
    }
  }
}
