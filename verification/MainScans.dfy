/** The two scans of a big bucket, as loops over ptr with a pair of cursors for every small bucket [t, ss]. */
module MainScans {
  import opened Permutations
  import opened Rotations
  import opened Counting
  import opened MainScan
  import opened MainBuckets

  function StartAt(b: seq<Byte>, two: seq<int>, ss: Byte, sc: Scan, c: Byte): int
  {
    CountBelow(two, Sb(c, ss)) + |Lefts(b, sc, c)|
  }

  function EndAt(b: seq<Byte>, two: seq<int>, ss: Byte, sc: Scan, c: Byte): int
  {
    CountBelow(two, Sb(c, ss) + 1) - 1 - |Rights(b, sc, c)|
  }

  /** The cursors of bucket [c, ss] stand behind what the scans have put there. */
  ghost predicate AtCursors(b: seq<Byte>, two: seq<int>, ss: Byte, sc: Scan, copyStart: seq<int>, copyEnd: seq<int>, c: Byte)
    requires |copyStart| == 256 && |copyEnd| == 256
  {
    copyStart[c] == StartAt(b, two, ss, sc, c) && copyEnd[c] == EndAt(b, two, ss, sc, c)
  }

  ghost predicate Cursors(b: seq<Byte>, two: seq<int>, done: seq<bool>, ss: Byte, sc: Scan,
                          copyStart: seq<int>, copyEnd: seq<int>) {
    && |done| == 256 && |copyStart| == 256 && |copyEnd| == 256
    && forall c: Byte {:trigger AtCursors(b, two, ss, sc, copyStart, copyEnd, c)} ::
         !done[c] ==> AtCursors(b, two, ss, sc, copyStart, copyEnd, c)
  }

  datatype Frame = Frame(b: seq<Byte>, two: seq<int>, done: seq<bool>, ss: Byte, p0: seq<int>,
                         a: int, m: int, z: int, e: int)

  /** What both scans keep. */
  ghost predicate Scanning(f: Frame, sc: Scan, ptr: seq<int>, copyStart: seq<int>, copyEnd: seq<int>) {
    && f.two == Two(f.b) && |f.done| == 256 && !f.done[f.ss] && InBuckets(f.p0, f.two)
    && Bounds(f.two, f.ss, f.a, f.m, f.z, f.e) && StaticsOf(sc, f.p0, f.a, f.m, f.z, f.e)
    && ScanOk(f.b, f.ss, sc) && ScanState(f.b, f.two, f.done, f.ss, sc, f.p0, ptr)
    && Cursors(f.b, f.two, f.done, f.ss, sc, copyStart, copyEnd)
  }

  lemma CursorsLeft(b: seq<Byte>, two: seq<int>, done: seq<bool>, ss: Byte, sc: Scan, x: int,
                    copyStart: seq<int>, copyEnd: seq<int>)
    requires Cursors(b, two, done, ss, sc, copyStart, copyEnd) && 0 <= x < |b|
    ensures var c1 := b[Pred(|b|, x)];
      Cursors(b, two, done, ss, PushLeft(sc, x),
              if done[c1] then copyStart else copyStart[c1 := copyStart[c1] + 1], copyEnd)
  {
    var c1 := b[Pred(|b|, x)];
    var copyStart' := if done[c1] then copyStart else copyStart[c1 := copyStart[c1] + 1];
    forall c: Byte | !done[c]
      ensures AtCursors(b, two, ss, PushLeft(sc, x), copyStart', copyEnd, c)
    {
      assert AtCursors(b, two, ss, sc, copyStart, copyEnd, c);
      PredsStep(b, sc.left, x, c);
    }
  }

  lemma CursorsRight(b: seq<Byte>, two: seq<int>, done: seq<bool>, ss: Byte, sc: Scan, x: int,
                     copyStart: seq<int>, copyEnd: seq<int>)
    requires Cursors(b, two, done, ss, sc, copyStart, copyEnd) && 0 <= x < |b|
    ensures var c1 := b[Pred(|b|, x)];
      Cursors(b, two, done, ss, PushRight(sc, x),
              copyStart, if done[c1] then copyEnd else copyEnd[c1 := copyEnd[c1] - 1])
  {
    var c1 := b[Pred(|b|, x)];
    var copyEnd' := if done[c1] then copyEnd else copyEnd[c1 := copyEnd[c1] - 1];
    forall c: Byte | !done[c]
      ensures AtCursors(b, two, ss, PushRight(sc, x), copyStart, copyEnd', c)
    {
      assert AtCursors(b, two, ss, sc, copyStart, copyEnd, c);
      PredsStep(b, sc.right, x, c);
    }
  }

  lemma SpanEnds(two: seq<int>, sb: int)
    ensures CountBelow(two, sb) <= CountBelow(two, sb + 1) <= |two|
  {
    CountSteps(two, sb);
    CountSteps(two, sb + 1);
  }

  /** Its predecessor has a place in the bucket it belongs to. */
  lemma RoomLeft(b: seq<Byte>, two: seq<int>, ss: Byte, sc: Scan, x: int, c1: Byte)
    requires two == Two(b) && ScanOk(b, ss, PushLeft(sc, x)) && 0 <= x < |b| && c1 == b[Pred(|b|, x)]
    ensures StartAt(b, two, ss, sc, c1) <= EndAt(b, two, ss, sc, c1)
    ensures 0 <= StartAt(b, two, ss, sc, c1) < CountBelow(two, Sb(c1, ss) + 1) <= |b|
  {
    var n := |Lefts(b, sc, c1)|;
    assert n + 1 + |Rights(b, sc, c1)| <= Span(two, Sb(c1, ss)) by {
      Room(b, ss, PushLeft(sc, x), c1);
      PredsStep(b, sc.left, x, c1);
    }
    SpanEnds(two, Sb(c1, ss));
  }

  lemma RoomRight(b: seq<Byte>, two: seq<int>, ss: Byte, sc: Scan, x: int, c1: Byte)
    requires two == Two(b) && ScanOk(b, ss, PushRight(sc, x)) && 0 <= x < |b| && c1 == b[Pred(|b|, x)]
    ensures StartAt(b, two, ss, sc, c1) <= EndAt(b, two, ss, sc, c1)
    ensures 0 <= EndAt(b, two, ss, sc, c1) < |b|
  {
    var n := |Rights(b, sc, c1)|;
    assert |Lefts(b, sc, c1)| + n + 1 <= Span(two, Sb(c1, ss)) by {
      Room(b, ss, PushRight(sc, x), c1);
      PredsStep(b, sc.right, x, c1);
    }
    SpanEnds(two, Sb(c1, ss));
  }

  /** What the upward scan reads. */
  lemma UpRead(f: Frame, sc: Scan, ptr: seq<int>, j: int) returns (x: int)
    requires f.two == Two(f.b) && |f.done| == 256 && !f.done[f.ss] && InBuckets(f.p0, f.two)
    requires Bounds(f.two, f.ss, f.a, f.m, f.z, f.e) && StaticsOf(sc, f.p0, f.a, f.m, f.z, f.e)
    requires ScanOk(f.b, f.ss, sc) && ScanState(f.b, f.two, f.done, f.ss, sc, f.p0, ptr)
    requires |sc.left| < |Queue(f.b, f.ss, sc.s0, sc.left)| && j == f.a + |sc.left|
    ensures 0 <= j < |ptr| && ptr[j] == x && 0 <= x < |f.b|
    ensures ScanOk(f.b, f.ss, PushLeft(sc, x))
  {
    x := Queue(f.b, f.ss, sc.s0, sc.left)[|sc.left|];
    ScanStep(f.b, f.ss, -1, sc.s0, sc.left, x);
    Room(f.b, f.ss, sc, f.ss);
    ReadLeft(f.b, f.two, f.done, f.ss, sc, f.p0, f.a, f.m, f.z, f.e);
  }

  /** What the downward scan reads. */
  lemma DownRead(f: Frame, sc: Scan, ptr: seq<int>, j: int) returns (x: int)
    requires f.two == Two(f.b) && |f.done| == 256 && !f.done[f.ss] && InBuckets(f.p0, f.two)
    requires Bounds(f.two, f.ss, f.a, f.m, f.z, f.e) && StaticsOf(sc, f.p0, f.a, f.m, f.z, f.e)
    requires ScanOk(f.b, f.ss, sc) && ScanState(f.b, f.two, f.done, f.ss, sc, f.p0, ptr)
    requires |sc.right| < |Queue(f.b, f.ss, sc.s1, sc.right)| && j == f.e - 1 - |sc.right|
    ensures 0 <= j < |ptr| && ptr[j] == x && 0 <= x < |f.b|
    ensures ScanOk(f.b, f.ss, PushRight(sc, x))
  {
    x := Queue(f.b, f.ss, sc.s1, sc.right)[|sc.right|];
    ScanStep(f.b, f.ss, 1, sc.s1, sc.right, x);
    Room(f.b, f.ss, sc, f.ss);
    ReadRight(f.b, f.two, f.done, f.ss, sc, f.p0, f.a, f.m, f.z, f.e);
  }

  lemma PutUp(b: seq<Byte>, two: seq<int>, done: seq<bool>, ss: Byte, sc: Scan, p0: seq<int>, ptr: seq<int>,
              x: int, k: nat, c1: Byte)
    requires two == Two(b) && ScanState(b, two, done, ss, sc, p0, ptr) && InBuckets(p0, two) && 0 <= x < |b|
    requires ScanOk(b, ss, PushLeft(sc, x)) && k == Pred(|b|, x) && c1 == b[k]
    ensures 0 <= StartAt(b, two, ss, sc, c1) < |ptr|
    ensures ScanState(b, two, done, ss, PushLeft(sc, x), p0, if done[c1] then ptr else ptr[StartAt(b, two, ss, sc, c1) := k])
  {
    RoomLeft(b, two, ss, sc, x, c1);
    PutLeft(b, two, done, ss, sc, p0, ptr, x, k, c1, StartAt(b, two, ss, sc, c1));
  }

  /** One step of the upward scan. */
  lemma UpStep(f: Frame, sc: Scan, ptr: seq<int>, copyStart: seq<int>, copyEnd: seq<int>, x: int, k: nat)
    requires Scanning(f, sc, ptr, copyStart, copyEnd) && 0 <= x < |f.b| && k == Pred(|f.b|, x)
    requires ScanOk(f.b, f.ss, PushLeft(sc, x))
    ensures !f.done[f.b[k]] ==> 0 <= copyStart[f.b[k]] < |ptr|
    ensures Scanning(f, PushLeft(sc, x), if f.done[f.b[k]] then ptr else ptr[copyStart[f.b[k]] := k],
                     if f.done[f.b[k]] then copyStart else copyStart[f.b[k] := copyStart[f.b[k]] + 1], copyEnd)
  {
    var c1: Byte := f.b[k];
    PutUp(f.b, f.two, f.done, f.ss, sc, f.p0, ptr, x, k, c1);
    CursorsLeft(f.b, f.two, f.done, f.ss, sc, x, copyStart, copyEnd);
    if !f.done[c1] {
      assert AtCursors(f.b, f.two, f.ss, sc, copyStart, copyEnd, c1);
    }
  }

  lemma PutDown(b: seq<Byte>, two: seq<int>, done: seq<bool>, ss: Byte, sc: Scan, p0: seq<int>, ptr: seq<int>,
              x: int, k: nat, c1: Byte)
    requires two == Two(b) && ScanState(b, two, done, ss, sc, p0, ptr) && InBuckets(p0, two) && 0 <= x < |b|
    requires ScanOk(b, ss, PushRight(sc, x)) && k == Pred(|b|, x) && c1 == b[k]
    ensures 0 <= EndAt(b, two, ss, sc, c1) < |ptr|
    ensures ScanState(b, two, done, ss, PushRight(sc, x), p0, if done[c1] then ptr else ptr[EndAt(b, two, ss, sc, c1) := k])
  {
    RoomRight(b, two, ss, sc, x, c1);
    PutRight(b, two, done, ss, sc, p0, ptr, x, k, c1, EndAt(b, two, ss, sc, c1));
  }

  /** One step of the downward scan. */
  lemma DownStep(f: Frame, sc: Scan, ptr: seq<int>, copyStart: seq<int>, copyEnd: seq<int>, x: int, k: nat)
    requires Scanning(f, sc, ptr, copyStart, copyEnd) && 0 <= x < |f.b| && k == Pred(|f.b|, x)
    requires ScanOk(f.b, f.ss, PushRight(sc, x))
    ensures !f.done[f.b[k]] ==> 0 <= copyEnd[f.b[k]] < |ptr|
    ensures Scanning(f, PushRight(sc, x), if f.done[f.b[k]] then ptr else ptr[copyEnd[f.b[k]] := k],
                     copyStart, if f.done[f.b[k]] then copyEnd else copyEnd[f.b[k] := copyEnd[f.b[k]] - 1])
  {
    var c1: Byte := f.b[k];
    PutDown(f.b, f.two, f.done, f.ss, sc, f.p0, ptr, x, k, c1);
    CursorsRight(f.b, f.two, f.done, f.ss, sc, x, copyStart, copyEnd);
    if !f.done[c1] {
      assert AtCursors(f.b, f.two, f.ss, sc, copyStart, copyEnd, c1);
    }
  }

  /** Reading, and what is written then. */
  lemma UpNext(f: Frame, sc: Scan, ptr: seq<int>, copyStart: seq<int>, copyEnd: seq<int>, j: int)
    returns (k: nat, sc': Scan)
    requires Scanning(f, sc, ptr, copyStart, copyEnd)
    requires |sc.left| < |Queue(f.b, f.ss, sc.s0, sc.left)| && j == f.a + |sc.left|
    ensures |f.done| == |copyStart| == |copyEnd| == 256
    ensures 0 <= j < |ptr| && 0 <= ptr[j] < |f.b| && k == Pred(|f.b|, ptr[j])
    ensures !f.done[f.b[k]] ==> 0 <= copyStart[f.b[k]] < |ptr|
    ensures Scanning(f, sc', if f.done[f.b[k]] then ptr else ptr[copyStart[f.b[k]] := k],
                     if f.done[f.b[k]] then copyStart else copyStart[f.b[k] := copyStart[f.b[k]] + 1], copyEnd)
    ensures sc'.right == sc.right && sc'.s0 == sc.s0 && sc'.s1 == sc.s1 && |sc'.left| == |sc.left| + 1
  {
    var x := UpRead(f, sc, ptr, j);
    k := Pred(|f.b|, x);
    sc' := PushLeft(sc, x);
    UpStep(f, sc, ptr, copyStart, copyEnd, x, k);
  }

  /** Reading, and what is written then. */
  lemma DownNext(f: Frame, sc: Scan, ptr: seq<int>, copyStart: seq<int>, copyEnd: seq<int>, j: int)
    returns (k: nat, sc': Scan)
    requires Scanning(f, sc, ptr, copyStart, copyEnd)
    requires |sc.right| < |Queue(f.b, f.ss, sc.s1, sc.right)| && j == f.e - 1 - |sc.right|
    ensures |f.done| == |copyStart| == |copyEnd| == 256
    ensures 0 <= j < |ptr| && 0 <= ptr[j] < |f.b| && k == Pred(|f.b|, ptr[j])
    ensures !f.done[f.b[k]] ==> 0 <= copyEnd[f.b[k]] < |ptr|
    ensures Scanning(f, sc', if f.done[f.b[k]] then ptr else ptr[copyEnd[f.b[k]] := k],
                     copyStart, if f.done[f.b[k]] then copyEnd else copyEnd[f.b[k] := copyEnd[f.b[k]] - 1])
    ensures sc'.left == sc.left && sc'.s0 == sc.s0 && sc'.s1 == sc.s1 && |sc'.right| == |sc.right| + 1
  {
    var x := DownRead(f, sc, ptr, j);
    k := Pred(|f.b|, x);
    sc' := PushRight(sc, x);
    DownStep(f, sc, ptr, copyStart, copyEnd, x, k);
  }

  /** The scan position is short of the cursor of [ss, ss] exactly while the queue is not empty. */
  lemma QueueLengths(f: Frame, sc: Scan, ptr: seq<int>, copyStart: seq<int>, copyEnd: seq<int>)
    requires Scanning(f, sc, ptr, copyStart, copyEnd)
    ensures copyStart[f.ss] - f.a == |Queue(f.b, f.ss, sc.s0, sc.left)| >= |sc.left|
    ensures f.e - 1 - copyEnd[f.ss] == |Queue(f.b, f.ss, sc.s1, sc.right)| >= |sc.right|
    ensures 0 <= copyStart[f.ss] && copyStart[f.ss] - 1 <= copyEnd[f.ss] < |f.b|
  {
    assert AtCursors(f.b, f.two, f.ss, sc, copyStart, copyEnd, f.ss);
    Room(f.b, f.ss, sc, f.ss);
    SpanEnds(f.two, Sb(f.ss, f.ss));
  }

  /** Writes the predecessor of the scanned rotation at its bucket's cursor, unless that bucket is finished. */
  method Plant(ptr: array<int>, block: array<int>, bigDone: array<bool>, cursor: array<int>, n: nat, j: int, delta: int,
               ghost b: seq<Byte>)
    requires ptr != block && ptr != cursor && block != cursor && bigDone.Length == 256 && cursor.Length == 256
    requires n == |b| <= ptr.Length && n <= block.Length && block[..n] == b && 0 <= j < n && 0 <= ptr[j] < n
    requires var c1 := b[Pred(n, ptr[j])]; !bigDone[c1] ==> 0 <= cursor[c1] < n
    modifies ptr, cursor
    ensures var k := Pred(n, old(ptr[j]));
      && ptr[..n] == (if bigDone[b[k]] then old(ptr[..n]) else old(ptr[..n])[old(cursor[b[k]]) := k])
      && cursor[..] == (if bigDone[b[k]] then old(cursor[..]) else old(cursor[..])[b[k] := old(cursor[b[k]]) + delta])
    ensures ptr[n..] == old(ptr[n..])
  {
    var k := ptr[j] - 1;
    if k < 0 {
      k := k + n;
    }
    var c1 := block[k];
    assert k == Pred(n, ptr[j]) && c1 == b[k];
    if !bigDone[c1] {
      ptr[cursor[c1]] := k;
      cursor[c1] := cursor[c1] + delta;
    }
  }

  method PlantUp(ptr: array<int>, block: array<int>, bigDone: array<bool>, copyStart: array<int>, ghost copyEnd: seq<int>,
                 n: nat, j: int, ghost f: Frame, ghost sc: Scan)
    returns (ghost sc': Scan)
    requires ptr != block && ptr != copyStart && block != copyStart
    requires n == |f.b| <= ptr.Length && n <= block.Length && block[..n] == f.b && bigDone[..] == f.done
    requires Scanning(f, sc, ptr[..n], copyStart[..], copyEnd)
    requires |sc.left| < |Queue(f.b, f.ss, sc.s0, sc.left)| && j == f.a + |sc.left|
    modifies ptr, copyStart
    ensures Scanning(f, sc', ptr[..n], copyStart[..], copyEnd)
    ensures sc'.right == sc.right && sc'.s0 == sc.s0 && sc'.s1 == sc.s1 && |sc'.left| == |sc.left| + 1
    ensures ptr[n..] == old(ptr[n..])
  {
    ghost var k: nat;
    k, sc' := UpNext(f, sc, ptr[..n], copyStart[..], copyEnd, j);
    Plant(ptr, block, bigDone, copyStart, n, j, 1, f.b);
  }

  method PlantDown(ptr: array<int>, block: array<int>, bigDone: array<bool>, ghost copyStart: seq<int>, copyEnd: array<int>,
                   n: nat, j: int, ghost f: Frame, ghost sc: Scan)
    returns (ghost sc': Scan)
    requires ptr != block && ptr != copyEnd && block != copyEnd
    requires n == |f.b| <= ptr.Length && n <= block.Length && block[..n] == f.b && bigDone[..] == f.done
    requires Scanning(f, sc, ptr[..n], copyStart, copyEnd[..])
    requires |sc.right| < |Queue(f.b, f.ss, sc.s1, sc.right)| && j == f.e - 1 - |sc.right|
    modifies ptr, copyEnd
    ensures Scanning(f, sc', ptr[..n], copyStart, copyEnd[..])
    ensures sc'.left == sc.left && sc'.s0 == sc.s0 && sc'.s1 == sc.s1 && |sc'.right| == |sc.right| + 1
    ensures ptr[n..] == old(ptr[n..])
  {
    ghost var k: nat;
    k, sc' := DownNext(f, sc, ptr[..n], copyStart, copyEnd[..], j);
    Plant(ptr, block, bigDone, copyEnd, n, j, -1, f.b);
  }

  method ScanUp(ptr: array<int>, block: array<int>, bigDone: array<bool>, copyStart: array<int>, ghost copyEnd: seq<int>,
                n: nat, ss: Byte, from: int, ghost f: Frame, ghost sc0: Scan)
    returns (ghost sc: Scan)
    requires ptr != block && ptr != copyStart && block != copyStart
    requires n == |f.b| <= ptr.Length && n <= block.Length && block[..n] == f.b && bigDone[..] == f.done && f.ss == ss
    requires Scanning(f, sc0, ptr[..n], copyStart[..], copyEnd) && from == f.a && sc0.left == []
    modifies ptr, copyStart
    ensures Scanning(f, sc, ptr[..n], copyStart[..], copyEnd)
    ensures |sc.left| == |Queue(f.b, f.ss, sc.s0, sc.left)| && sc.right == sc0.right && sc.s1 == sc0.s1
    ensures ptr[n..] == old(ptr[n..])
  {
    sc := sc0;
    var j := from;
    QueueLengths(f, sc, ptr[..n], copyStart[..], copyEnd);
    while j < copyStart[ss]
      invariant j == f.a + |sc.left| && sc.right == sc0.right && sc.s1 == sc0.s1
      invariant Scanning(f, sc, ptr[..n], copyStart[..], copyEnd)
      invariant copyStart[ss] - f.a == |Queue(f.b, f.ss, sc.s0, sc.left)| && copyStart[ss] <= n
      invariant |sc.left| <= |Queue(f.b, f.ss, sc.s0, sc.left)|
      invariant ptr[n..] == old(ptr[n..])
      invariant block[..n] == f.b && bigDone[..] == f.done
      decreases n - j
    {
      sc := PlantUp(ptr, block, bigDone, copyStart, copyEnd, n, j, f, sc);
      j := j + 1;
      QueueLengths(f, sc, ptr[..n], copyStart[..], copyEnd);
    }
  }

  method ScanDown(ptr: array<int>, block: array<int>, bigDone: array<bool>, ghost copyStart: seq<int>, copyEnd: array<int>,
                  n: nat, ss: Byte, from: int, ghost f: Frame, ghost sc0: Scan)
    returns (ghost sc: Scan)
    requires ptr != block && ptr != copyEnd && block != copyEnd
    requires n == |f.b| <= ptr.Length && n <= block.Length && block[..n] == f.b && bigDone[..] == f.done && f.ss == ss
    requires Scanning(f, sc0, ptr[..n], copyStart, copyEnd[..]) && from == f.e - 1 && sc0.right == []
    modifies ptr, copyEnd
    ensures Scanning(f, sc, ptr[..n], copyStart, copyEnd[..])
    ensures |sc.right| == |Queue(f.b, f.ss, sc.s1, sc.right)| && sc.left == sc0.left && sc.s0 == sc0.s0
    ensures ptr[n..] == old(ptr[n..])
  {
    sc := sc0;
    var j := from;
    QueueLengths(f, sc, ptr[..n], copyStart, copyEnd[..]);
    while j > copyEnd[ss]
      invariant j == f.e - 1 - |sc.right| && sc.left == sc0.left && sc.s0 == sc0.s0
      invariant Scanning(f, sc, ptr[..n], copyStart, copyEnd[..])
      invariant f.e - 1 - copyEnd[ss] == |Queue(f.b, f.ss, sc.s1, sc.right)| && -1 <= copyEnd[ss]
      invariant |sc.right| <= |Queue(f.b, f.ss, sc.s1, sc.right)|
      invariant ptr[n..] == old(ptr[n..])
      invariant block[..n] == f.b && bigDone[..] == f.done
      decreases j
    {
      sc := PlantDown(ptr, block, bigDone, copyStart, copyEnd, n, j, f, sc);
      j := j - 1;
      QueueLengths(f, sc, ptr[..n], copyStart, copyEnd[..]);
    }
  }
}
