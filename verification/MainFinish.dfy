/** What finishing one small or big bucket keeps: finished small buckets stay sorted, the flags in ftab say
    which ones are finished, and quadrants never contradict the order. */
module MainFinish {
  import opened Permutations
  import opened Bits
  import opened Rotations
  import opened Counting
  import opened Slices
  import opened QuickStack
  import opened MainCompare
  import opened MainScan
  import opened MainBuckets
  import opened MainQSort

  const SETMASK := 0x20_0000

  predicate IsSet(v: int) {
    v / SETMASK % 2 == 1
  }

  function Clear(v: int): int {
    if IsSet(v) then v - SETMASK else v
  }

  function Set(v: int): int {
    if IsSet(v) then v else v + SETMASK
  }

  function Entry(two: seq<int>, fin: set<int>, sb: int): int {
    CountBelow(two, sb) + if sb in fin then SETMASK else 0
  }

  /** ftab holds the start of every small bucket and, in bit 21, whether the bucket is finished. */
  ghost predicate Flagged(f: seq<int>, two: seq<int>, fin: set<int>) {
    && |f| == 65537 && |two| < SETMASK && 65536 !in fin
    && forall sb :: 0 <= sb <= 65536 ==> f[sb] == Entry(two, fin, sb)
  }

  lemma FlagReads(f: seq<int>, two: seq<int>, fin: set<int>, sb: int)
    requires Flagged(f, two, fin) && 0 <= sb <= 65536
    ensures Clear(f[sb]) == CountBelow(two, sb) && (IsSet(f[sb]) <==> sb in fin)
  {
    CountSteps(two, sb);
  }

  lemma FlagSets(f: seq<int>, two: seq<int>, fin: set<int>, sb: int)
    requires Flagged(f, two, fin) && 0 <= sb < 65536
    ensures Flagged(f[sb := Set(f[sb])], two, fin + {sb})
  {
    FlagReads(f, two, fin, sb);
  }

  /** Every finished small bucket is sorted. */
  ghost predicate Finished(b: seq<Byte>, two: seq<int>, ptr: seq<int>, fin: set<int>) {
    && InBuckets(ptr, two) && |b| == |two|
    && forall sb :: sb in fin ==> SbSorted(b, two, ptr, sb)
  }

  // ----- quicksort of one small bucket

  /** The rotations of a small bucket agree on two symbols. */
  lemma BucketAgrees(b: seq<Byte>, ptr: seq<int>, n: nat, sb: int)
    requires |b| == n <= |ptr| && InBuckets(ptr[..n], Two(b))
    ensures CountBelow(Two(b), sb) <= CountBelow(Two(b), sb + 1) <= n
    ensures Agree(ptr, b, CountBelow(Two(b), sb), CountBelow(Two(b), sb + 1) - 1, 2)
  {
    var two := Two(b);
    CountSteps(two, sb);
    CountSteps(two, sb + 1);
    var lo, hi := CountBelow(two, sb), CountBelow(two, sb + 1) - 1;
    forall x | lo <= x <= hi
      ensures 0 <= ptr[x] < n && two[ptr[x]] == sb
    {
      assert ptr[..n][x] == ptr[x];
      BucketAt(two, x, ptr[x], sb);
    }
    forall x, y | lo <= x <= hi && lo <= y <= hi
      ensures Cmp(b, ptr[x], ptr[y], 2) == 0
    {
      SameKey(b, ptr[x], ptr[y]);
    }
  }

  lemma SameKey(b: seq<Byte>, u: nat, v: nat)
    requires u < |b| && v < |b| && Two(b)[u] == Two(b)[v]
    ensures Cmp(b, u, v, 2) == 0
  {
    assert b[u] == b[v] && b[Succ(|b|, u)] == b[Succ(|b|, v)];
    assert Cmp(b, Succ(|b|, u), Succ(|b|, v), 1) == 0;
  }

  lemma KeyOrders(b: seq<Byte>, u: nat, v: nat)
    requires u < |b| && v < |b| && Two(b)[u] < Two(b)[v]
    ensures Cmp(b, u, v, |b|) < 0
  {
    assert b[u] == b[v] ==> b[Succ(|b|, u)] < b[Succ(|b|, v)];
    if |b| > 1 && b[u] == b[v] {
      assert Cmp(b, Succ(|b|, u), Succ(|b|, v), |b| - 1) < 0;
    }
  }

  lemma RearrangedInBuckets(s: seq<int>, t: seq<int>, two: seq<int>, sb: int)
    requires InBuckets(s, two)
    requires PermOn(s, t, CountBelow(two, sb), CountBelow(two, sb + 1))
    ensures InBuckets(t, two)
  {
    var lo, hi := CountBelow(two, sb), CountBelow(two, sb + 1);
    PermStays(s, t, lo, hi);
    PermOutside(s, t, lo, hi);
    forall p | 0 <= p < |t|
      ensures InBucket(two, p, t[p])
    {
      var x := PermSource(s, t, lo, hi, p);
      assert InBucket(two, x, s[x]);
      if lo <= p < hi {
        BucketAt(two, x, s[x], sb);
      }
    }
  }

  /** Rearranging one small bucket leaves the others alone. */
  lemma OthersStay(b: seq<Byte>, s: seq<int>, t: seq<int>, two: seq<int>, sb: int, sb': int)
    requires |b| == |two| && InBuckets(s, two) && InBuckets(t, two) && sb != sb' && SbSorted(b, two, s, sb')
    requires PermOn(s, t, CountBelow(two, sb), CountBelow(two, sb + 1))
    ensures SbSorted(b, two, t, sb')
  {
    var lo, hi := CountBelow(two, sb), CountBelow(two, sb + 1);
    forall p, q | 0 <= p < q < |t| && two[t[p]] == two[t[q]] == sb'
      ensures Cmp(b, t[p], t[q], |b|) <= 0
    {
      var x := PermSource(s, t, lo, hi, p);
      var y := PermSource(s, t, lo, hi, q);
      assert InBucket(two, p, t[p]) && InBucket(two, q, t[q]);
      if lo <= p < hi {
        BucketAt(two, p, t[p], sb);
      }
      if lo <= q < hi {
        BucketAt(two, q, t[q], sb);
      }
    }
  }

  lemma PartIsSorted(b: seq<Byte>, t: seq<int>, two: seq<int>, sb: int)
    requires |b| == |two| && InBuckets(t, two)
    requires PartSorted(t, Rank(b), [], CountBelow(two, sb), CountBelow(two, sb + 1) - 1)
    ensures SbSorted(b, two, t, sb)
  {
    forall p, q | 0 <= p < q < |t| && two[t[p]] == two[t[q]] == sb
      ensures Cmp(b, t[p], t[q], |b|) <= 0
    {
      assert InBucket(two, p, t[p]) && InBucket(two, q, t[q]);
      assert Ordered(t, Rank(b), p, q) || Covers([], p, q);
      RankOrders(b, t[p], t[q]);
    }
  }

  /** A sorted small bucket joins the finished ones. */
  lemma SmallDone(b: seq<Byte>, two: seq<int>, s: seq<int>, t: seq<int>, sb: int, fin: set<int>)
    requires Finished(b, two, s, fin)
    requires PermOn(s, t, CountBelow(two, sb), CountBelow(two, sb + 1))
    requires PartSorted(t, Rank(b), [], CountBelow(two, sb), CountBelow(two, sb + 1) - 1)
    ensures Finished(b, two, t, fin + {sb})
  {
    RearrangedInBuckets(s, t, two, sb);
    PartIsSorted(b, t, two, sb);
    forall sb' | sb' in fin && sb' != sb
      ensures SbSorted(b, two, t, sb')
    {
      OthersStay(b, s, t, two, sb, sb');
    }
  }

  // ----- before and after the scans

  /** All small buckets [ss, j] with j != ss are finished, and so are all those of finished big buckets. */
  ghost predicate Ready(done: seq<bool>, fin: set<int>, ss: Byte) {
    && |done| == 256 && !done[ss]
    && (forall j: Byte :: j != ss ==> Sb(ss, j) in fin)
    && (forall c: Byte, j: Byte :: done[c] ==> Sb(c, j) in fin)
  }

  lemma KeysAscend(two: seq<int>, ptr: seq<int>, p: int, q: int)
    requires InBuckets(ptr, two) && 0 <= p < q < |ptr|
    ensures two[ptr[p]] <= two[ptr[q]] && ptr[p] != ptr[q]
  {
    var k, k' := two[ptr[p]], two[ptr[q]];
    assert InBucket(two, p, ptr[p]) && InBucket(two, q, ptr[q]);
    if k' < k {
      CountMonotone(two, k' + 1, k);
    }
  }

  lemma SortedPair(b: seq<Byte>, two: seq<int>, ptr: seq<int>, p: int, q: int)
    requires InBuckets(ptr, two) && |b| == |two| && 0 <= p < q < |ptr|
    requires two[ptr[p]] == two[ptr[q]] && SbSorted(b, two, ptr, two[ptr[p]])
    ensures Cmp(b, ptr[p], ptr[q], |b|) <= 0
  {
  }

  /** Positions are ordered as far as their small buckets are finished. */
  lemma BigOrdered(b: seq<Byte>, two: seq<int>, ptr: seq<int>, fin: set<int>, p: int, q: int)
    requires two == Two(b) && Finished(b, two, ptr, fin) && 0 <= p < q < |ptr|
    requires two[ptr[p]] in fin
    ensures Cmp(b, ptr[p], ptr[q], |b|) <= 0 && ptr[p] != ptr[q]
    ensures two[ptr[p]] <= two[ptr[q]]
  {
    KeysAscend(two, ptr, p, q);
    if two[ptr[p]] < two[ptr[q]] {
      KeyOrders(b, ptr[p], ptr[q]);
    } else {
      SortedPair(b, two, ptr, p, q);
    }
  }

  lemma KeySpan(two: seq<int>, ptr: seq<int>, p: int, lo: int, hi: int)
    requires InBuckets(ptr, two) && 0 <= p < |ptr| && lo <= hi
    ensures CountBelow(two, lo) <= p < CountBelow(two, hi) <==> lo <= two[ptr[p]] < hi
  {
    var k := two[ptr[p]];
    assert InBucket(two, p, ptr[p]);
    if k < lo {
      CountMonotone(two, k + 1, lo);
    } else if k < hi {
      CountMonotone(two, lo, k);
      CountMonotone(two, k + 1, hi);
    } else {
      CountMonotone(two, hi, k);
    }
  }

  /** A position of big bucket ss below (side < 0) or above (side > 0) the small bucket [ss, ss]. */
  ghost predicate OnSide(side: int, p: int, a: int, m: int, z: int, e: int) {
    if side < 0 then a <= p < m else z <= p < e
  }

  lemma SideStatic(b: seq<Byte>, two: seq<int>, ptr: seq<int>, ss: Byte, side: int, p: int,
                   a: int, m: int, z: int, e: int)
    requires two == Two(b) && InBuckets(ptr, two) && Bounds(two, ss, a, m, z, e)
    requires side in {-1, 1} && 0 <= p < |ptr|
    ensures OnSide(side, p, a, m, z, e) <==> IsStatic(b, ss, side, ptr[p])
    ensures OnSide(side, p, a, m, z, e) ==> two[ptr[p]] == Sb(ss, b[Succ(|b|, ptr[p])]) && b[Succ(|b|, ptr[p])] != ss
  {
    if side < 0 {
      KeySpan(two, ptr, p, Sb(ss, 0), Sb(ss, ss));
    } else {
      KeySpan(two, ptr, p, Sb(ss, ss) + 1, Sb(ss, 0) + 256);
    }
  }

  lemma SideOrdered(b: seq<Byte>, two: seq<int>, ptr: seq<int>, fin: set<int>, done: seq<bool>, ss: Byte, side: int,
                    p: int, q: int, a: int, m: int, z: int, e: int)
    requires two == Two(b) && Finished(b, two, ptr, fin) && Ready(done, fin, ss) && Bounds(two, ss, a, m, z, e)
    requires side in {-1, 1} && 0 <= p < q < |ptr| && OnSide(side, p, a, m, z, e)
    ensures 0 <= ptr[p] < |b| && 0 <= ptr[q] < |b| && ptr[p] != ptr[q]
    ensures if side < 0 then Before(b, side, ptr[p], ptr[q]) else Before(b, side, ptr[q], ptr[p])
  {
    SideStatic(b, two, ptr, ss, side, p, a, m, z, e);
    BigOrdered(b, two, ptr, fin, p, q);
  }

  lemma SideComplete(b: seq<Byte>, two: seq<int>, ptr: seq<int>, ss: Byte, side: int, x: int,
                     a: int, m: int, z: int, e: int) returns (p: int)
    requires two == Two(b) && InBuckets(ptr, two) && Bounds(two, ss, a, m, z, e)
    requires side in {-1, 1} && IsStatic(b, ss, side, x)
    ensures 0 <= p < |ptr| && ptr[p] == x && OnSide(side, p, a, m, z, e)
  {
    PermOnto(ptr, x);
    p :| 0 <= p < |ptr| && ptr[p] == x;
    SideStatic(b, two, ptr, ss, side, p, a, m, z, e);
  }

  /** The pointers of [ss, 0..ss), upwards, are the static queue of the upward scan. */
  lemma StaticLeft(b: seq<Byte>, two: seq<int>, ptr: seq<int>, fin: set<int>, done: seq<bool>, ss: Byte,
                   a: int, m: int, z: int, e: int)
    requires two == Two(b) && Finished(b, two, ptr, fin) && Ready(done, fin, ss) && Bounds(two, ss, a, m, z, e)
    ensures Static(b, ss, -1, ptr[a..m])
  {
    var s0 := ptr[a..m];
    forall i | 0 <= i < |s0|
      ensures IsStatic(b, ss, -1, s0[i])
    {
      SideStatic(b, two, ptr, ss, -1, a + i, a, m, z, e);
    }
    forall i, j | 0 <= i < j < |s0|
      ensures s0[i] != s0[j] && Before(b, -1, s0[i], s0[j])
    {
      SideOrdered(b, two, ptr, fin, done, ss, -1, a + i, a + j, a, m, z, e);
    }
    forall x | IsStatic(b, ss, -1, x)
      ensures x in s0
    {
      var p := SideComplete(b, two, ptr, ss, -1, x, a, m, z, e);
      assert s0[p - a] == x;
    }
  }

  function Backwards(s: seq<int>): (r: seq<int>)
    ensures |r| == |s| && forall i :: 0 <= i < |s| ==> r[i] == s[|s| - 1 - i]
  {
    seq(|s|, i requires 0 <= i < |s| => s[|s| - 1 - i])
  }

  /** The pointers of [ss, ss+1..], downwards, are the static queue of the downward scan. */
  lemma StaticRight(b: seq<Byte>, two: seq<int>, ptr: seq<int>, fin: set<int>, done: seq<bool>, ss: Byte,
                    a: int, m: int, z: int, e: int)
    requires two == Two(b) && Finished(b, two, ptr, fin) && Ready(done, fin, ss) && Bounds(two, ss, a, m, z, e)
    ensures Static(b, ss, 1, Backwards(ptr[z..e]))
  {
    var s1 := Backwards(ptr[z..e]);
    var k := e - z;
    forall i | 0 <= i < k
      ensures s1[i] == ptr[e - 1 - i] && IsStatic(b, ss, 1, s1[i])
    {
      SideStatic(b, two, ptr, ss, 1, e - 1 - i, a, m, z, e);
    }
    forall i, j | 0 <= i < j < k
      ensures s1[i] != s1[j] && Before(b, 1, s1[i], s1[j])
    {
      SideOrdered(b, two, ptr, fin, done, ss, 1, e - 1 - j, e - 1 - i, a, m, z, e);
    }
    forall x | IsStatic(b, ss, 1, x)
      ensures x in s1
    {
      var p := SideComplete(b, two, ptr, ss, 1, x, a, m, z, e);
      assert s1[e - 1 - p] == x;
    }
  }

  function Column(ss: Byte): (r: set<int>)
    ensures forall sb :: sb in r <==> 0 <= sb < 65536 && sb % 256 == ss
  {
    set sb | 0 <= sb < 65536 && sb % 256 == ss
  }

  /** After the scans every [t, ss] is finished as well. */
  lemma ScansFinish(b: seq<Byte>, two: seq<int>, done: seq<bool>, fin: set<int>, ss: Byte, sc: Scan,
                    p0: seq<int>, ptr: seq<int>)
    requires two == Two(b) && Finished(b, two, p0, fin) && Ready(done, fin, ss)
    requires ScanState(b, two, done, ss, sc, p0, ptr) && InBuckets(ptr, two)
    requires forall sb :: IsOpen(done, ss, sb) ==> SbSorted(b, two, ptr, sb)
    ensures Finished(b, two, ptr, fin + Column(ss))
  {
    forall sb | sb in fin + Column(ss)
      ensures SbSorted(b, two, ptr, sb)
    {
      if !IsOpen(done, ss, sb) {
        if sb in Column(ss) {
          var c: Byte := sb / 256;
          assert sb == Sb(c, ss);
        }
        ClosedStays(b, two, done, ss, sc, p0, ptr, sb);
      }
    }
  }

  lemma ClosedStays(b: seq<Byte>, two: seq<int>, done: seq<bool>, ss: Byte, sc: Scan, p0: seq<int>, ptr: seq<int>, sb: int)
    requires two == Two(b) && InBuckets(p0, two) && SbSorted(b, two, p0, sb)
    requires ScanState(b, two, done, ss, sc, p0, ptr) && InBuckets(ptr, two) && !IsOpen(done, ss, sb)
    ensures SbSorted(b, two, ptr, sb)
  {
    forall p, q | 0 <= p < q < |ptr| && two[ptr[p]] == two[ptr[q]] == sb
      ensures Cmp(b, ptr[p], ptr[q], |b|) <= 0
    {
      assert InBucket(two, p, ptr[p]) && InBucket(two, q, ptr[q]);
      CellClosed(b, two, done, ss, sc, p0, sb, p);
      CellClosed(b, two, done, ss, sc, p0, sb, q);
    }
  }

  // ----- quadrants

  lemma ShiftsOrder(x: nat, y: nat, d: nat)
    requires d >= 1 && x / d < y / d
    ensures x < y
  {
    var u, v := x / d, y / d;
    QuotientBounds(x, d);
    QuotientBounds(y, d);
    MultiplesApart(d, u, v);
  }

  /** Rotations of big bucket ss have the shifted index inside their bucket as quadrant. */
  ghost predicate Ranked(quadrant: seq<int>, ptr: seq<int>, a: int, from: int, e: int, unit: nat) {
    && 0 <= a <= from <= e <= |ptr| && unit >= 1
    && forall p :: from <= p < e ==> 0 <= ptr[p] < |quadrant| && quadrant[ptr[p]] == (p - a) / unit
  }

  /** Rotations of other big buckets keep their quadrants. */
  ghost predicate OthersKept(b: seq<Byte>, was: seq<int>, quadrant: seq<int>, ss: Byte) {
    |b| <= |was| == |quadrant| && forall x :: 0 <= x < |b| && b[x] != ss ==> quadrant[x] == was[x]
  }

  lemma QuadrantsStay(b: seq<Byte>, two: seq<int>, ptr: seq<int>, fin: set<int>, was: seq<int>, quadrant: seq<int>,
                      ss: Byte, unit: nat)
    requires two == Two(b) && Finished(b, two, ptr, fin) && forall j: Byte :: Sb(ss, j) in fin
    requires Ranked(quadrant, ptr, CountBelow(two, Sb(ss, 0)), CountBelow(two, Sb(ss, 0)), CountBelow(two, Sb(ss, 0) + 256), unit)
    requires QuadrantsOrder(was, b) && OthersKept(b, was, quadrant, ss)
    ensures QuadrantsOrder(quadrant, b)
  {
    forall x, y | 0 <= x < |b| && 0 <= y < |b| && b[x] == b[y] && quadrant[x] < quadrant[y]
      ensures Cmp(b, x, y, |b|) <= 0
    {
      if b[x] == ss {
        RankedPair(b, two, ptr, fin, quadrant, ss, unit, x, y);
      }
    }
  }

  lemma RankedAt(b: seq<Byte>, two: seq<int>, ptr: seq<int>, quadrant: seq<int>, ss: Byte, unit: nat, x: nat)
    returns (p: int)
    requires two == Two(b) && InBuckets(ptr, two) && x < |b| && b[x] == ss
    requires Ranked(quadrant, ptr, CountBelow(two, Sb(ss, 0)), CountBelow(two, Sb(ss, 0)), CountBelow(two, Sb(ss, 0) + 256), unit)
    ensures 0 <= p < |ptr| && ptr[p] == x && p >= CountBelow(two, Sb(ss, 0)) && x < |quadrant|
    ensures quadrant[x] == (p - CountBelow(two, Sb(ss, 0))) / unit && unit >= 1
  {
    PermOnto(ptr, x);
    p :| 0 <= p < |ptr| && ptr[p] == x;
    KeySpan(two, ptr, p, Sb(ss, 0), Sb(ss, 0) + 256);
  }

  lemma RankedPlaces(b: seq<Byte>, two: seq<int>, ptr: seq<int>, quadrant: seq<int>, ss: Byte, unit: nat, x: nat, y: nat)
    returns (p: int, q: int)
    requires two == Two(b) && InBuckets(ptr, two) && x < |b| && y < |b| && b[x] == ss && b[y] == ss
    requires Ranked(quadrant, ptr, CountBelow(two, Sb(ss, 0)), CountBelow(two, Sb(ss, 0)), CountBelow(two, Sb(ss, 0) + 256), unit)
    requires |b| <= |quadrant| && quadrant[x] < quadrant[y]
    ensures 0 <= p < q < |ptr| && ptr[p] == x && ptr[q] == y
  {
    var a := CountBelow(two, Sb(ss, 0));
    p := RankedAt(b, two, ptr, quadrant, ss, unit, x);
    q := RankedAt(b, two, ptr, quadrant, ss, unit, y);
    ShiftsOrder(p - a, q - a, unit);
  }

  lemma RankedPair(b: seq<Byte>, two: seq<int>, ptr: seq<int>, fin: set<int>, quadrant: seq<int>,
                   ss: Byte, unit: nat, x: nat, y: nat)
    requires two == Two(b) && Finished(b, two, ptr, fin) && forall j: Byte :: Sb(ss, j) in fin
    requires Ranked(quadrant, ptr, CountBelow(two, Sb(ss, 0)), CountBelow(two, Sb(ss, 0)), CountBelow(two, Sb(ss, 0) + 256), unit)
    requires x < |b| && y < |b| && b[x] == ss && b[y] == ss && |b| <= |quadrant| && quadrant[x] < quadrant[y]
    ensures Cmp(b, x, y, |b|) <= 0
  {
    var p, q := RankedPlaces(b, two, ptr, quadrant, ss, unit, x, y);
    KeyFinished(b, two, fin, ss, x);
    BigOrdered(b, two, ptr, fin, p, q);
  }

  lemma KeyFinished(b: seq<Byte>, two: seq<int>, fin: set<int>, ss: Byte, x: nat)
    requires two == Two(b) && (forall j: Byte :: Sb(ss, j) in fin) && x < |b| && b[x] == ss
    ensures two[x] in fin
  {
    var j: Byte := b[Succ(|b|, x)];
    assert two[x] == Sb(ss, j);
  }

  // ----- the end

  /** Once every small bucket is finished the rotations are sorted. */
  lemma AllFinished(b: seq<Byte>, two: seq<int>, ptr: seq<int>, fin: set<int>)
    requires two == Two(b) && Finished(b, two, ptr, fin) && forall c: Byte, j: Byte :: Sb(c, j) in fin
    ensures SortsRotations(ptr, b)
  {
    forall p, q | 0 <= p < q < |ptr|
      ensures Rank(b)[ptr[p]] <= Rank(b)[ptr[q]]
    {
      var u := ptr[p];
      var c: Byte, j: Byte := b[u], b[Succ(|b|, u)];
      assert two[u] == Sb(c, j);
      BigOrdered(b, two, ptr, fin, p, q);
      RankOrders(b, ptr[p], ptr[q]);
    }
  }
}
