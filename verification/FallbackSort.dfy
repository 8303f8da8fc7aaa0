/** fallbackSort: sorting rotations by repeatedly doubling the number of symbols that decide. */
module FallbackSort {
  import opened Permutations
  import opened Rotations
  import opened Counting
  import opened Slices
  import opened QuickStack
  import opened FallbackQSort

  // ----- what a round with step h has achieved

  /** f lists all rotations in order of their first h symbols. */
  ghost predicate SortedTo(b: seq<Byte>, f: seq<int>, h: nat) {
    && IsPerm(f) && |f| == |b|
    && forall x, y :: 0 <= x < y < |f| ==> Cmp(b, f[x], f[y], h) <= 0
  }

  /** In [from, to) a header bit is set exactly where the first h symbols change. */
  ghost predicate Headers(b: seq<Byte>, f: seq<int>, bits: seq<bool>, h: nat, from: int, to: int)
    requires IsPerm(f) && |f| == |b|
  {
    && 0 <= from && to <= |f| <= |bits|
    && forall x {:trigger bits[x]} :: from <= x < to && 0 < x ==> (bits[x] <==> Cmp(b, f[x - 1], f[x], h) != 0)
  }

  /** Bits n, n+2, ..., n+62 are set and n+1, ..., n+63 clear. */
  ghost predicate Sentinels(bits: seq<bool>, n: nat) {
    && |bits| >= 32 * (n / 32 + 3)
    && forall i :: 0 <= i < 32 ==> bits[n + 2 * i] && !bits[n + 2 * i + 1]
  }

  /** Buckets of rotations with equal first h symbols, delimited by header bits. */
  ghost predicate Bucketed(b: seq<Byte>, f: seq<int>, bits: seq<bool>, h: nat) {
    && b != [] && SortedTo(b, f, h)
    && Headers(b, f, bits, h, 1, |f|)
    && Sentinels(bits, |b|) && bits[0]
  }

  /** The header of the bucket that position i lies in. */
  function Head(bits: seq<bool>, i: nat): (j: nat)
    requires i < |bits|
    ensures j <= i
  {
    if i == 0 || bits[i] then i else Head(bits, i - 1)
  }

  lemma {:induction false} HeadMeans(b: seq<Byte>, f: seq<int>, bits: seq<bool>, h: nat, i: nat, j: nat)
    requires Bucketed(b, f, bits, h) && i <= j < |f|
    ensures Head(bits, i) <= Head(bits, j)
    ensures Head(bits, i) == Head(bits, j) <==> Cmp(b, f[i], f[j], h) == 0
    decreases j
  {
    if i == j {
      CmpSelf(b, f[i], h);
    } else {
      HeadMeans(b, f, bits, h, i, j - 1);
      assert Cmp(b, f[i], f[j - 1], h) <= 0 by {
        CmpSelf(b, f[i], h);
      }
      assert Cmp(b, f[j - 1], f[j], h) <= 0;
      CmpTrans(b, f[i], f[j - 1], f[j], h);
      CmpAnti(b, f[i], f[j - 1], h);
      CmpAnti(b, f[j - 1], f[j], h);
      CmpAnti(b, f[i], f[j], h);
      if Cmp(b, f[i], f[j - 1], h) == 0 && Cmp(b, f[j - 1], f[j], h) == 0 {
        CmpTrans(b, f[j], f[j - 1], f[i], h);
      }
    }
  }

  /** h places back on the cycle. */
  function Back(n: nat, i: nat, h: nat): (r: nat)
    requires i < n && h <= n
    ensures r < n
  {
    if i < h then i - h + n else i - h
  }

  lemma BackAdv(n: nat, i: nat, h: nat)
    requires i < n && h <= n
    ensures Adv(n, Back(n, i, h), h) == i && Back(n, Adv(n, i, h), h) == i
  {
    AdvWraps(n, Back(n, i, h), h);
    AdvWraps(n, i, h);
  }

  /** cls[k] names the bucket of the rotation h places after k. */
  ghost predicate Classes(cls: seq<int>, f: seq<int>, bits: seq<bool>, h: nat, i: nat) {
    && IsPerm(f) && h <= |f| <= |cls| && i <= |f| <= |bits|
    && forall x :: 0 <= x < i ==> cls[Back(|f|, f[x], h)] == Head(bits, x)
  }

  lemma ClassAt(b: seq<Byte>, f: seq<int>, bits: seq<bool>, cls: seq<int>, h: nat, u: nat) returns (i: nat)
    requires Bucketed(b, f, bits, h) && Classes(cls, f, bits, h, |f|) && u < |f|
    ensures i < |f| && f[i] == Adv(|f|, u, h) && cls[u] == Head(bits, i)
  {
    BackAdv(|f|, u, h);
    PermOnto(f, Adv(|f|, u, h));
    i :| 0 <= i < |f| && f[i] == Adv(|f|, u, h);
  }

  /** Comparing classes compares the second h symbols. */
  lemma ClassMeans(b: seq<Byte>, f: seq<int>, bits: seq<bool>, cls: seq<int>, h: nat, u: nat, v: nat)
    requires Bucketed(b, f, bits, h) && Classes(cls, f, bits, h, |f|) && u < |f| && v < |f|
    ensures 0 <= cls[u] < |f|
    ensures cls[u] <= cls[v] <==> Cmp(b, Adv(|f|, u, h), Adv(|f|, v, h), h) <= 0
    ensures cls[u] == cls[v] <==> Cmp(b, Adv(|f|, u, h), Adv(|f|, v, h), h) == 0
  {
    var i := ClassAt(b, f, bits, cls, h, u);
    var j := ClassAt(b, f, bits, cls, h, v);
    CmpAnti(b, f[i], f[j], h);
    if i <= j {
      HeadMeans(b, f, bits, h, i, j);
      if i == j {
        CmpSelf(b, f[i], h);
      }
    } else {
      HeadMeans(b, f, bits, h, j, i);
    }
  }

  /** For rotations that agree on h symbols, comparing classes compares 2h symbols. */
  lemma ClassDoubles(b: seq<Byte>, f: seq<int>, bits: seq<bool>, cls: seq<int>, h: nat, u: nat, v: nat)
    requires Bucketed(b, f, bits, h) && Classes(cls, f, bits, h, |f|) && u < |f| && v < |f|
    requires Cmp(b, u, v, h) == 0
    ensures cls[u] <= cls[v] <==> Cmp(b, u, v, h + h) <= 0
    ensures cls[u] == cls[v] <==> Cmp(b, u, v, h + h) == 0
  {
    ClassMeans(b, f, bits, cls, h, u, v);
    CmpSplit(b, u, v, h, h);
  }

  /** What the classes say, without the state they were read from. */
  ghost predicate Doubles(b: seq<Byte>, cls: seq<int>, h: nat) {
    && |b| <= |cls|
    && (forall u :: 0 <= u < |b| ==> 0 <= cls[u] < |b|)
    && forall u, v :: 0 <= u < |b| && 0 <= v < |b| && Cmp(b, u, v, h) == 0 ==>
         && (cls[u] <= cls[v] <==> Cmp(b, u, v, h + h) <= 0)
         && (cls[u] == cls[v] <==> Cmp(b, u, v, h + h) == 0)
  }

  lemma ClassesDouble(b: seq<Byte>, f: seq<int>, bits: seq<bool>, cls: seq<int>, h: nat)
    requires Bucketed(b, f, bits, h) && Classes(cls, f, bits, h, |f|)
    ensures Doubles(b, cls, h)
  {
    forall u, v | 0 <= u < |b| && 0 <= v < |b| && Cmp(b, u, v, h) == 0
      ensures cls[u] <= cls[v] <==> Cmp(b, u, v, h + h) <= 0
      ensures cls[u] == cls[v] <==> Cmp(b, u, v, h + h) == 0
    {
      ClassDoubles(b, f, bits, cls, h, u, v);
    }
    forall u | 0 <= u < |b|
      ensures 0 <= cls[u] < |b|
    {
      ClassMeans(b, f, bits, cls, h, u, u);
    }
  }

  // ----- inside a round

  ghost predicate SortedUpTo(b: seq<Byte>, f: seq<int>, h: nat, r: int)
    requires IsPerm(f) && |f| == |b| && r < |f|
  {
    forall x, y :: 0 <= x < y <= r ==> Cmp(b, f[x], f[y], h) <= 0
  }

  /** Positions up to r are already in order of 2h symbols and carry their new header bits. */
  ghost predicate Mid(b: seq<Byte>, f: seq<int>, bits: seq<bool>, h: nat, r: int) {
    && b != [] && SortedTo(b, f, h) && -1 <= r < |b|
    && SortedUpTo(b, f, h + h, r)
    && Headers(b, f, bits, h + h, 0, r + 1) && Headers(b, f, bits, h, r + 1, |f|)
    && Sentinels(bits, |b|) && bits[0] && bits[r + 1]
  }

  lemma RoundStarts(b: seq<Byte>, f: seq<int>, bits: seq<bool>, h: nat)
    requires Bucketed(b, f, bits, h)
    ensures Mid(b, f, bits, h, -1)
  {
  }

  lemma RoundEnds(b: seq<Byte>, f: seq<int>, bits: seq<bool>, h: nat)
    requires Mid(b, f, bits, h, |b| - 1)
    ensures Bucketed(b, f, bits, h + h)
  {
  }

  /** A set header bit beyond r separates everything before it from everything from it on. */
  lemma Separated(b: seq<Byte>, f: seq<int>, bits: seq<bool>, h: nat, r: int, x: int, l: int, y: int)
    requires Mid(b, f, bits, h, r) && r < l < |f| && bits[l] && 0 <= x < l <= y < |f|
    ensures Cmp(b, f[x], f[y], h) < 0
    ensures Cmp(b, f[x], f[y], h + h) < 0
  {
    assert Cmp(b, f[l - 1], f[l], h) < 0;
    CmpSelf(b, f[x], h);
    CmpSelf(b, f[y], h);
    assert Cmp(b, f[x], f[l - 1], h) <= 0;
    assert Cmp(b, f[l], f[y], h) <= 0;
    CmpTrans(b, f[x], f[l - 1], f[l], h);
    CmpTrans(b, f[x], f[l], f[y], h);
    CmpSplit(b, f[x], f[y], h, h);
  }

  /** Singleton buckets need no work. */
  lemma SkipSingles(b: seq<Byte>, f: seq<int>, bits: seq<bool>, h: nat, r: int, l: int)
    requires Mid(b, f, bits, h, r) && r < l <= |f|
    requires forall x :: r < x <= l ==> bits[x]
    ensures Mid(b, f, bits, h, l - 1)
  {
    forall x | 0 <= x < l && 0 < x
      ensures bits[x] <==> Cmp(b, f[x - 1], f[x], h + h) != 0
    {
      if r < x {
        Separated(b, f, bits, h, r, x - 1, x, x);
      }
    }
    forall x, y | 0 <= x < y <= l - 1
      ensures Cmp(b, f[x], f[y], h + h) <= 0
    {
      if r < y {
        Separated(b, f, bits, h, r, x, y, y);
      }
    }
  }

  /** [l, r] is one bucket of the h-order: only its first header bit is set. */
  ghost predicate IsBucket(bits: seq<bool>, n: nat, l: int, r: int) {
    && 0 <= l <= r < n < |bits|
    && bits[l] && bits[r + 1] && forall x :: l < x <= r ==> !bits[x]
  }

  lemma {:induction false} BucketEqual(b: seq<Byte>, f: seq<int>, bits: seq<bool>, h: nat, l: int, r: int, x: int, y: int)
    requires Mid(b, f, bits, h, l - 1) && IsBucket(bits, |f|, l, r) && l <= x <= y <= r
    ensures Cmp(b, f[x], f[y], h) == 0 && Cmp(b, f[y], f[x], h) == 0
    decreases y
  {
    CmpSelf(b, f[x], h);
    if x < y {
      BucketEqual(b, f, bits, h, l, r, x, y - 1);
      assert !bits[y] && Cmp(b, f[y - 1], f[y], h) == 0;
      CmpAnti(b, f[y - 1], f[y], h);
      CmpTrans(b, f[x], f[y - 1], f[y], h);
      CmpTrans(b, f[y], f[y - 1], f[x], h);
      CmpAnti(b, f[x], f[y], h);
    }
  }

  /** How two positions compare after the bucket has been rearranged. */
  lemma Rearranged(b: seq<Byte>, f: seq<int>, g: seq<int>, bits: seq<bool>, h: nat, l: int, r: int, x: int, y: int)
    requires Mid(b, f, bits, h, l - 1) && IsBucket(bits, |f|, l, r)
    requires PermOn(f, g, l, r + 1) && IsPerm(g) && |g| == |f| && 0 <= x < y < |f|
    ensures Cmp(b, g[x], g[y], h) <= 0
    ensures l <= x && y <= r ==> Cmp(b, g[x], g[y], h) == 0
    ensures x < l && y <= r ==> Cmp(b, g[x], g[y], h + h) <= 0
    ensures x < l <= y <= r ==> Cmp(b, g[x], g[y], h + h) < 0
    ensures r < y && x <= r ==> Cmp(b, g[x], g[y], h) < 0
  {
    var x' := PermSource(f, g, l, r + 1, x);
    var y' := PermSource(f, g, l, r + 1, y);
    if l <= x && y <= r {
      if x' <= y' {
        BucketEqual(b, f, bits, h, l, r, x', y');
      } else {
        BucketEqual(b, f, bits, h, l, r, y', x');
      }
    } else {
      assert x' < y';
      if x < l <= y <= r {
        Separated(b, f, bits, h, l - 1, x', l, y');
      }
      if r < y && x <= r {
        Separated(b, f, bits, h, l - 1, x', r + 1, y');
      }
    }
  }

  /** bits' differs from bits only in (l, r], where it marks the class changes. */
  ghost predicate Marked(bits: seq<bool>, bits': seq<bool>, g: seq<int>, cls: seq<int>, l: int, r: int)
    requires 0 <= l <= r < |g| && InKey(g, cls, l, r + 1)
  {
    && |bits'| == |bits|
    && (forall x {:trigger bits'[x]} :: 0 <= x < |bits| && !(l < x <= r) ==> bits'[x] == bits[x])
    && (forall x {:trigger bits'[x]} :: l < x <= r && x < |bits| ==> (bits'[x] <==> cls[g[x - 1]] != cls[g[x]]))
  }

  lemma OrderAfter(b: seq<Byte>, f: seq<int>, g: seq<int>, bits: seq<bool>, cls: seq<int>,
                   h: nat, l: int, r: int, x: int, y: int)
    requires Mid(b, f, bits, h, l - 1) && IsBucket(bits, |f|, l, r) && Doubles(b, cls, h)
    requires PermOn(f, g, l, r + 1) && IsPerm(g) && |g| == |f| && PartSorted(g, cls, [], l, r)
    requires 0 <= x < y <= r
    ensures Cmp(b, g[x], g[y], h + h) <= 0
  {
    Rearranged(b, f, g, bits, h, l, r, x, y);
    if l <= x {
      assert Ordered(g, cls, x, y);
    }
  }

  lemma HeaderAfter(b: seq<Byte>, f: seq<int>, g: seq<int>, bits: seq<bool>, bits': seq<bool>, cls: seq<int>,
                    h: nat, l: int, r: int, x: int)
    requires Mid(b, f, bits, h, l - 1) && IsBucket(bits, |f|, l, r) && Doubles(b, cls, h)
    requires PermOn(f, g, l, r + 1) && IsPerm(g) && |g| == |f| && InKey(g, cls, l, r + 1)
    requires Marked(bits, bits', g, cls, l, r) && 0 < x < |g|
    ensures x <= r ==> (bits'[x] <==> Cmp(b, g[x - 1], g[x], h + h) != 0)
    ensures r < x ==> (bits'[x] <==> Cmp(b, g[x - 1], g[x], h) != 0)
  {
    Rearranged(b, f, g, bits, h, l, r, x - 1, x);
    PermOutside(f, g, l, r + 1);
    if x < l {
      assert g[..l][x - 1] == f[..l][x - 1] && g[..l][x] == f[..l][x];
    } else if r + 1 < x {
      assert g[r + 1..][x - 1 - r - 1] == f[r + 1..][x - 1 - r - 1] && g[r + 1..][x - r - 1] == f[r + 1..][x - r - 1];
    }
  }

  /** After the bucket has been sorted by class and its new headers set, the round has advanced to r. */
  lemma BucketDone(b: seq<Byte>, f: seq<int>, g: seq<int>, bits: seq<bool>, bits': seq<bool>, cls: seq<int>,
                   h: nat, l: int, r: int)
    requires Mid(b, f, bits, h, l - 1) && IsBucket(bits, |f|, l, r) && Doubles(b, cls, h)
    requires PermOn(f, g, l, r + 1) && IsPerm(g) && |g| == |f| && PartSorted(g, cls, [], l, r)
    requires InKey(g, cls, l, r + 1) && Marked(bits, bits', g, cls, l, r)
    ensures Mid(b, g, bits', h, r)
  {
    assert SortedTo(b, g, h) by {
      forall x, y | 0 <= x < y < |g| ensures Cmp(b, g[x], g[y], h) <= 0 {
        Rearranged(b, f, g, bits, h, l, r, x, y);
      }
    }
    assert SortedUpTo(b, g, h + h, r) by {
      forall x, y | 0 <= x < y <= r ensures Cmp(b, g[x], g[y], h + h) <= 0 {
        OrderAfter(b, f, g, bits, cls, h, l, r, x, y);
      }
    }
    assert Headers(b, g, bits', h + h, 0, r + 1) && Headers(b, g, bits', h, r + 1, |g|) by {
      forall x | 0 < x < |g|
        ensures x <= r ==> (bits'[x] <==> Cmp(b, g[x - 1], g[x], h + h) != 0)
        ensures r < x ==> (bits'[x] <==> Cmp(b, g[x - 1], g[x], h) != 0)
      {
        HeaderAfter(b, f, g, bits, bits', cls, h, l, r, x);
      }
    }
  }

  // ----- the bit table

  /** All 32 bits of the word that holds bit k equal v. */
  predicate WordIs(bh: array<bool>, k: nat, v: bool)
    requires k / 32 * 32 + 32 <= bh.Length
    reads bh
  {
    forall i :: k / 32 * 32 <= i < k / 32 * 32 + 32 ==> bh[i] == v
  }

  /** The first clear bit from k on, skipping full words. */
  method NextClear(bh: array<bool>, n: nat, k0: nat) returns (k: nat)
    requires Sentinels(bh[..], n) && k0 <= n
    ensures k0 <= k <= n + 1 && !bh[k]
    ensures forall x :: k0 <= x < k ==> bh[x]
  {
    assert !bh[n + 1] by { assert !bh[..][n + 2 * 0 + 1]; }
    k := k0;
    while bh[k] && k % 32 != 0
      invariant k0 <= k <= n + 1
      invariant forall x :: k0 <= x < k ==> bh[x]
      decreases n + 1 - k
    {
      k := k + 1;
    }
    if bh[k] {
      while WordIs(bh, k, true)
        invariant k0 <= k <= n + 1 && k % 32 == 0
        invariant forall x :: k0 <= x < k ==> bh[x]
        decreases n + 1 - k
      {
        k := k + 32;
      }
      while bh[k]
        invariant k0 <= k <= n + 1
        invariant forall x :: k0 <= x < k ==> bh[x]
        decreases n + 1 - k
      {
        k := k + 1;
      }
    }
  }

  /** The first set bit from k on, skipping empty words. */
  method NextSet(bh: array<bool>, n: nat, k0: nat) returns (k: nat)
    requires Sentinels(bh[..], n) && k0 <= n
    ensures k0 <= k <= n && bh[k]
    ensures forall x :: k0 <= x < k ==> !bh[x]
  {
    assert bh[n] by { assert bh[..][n + 2 * 0]; }
    k := k0;
    while !bh[k] && k % 32 != 0
      invariant k0 <= k <= n
      invariant forall x :: k0 <= x < k ==> !bh[x]
      decreases n - k
    {
      k := k + 1;
    }
    if !bh[k] {
      while WordIs(bh, k, false)
        invariant k0 <= k <= n && k % 32 == 0
        invariant forall x :: k0 <= x < k ==> !bh[x]
        decreases n - k
      {
        k := k + 32;
      }
      while !bh[k]
        invariant k0 <= k <= n
        invariant forall x :: k0 <= x < k ==> !bh[x]
        decreases n - k
      {
        k := k + 1;
      }
    }
  }

  // ----- one round

  lemma ClassesStep(cls: seq<int>, f: seq<int>, bits: seq<bool>, h: nat, i: nat)
    requires Classes(cls, f, bits, h, i) && i < |f| && i < |bits|
    ensures Classes(cls[Back(|f|, f[i], h) := Head(bits, i)], f, bits, h, i + 1)
  {
    forall x | 0 <= x < i
      ensures Back(|f|, f[x], h) != Back(|f|, f[i], h)
    {
      BackAdv(|f|, f[x], h);
      BackAdv(|f|, f[i], h);
    }
  }

  method AssignClasses(fmap: array<int>, eclass: array<int>, bh: array<bool>, n: nat, h: nat)
    requires fmap != eclass && 0 < n <= fmap.Length && n <= eclass.Length && n <= bh.Length && h <= n
    requires IsPerm(fmap[..n])
    modifies eclass
    ensures Classes(eclass[..], fmap[..n], bh[..], h, n)
  {
    var j := 0;
    ghost var f, bits := fmap[..n], bh[..];
    for i := 0 to n
      invariant fmap[..n] == f && bh[..] == bits
      invariant i == 0 ==> j == 0
      invariant i > 0 ==> j == Head(bits, i - 1)
      invariant Classes(eclass[..], f, bits, h, i)
    {
      if bh[i] {
        j := i;
      }
      assert j == Head(bits, i);
      var k := fmap[i] - h;
      if k < 0 {
        k := k + n;
      }
      ghost var cls := eclass[..];
      ClassesStep(cls, f, bits, h, i);
      assert fmap[i] == f[i];
      eclass[k] := j;
      assert eclass[..] == cls[k := j];
    }
  }

  method MarkHeaders(fmap: array<int>, eclass: array<int>, bh: array<bool>, l: int, r: int)
    requires 0 <= l <= r < fmap.Length && r < bh.Length
    requires InKey(fmap[..], eclass[..], l, r + 1)
    requires forall x :: l <= x <= r ==> 0 <= eclass[fmap[x]]
    requires bh[l] && forall x :: l < x <= r ==> !bh[x]
    modifies bh
    ensures Marked(old(bh[..]), bh[..], fmap[..], eclass[..], l, r)
  {
    var cc := -1;
    for i := l to r + 1
      invariant i == l ==> cc == -1
      invariant i > l ==> cc == eclass[fmap[i - 1]]
      invariant bh[l]
      invariant forall x :: 0 <= x < bh.Length && !(l < x < i) ==> bh[x] == old(bh[x])
      invariant forall x :: l < x < i ==> (bh[x] <==> eclass[fmap[x - 1]] != eclass[fmap[x]])
    {
      var cc1 := eclass[fmap[i]];
      if cc != cc1 {
        bh[i] := true;
        cc := cc1;
      }
    }
  }

  /** Sorts bucket [l, r] by class and sets the headers of its sub-buckets. */
  method SortBucket(fmap: array<int>, eclass: array<int>, bh: array<bool>, ghost b: seq<Byte>, h: nat, l: int, r: int)
    requires fmap != eclass && |b| <= fmap.Length < 0x8000_0000
    requires Mid(b, fmap[..|b|], bh[..], h, l - 1) && IsBucket(bh[..], |b|, l, r) && l < r
    requires Doubles(b, eclass[..], h)
    modifies fmap, bh
    ensures Mid(b, fmap[..|b|], bh[..], h, r)
  {
    ghost var n, s, f, bits, cls := |b|, fmap[..], fmap[..|b|], bh[..], eclass[..];
    assert InKey(s, cls, l, r + 1) by {
      forall x | l <= x < r + 1 ensures s[x] == f[x] { }
    }
    FallbackQSort3(fmap, eclass, l, r);
    assert eclass[..] == cls;
    ghost var t, g := fmap[..], fmap[..|b|];
    assert t[..n] == g;
    PermPrefix(s, t, l, r + 1, n);
    PermStays(f, g, l, r + 1);
    PrefixSorted(t, cls, l, r, n);
    MarkHeaders(fmap, eclass, bh, l, r);
    assert fmap[..n] == g;
    BucketDone(b, f, g, bits, bh[..], cls, h, l, r);
  }

  lemma PrefixSorted(t: seq<int>, cls: seq<int>, l: int, r: int, n: int)
    requires 0 <= l < r < n <= |t| && PartSorted(t, cls, [], l, r)
    ensures PartSorted(t[..n], cls, [], l, r) && InKey(t[..n], cls, l, r + 1)
    ensures forall x :: l <= x <= r ==> 0 <= t[x] < |cls|
  {
    forall x, y | l <= x < y <= r
      ensures Ordered(t[..n], cls, x, y)
    {
      assert Ordered(t, cls, x, y);
    }
    forall x | l <= x <= r
      ensures 0 <= t[x] < |cls|
    {
      assert if x < r then Ordered(t, cls, x, r) else Ordered(t, cls, l, x);
    }
  }

  /** No two of the positions up to r agree on h symbols with their neighbour. */
  ghost predicate Singles(b: seq<Byte>, f: seq<int>, h: nat, r: int)
    requires IsPerm(f) && |f| == |b| && r < |f|
  {
    forall x :: 0 < x <= r ==> Cmp(b, f[x - 1], f[x], h) != 0
  }

  lemma SinglesSkipped(b: seq<Byte>, f: seq<int>, bits: seq<bool>, h: nat, r: int, l: int)
    requires Mid(b, f, bits, h, r) && r < l <= |f| && Singles(b, f, h, r)
    requires forall x :: r < x <= l ==> bits[x]
    ensures Singles(b, f, h, l - 1)
  {
    forall x | 0 < x <= l - 1
      ensures Cmp(b, f[x - 1], f[x], h) != 0
    {
      assert r < x ==> bits[x];
    }
  }

  /** The next bucket with more than one member after position r0. */
  method NextBucket(bh: array<bool>, n: nat, r0: int, ghost b: seq<Byte>, ghost f: seq<int>, ghost h: nat)
    returns (l: int, r: int)
    requires n == |b| && Mid(b, f, bh[..], h, r0)
    ensures r0 < l && Mid(b, f, bh[..], h, l - 1)
    ensures Singles(b, f, h, r0) ==> Singles(b, f, h, l - 1)
    ensures l < n ==> l < r && IsBucket(bh[..], n, l, r)
    ensures l >= n ==> l == n
  {
    var k := NextClear(bh, n, r0 + 1);
    l := k - 1;
    SkipSingles(b, f, bh[..], h, r0, l);
    if Singles(b, f, h, r0) {
      SinglesSkipped(b, f, bh[..], h, r0, l);
    }
    r := n;
    if l >= n {
      return;
    }
    k := NextSet(bh, n, k);
    r := k - 1;
  }

  /** One pass with step h over all buckets. */
  method Round(fmap: array<int>, eclass: array<int>, bh: array<bool>, ghost b: seq<Byte>, n: nat, h: nat)
    returns (nNotDone: nat)
    requires fmap != eclass && n == |b| <= fmap.Length < 0x8000_0000 && n <= eclass.Length
    requires h <= n && Bucketed(b, fmap[..n], bh[..], h)
    modifies fmap, eclass, bh
    ensures Bucketed(b, fmap[..n], bh[..], h + h)
    ensures nNotDone == 0 ==> Singles(b, fmap[..n], h, n - 1)
  {
    AssignClasses(fmap, eclass, bh, n, h);
    ClassesDouble(b, fmap[..n], bh[..], eclass[..], h);
    RoundStarts(b, fmap[..n], bh[..], h);
    nNotDone := 0;
    ghost var cls := eclass[..];
    var r := -1;
    while true
      invariant eclass[..] == cls && Doubles(b, cls, h)
      invariant Mid(b, fmap[..n], bh[..], h, r)
      invariant nNotDone == 0 ==> Singles(b, fmap[..n], h, r)
      decreases n - r
    {
      var l;
      ghost var r0 := r;
      l, r := NextBucket(bh, n, r, b, fmap[..n], h);
      if l >= n {
        break;
      }
      nNotDone := nNotDone + (r - l + 1);
      SortBucket(fmap, eclass, bh, b, h, l, r);
      assert eclass[..] == cls;
    }
    RoundEnds(b, fmap[..n], bh[..], h);
  }

  // ----- the initial radix sort

  /** Where rotation i lands: buckets fill from their upper end down. */
  function Slot(b: seq<Byte>, i: nat): int
    requires i < |b|
  {
    CountBelow(b, b[i] as int + 1) - CountOf(b[..i], b[i]) - 1
  }

  lemma SlotRange(b: seq<Byte>, i: nat)
    requires i < |b|
    ensures CountBelow(b, b[i]) <= Slot(b, i) < CountBelow(b, b[i] as int + 1) <= |b|
  {
    CountPrefix(b, b[i], i, |b|);
    assert b[..|b|] == b;
    CountSteps(b, b[i]);
  }

  lemma SlotDiffers(b: seq<Byte>, i: nat, j: nat)
    requires i < |b| && j < |b|
    ensures Slot(b, i) == Slot(b, j) ==> i == j
  {
    SlotRange(b, i);
    SlotRange(b, j);
    if b[i] == b[j] {
      if i < j { CountPrefix(b, b[i], i, j); } else if j < i { CountPrefix(b, b[i], j, i); }
    } else if b[i] < b[j] {
      CountMonotone(b, b[i] as int + 1, b[j]);
    } else {
      CountMonotone(b, b[j] as int + 1, b[i]);
    }
  }

  function Left(b: seq<Byte>, i: nat, c: int): int
    requires i <= |b|
  {
    CountBelow(b, c + 1) - CountOf(b[..i], c)
  }

  /** ftab after the first i rotations have been dealt out. */
  ghost function Lefts(b: seq<Byte>, i: nat): (r: seq<int>)
    requires i <= |b|
    ensures |r| == 257
  {
    seq(257, c => Left(b, i, c))
  }

  lemma LeftStep(b: seq<Byte>, i: nat)
    requires i < |b|
    ensures Lefts(b, i)[b[i]] - 1 == Slot(b, i)
    ensures Lefts(b, i)[b[i] := Slot(b, i)] == Lefts(b, i + 1)
  {
    assert b[..i + 1][..i] == b[..i];
  }

  /** Rotations below i have been dealt to their slots. */
  ghost predicate Dealt(f: seq<int>, b: seq<Byte>, i: nat) {
    && i <= |b| == |f|
    && forall x :: 0 <= x < i ==> 0 <= Slot(b, x) < |f| && f[Slot(b, x)] == x
  }

  lemma DealtStep(f: seq<int>, b: seq<Byte>, i: nat)
    requires i < |b| && Dealt(f, b, i)
    ensures 0 <= Slot(b, i) < |b|
    ensures Dealt(f[Slot(b, i) := i], b, i + 1)
  {
    SlotRange(b, i);
    forall x | 0 <= x < i
      ensures Slot(b, x) != Slot(b, i)
    {
      SlotDiffers(b, x, i);
    }
  }

  ghost function Slots(b: seq<Byte>): (t: seq<int>)
    ensures IsPerm(t) && |t| == |b|
    ensures forall i :: 0 <= i < |b| ==> t[i] == Slot(b, i)
  {
    var t := seq(|b|, i requires 0 <= i < |b| => Slot(b, i));
    assert forall i :: 0 <= i < |b| ==> 0 <= t[i] < |b| by {
      forall i | 0 <= i < |b| ensures 0 <= t[i] < |b| { SlotRange(b, i); }
    }
    assert forall i, j :: 0 <= i < j < |b| ==> t[i] != t[j] by {
      forall i, j | 0 <= i < j < |b| ensures t[i] != t[j] { SlotDiffers(b, i, j); }
    }
    t
  }

  lemma DealtAt(f: seq<int>, b: seq<Byte>, p: nat)
    requires Dealt(f, b, |b|) && p < |b|
    ensures 0 <= f[p] < |b| && Slot(b, f[p]) == p
    ensures CountBelow(b, b[f[p]]) <= p < CountBelow(b, b[f[p]] as int + 1)
  {
    PermOnto(Slots(b), p);
    var x :| 0 <= x < |b| && Slots(b)[x] == p;
    SlotRange(b, x);
  }

  /** Dealing out sorts by the first symbol. */
  lemma DealtSorts(f: seq<int>, b: seq<Byte>)
    requires Dealt(f, b, |b|)
    ensures SortedTo(b, f, 1)
  {
    forall p | 0 <= p < |f|
      ensures 0 <= f[p] < |b| && Slot(b, f[p]) == p
    {
      DealtAt(f, b, p);
    }
    forall x, y | 0 <= x < y < |f|
      ensures Cmp(b, f[x], f[y], 1) <= 0
    {
      DealtAt(f, b, x);
      DealtAt(f, b, y);
      if b[f[y]] < b[f[x]] {
        CountMonotone(b, b[f[y]] as int + 1, b[f[x]]);
      }
    }
  }

  /** Bits below n mark the starts of the byte buckets. */
  ghost predicate MarksStarts(bits: seq<bool>, b: seq<Byte>, m: int) {
    && |b| <= |bits|
    && forall x :: 0 <= x < |b| ==> (bits[x] <==> exists c :: 0 <= c < m && CountBelow(b, c) == x)
  }

  lemma StartsAreHeaders(f: seq<int>, bits: seq<bool>, b: seq<Byte>)
    requires b != [] && Dealt(f, b, |b|) && MarksStarts(bits, b, 256) && Sentinels(bits, |b|)
    ensures Bucketed(b, f, bits, 1)
  {
    DealtSorts(f, b);
    CountExtremes(b, 256);
    assert CountBelow(b, 0) == 0;
    forall x | 0 < x < |f|
      ensures bits[x] <==> Cmp(b, f[x - 1], f[x], 1) != 0
    {
      DealtAt(f, b, x - 1);
      DealtAt(f, b, x);
      assert Cmp(b, f[x - 1], f[x], 1) <= 0;
      if b[f[x - 1]] < b[f[x]] {
        CountMonotone(b, b[f[x - 1]] as int + 1, b[f[x]]);
        assert CountBelow(b, b[f[x]]) == x;
      } else if bits[x] {
        var c :| 0 <= c < 256 && CountBelow(b, c) == x;
        var d := b[f[x]] as int;
        if c <= d { CountMonotone(b, c, d); } else { CountMonotone(b, d + 1, c); }
        assert false;
      }
    }
  }

  /** Counts the bytes of the block, then makes the counts cumulative. */
  method CountBytes(block: array<int>, n: nat, ftab: array<int>, ftabCopy: array<int>, ghost b: seq<Byte>)
    requires n == |b| <= block.Length && block[..n] == b
    requires ftab.Length == 257 && ftabCopy.Length == 256 && ftab !in {ftabCopy, block} && ftabCopy != block
    modifies ftab, ftabCopy
    ensures ftab[..] == Lefts(b, 0)
    ensures forall c :: 0 <= c < 256 ==> ftabCopy[c] == CountOf(b, c)
  {
    for i := 0 to 257
      modifies ftab
      invariant forall c :: 0 <= c < i ==> ftab[c] == 0
    {
      ftab[i] := 0;
    }
    for i := 0 to n
      modifies ftab
      invariant forall c :: 0 <= c < 257 ==> ftab[c] == CountOf(b[..i], c)
    {
      assert b[..i + 1][..i] == b[..i];
      assert block[i] == block[..n][i];
      ftab[block[i]] := ftab[block[i]] + 1;
    }
    assert b[..n] == b;
    for i := 0 to 256
      modifies ftabCopy
      invariant forall c :: 0 <= c < i ==> ftabCopy[c] == CountOf(b, c)
    {
      ftabCopy[i] := ftab[i];
    }
    CountExtremes(b, 256);
    CountSteps(b, 0);
    for i := 1 to 257
      modifies ftab
      invariant forall c :: 0 <= c < i ==> ftab[c] == CountBelow(b, c + 1)
      invariant forall c :: i <= c < 257 ==> ftab[c] == CountOf(b, c)
    {
      CountSteps(b, i);
      ftab[i] := ftab[i] + ftab[i - 1];
    }
  }

  method Deal(block: array<int>, n: nat, ftab: array<int>, fmap: array<int>, ghost b: seq<Byte>)
    requires n == |b| <= block.Length && block[..n] == b && n <= fmap.Length
    requires ftab.Length == 257 && ftab !in {fmap, block} && fmap != block
    requires ftab[..] == Lefts(b, 0)
    modifies ftab, fmap
    ensures ftab[..] == Lefts(b, n)
    ensures Dealt(fmap[..n], b, n)
  {
    for i := 0 to n
      invariant ftab[..] == Lefts(b, i) && block[..n] == b
      invariant Dealt(fmap[..n], b, i)
    {
      var j := block[i];
      assert j == block[..n][i];
      LeftStep(b, i);
      assert ftab[j] == ftab[..][j];
      var k := ftab[j] - 1;
      ghost var f := fmap[..n];
      DealtStep(f, b, i);
      ftab[j] := k;
      fmap[k] := i;
      assert fmap[..n] == f[k := i];
    }
  }

  /** Header bits at the bucket starts, then the sentinels behind the block. */
  method SetHeaders(bh: array<bool>, ftab: array<int>, n: nat, ghost b: seq<Byte>)
    requires n == |b| && 0 < n && bh.Length >= 32 * (n / 32 + 3)
    requires ftab.Length == 257 && ftab[..] == Lefts(b, n)
    modifies bh
    ensures MarksStarts(bh[..], b, 256) && Sentinels(bh[..], n)
  {
    var nBhtab := 2 + n / 32;
    for i := 0 to 32 * nBhtab
      invariant forall x :: 0 <= x < i ==> !bh[x]
    {
      bh[i] := false;
    }
    for i := 0 to 256
      invariant MarksStarts(bh[..], b, i)
    {
      assert b[..n] == b;
      CountSteps(b, i);
      CountMonotone(b, i, 256);
      CountExtremes(b, 256);
      assert ftab[i] == ftab[..][i] == CountBelow(b, i);
      bh[ftab[i]] := true;
    }
    for i := 0 to 32
      invariant MarksStarts(bh[..], b, 256)
      invariant forall k :: 0 <= k < i ==> bh[n + 2 * k] && !bh[n + 2 * k + 1]
    {
      bh[n + 2 * i] := true;
      bh[n + 2 * i + 1] := false;
    }
  }

  // ----- rebuilding the block

  /** ftabCopy while position i of the sorted order is being filled from byte j. */
  ghost predicate Taken(ftabCopy: seq<int>, b: seq<Byte>, i: int, j: int) {
    && |ftabCopy| == 256 && 0 <= j <= 256
    && CountBelow(b, j) <= i <= CountBelow(b, j + 1)
    && (j < 256 ==> ftabCopy[j] == CountBelow(b, j + 1) - i)
    && forall c :: j < c < 256 ==> ftabCopy[c] == CountOf(b, c)
  }

  /** Position i of an order sorted by first symbols starts with the byte whose range holds i. */
  lemma FirstSymbolAt(b: seq<Byte>, f: seq<int>, i: nat, j: int)
    requires b != [] && SortsRotations(f, b) && i < |b| && 0 <= j < 256
    requires CountBelow(b, j) <= i < CountBelow(b, j + 1)
    ensures b[f[i]] == j
  {
    var g := Inverted(b);
    DealtSorts(g, b);
    SortedFirst(b, f, g, i);
    DealtAt(g, b, i);
    var d := b[g[i]] as int;
    if d < j { CountMonotone(b, d + 1, j); } else if j < d { CountMonotone(b, j + 1, d); }
  }

  ghost function Inverted(b: seq<Byte>): (g: seq<int>)
    ensures Dealt(g, b, |b|)
  {
    SlotsOnto(b);
    var g := seq(|b|, p requires 0 <= p < |b| => Dealer(b, p));
    assert Dealt(g, b, |b|) by {
      forall x | 0 <= x < |b|
        ensures 0 <= Slot(b, x) < |b| && g[Slot(b, x)] == x
      {
        SlotRange(b, x);
        var y := Dealer(b, Slot(b, x));
        SlotDiffers(b, x, y);
      }
    }
    g
  }

  ghost function Dealer(b: seq<Byte>, p: int): (x: nat)
    requires 0 <= p < |b|
    ensures x < |b| && Slot(b, x) == p
  {
    PermOnto(Slots(b), p);
    var x: nat :| x < |b| && Slots(b)[x] == p;
    x
  }

  lemma SlotsOnto(b: seq<Byte>)
    ensures forall x :: 0 <= x < |b| ==> 0 <= Slots(b)[x] < |b|
  {
  }

  /** Two orders that both sort first symbols show the same first symbol at each position. */
  lemma SortedFirst(b: seq<Byte>, f: seq<int>, g: seq<int>, i: nat)
    requires b != [] && SortsRotations(f, b) && SortedTo(b, g, 1) && i < |b|
    ensures b[f[i]] == b[g[i]]
  {
    forall x, y | 0 <= x < y < |b|
      ensures b[f[x]] <= b[f[y]] && b[g[x]] <= b[g[y]]
    {
      RankSteps(b, f[y], f[x]);
      assert Cmp(b, g[x], g[y], 1) <= 0;
    }
    SortedUnique(f, g, b, i);
  }

  method Rebuild(fmap: array<int>, ftabCopy: array<int>, block: array<int>, n: nat, ghost b: seq<Byte>)
    requires n == |b| && 0 < n <= fmap.Length && n <= block.Length
    requires ftabCopy.Length == 256 && ftabCopy !in {fmap, block} && fmap != block
    requires SortsRotations(fmap[..n], b)
    requires forall c :: 0 <= c < 256 ==> ftabCopy[c] == CountOf(b, c)
    modifies ftabCopy, block
    ensures block[..n] == b
  {
    CountExtremes(b, 256);
    CountSteps(b, 0);
    var j := 0;
    ghost var f := fmap[..n];
    for i := 0 to n
      invariant fmap[..n] == f
      invariant j < 256 && Taken(ftabCopy[..], b, i, j)
      invariant forall x :: 0 <= x < i ==> block[f[x]] == b[f[x]]
    {
      while ftabCopy[j] == 0
        modifies {}
        invariant j < 256 && Taken(ftabCopy[..], b, i, j)
        decreases 256 - j
      {
        CountSteps(b, j + 1);
        j := j + 1;
      }
      ftabCopy[j] := ftabCopy[j] - 1;
      FirstSymbolAt(b, f, i, j);
      assert fmap[i] == f[i] && forall x :: 0 <= x < i ==> f[x] != f[i];
      block[fmap[i]] := j;
    }
    assert j < 256; // 1005
    forall v | 0 <= v < n
      ensures block[v] == b[v]
    {
      PermOnto(f, v);
      var x :| 0 <= x < n && f[x] == v;
    }
  }

  lemma FinallySorted(b: seq<Byte>, f: seq<int>, h: nat)
    requires SortedTo(b, f, h) && h >= |b|
    ensures SortsRotations(f, b)
  {
    forall x, y | 0 <= x < y < |f|
      ensures Rank(b)[f[x]] <= Rank(b)[f[y]]
    {
      CmpLong(b, f[x], f[y], h);
      RankOrders(b, f[x], f[y]);
      assert Cmp(b, f[x], f[y], h) <= 0;
    }
  }

  lemma SinglesSorted(b: seq<Byte>, f: seq<int>, h: nat)
    requires b != [] && SortedTo(b, f, h) && Singles(b, f, h, |b| - 1)
    ensures SortsRotations(f, b)
  {
    forall x, y | 0 <= x < y < |f|
      ensures Rank(b)[f[x]] <= Rank(b)[f[y]]
    {
      assert Cmp(b, f[x], f[y - 1], h) <= 0 by {
        CmpSelf(b, f[x], h);
      }
      assert Cmp(b, f[y - 1], f[y], h) <= 0;
      CmpTrans(b, f[x], f[y - 1], f[y], h);
      CmpLong(b, f[x], f[y], h);
      RankOrders(b, f[x], f[y]);
    }
  }

  lemma LessSymbols(b: seq<Byte>, f: seq<int>, h: nat)
    requires SortedTo(b, f, h + h)
    ensures SortedTo(b, f, h)
  {
    forall x, y | 0 <= x < y < |f|
      ensures Cmp(b, f[x], f[y], h) <= 0
    {
      assert Cmp(b, f[x], f[y], h + h) <= 0;
      CmpSplit(b, f[x], f[y], h, h);
    }
  }

  /** The initial one-symbol radix sort. */
  method InitialBuckets(fmap: array<int>, block: array<int>, bh: array<bool>, ftabCopy: array<int>, n: nat, ghost b: seq<Byte>)
    requires 0 < n == |b| <= fmap.Length && n <= block.Length
    requires block != fmap && bh.Length >= 32 * (n / 32 + 3)
    requires ftabCopy.Length == 256 && ftabCopy != fmap && ftabCopy != block
    requires block[..n] == b
    modifies fmap, bh, ftabCopy
    ensures Bucketed(b, fmap[..n], bh[..], 1)
    ensures forall c :: 0 <= c < 256 ==> ftabCopy[c] == CountOf(b, c)
  {
    var ftab := new int[257];
    CountBytes(block, n, ftab, ftabCopy, b);
    ghost var copy := ftabCopy[..];
    Deal(block, n, ftab, fmap, b);
    ghost var f := fmap[..n];
    SetHeaders(bh, ftab, n, b);
    assert fmap[..n] == f && ftabCopy[..] == copy;
    StartsAreHeaders(f, bh[..], b);
  }

  /** Rounds with steps 1, 2, 4, ... until every bucket is a singleton or whole rotations are compared. */
  method DoublingRounds(fmap: array<int>, eclass: array<int>, bh: array<bool>, n: nat, ghost b: seq<Byte>)
    requires 0 < n == |b| <= fmap.Length < 0x8000_0000 && n <= eclass.Length && fmap != eclass
    requires Bucketed(b, fmap[..n], bh[..], 1)
    modifies fmap, eclass, bh
    ensures SortsRotations(fmap[..n], b)
  {
    var h := 1;
    while true
      invariant 1 <= h <= n && Bucketed(b, fmap[..n], bh[..], h)
      decreases n - h
    {
      var nNotDone := Round(fmap, eclass, bh, b, n, h);
      if h * 2 > n || nNotDone == 0 {
        if nNotDone == 0 {
          LessSymbols(b, fmap[..n], h);
          SinglesSorted(b, fmap[..n], h);
        } else {
          FinallySorted(b, fmap[..n], h + h);
        }
        return;
      }
      h := h * 2;
    }
  }

  /** Sorts all rotations of the block. The classes overwrite the block's storage, so the bytes are
      rebuilt at the end from their counts and the sorted order. */
  method FallbackSort(fmap: array<int>, eclass: array<int>, block: array<int>, bh: array<bool>, n: nat, ghost b: seq<Byte>)
    requires 0 < n == |b| <= fmap.Length < 0x8000_0000 && n <= eclass.Length && n <= block.Length
    requires fmap != eclass && block !in {fmap, eclass} && bh.Length >= 32 * (n / 32 + 3)
    requires block[..n] == b
    modifies fmap, eclass, block, bh
    ensures SortsRotations(fmap[..n], b)
    ensures block[..n] == b
  {
    var ftabCopy := new int[256];
    InitialBuckets(fmap, block, bh, ftabCopy, n, b);
    ghost var copy := ftabCopy[..];
    DoublingRounds(fmap, eclass, bh, n, b);
    assert ftabCopy[..] == copy;
    ghost var f := fmap[..n];
    for i := 0 to n
      modifies block
    {
      block[i] := *;
    }
    assert ftabCopy[..] == copy && fmap[..n] == f;
    Rebuild(fmap, ftabCopy, block, n, b);
  }
}
