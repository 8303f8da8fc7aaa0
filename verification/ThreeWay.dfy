/** The three-way partition that both quicksorts run in place: equal elements are parked at the two
    ends while the rest is split, then moved to the middle by block exchanges. */
module ThreeWay {
  import opened Slices

  /** Every element of [a, b) has a key below (r < 0), equal to (r == 0) or above (r > 0) med. */
  ghost predicate Band(s: seq<int>, key: seq<int>, a: int, b: int, r: int, med: int) {
    && 0 <= a && b <= |s|
    && forall x :: a <= x < b ==> 0 <= s[x] < |key| && Beside(key[s[x]], r, med)
  }

  predicate Beside(k: int, r: int, med: int) {
    if r < 0 then k < med else if r == 0 then k == med else k > med
  }

  /** Equal, below, unseen, above, equal. */
  ghost predicate Bands(s: seq<int>, key: seq<int>, lo: int, ltLo: int, unLo: int,
                        unHi: int, gtHi: int, hi: int, med: int) {
    && 0 <= lo <= ltLo <= unLo <= unHi + 1 <= gtHi + 1 <= hi + 1 <= |s|
    && Band(s, key, lo, ltLo, 0, med) && Band(s, key, ltLo, unLo, -1, med)
    && Band(s, key, unHi + 1, gtHi + 1, 1, med) && Band(s, key, gtHi + 1, hi + 1, 0, med)
  }

  lemma ParkLow(s: seq<int>, key: seq<int>, lo: int, ltLo: int, unLo: int,
                unHi: int, gtHi: int, hi: int, med: int)
    requires Bands(s, key, lo, ltLo, unLo, unHi, gtHi, hi, med) && unLo <= unHi
    requires 0 <= s[unLo] < |key| && key[s[unLo]] == med
    ensures Bands(Swapped(s, unLo, ltLo), key, lo, ltLo + 1, unLo + 1, unHi, gtHi, hi, med)
  {
  }

  lemma ParkHigh(s: seq<int>, key: seq<int>, lo: int, ltLo: int, unLo: int,
                 unHi: int, gtHi: int, hi: int, med: int)
    requires Bands(s, key, lo, ltLo, unLo, unHi, gtHi, hi, med) && unLo <= unHi
    requires 0 <= s[unHi] < |key| && key[s[unHi]] == med
    ensures Bands(Swapped(s, unHi, gtHi), key, lo, ltLo, unLo, unHi - 1, gtHi - 1, hi, med)
  {
  }

  lemma ExchangeEnds(s: seq<int>, key: seq<int>, lo: int, ltLo: int, unLo: int,
                     unHi: int, gtHi: int, hi: int, med: int)
    requires Bands(s, key, lo, ltLo, unLo, unHi, gtHi, hi, med) && unLo < unHi
    requires 0 <= s[unLo] < |key| && key[s[unLo]] > med
    requires 0 <= s[unHi] < |key| && key[s[unHi]] < med
    ensures Bands(Swapped(s, unLo, unHi), key, lo, ltLo, unLo + 1, unHi - 1, gtHi, hi, med)
  {
  }

  /** The exchange of two elements, recorded as one more step of a rearrangement. */
  method Exchange(a: array<int>, i: int, j: int, ghost was: seq<int>, lo: int, hi: int)
    requires 0 <= lo <= i < hi <= a.Length && lo <= j < hi
    requires PermOn(was, a[..], lo, hi)
    modifies a
    ensures a[..] == Swapped(old(a[..]), i, j)
    ensures PermOn(was, a[..], lo, hi)
  {
    PermThen(was, a[..], i, j, lo, hi);
    var tmp := a[i];
    a[i] := a[j];
    a[j] := tmp;
    assert a[..] == Swapped(old(a[..]), i, j);
  }

  ghost predicate BlocksSwapped(s: seq<int>, t: seq<int>, p: int, q: int, n: int) {
    && |s| == |t| && 0 <= p && 0 <= n && p + n <= q && q + n <= |s|
    && (forall x :: p <= x < p + n ==> t[x] == s[x - p + q])
    && (forall x :: q <= x < q + n ==> t[x] == s[x - q + p])
    && (forall x :: 0 <= x < |s| && !(p <= x < p + n) && !(q <= x < q + n) ==> t[x] == s[x])
  }

  lemma BlockStep(s: seq<int>, t: seq<int>, p: int, q: int, n: int)
    requires BlocksSwapped(s, t, p, q, n) && p + n < q && q + n < |s|
    ensures BlocksSwapped(s, Swapped(t, p + n, q + n), p, q, n + 1)
  {
  }

  /** Exchanges the n elements at p with the n elements at q. */
  method ExchangeBlocks(a: array<int>, p: int, q: int, n: int, ghost was: seq<int>, lo: int, hi: int)
    requires 0 <= lo <= p && 0 <= n && p + n <= q && q + n <= hi <= a.Length
    requires PermOn(was, a[..], lo, hi)
    modifies a
    ensures BlocksSwapped(old(a[..]), a[..], p, q, n)
    ensures PermOn(was, a[..], lo, hi)
  {
    var k := 0;
    while k < n
      invariant 0 <= k <= n
      invariant BlocksSwapped(old(a[..]), a[..], p, q, k)
      invariant PermOn(was, a[..], lo, hi)
    {
      BlockStep(old(a[..]), a[..], p, q, k);
      Exchange(a, p + k, q + k, was, lo, hi);
      k := k + 1;
    }
  }

  function Min(x: int, y: int): int {
    if x < y then x else y
  }

  /** Exchanging the shorter of two adjacent bands with the far end of the other swaps the bands. */
  lemma BandsTurn(s: seq<int>, t: seq<int>, key: seq<int>, p: int, q: int, e: int,
                  r1: int, r2: int, med: int, k: int)
    requires Band(s, key, p, q, r1, med) && Band(s, key, q, e, r2, med) && p <= q <= e
    requires k == Min(q - p, e - q) && BlocksSwapped(s, t, p, e - k, k)
    ensures Band(t, key, p, p + e - q, r2, med) && Band(t, key, p + e - q, e, r1, med)
  {
  }

  lemma BandElsewhere(s: seq<int>, t: seq<int>, key: seq<int>, p: int, q: int, n: int,
                      a: int, b: int, r: int, med: int)
    requires Band(s, key, a, b, r, med) && BlocksSwapped(s, t, p, q, n)
    requires b <= p || q + n <= a
    ensures Band(t, key, a, b, r, med)
  {
  }

  /** The scan from both ends: on return everything in [lo, hi] has been seen. */
  method Scan(a: array<int>, keyOf: array<int>, d: int, ghost key: seq<int>, lo: int, hi: int, med: int)
    returns (ltLo: int, unLo: int, unHi: int, gtHi: int)
    requires a != keyOf && 0 <= lo <= hi < a.Length && 0 <= d <= keyOf.Length
    requires key == keyOf[d..] && InKey(a[..], key, lo, hi + 1)
    modifies a
    ensures PermOn(old(a[..]), a[..], lo, hi + 1)
    ensures Bands(a[..], key, lo, ltLo, unLo, unHi, gtHi, hi, med) && unHi == unLo - 1
  {
    ghost var was := a[..];
    PermSame(was, lo, hi + 1);
    unLo, ltLo, unHi, gtHi := lo, lo, hi, hi;
    while true
      invariant PermOn(was, a[..], lo, hi + 1) && InKey(a[..], key, lo, hi + 1)
      invariant Bands(a[..], key, lo, ltLo, unLo, unHi, gtHi, hi, med)
      decreases unHi - unLo
    {
      ltLo, unLo := ScanLow(a, keyOf, d, key, was, lo, ltLo, unLo, unHi, gtHi, hi, med);
      gtHi, unHi := ScanHigh(a, keyOf, d, key, was, lo, ltLo, unLo, unHi, gtHi, hi, med);
      if unLo > unHi {
        break;
      }
      ExchangeEnds(a[..], key, lo, ltLo, unLo, unHi, gtHi, hi, med);
      Exchange(a, unLo, unHi, was, lo, hi + 1);
      unLo := unLo + 1;
      unHi := unHi - 1;
    }
  }

  method ScanLow(a: array<int>, keyOf: array<int>, d: int, ghost key: seq<int>, ghost was: seq<int>,
                 lo: int, ltLo: int, unLo: int, unHi: int, gtHi: int, hi: int, med: int)
    returns (ltLo': int, unLo': int)
    requires a != keyOf && 0 <= lo <= hi < a.Length && 0 <= d <= keyOf.Length
    requires key == keyOf[d..] && InKey(a[..], key, lo, hi + 1)
    requires PermOn(was, a[..], lo, hi + 1)
    requires Bands(a[..], key, lo, ltLo, unLo, unHi, gtHi, hi, med)
    modifies a
    ensures PermOn(was, a[..], lo, hi + 1) && InKey(a[..], key, lo, hi + 1)
    ensures Bands(a[..], key, lo, ltLo', unLo', unHi, gtHi, hi, med) && unLo <= unLo'
    ensures unLo' <= unHi ==> key[a[unLo']] > med
  {
    ltLo', unLo' := ltLo, unLo;
    while unLo' <= unHi && keyOf[a[unLo'] + d] <= med
      invariant unLo <= unLo'
      invariant PermOn(was, a[..], lo, hi + 1) && InKey(a[..], key, lo, hi + 1)
      invariant Bands(a[..], key, lo, ltLo', unLo', unHi, gtHi, hi, med)
    {
      if keyOf[a[unLo'] + d] == med {
        ParkLow(a[..], key, lo, ltLo', unLo', unHi, gtHi, hi, med);
        Exchange(a, unLo', ltLo', was, lo, hi + 1);
        ltLo' := ltLo' + 1;
      }
      unLo' := unLo' + 1;
    }
  }

  method ScanHigh(a: array<int>, keyOf: array<int>, d: int, ghost key: seq<int>, ghost was: seq<int>,
                  lo: int, ltLo: int, unLo: int, unHi: int, gtHi: int, hi: int, med: int)
    returns (gtHi': int, unHi': int)
    requires a != keyOf && 0 <= lo <= hi < a.Length && 0 <= d <= keyOf.Length
    requires key == keyOf[d..] && InKey(a[..], key, lo, hi + 1)
    requires PermOn(was, a[..], lo, hi + 1)
    requires Bands(a[..], key, lo, ltLo, unLo, unHi, gtHi, hi, med)
    requires unLo <= unHi ==> key[a[unLo]] > med
    modifies a
    ensures PermOn(was, a[..], lo, hi + 1) && InKey(a[..], key, lo, hi + 1)
    ensures Bands(a[..], key, lo, ltLo, unLo, unHi', gtHi', hi, med) && unHi' <= unHi
    ensures unLo <= unHi' ==> key[a[unLo]] > med && key[a[unHi']] < med && unLo < unHi'
  {
    gtHi', unHi' := gtHi, unHi;
    while unLo <= unHi' && keyOf[a[unHi'] + d] >= med
      invariant unHi' <= unHi
      invariant PermOn(was, a[..], lo, hi + 1) && InKey(a[..], key, lo, hi + 1)
      invariant Bands(a[..], key, lo, ltLo, unLo, unHi', gtHi', hi, med)
      invariant unLo <= unHi' ==> key[a[unLo]] > med
    {
      if keyOf[a[unHi'] + d] == med {
        ParkHigh(a[..], key, lo, ltLo, unLo, unHi', gtHi', hi, med);
        Exchange(a, unHi', gtHi', was, lo, hi + 1);
        gtHi' := gtHi' - 1;
      }
      unHi' := unHi' - 1;
    }
  }

  /** Below, equal and above med, in this order. */
  ghost predicate Parted(s: seq<int>, key: seq<int>, lo: int, n: int, m: int, hi: int, med: int) {
    && lo - 1 <= n && n + 1 < m <= hi + 1
    && Band(s, key, lo, n + 1, -1, med) && Band(s, key, n + 1, m, 0, med)
    && Band(s, key, m, hi + 1, 1, med)
  }

  /** After the first block exchange: below, equal, above, equal. */
  ghost predicate HalfGathered(t: seq<int>, key: seq<int>, lo: int, c: int, unLo: int, gtHi: int, hi: int, med: int) {
    && lo <= c <= unLo <= gtHi + 1 <= hi + 1
    && Band(t, key, lo, c, -1, med) && Band(t, key, c, unLo, 0, med)
    && Band(t, key, unLo, gtHi + 1, 1, med) && Band(t, key, gtHi + 1, hi + 1, 0, med)
  }

  lemma GatherLow(s: seq<int>, t: seq<int>, key: seq<int>, lo: int, ltLo: int, unLo: int,
                  gtHi: int, hi: int, med: int, k: int)
    requires Bands(s, key, lo, ltLo, unLo, unLo - 1, gtHi, hi, med)
    requires k == Min(ltLo - lo, unLo - ltLo) && BlocksSwapped(s, t, lo, unLo - k, k)
    ensures HalfGathered(t, key, lo, lo + unLo - ltLo, unLo, gtHi, hi, med)
  {
    BandsTurn(s, t, key, lo, ltLo, unLo, 0, -1, med, k);
    BandElsewhere(s, t, key, lo, unLo - k, k, unLo, gtHi + 1, 1, med);
    BandElsewhere(s, t, key, lo, unLo - k, k, gtHi + 1, hi + 1, 0, med);
  }

  lemma GatherHigh(t: seq<int>, u: seq<int>, key: seq<int>, lo: int, c: int, unLo: int,
                   gtHi: int, hi: int, med: int, k: int)
    requires HalfGathered(t, key, lo, c, unLo, gtHi, hi, med)
    requires k == Min(hi - gtHi, gtHi - unLo + 1) && BlocksSwapped(t, u, unLo, hi - k + 1, k)
    requires c < unLo || gtHi < hi
    ensures Parted(u, key, lo, c - 1, hi - (gtHi - unLo), hi, med)
  {
    BandsTurn(t, u, key, unLo, gtHi + 1, hi + 1, 1, 0, med, k);
    BandElsewhere(t, u, key, unLo, hi - k + 1, k, lo, c, -1, med);
    BandElsewhere(t, u, key, unLo, hi - k + 1, k, c, unLo, 0, med);
  }

  /** The element that supplied med is parked at one of the ends. */
  lemma ParkedNotEmpty(s: seq<int>, u: seq<int>, key: seq<int>, lo: int, ltLo: int, unLo: int,
                       gtHi: int, hi: int, med: int, x: int)
    requires PermOn(s, u, lo, hi + 1) && Bands(u, key, lo, ltLo, unLo, unLo - 1, gtHi, hi, med)
    requires lo <= x <= hi && 0 <= s[x] < |key| && key[s[x]] == med
    ensures lo < ltLo || gtHi < hi
  {
    var y := PermTarget(s, u, lo, hi + 1, x);
  }

  /** Moves the equal elements parked low behind the band below med. */
  method UnparkLow(a: array<int>, ghost key: seq<int>, ghost was: seq<int>, lo: int, ltLo: int, unLo: int,
                   ghost gtHi: int, hi: int, ghost med: int)
    requires 0 <= lo <= hi < a.Length && PermOn(was, a[..], lo, hi + 1)
    requires Bands(a[..], key, lo, ltLo, unLo, unLo - 1, gtHi, hi, med)
    modifies a
    ensures PermOn(was, a[..], lo, hi + 1)
    ensures HalfGathered(a[..], key, lo, lo + unLo - ltLo, unLo, gtHi, hi, med)
  {
    ghost var s := a[..];
    var n := Min(ltLo - lo, unLo - ltLo);
    ExchangeBlocks(a, lo, unLo - n, n, was, lo, hi + 1);
    GatherLow(s, a[..], key, lo, ltLo, unLo, gtHi, hi, med, n);
  }

  /** Moves the equal elements parked high in front of the band above med. */
  method UnparkHigh(a: array<int>, ghost key: seq<int>, ghost was: seq<int>, lo: int, ghost c: int, unLo: int,
                    gtHi: int, hi: int, ghost med: int)
    requires 0 <= lo <= hi < a.Length && PermOn(was, a[..], lo, hi + 1)
    requires HalfGathered(a[..], key, lo, c, unLo, gtHi, hi, med) && (c < unLo || gtHi < hi)
    modifies a
    ensures PermOn(was, a[..], lo, hi + 1)
    ensures Parted(a[..], key, lo, c - 1, hi - (gtHi - unLo), hi, med)
  {
    ghost var t := a[..];
    var m := Min(hi - gtHi, gtHi - unLo + 1);
    ExchangeBlocks(a, unLo, hi - m + 1, m, was, lo, hi + 1);
    GatherHigh(t, a[..], key, lo, c, unLo, gtHi, hi, med, m);
  }

  /** Splits [lo, hi] around the key med of element pivot. */
  method Split(a: array<int>, keyOf: array<int>, d: int, ghost key: seq<int>, lo: int, hi: int, med: int,
               ghost pivot: int)
    returns (allEqual: bool, n: int, m: int)
    requires a != keyOf && 0 <= lo <= hi < a.Length && 0 <= d <= keyOf.Length
    requires key == keyOf[d..] && InKey(a[..], key, lo, hi + 1)
    requires lo <= pivot <= hi && key[a[pivot]] == med
    modifies a
    ensures PermOn(old(a[..]), a[..], lo, hi + 1)
    ensures allEqual ==> Band(a[..], key, lo, hi + 1, 0, med)
    ensures !allEqual ==> Parted(a[..], key, lo, n, m, hi, med)
  {
    ghost var was := a[..];
    var ltLo, unLo, unHi, gtHi := Scan(a, keyOf, d, key, lo, hi, med);
    if gtHi < ltLo {
      return true, lo, hi;
    }
    ParkedNotEmpty(was, a[..], key, lo, ltLo, unLo, gtHi, hi, med, pivot);
    UnparkLow(a, key, was, lo, ltLo, unLo, gtHi, hi, med);
    UnparkHigh(a, key, was, lo, lo + unLo - ltLo, unLo, gtHi, hi, med);
    allEqual, n, m := false, lo + unLo - ltLo - 1, hi - (gtHi - unHi) + 1;
  }
}
