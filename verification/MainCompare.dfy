/** mainGtU: comparing two rotations through the overshoot area, with the quadrant array as a cache. */
module MainCompare {
  import opened Rotations

  const OVERSHOOT := 34

  /** block and quadrant repeat their first 34 entries behind position n. */
  ghost predicate Overshot(block: seq<int>, quadrant: seq<int>, b: seq<Byte>) {
    && OVERSHOOT < |b| && |b| + OVERSHOOT <= |block| && |b| + OVERSHOOT <= |quadrant|
    && block[..|b|] == b
    && forall i :: 0 <= i < OVERSHOOT ==> block[|b| + i] == b[i] && quadrant[|b| + i] == quadrant[i]
  }

  /** Between rotations with equal first byte a smaller quadrant value means "precedes or equals". */
  ghost predicate QuadrantsOrder(quadrant: seq<int>, b: seq<Byte>) {
    && |b| <= |quadrant|
    && forall x, y :: 0 <= x < |b| && 0 <= y < |b| && b[x] == b[y] && quadrant[x] < quadrant[y] ==>
         Cmp(b, x, y, |b|) <= 0
  }

  /** The rotation that buffer index p stands for. */
  function Home(n: nat, p: nat): (r: nat)
    requires p <= n + OVERSHOOT && OVERSHOOT < n
    ensures r < n
  {
    if p < n then p else p - n
  }

  lemma {:induction false} AdvMore(n: nat, i: nat, h: nat)
    requires i < n
    ensures Adv(n, i, h + 1) == Succ(n, Adv(n, i, h))
    decreases h
  {
    if h != 0 {
      AdvMore(n, Succ(n, i), h - 1);
    }
  }

  lemma AtHome(block: seq<int>, quadrant: seq<int>, b: seq<Byte>, p: nat)
    requires Overshot(block, quadrant, b) && p < |b| + OVERSHOOT
    ensures block[p] == b[Home(|b|, p)] && quadrant[p] == quadrant[Home(|b|, p)]
  {
    if p < |b| {
      assert block[p] == block[..|b|][p];
    } else {
      assert block[|b| + (p - |b|)] == b[p - |b|];
    }
  }

  /** Rotations u and v agree on m symbols, and p, q are where their next symbols stand. */
  ghost predicate Matched(b: seq<Byte>, u: nat, v: nat, m: nat, p: nat, q: nat) {
    && OVERSHOOT < |b| && u < |b| && v < |b| && p <= |b| + OVERSHOOT && q <= |b| + OVERSHOOT
    && Cmp(b, u, v, m) == 0
    && Home(|b|, p) == Adv(|b|, u, m) && Home(|b|, q) == Adv(|b|, v, m)
  }

  lemma MatchNext(b: seq<Byte>, u: nat, v: nat, m: nat, p: nat, q: nat)
    requires Matched(b, u, v, m, p, q) && p < |b| + OVERSHOOT && q < |b| + OVERSHOOT
    ensures b[Home(|b|, p)] == b[Home(|b|, q)] ==> Matched(b, u, v, m + 1, p + 1, q + 1)
    ensures b[Home(|b|, p)] < b[Home(|b|, q)] ==> Cmp(b, u, v, |b|) < 0
    ensures b[Home(|b|, p)] > b[Home(|b|, q)] ==> Cmp(b, u, v, |b|) > 0
  {
    CmpSplit(b, u, v, m, 1);
    AdvMore(|b|, u, m);
    AdvMore(|b|, v, m);
    if b[Home(|b|, p)] != b[Home(|b|, q)] {
      CmpLong(b, u, v, m + 1);
    }
  }

  /** Behind a common prefix, whole rotations compare as their continuations do. */
  lemma {:induction false} CmpBehind(b: seq<Byte>, u: nat, v: nat, m: nat)
    requires u < |b| && v < |b| && Cmp(b, u, v, m) == 0
    ensures Cmp(b, u, v, |b|) == Cmp(b, Adv(|b|, u, m), Adv(|b|, v, m), |b|)
    decreases m
  {
    if m != 0 {
      CmpShift(b, u, v);
      CmpBehind(b, Succ(|b|, u), Succ(|b|, v), m - 1);
    }
  }

  /** The answer "greater" may be given for equal rotations, never for smaller ones, and vice versa. */
  ghost predicate Consistent(b: seq<Byte>, u: nat, v: nat, greater: bool)
    requires u < |b| && v < |b|
  {
    if greater then Cmp(b, u, v, |b|) >= 0 else Cmp(b, u, v, |b|) <= 0
  }

  lemma QuadrantDecides(b: seq<Byte>, quadrant: seq<int>, u: nat, v: nat, m: nat, p: nat, q: nat)
    requires Matched(b, u, v, m, p, q) && QuadrantsOrder(quadrant, b)
    requires b[Home(|b|, p)] == b[Home(|b|, q)]
    ensures quadrant[Home(|b|, p)] < quadrant[Home(|b|, q)] ==> Cmp(b, u, v, |b|) <= 0
    ensures quadrant[Home(|b|, p)] > quadrant[Home(|b|, q)] ==> Cmp(b, u, v, |b|) >= 0
  {
    CmpBehind(b, u, v, m);
    CmpAnti(b, Home(|b|, p), Home(|b|, q), |b|);
  }

  /** One unrolled step: compares a byte, and then perhaps the quadrants behind it. */
  method Step(block: array<int>, quadrant: array<int>, p: nat, q: nat, cached: bool,
              ghost b: seq<Byte>, ghost u: nat, ghost v: nat, ghost m: nat)
    returns (decided: bool, greater: bool)
    requires Overshot(block[..], quadrant[..], b) && QuadrantsOrder(quadrant[..], b)
    requires Matched(b, u, v, m, p, q) && p < |b| + OVERSHOOT && q < |b| + OVERSHOOT
    ensures decided ==> Consistent(b, u, v, greater)
    ensures !decided ==> Matched(b, u, v, m + 1, p + 1, q + 1)
  {
    AtHome(block[..], quadrant[..], b, p);
    AtHome(block[..], quadrant[..], b, q);
    MatchNext(b, u, v, m, p, q);
    var c1, c2 := block[p], block[q];
    if c1 != c2 {
      return true, c1 > c2;
    }
    if cached {
      var s1, s2 := quadrant[p], quadrant[q];
      QuadrantDecides(b, quadrant[..], u, v, m, p, q);
      if s1 != s2 {
        return true, s1 > s2;
      }
    }
    return false, false;
  }

  /** A group of unrolled steps; no index beyond the overshoot area is read. */
  method Steps(block: array<int>, quadrant: array<int>, p: nat, q: nat, count: nat, cached: bool,
               ghost b: seq<Byte>, ghost u: nat, ghost v: nat, ghost m: nat)
    returns (decided: bool, greater: bool)
    requires Overshot(block[..], quadrant[..], b) && QuadrantsOrder(quadrant[..], b)
    requires Matched(b, u, v, m, p, q) && p + count <= |b| + OVERSHOOT && q + count <= |b| + OVERSHOOT
    ensures decided ==> Consistent(b, u, v, greater)
    ensures !decided ==> Matched(b, u, v, m + count, p + count, q + count)
  {
    decided, greater := false, false;
    for t := 0 to count
      invariant Matched(b, u, v, m + t, p + t, q + t)
    {
      decided, greater := Step(block, quadrant, p + t, q + t, cached, b, u, v, m + t);
      if decided {
        return;
      }
    }
  }

  /** Rotations u and v agree on d symbols and are compared from there. The largest index read is
      n - 1 + 15 + 12 + 7 = n + 33, the last one of the overshoot area. */
  method MainGtU(i1: nat, i2: nat, block: array<int>, quadrant: array<int>, n: nat, budget: int,
                 ghost b: seq<Byte>, ghost u: nat, ghost v: nat, ghost d: nat)
    returns (greater: bool, budget': int)
    requires n == |b| && Overshot(block[..], quadrant[..], b) && QuadrantsOrder(quadrant[..], b)
    requires u < n && v < n && d <= 15 && i1 == u + d && i2 == v + d && Cmp(b, u, v, d) == 0
    ensures Consistent(b, u, v, greater)
    ensures budget' <= budget
  {
    budget' := budget;
    AdvWraps(n, u, d);
    AdvWraps(n, v, d);
    var decided;
    decided, greater := Steps(block, quadrant, i1, i2, 12, false, b, u, v, d);
    if decided {
      return;
    }
    var p: nat, q: nat, k := i1 + 12, i2 + 12, n + 8;
    ghost var m: nat := d + 12;
    while k >= 0
      invariant -8 <= k && d + 12 + (n + 8 - k) == m && budget' <= budget
      invariant p <= n + 26 && q <= n + 26 && Matched(b, u, v, m, p, q)
      decreases k
    {
      decided, greater := Steps(block, quadrant, p, q, 8, true, b, u, v, m);
      if decided {
        return;
      }
      p, q, m := p + 8, q + 8, m + 8;
      if p >= n {
        p := p - n;
      }
      if q >= n {
        q := q - n;
      }
      k := k - 8;
      budget' := budget' - 1;
    }
    CmpLong(b, u, v, m);
    return false, budget';
  }
}
