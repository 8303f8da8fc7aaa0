/** The order on cyclic rotations of a block that both block sorters implement.
    Periodic blocks have equal rotations, so the order is only a weak one. */
module Rotations {
  import opened Permutations

  type Byte = x: int | 0 <= x < 256

  function Succ(n: nat, i: nat): (r: nat)
    requires i < n
    ensures r < n
  {
    if i + 1 == n then 0 else i + 1
  }

  function Pred(n: nat, i: nat): (r: nat)
    requires i < n
    ensures r < n && Succ(n, r) == i
  {
    if i == 0 then n - 1 else i - 1
  }

  /** h steps forward on the cycle of length n. */
  function Adv(n: nat, i: nat, h: nat): (r: nat)
    requires i < n
    ensures r < n
    decreases h
  {
    if h == 0 then i else Adv(n, Succ(n, i), h - 1)
  }

  lemma {:induction false} AdvWraps(n: nat, i: nat, h: nat)
    requires i < n && h <= n
    ensures Adv(n, i, h) == if i + h < n then i + h else i + h - n
    decreases h
  {
    if h != 0 {
      AdvWraps(n, Succ(n, i), h - 1);
    }
  }

  /** Compares the first h symbols of rotations i and j: negative, zero or positive. */
  function Cmp(b: seq<Byte>, i: nat, j: nat, h: nat): int
    requires i < |b| && j < |b|
    decreases h
  {
    if h == 0 then 0
    else if b[i] != b[j] then b[i] - b[j]
    else Cmp(b, Succ(|b|, i), Succ(|b|, j), h - 1)
  }

  lemma {:induction false} CmpSplit(b: seq<Byte>, i: nat, j: nat, h: nat, g: nat)
    requires i < |b| && j < |b|
    ensures Cmp(b, i, j, h + g)
         == if Cmp(b, i, j, h) != 0 then Cmp(b, i, j, h)
            else Cmp(b, Adv(|b|, i, h), Adv(|b|, j, h), g)
    decreases h
  {
    if h != 0 {
      if b[i] == b[j] {
        CmpSplit(b, Succ(|b|, i), Succ(|b|, j), h - 1, g);
      }
    }
  }

  lemma {:induction false} CmpAnti(b: seq<Byte>, i: nat, j: nat, h: nat)
    requires i < |b| && j < |b|
    ensures Cmp(b, i, j, h) == -Cmp(b, j, i, h)
    decreases h
  {
    if h != 0 && b[i] == b[j] {
      CmpAnti(b, Succ(|b|, i), Succ(|b|, j), h - 1);
    }
  }

  lemma {:induction false} CmpTrans(b: seq<Byte>, i: nat, j: nat, k: nat, h: nat)
    requires i < |b| && j < |b| && k < |b|
    requires Cmp(b, i, j, h) <= 0 && Cmp(b, j, k, h) <= 0
    ensures Cmp(b, i, k, h) <= 0
    ensures Cmp(b, i, j, h) < 0 || Cmp(b, j, k, h) < 0 ==> Cmp(b, i, k, h) < 0
    decreases h
  {
    if h != 0 && b[i] == b[j] == b[k] {
      CmpTrans(b, Succ(|b|, i), Succ(|b|, j), Succ(|b|, k), h - 1);
    }
  }

  lemma {:induction false} CmpSelf(b: seq<Byte>, i: nat, h: nat)
    requires i < |b|
    ensures Cmp(b, i, i, h) == 0
    decreases h
  {
    if h != 0 {
      CmpSelf(b, Succ(|b|, i), h - 1);
    }
  }

  /** Dropping a common first symbol does not change how two whole rotations compare. */
  lemma CmpShift(b: seq<Byte>, i: nat, j: nat)
    requires i < |b| && j < |b| && b[i] == b[j]
    ensures Cmp(b, i, j, |b|) == Cmp(b, Succ(|b|, i), Succ(|b|, j), |b|)
  {
    CmpSplit(b, i, j, |b|, 1);
    AdvWraps(|b|, i, |b|);
    AdvWraps(|b|, j, |b|);
    CmpSplit(b, i, j, 1, |b|);
  }

  /** Rotations that agree on |b| symbols agree on any number of symbols. */
  lemma {:induction false} CmpWhole(b: seq<Byte>, i: nat, j: nat, h: nat)
    requires i < |b| && j < |b| && Cmp(b, i, j, |b|) == 0
    ensures Cmp(b, i, j, h) == 0
    decreases h
  {
    if h != 0 {
      CmpShift(b, i, j);
      CmpWhole(b, Succ(|b|, i), Succ(|b|, j), h - 1);
    }
  }

  /** Once h >= |b| symbols are compared, or a difference is found, the order is that of whole rotations. */
  lemma CmpLong(b: seq<Byte>, i: nat, j: nat, h: nat)
    requires i < |b| && j < |b|
    requires h >= |b| || Cmp(b, i, j, h) != 0
    ensures Cmp(b, i, j, h) == Cmp(b, i, j, |b|)
  {
    if Cmp(b, i, j, |b|) == 0 {
      CmpWhole(b, i, j, h);
    } else if h >= |b| {
      CmpSplit(b, i, j, |b|, h - |b|);
    } else {
      CmpSplit(b, i, j, h, |b| - h);
    }
  }

  // ----- ranks

  ghost function Below(b: seq<Byte>, i: nat): (r: set<int>)
    requires i < |b|
    ensures forall j :: j in r <==> 0 <= j < |b| && Cmp(b, j, i, |b|) < 0
  {
    set j | 0 <= j < |b| && Cmp(b, j, i, |b|) < 0
  }

  ghost function Height(b: seq<Byte>, i: nat): nat
    requires i < |b|
  {
    |Below(b, i)|
  }

  /** rank[i] counts the rotations strictly before rotation i: equal rotations share a rank. */
  ghost function Rank(b: seq<Byte>): (r: seq<int>)
    ensures |r| == |b|
    ensures forall i :: 0 <= i < |b| ==> r[i] == Height(b, i)
  {
    seq(|b|, i requires 0 <= i < |b| => Height(b, i))
  }

  lemma RankOrders(b: seq<Byte>, i: nat, j: nat)
    requires i < |b| && j < |b|
    ensures Rank(b)[i] < Rank(b)[j] <==> Cmp(b, i, j, |b|) < 0
    ensures Rank(b)[i] == Rank(b)[j] <==> Cmp(b, i, j, |b|) == 0
  {
    CmpAnti(b, i, j, |b|);
    if Cmp(b, i, j, |b|) < 0 {
      BelowGrows(b, i, j);
    } else if Cmp(b, i, j, |b|) > 0 {
      BelowGrows(b, j, i);
    } else {
      BelowSubset(b, i, j);
      BelowSubset(b, j, i);
      assert Below(b, i) == Below(b, j);
    }
  }

  lemma BelowSubset(b: seq<Byte>, i: nat, j: nat)
    requires i < |b| && j < |b| && Cmp(b, i, j, |b|) <= 0
    ensures Below(b, i) <= Below(b, j)
  {
    forall k | k in Below(b, i)
      ensures k in Below(b, j)
    {
      CmpTrans(b, k, i, j, |b|);
    }
  }

  lemma BelowGrows(b: seq<Byte>, i: nat, j: nat)
    requires i < |b| && j < |b| && Cmp(b, i, j, |b|) < 0
    ensures |Below(b, i)| < |Below(b, j)|
  {
    BelowSubset(b, i, j);
    CmpSelf(b, i, |b|);
    SubsetSize(Below(b, i), Below(b, j));
    assert i in Below(b, j) && i !in Below(b, i);
  }

  /** What the transform and the sorters need to know about ranks: the first symbol decides,
      and behind equal first symbols the rest decides. */
  lemma RankSteps(b: seq<Byte>, i: nat, j: nat)
    requires i < |b| && j < |b|
    ensures b[i] < b[j] ==> Rank(b)[i] < Rank(b)[j]
    ensures b[i] == b[j] ==>
              (Rank(b)[i] < Rank(b)[j] <==> Rank(b)[Succ(|b|, i)] < Rank(b)[Succ(|b|, j)])
    ensures Rank(b)[i] == Rank(b)[j] ==>
              b[i] == b[j] && Rank(b)[Succ(|b|, i)] == Rank(b)[Succ(|b|, j)]
  {
    RankOrders(b, i, j);
    RankOrders(b, Succ(|b|, i), Succ(|b|, j));
    if b[i] == b[j] {
      CmpShift(b, i, j);
    }
  }

  /** What BZ2_blockSort promises: a permutation of the rotations in non-decreasing order. */
  ghost predicate SortsRotations(ptr: seq<int>, b: seq<Byte>) {
    IsPerm(ptr) && |ptr| == |b| && SortedBy(ptr, Rank(b))
  }

  /** The byte in front of each sorted rotation. */
  function LastColumn(b: seq<Byte>, ptr: seq<int>): (l: seq<Byte>)
    requires forall x :: 0 <= x < |ptr| ==> 0 <= ptr[x] < |b|
    ensures |l| == |ptr|
    ensures forall x :: 0 <= x < |ptr| ==> l[x] == b[Pred(|b|, ptr[x])]
  {
    seq(|ptr|, x requires 0 <= x < |ptr| => b[Pred(|b|, ptr[x])])
  }

  /** Rotations of equal rank have the same byte in front of them. */
  lemma RankPred(b: seq<Byte>, i: nat, j: nat)
    requires i < |b| && j < |b| && Rank(b)[i] == Rank(b)[j]
    ensures b[Pred(|b|, i)] == b[Pred(|b|, j)]
  {
    var n := |b|;
    RankOrders(b, i, j);
    CmpWhole(b, i, j, n - 1);
    CmpSplit(b, i, j, n - 1, 1);
    AdvWraps(n, i, n - 1);
    AdvWraps(n, j, n - 1);
  }

  /** Whichever sorter ran, and however it ordered equal rotations, the last column is the same. */
  lemma LastColumnUnique(b: seq<Byte>, p: seq<int>, q: seq<int>)
    requires SortsRotations(p, b) && SortsRotations(q, b)
    ensures LastColumn(b, p) == LastColumn(b, q)
  {
    forall x | 0 <= x < |p|
      ensures LastColumn(b, p)[x] == LastColumn(b, q)[x]
    {
      SortedUnique(p, q, Rank(b), x);
      RankPred(b, p[x], q[x]);
    }
  }
}
