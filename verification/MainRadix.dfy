/** The radix sort on two symbols that mainSort starts from. */
module MainRadix {
  import opened Permutations
  import opened Rotations
  import opened Counting
  import opened MainCompare
  import opened MainBuckets

  const NSMALL := 65536

  function Seen(two: seq<int>, i: nat, c: int): int
    requires i <= |two|
  {
    CountOf(two, c) - CountOf(two[..i], c)
  }

  /** Counts of the two-symbol keys from position i on. */
  ghost function Histo(two: seq<int>, i: nat): (r: seq<int>)
    requires i <= |two|
    ensures |r| == NSMALL + 1
  {
    seq(NSMALL + 1, c => Seen(two, i, c))
  }

  lemma HistoStep(two: seq<int>, i: nat)
    requires i < |two| && 0 <= two[i] < NSMALL
    ensures Histo(two, i) == Histo(two, i + 1)[two[i] := Histo(two, i + 1)[two[i]] + 1]
  {
    assert two[..i + 1][..i] == two[..i];
  }

  lemma HistoEnds(two: seq<int>, c: int)
    requires 0 <= c <= NSMALL
    ensures Histo(two, |two|)[c] == 0 && Histo(two, 0)[c] == CountOf(two, c)
  {
    assert two[..|two|] == two && two[..0] == [];
  }

  function Ends(two: seq<int>, i: nat, c: int): int
    requires i <= |two|
  {
    CountBelow(two, c) + CountOf(two[..i], c)
  }

  /** ftab while the rotations from position i on have been dealt out. */
  ghost function Undealt(two: seq<int>, i: nat): (r: seq<int>)
    requires i <= |two|
    ensures |r| == NSMALL + 1
  {
    seq(NSMALL + 1, c => Ends(two, i, c))
  }

  lemma UndealtStep(two: seq<int>, i: nat)
    requires i < |two| && 0 <= two[i] < NSMALL
    ensures Undealt(two, i + 1)[two[i]] - 1 == Place(two, i)
    ensures Undealt(two, i + 1)[two[i] := Place(two, i)] == Undealt(two, i)
  {
    assert two[..i + 1][..i] == two[..i];
  }

  /** The key of rotation i, rolled from the key of the next one. */
  lemma RolledKey(b: seq<Byte>, i: nat, j: int)
    requires i < |b| && 0 <= j < NSMALL && j / 256 == b[Succ(|b|, i)]
    ensures j / 256 + b[i] as int * 256 == Two(b)[i] && (j / 256 + b[i] as int * 256) / 256 == b[i]
  {
    assert Two(b)[i] == Key2(b, i);
  }

  method CountKeys(block: array<int>, quadrant: array<int>, ftab: array<int>, n: nat, ghost b: seq<Byte>)
    requires 0 < n == |b| <= block.Length && block[..n] == b && n <= quadrant.Length
    requires ftab.Length == NSMALL + 1 && ftab !in {block, quadrant} && block != quadrant
    modifies ftab, quadrant
    ensures ftab[..] == Histo(Two(b), 0)
    ensures forall x :: 0 <= x < n ==> quadrant[x] == 0
  {
    ghost var two := Two(b);
    for i := 0 to NSMALL + 1
      modifies ftab
      invariant forall c :: 0 <= c < i ==> ftab[c] == 0
    {
      ftab[i] := 0;
    }
    forall c | 0 <= c <= NSMALL
      ensures ftab[c] == Histo(two, n)[c]
    {
      HistoEnds(two, c);
    }
    var j := block[0] * 256;
    var i := n - 1;
    assert block[0] == b[0];
    while i >= 0
      invariant i >= 0 ==> 0 <= j < NSMALL && j / 256 == b[Succ(n, i)]
      invariant -1 <= i && ftab[..] == Histo(two, i + 1)
      invariant block[..n] == b
      invariant forall x :: i < x < n ==> quadrant[x] == 0
    {
      quadrant[i] := 0;
      assert block[i] == b[i];
      RolledKey(b, i, j);
      j := j / 256 + block[i] * 256;
      HistoStep(two, i);
      assert ftab[j] == ftab[..][j];
      ftab[j] := ftab[j] + 1;
      i := i - 1;
    }
  }

  method Accumulate(ftab: array<int>, ghost two: seq<int>)
    requires ftab.Length == NSMALL + 1 && ftab[..] == Histo(two, 0)
    requires forall i :: 0 <= i < |two| ==> 0 <= two[i] < NSMALL
    modifies ftab
    ensures ftab[..] == Undealt(two, |two|)
  {
    CountExtremes(two, NSMALL);
    assert two[..|two|] == two && two[..0] == [];
    CountSteps(two, 0);
    assert forall c :: 0 <= c <= NSMALL ==> ftab[c] == ftab[..][c] == CountOf(two, c);
    for i := 1 to NSMALL + 1
      invariant forall c :: 0 <= c < i ==> ftab[c] == CountBelow(two, c + 1)
      invariant forall c :: i <= c <= NSMALL ==> ftab[c] == CountOf(two, c)
    {
      CountSteps(two, i);
      ftab[i] := ftab[i] + ftab[i - 1];
    }
    forall c | 0 <= c <= NSMALL
      ensures ftab[c] == Undealt(two, |two|)[c]
    {
      CountSteps(two, c);
    }
  }

  /** Rotations from position i on stand in their places. */
  ghost predicate PlacedFrom(f: seq<int>, two: seq<int>, i: int) {
    && |f| == |two|
    && forall x: nat :: i <= x < |two| ==> Place(two, x) < |f| && f[Place(two, x)] == x
  }

  lemma PlaceOne(f: seq<int>, two: seq<int>, i: nat)
    requires i < |two| && PlacedFrom(f, two, i + 1)
    ensures Place(two, i) < |f| && PlacedFrom(f[Place(two, i) := i], two, i)
  {
    PlaceInRange(two, i);
    forall x: nat | i < x < |two|
      ensures Place(two, x) != Place(two, i)
    {
      assert Places(two)[x] != Places(two)[i];
    }
  }

  lemma PlacedAll(f: seq<int>, two: seq<int>)
    requires PlacedFrom(f, two, 0)
    ensures InBuckets(f, two)
  {
    forall p | 0 <= p < |f|
      ensures 0 <= f[p] < |two| && Place(two, f[p]) == p && InBucket(two, p, f[p])
    {
      PermOnto(Places(two), p);
      var x: nat :| x < |two| && Places(two)[x] == p;
      PlaceInRange(two, x);
    }
  }

  method DealKeys(ptr: array<int>, block: array<int>, ftab: array<int>, n: nat, ghost b: seq<Byte>)
    requires 0 < n == |b| <= block.Length && block[..n] == b && n <= ptr.Length
    requires ftab.Length == NSMALL + 1 && ftab !in {block, ptr} && block != ptr
    requires ftab[..] == Undealt(Two(b), n)
    modifies ftab, ptr
    ensures ftab[..] == Undealt(Two(b), 0)
    ensures InBuckets(ptr[..n], Two(b))
  {
    ghost var two := Two(b);
    var s := block[0] * 256;
    var i := n - 1;
    assert block[0] == b[0];
    while i >= 0
      invariant -1 <= i < n
      invariant i >= 0 ==> 0 <= s < NSMALL && s / 256 == b[Succ(n, i)]
      invariant ftab[..] == Undealt(two, i + 1)
      invariant block[..n] == b
      invariant PlacedFrom(ptr[..n], two, i + 1)
    {
      assert block[i] == b[i];
      RolledKey(b, i, s);
      s := s / 256 + block[i] * 256;
      UndealtStep(two, i);
      assert ftab[s] == ftab[..][s];
      var j := ftab[s] - 1;
      ghost var f := ptr[..n];
      PlaceOne(f, two, i);
      ftab[s] := j;
      ptr[j] := i;
      assert ptr[..n] == f[j := i];
      i := i - 1;
    }
    PlacedAll(ptr[..n], two);
  }
}
