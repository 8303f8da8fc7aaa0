/** Undoing the Burrows-Wheeler transform, in the FAST form (a byte and a pointer packed in
    one word) and the SMALL form (20-bit pointers, reversed in place along one cycle). */
module InverseBwt {
  import opened Permutations
  import opened Rotations
  import opened Counting

  ghost function IndexIn(t: seq<int>, v: int): (x: int)
    requires IsPerm(t) && 0 <= v < |t|
    ensures 0 <= x < |t| && t[x] == v
  {
    PermOnto(t, v);
    var x :| 0 <= x < |t| && t[x] == v;
    x
  }

  ghost predicate Endo(p: seq<int>) {
    forall v :: 0 <= v < |p| ==> 0 <= p[v] < |p|
  }

  ghost function Inverse(t: seq<int>): (p: seq<int>)
    requires IsPerm(t)
    ensures |p| == |t| && Endo(p)
    ensures forall v :: 0 <= v < |t| ==> t[p[v]] == v
    ensures forall x :: 0 <= x < |t| ==> p[t[x]] == x
  {
    seq(|t|, v requires 0 <= v < |t| => IndexIn(t, v))
  }

  /** T^-1 of a last column. */
  ghost function Sources(l: seq<Byte>): (p: seq<int>)
    ensures |p| == |l| && Endo(p)
  {
    Inverse(Places(l))
  }

  lemma SourceOf(l: seq<Byte>, v: int)
    requires 0 <= v < |l|
    ensures Place(l, Sources(l)[v]) == v
  {
  }

  lemma PlaceSource(l: seq<Byte>, i: nat)
    requires i < |l|
    ensures Place(l, i) < |l| && Sources(l)[Place(l, i)] == i
  {
    assert Places(l)[i] == Place(l, i);
  }

  /** k pointer steps from x. */
  ghost function Walk(p: seq<int>, x: int, k: nat): (y: int)
    requires Endo(p) && 0 <= x < |p|
    ensures 0 <= y < |p|
  {
    if k == 0 then x else p[Walk(p, x, k - 1)]
  }

  /** The k-th byte that the decoder draws from last column l starting at row `orig`. */
  ghost function DrawnByte(l: seq<Byte>, orig: int, k: nat): Byte
    requires 0 <= orig < |l|
  {
    l[Walk(Sources(l), orig, k + 1)]
  }

  // ----- the inversion theorem

  lemma StableOrder(l: seq<Byte>, v: int, w: int)
    requires 0 <= v < w < |l|
    ensures l[Sources(l)[v]] <= l[Sources(l)[w]]
    ensures l[Sources(l)[v]] == l[Sources(l)[w]] ==> Sources(l)[v] < Sources(l)[w]
  {
    var i, j := Sources(l)[v], Sources(l)[w];
    SourceOf(l, v);
    SourceOf(l, w);
    if l[j] < l[i] || (l[i] == l[j] && j < i) {
      PlaceOrders(l, j, i);
    }
  }

  /** The rotation one byte before each drawn row. */
  ghost function Stepped(b: seq<Byte>, ptr: seq<int>): (q: seq<int>)
    requires SortsRotations(ptr, b)
    ensures |q| == |b|
    ensures forall v :: 0 <= v < |b| ==> q[v] == Pred(|b|, ptr[Sources(LastColumn(b, ptr))[v]])
  {
    var p := Sources(LastColumn(b, ptr));
    seq(|b|, v requires 0 <= v < |b| => Pred(|b|, ptr[p[v]]))
  }

  lemma SteppedIsPerm(b: seq<Byte>, ptr: seq<int>)
    requires SortsRotations(ptr, b)
    ensures IsPerm(Stepped(b, ptr))
  {
    var q := Stepped(b, ptr);
    var p := Sources(LastColumn(b, ptr));
    forall v, w | 0 <= v < w < |q|
      ensures q[v] != q[w]
    {
      SourceOf(LastColumn(b, ptr), v);
      SourceOf(LastColumn(b, ptr), w);
      assert ptr[p[v]] != ptr[p[w]];
      assert Succ(|b|, q[v]) == ptr[p[v]] && Succ(|b|, q[w]) == ptr[p[w]];
    }
  }

  /** Stepping every sorted row back by one byte and re-sorting stably by that byte
      again lists all rotations in order. */
  lemma SteppedIsSorted(b: seq<Byte>, ptr: seq<int>)
    requires SortsRotations(ptr, b)
    ensures SortedBy(Stepped(b, ptr), Rank(b))
  {
    var q := Stepped(b, ptr);
    var l := LastColumn(b, ptr);
    var p := Sources(l);
    forall v, w | 0 <= v < w < |q|
      ensures Rank(b)[q[v]] <= Rank(b)[q[w]]
    {
      StableOrder(l, v, w);
      assert b[q[v]] == l[p[v]] && b[q[w]] == l[p[w]];
      RankSteps(b, q[v], q[w]);
      RankSteps(b, q[w], q[v]);
      if b[q[v]] == b[q[w]] {
        assert Rank(b)[ptr[p[v]]] <= Rank(b)[ptr[p[w]]];
      }
    }
  }

  /** Row v of the sorted order shows the same string as rotation i. */
  ghost predicate Shows(b: seq<Byte>, ptr: seq<int>, v: int, i: int) {
    && 0 <= v < |b| == |ptr| && 0 <= i < |b| && 0 <= ptr[v] < |b|
    && Rank(b)[ptr[v]] == Rank(b)[i]
  }

  /** One pointer step moves from a row equal to rotation i to a row equal to rotation i+1,
      and the byte drawn there is b[i]. */
  lemma StepAdvances(b: seq<Byte>, ptr: seq<int>, v: int, i: nat)
    requires SortsRotations(ptr, b) && 0 <= v < |b| && i < |b|
    requires Shows(b, ptr, v, i)
    ensures LastColumn(b, ptr)[Sources(LastColumn(b, ptr))[v]] == b[i]
    ensures Shows(b, ptr, Sources(LastColumn(b, ptr))[v], Succ(|b|, i))
  {
    SteppedIsPerm(b, ptr);
    SteppedIsSorted(b, ptr);
    var q := Stepped(b, ptr);
    SortedUnique(q, ptr, Rank(b), v);
    RankSteps(b, q[v], i);
  }

  /** The index k places round a cycle of length n. */
  function Round(n: nat, k: nat): (r: nat)
    requires n > 0
    ensures r < n
  {
    if k == 0 then 0 else Succ(n, Round(n, k - 1))
  }

  lemma {:induction false} RoundSmall(n: nat, k: nat)
    requires n > 0 && k < n
    ensures Round(n, k) == k
  {
    if k != 0 {
      RoundSmall(n, k - 1);
    }
  }

  /** Walking from the row of rotation 0 visits rows equal to rotations 1, 2, 3, ... for ever,
      periodic blocks included. */
  lemma {:induction false} WalkFollowsBlock(b: seq<Byte>, ptr: seq<int>, orig: int, k: nat)
    requires SortsRotations(ptr, b) && 0 <= orig < |b| && ptr[orig] == 0
    ensures Shows(b, ptr, Walk(Sources(LastColumn(b, ptr)), orig, k), Round(|b|, k))
  {
    if k != 0 {
      WalkFollowsBlock(b, ptr, orig, k - 1);
      StepAdvances(b, ptr, Walk(Sources(LastColumn(b, ptr)), orig, k - 1), Round(|b|, k - 1));
    }
  }

  /** The k-th byte drawn is the k-th byte of the block, round and round. */
  lemma DrawnIs(b: seq<Byte>, ptr: seq<int>, orig: int, k: nat)
    requires SortsRotations(ptr, b) && 0 <= orig < |b| && ptr[orig] == 0
    ensures DrawnByte(LastColumn(b, ptr), orig, k) == b[Round(|b|, k)]
  {
    WalkFollowsBlock(b, ptr, orig, k);
    StepAdvances(b, ptr, Walk(Sources(LastColumn(b, ptr)), orig, k), Round(|b|, k));
  }

  /** The inverse transform gives the block back. */
  lemma DrawsBlock(b: seq<Byte>, ptr: seq<int>, orig: int)
    requires SortsRotations(ptr, b) && 0 <= orig < |b| && ptr[orig] == 0
    ensures forall k :: 0 <= k < |b| ==> DrawnByte(LastColumn(b, ptr), orig, k) == b[k]
  {
    forall k | 0 <= k < |b|
      ensures DrawnByte(LastColumn(b, ptr), orig, k) == b[k]
    {
      DrawnIs(b, ptr, orig, k);
      RoundSmall(|b|, k);
    }
  }

  // ----- building the pointer tables

  /** cftab[c] counts the last-column bytes below c. */
  ghost predicate IsCftab(cftab: seq<int>, l: seq<Byte>) {
    |cftab| == 257 && forall c :: 0 <= c <= 256 ==> cftab[c] == CountBelow(l, c)
  }

  method MakeCftab(unzftab: array<int>, cftab: array<int>, ghost l: seq<Byte>)
    requires unzftab.Length == 256 && cftab.Length == 257 && unzftab != cftab
    requires forall c :: 0 <= c < 256 ==> unzftab[c] == CountOf(l, c)
    modifies cftab
    ensures IsCftab(cftab[..], l)
  {
    CountExtremes(l, 256);
    cftab[0] := 0;
    for i := 1 to 257
      invariant cftab[0] == 0
      invariant forall c :: 1 <= c < i ==> cftab[c] == unzftab[c - 1]
    {
      cftab[i] := unzftab[i - 1];
    }
    for i := 1 to 257
      invariant forall c :: 0 <= c < i ==> cftab[c] == CountBelow(l, c)
      invariant forall c :: i <= c < 257 ==> cftab[c] == CountOf(l, c - 1)
    {
      CountSteps(l, i - 1);
      cftab[i] := cftab[i] + cftab[i - 1];
    }
  }

  function Bumped(l: seq<Byte>, i: nat, c: int): int
    requires i <= |l|
  {
    CountBelow(l, c) + CountOf(l[..i], c)
  }

  /** cftab after the first i rows have been placed. */
  ghost function Bumps(l: seq<Byte>, i: nat): (r: seq<int>)
    requires i <= |l|
    ensures |r| == 257
  {
    seq(257, c => Bumped(l, i, c))
  }

  lemma BumpStart(cftab: seq<int>, l: seq<Byte>)
    requires IsCftab(cftab, l)
    ensures cftab == Bumps(l, 0)
  {
  }

  lemma Bump(cftab: seq<int>, l: seq<Byte>, i: nat)
    requires i < |l| && cftab == Bumps(l, i)
    ensures cftab[l[i]] == Place(l, i) < |l|
    ensures cftab[l[i] := Place(l, i) + 1] == Bumps(l, i + 1)
  {
    PlaceInRange(l, i);
    assert l[..i + 1][..i] == l[..i];
  }

  /** FAST: word p holds byte l[p] below pointer Sources(l)[p]. */
  ghost predicate FastTable(tt: seq<int>, l: seq<Byte>) {
    |l| <= |tt| && forall p :: 0 <= p < |l| ==> tt[p] == l[p] + 256 * Sources(l)[p]
  }

  /** The words after rows below i have been placed. */
  ghost function PartTable(l: seq<Byte>, i: nat): (r: seq<int>)
    requires i <= |l|
    ensures |r| == |l|
  {
    if i == 0 then l
    else
      PlaceSource(l, i - 1);
      var w := PartTable(l, i - 1);
      w[Place(l, i - 1) := w[Place(l, i - 1)] + 256 * (i - 1)]
  }

  lemma {:induction false} PartWord(l: seq<Byte>, i: nat, k: nat)
    requires i <= |l| && k < |l|
    ensures Place(l, k) < |l|
    ensures PartTable(l, i)[Place(l, k)] == l[Place(l, k)] + if k < i then 256 * k else 0
  {
    PlaceSource(l, k);
    if i != 0 {
      PartWord(l, i - 1, k);
      PlaceSource(l, i - 1);
    }
  }

  lemma {:induction false} PartByte(l: seq<Byte>, i: nat, p: nat)
    requires i <= |l| && p < |l|
    ensures PartTable(l, i)[p] % 256 == l[p]
  {
    if i != 0 {
      PartByte(l, i - 1, p);
    }
  }

  /** While row i is placed its own byte is intact and its target word has clear upper bits. */
  lemma PartStep(l: seq<Byte>, i: nat)
    requires i < |l|
    ensures PartTable(l, i)[i] % 256 == l[i]
    ensures Place(l, i) < |l|
    ensures 0 <= PartTable(l, i)[Place(l, i)] < 256
  {
    PartByte(l, i, i);
    PartWord(l, i, i);
  }

  lemma TableDone(l: seq<Byte>, tt: seq<int>)
    requires |l| <= |tt| && tt[..|l|] == PartTable(l, |l|)
    ensures FastTable(tt, l) && forall p :: 0 <= p < |l| ==> 0 <= tt[p] < 256 * |l|
  {
    forall p | 0 <= p < |l|
      ensures tt[p] == l[p] + 256 * Sources(l)[p] < 256 * |l|
    {
      SourceOf(l, p);
      PartWord(l, |l|, Sources(l)[p]);
      assert tt[p] == tt[..|l|][p];
    }
  }

  method BuildFast(tt: array<int>, cftab: array<int>, ghost l: seq<Byte>, n: nat)
    requires n == |l| <= tt.Length && n <= 0x100_0000 && tt != cftab
    requires forall p :: 0 <= p < n ==> tt[p] == l[p]
    requires IsCftab(cftab[..], l)
    modifies tt, cftab
    ensures FastTable(tt[..], l)
    ensures forall p :: 0 <= p < n ==> 0 <= tt[p] < 0x1_0000_0000
  {
    BumpStart(cftab[..], l);
    for i := 0 to n
      invariant cftab[..] == Bumps(l, i)
      invariant forall p :: 0 <= p < n ==> tt[p] == PartTable(l, i)[p]
    {
      PartStep(l, i);
      Bump(cftab[..], l, i);
      var uc := tt[i] % 256;
      var q := cftab[uc];
      // the upper 24 bits of word q are still clear, so OR-ing the pointer in is an addition
      tt[q] := tt[q] + 256 * i;
      cftab[uc] := q + 1;
    }
    assert tt[..][..n] == PartTable(l, n);
    TableDone(l, tt[..]);
  }

  // ----- the 20-bit pointers of the SMALL form

  /** The nibble of ll4 that belongs to index i. */
  function GetLL4(ll4: seq<int>, i: nat): int
    requires i / 2 < |ll4|
  {
    if i % 2 == 0 then ll4[i / 2] % 16 else ll4[i / 2] / 16
  }

  function GetLL(ll16: seq<int>, ll4: seq<int>, i: nat): int
    requires i < |ll16| && i / 2 < |ll4|
  {
    ll16[i] + 65536 * GetLL4(ll4, i)
  }

  ghost predicate SmallArrays(ll16: array<int>, ll4: array<int>, n: nat)
    reads ll16, ll4
  {
    && n <= ll16.Length && (n + 1) / 2 <= ll4.Length
    && ll16 != ll4
    && (forall i :: 0 <= i < n ==> 0 <= ll16[i] < 65536)
    && (forall i :: 0 <= i < (n + 1) / 2 ==> 0 <= ll4[i] < 256)
  }

  method SetLL(ll16: array<int>, ll4: array<int>, n: nat, i: nat, v: nat)
    requires SmallArrays(ll16, ll4, n) && i < n && v < 0x10_0000
    modifies ll16, ll4
    ensures SmallArrays(ll16, ll4, n)
    ensures GetLL(ll16[..], ll4[..], i) == v
    ensures forall j :: 0 <= j < n && j != i ==> ll16[j] == old(ll16[j])
    ensures forall j: nat :: j < n && j != i ==>
              GetLL(ll16[..], ll4[..], j) == old(GetLL(ll16[..], ll4[..], j))
  {
    ll16[i] := v % 65536;
    var old4 := ll4[i / 2];
    if i % 2 == 0 {
      ll4[i / 2] := old4 / 16 * 16 + v / 65536;
    } else {
      ll4[i / 2] := old4 % 16 + v / 65536 * 16;
    }
  }

  /** SMALL: the pointers of T, row by row. */
  ghost predicate SmallHoldsT(ll16: seq<int>, ll4: seq<int>, l: seq<Byte>, i: nat)
    requires i <= |l| <= |ll16| && (|l| + 1) / 2 <= |ll4|
  {
    forall j: nat :: j < i ==> GetLL(ll16, ll4, j) == Place(l, j)
  }

  method BuildSmallT(ll16: array<int>, ll4: array<int>, cftab: array<int>, cftabCopy: array<int>,
                     ghost l: seq<Byte>, n: nat)
    requires SmallArrays(ll16, ll4, n) && n == |l| <= 0x10_0000
    requires cftabCopy.Length == 257
    requires cftabCopy !in {ll16, ll4, cftab} && cftab !in {ll16, ll4}
    requires forall p :: 0 <= p < n ==> ll16[p] == l[p]
    requires IsCftab(cftab[..], l)
    modifies ll16, ll4, cftabCopy
    ensures SmallArrays(ll16, ll4, n)
    ensures SmallHoldsT(ll16[..], ll4[..], l, n)
  {
    for i := 0 to 257
      modifies cftabCopy
      invariant forall c :: 0 <= c < i ==> cftabCopy[c] == cftab[c]
    {
      cftabCopy[i] := cftab[i];
    }
    assert cftabCopy[..] == cftab[..];
    BumpStart(cftabCopy[..], l);
    for i := 0 to n
      invariant SmallArrays(ll16, ll4, n)
      invariant cftabCopy[..] == Bumps(l, i)
      invariant forall p :: i <= p < n ==> ll16[p] == l[p]
      invariant SmallHoldsT(ll16[..], ll4[..], l, i)
    {
      var uc := ll16[i] % 256;
      Bump(cftabCopy[..], l, i);
      SetLL(ll16, ll4, n, i, cftabCopy[uc]);
      cftabCopy[uc] := cftabCopy[uc] + 1;
    }
  }

  /** Pointers already turned round: exactly those stored at the T-images of `from`. */
  ghost predicate Turned(ll16: seq<int>, ll4: seq<int>, l: seq<Byte>, from: set<int>)
    requires |l| <= |ll16| && (|l| + 1) / 2 <= |ll4|
  {
    forall v: nat :: v < |l| ==>
      GetLL(ll16, ll4, v) == if Sources(l)[v] in from then Sources(l)[v] else Places(l)[v]
  }

  ghost predicate OnCycle(l: seq<Byte>, orig: int, from: set<int>, i: int) {
    && 0 <= orig < |l| && 0 <= i < |l|
    && (forall u :: u in from ==> 0 <= u < |l|)
    && (forall u :: u in from ==> u == orig || Sources(l)[u] in from)
    && (i == orig || Sources(l)[i] in from)
  }

  /** Pointer reversal in place along the cycle of T through origPtr: it stops, and every pointer
      that the decoder will follow from origPtr has become a pointer of T^-1. */
  method ReverseCycle(ll16: array<int>, ll4: array<int>, ghost l: seq<Byte>, n: nat, origPtr: nat)
    requires SmallArrays(ll16, ll4, n) && n == |l| <= 0x10_0000 && origPtr < n
    requires SmallHoldsT(ll16[..], ll4[..], l, n)
    modifies ll16, ll4
    ensures SmallArrays(ll16, ll4, n)
    ensures forall k: nat ::
              var x := Walk(Sources(l), origPtr, k);
              GetLL(ll16[..], ll4[..], x) == Sources(l)[x]
  {
    var i := origPtr;
    var j := GetLL(ll16[..], ll4[..], i);
    ghost var from: set<int> := {};
    while true
      invariant SmallArrays(ll16, ll4, n)
      invariant OnCycle(l, origPtr, from, i) && i !in from
      invariant j == Places(l)[i]
      invariant Turned(ll16[..], ll4[..], l, from)
      decreases Range(n) - from
    {
      PlaceSource(l, i);
      var tmp := GetLL(ll16[..], ll4[..], j);
      SetLL(ll16, ll4, n, j, i);
      TurnOne(ll16[..], ll4[..], l, from, i, j);
      CycleStep(l, origPtr, from, i, j);
      from := from + {i};
      i := j;
      j := tmp;
      if i == origPtr {
        break;
      }
    }
    forall k: nat
      ensures GetLL(ll16[..], ll4[..], Walk(Sources(l), origPtr, k))
           == Sources(l)[Walk(Sources(l), origPtr, k)]
    {
      CycleClosed(l, origPtr, from, k);
    }
  }

  lemma CycleStep(l: seq<Byte>, orig: int, from: set<int>, i: nat, j: nat)
    requires OnCycle(l, orig, from, i) && i !in from && j < |l| && Sources(l)[j] == i
    ensures OnCycle(l, orig, from + {i}, j)
    ensures j != orig ==> j !in from + {i}
  {
  }

  lemma TurnOne(ll16: seq<int>, ll4: seq<int>, l: seq<Byte>, from: set<int>, i: nat, j: nat)
    requires |l| <= |ll16| && (|l| + 1) / 2 <= |ll4|
    requires i < |l| && j < |l| && Sources(l)[j] == i
    requires GetLL(ll16, ll4, j) == i
    requires forall v: nat :: v < |l| && v != j ==>
      GetLL(ll16, ll4, v) == if Sources(l)[v] in from then Sources(l)[v] else Places(l)[v]
    ensures Turned(ll16, ll4, l, from + {i})
  {
  }

  /** A set of rows closed under T^-1 keeps the whole walk inside. */
  lemma {:induction false} CycleClosed(l: seq<Byte>, orig: int, from: set<int>, k: nat)
    requires OnCycle(l, orig, from, orig) && Sources(l)[orig] in from
    ensures Sources(l)[Walk(Sources(l), orig, k)] in from
  {
    if k != 0 {
      CycleClosed(l, orig, from, k - 1);
      assert Walk(Sources(l), orig, k) == Sources(l)[Walk(Sources(l), orig, k - 1)];
    }
  }

  // ----- drawing bytes

  /** Binary search for the byte whose slot range in the first column contains indx. */
  method IndexIntoF(indx: int, cftab: seq<int>) returns (nb: int)
    requires |cftab| == 257 && cftab[0] <= indx < cftab[256]
    ensures 0 <= nb < 256 && cftab[nb] <= indx < cftab[nb + 1]
  {
    nb := 0;
    var na := 256;
    while true
      invariant 0 <= nb < na <= 256 && na - nb > 1
      invariant cftab[nb] <= indx < cftab[na]
      decreases na - nb
    {
      var mid := (nb + na) / 2;
      if indx >= cftab[mid] { nb := mid; } else { na := mid; }
      if na - nb == 1 {
        break;
      }
    }
  }

  /** The byte of first-column slot x is the byte that the FAST table keeps at T^-1 of x:
      the two decoders draw the same bytes from every last column and every start row. */
  lemma FirstColumn(l: seq<Byte>, x: int, c: int)
    requires 0 <= x < |l| && 0 <= c < 256
    requires CountBelow(l, c) <= x < CountBelow(l, c + 1)
    ensures l[Sources(l)[x]] == c
  {
    var i := Sources(l)[x];
    SourceOf(l, x);
    PlaceInRange(l, i);
    if l[i] < c {
      CountMonotone(l, l[i] as int + 1, c);
    } else if c < l[i] {
      CountMonotone(l, c + 1, l[i]);
    }
  }
}
