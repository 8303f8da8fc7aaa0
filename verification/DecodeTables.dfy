/** The decoding tables as one value per list of code lengths, and the loops of the decoder that fill them. */
module DecodeTables {
  import opened Counting
  import opened Bits
  import opened HuffmanCodes

  datatype Table = Table(limit: seq<int>, base: seq<int>, perm: seq<int>, minLen: int)

  ghost predicate RowOk(row: seq<int>) {
    forall i :: 0 <= i < |row| ==> 1 <= row[i] <= LONGEST
  }

  function MinLen(lens: seq<int>, upto: nat): int
    requires upto <= |lens|
  {
    if upto == 0 then 32
    else if lens[upto - 1] < MinLen(lens, upto - 1) then lens[upto - 1] else MinLen(lens, upto - 1)
  }

  function MaxLen(lens: seq<int>, upto: nat): int
    requires upto <= |lens|
  {
    if upto == 0 then 0
    else if lens[upto - 1] > MaxLen(lens, upto - 1) then lens[upto - 1] else MaxLen(lens, upto - 1)
  }

  lemma {:induction false} ExtremesBound(lens: seq<int>, upto: nat)
    requires upto <= |lens|
    ensures forall i :: 0 <= i < upto ==> MinLen(lens, upto) <= lens[i] <= MaxLen(lens, upto)
    ensures MinLen(lens, upto) == 32 || MinLen(lens, upto) in lens
    ensures MaxLen(lens, upto) == 0 || MaxLen(lens, upto) in lens
  {
    if upto > 0 {
      ExtremesBound(lens, upto - 1);
    }
  }

  /** The symbols of length n, in order. */
  function Having(lens: seq<int>, n: int): (r: seq<int>)
    ensures |r| == CountOf(lens, n)
  {
    if lens == [] then []
    else
      var k := |lens| - 1;
      Having(lens[..k], n) + if lens[k] == n then [k] else []
  }

  /** The symbols of length lo up to hi, by length and then in order. */
  function Sorted(lens: seq<int>, lo: int, hi: int): seq<int>
    decreases hi - lo + 1
  {
    if hi < lo then [] else Sorted(lens, lo, hi - 1) + Having(lens, hi)
  }

  function Padded(s: seq<int>): (r: seq<int>)
    ensures |r| == MAX_ALPHA_SIZE && (|s| <= |r| ==> r[..|s|] == s)
  {
    if |s| >= MAX_ALPHA_SIZE then s[..MAX_ALPHA_SIZE] else s + seq(MAX_ALPHA_SIZE - |s|, _ => 0)
  }

  function LimitOf(lens: seq<int>, lo: int, hi: int): (r: seq<int>)
    ensures |r| == MAX_CODE_LEN
  {
    seq(MAX_CODE_LEN, n requires 0 <= n => if lo <= n <= hi then Used(lens, n) - 1 else 0)
  }

  function BaseOf(lens: seq<int>, lo: int, hi: int): (r: seq<int>)
    ensures |r| == MAX_CODE_LEN
  {
    seq(MAX_CODE_LEN, n requires 0 <= n => if lo <= n <= hi then First(lens, n) - CountBelow(lens, n) else CountBelow(lens, n))
  }

  /** The tables for the given lengths. */
  function MakeTable(lens: seq<int>): Table {
    var lo, hi := MinLen(lens, |lens|), MaxLen(lens, |lens|);
    Table(LimitOf(lens, lo, hi), BaseOf(lens, lo, hi), Padded(Sorted(lens, lo, hi)), lo)
  }

  lemma RowRange(row: seq<int>)
    requires RowOk(row) && row != []
    ensures 1 <= MinLen(row, |row|) <= MaxLen(row, |row|) <= LONGEST
    ensures Lengths(row, MinLen(row, |row|), MaxLen(row, |row|))
  {
    ExtremesBound(row, |row|);
    assert MinLen(row, |row|) <= row[0] <= MaxLen(row, |row|);
  }

  lemma {:induction false} HavingAt(lens: seq<int>, n: int, p: nat)
    requires p < |Having(lens, n)|
    ensures var k := Having(lens, n)[p]; 0 <= k < |lens| && lens[k] == n && CountOf(lens[..k], n) == p
  {
    var m := |lens| - 1;
    if p < |Having(lens[..m], n)| {
      HavingAt(lens[..m], n, p);
      assert lens[..m][..Having(lens, n)[p]] == lens[..Having(lens, n)[p]];
    }
  }

  lemma {:induction false} SortedAt(lens: seq<int>, lo: int, hi: int)
    requires lo <= hi + 1
    ensures |Sorted(lens, lo, hi)| == CountBelow(lens, hi + 1) - CountBelow(lens, lo)
    ensures forall p {:trigger Sorted(lens, lo, hi)[p]} :: 0 <= p < |Sorted(lens, lo, hi)| ==>
              0 <= Sorted(lens, lo, hi)[p] < |lens| && Place(lens, Sorted(lens, lo, hi)[p]) == CountBelow(lens, lo) + p
    decreases hi - lo + 1
  {
    if lo <= hi {
      SortedAt(lens, lo, hi - 1);
      CountSteps(lens, hi);
      forall p | 0 <= p < |Having(lens, hi)|
        ensures 0 <= Having(lens, hi)[p] < |lens| && Place(lens, Having(lens, hi)[p]) == CountBelow(lens, hi) + p
      {
        HavingAt(lens, hi, p);
      }
    }
  }

  lemma PlaceUnique(lens: seq<int>, i: nat, j: nat)
    requires i < |lens| && j < |lens| && Place(lens, i) == Place(lens, j)
    ensures i == j
  {
    if lens[i] < lens[j] || (lens[i] == lens[j] && i < j) {
      PlaceOrders(lens, i, j);
    } else if i != j {
      PlaceOrders(lens, j, i);
    }
  }

  lemma {:induction false} AllBelow(lens: seq<int>, c: int)
    requires forall i :: 0 <= i < |lens| ==> lens[i] < c
    ensures CountBelow(lens, c) == |lens|
  {
    if lens != [] {
      AllBelow(lens[..|lens| - 1], c);
    }
  }

  lemma SortedIsAll(lens: seq<int>, lo: int, hi: int)
    requires Lengths(lens, lo, hi) && lo <= hi
    ensures |Sorted(lens, lo, hi)| == |lens|
    ensures forall k: nat :: k < |lens| ==> Place(lens, k) < |lens| && Sorted(lens, lo, hi)[Place(lens, k)] == k
  {
    SortedAt(lens, lo, hi);
    AllBelow(lens, hi + 1);
    NoneBelow(lens, lo);
    forall k: nat | k < |lens|
      ensures Place(lens, k) < |lens| && Sorted(lens, lo, hi)[Place(lens, k)] == k
    {
      PlaceInRange(lens, k);
      PlaceUnique(lens, k, Sorted(lens, lo, hi)[Place(lens, k)]);
    }
  }

  lemma LimitMade(lens: seq<int>, lo: int, hi: int)
    ensures LimitTable(LimitOf(lens, lo, hi), lens, lo, hi)
  {
  }

  lemma BaseMade(lens: seq<int>, lo: int, hi: int)
    ensures BaseTable(BaseOf(lens, lo, hi), lens, lo, hi)
  {
  }

  lemma PermMade(lens: seq<int>, lo: int, hi: int)
    requires Lengths(lens, lo, hi) && lo <= hi && |lens| <= MAX_ALPHA_SIZE
    ensures PermTable(Padded(Sorted(lens, lo, hi)), lens, hi + 1, 0)
  {
    SortedIsAll(lens, lo, hi);
    var s := Sorted(lens, lo, hi);
    forall k: nat | k < |lens|
      ensures Place(lens, k) < |lens| && Padded(s)[Place(lens, k)] == k
    {
      assert Padded(s)[..|lens|][Place(lens, k)] == k;
    }
  }

  /** The tables are decoding tables for their lengths. */
  lemma MakesTables(lens: seq<int>)
    requires RowOk(lens) && 0 < |lens| <= MAX_ALPHA_SIZE
    ensures var t := MakeTable(lens); Tables(t.limit, t.base, t.perm, lens, t.minLen, MaxLen(lens, |lens|))
  {
    var lo, hi := MinLen(lens, |lens|), MaxLen(lens, |lens|);
    RowRange(lens);
    LimitMade(lens, lo, hi);
    BaseMade(lens, lo, hi);
    PermMade(lens, lo, hi);
  }

  lemma PermDetermined(perm: seq<int>, lens: seq<int>, lo: int, hi: int)
    requires Lengths(lens, lo, hi) && lo <= hi && PermTable(perm, lens, hi + 1, 0)
    ensures |lens| <= |perm| && perm[..|lens|] == Sorted(lens, lo, hi)
  {
    SortedIsAll(lens, lo, hi);
    SortedAt(lens, lo, hi);
    NoneBelow(lens, lo);
    var s := Sorted(lens, lo, hi);
    forall p | 0 <= p < |lens|
      ensures perm[p] == s[p]
    {
      var k: nat := s[p];
      assert Place(lens, k) == p;
    }
  }

  /** They are determined: all decoding tables for the same lengths agree wherever they are read. */
  lemma TablesDetermined(limit: seq<int>, perm: seq<int>, lens: seq<int>, lo: int, hi: int)
    requires Lengths(lens, lo, hi) && lo <= hi && LimitTable(limit, lens, lo, hi) && PermTable(perm, lens, hi + 1, 0)
    ensures limit == LimitOf(lens, lo, hi) && |lens| <= |perm| && perm[..|lens|] == Sorted(lens, lo, hi)
  {
    PermDetermined(perm, lens, lo, hi);
    LimitMade(lens, lo, hi);
  }

  method Extremes(length: seq<int>) returns (minLen: int, maxLen: int)
    ensures minLen == MinLen(length, |length|) && maxLen == MaxLen(length, |length|)
  {
    minLen, maxLen := 32, 0;
    for i := 0 to |length|
      invariant minLen == MinLen(length, i) && maxLen == MaxLen(length, i)
    {
      if length[i] > maxLen {
        maxLen := length[i];
      }
      if length[i] < minLen {
        minLen := length[i];
      }
    }
  }

  /** One table of the decoder: the extreme lengths, and then the tables. */
  method BuildTable(limit: array<int>, base: array<int>, perm: array<int>, length: seq<int>) returns (minLen: int)
    requires limit != base && limit != perm && base != perm
    requires RowOk(length) && 0 < |length| <= MAX_ALPHA_SIZE
    requires limit.Length == MAX_CODE_LEN && base.Length == MAX_CODE_LEN && perm.Length == MAX_ALPHA_SIZE
    modifies limit, base, perm
    ensures var t, hi := MakeTable(length), MaxLen(length, |length|);
      && minLen == t.minLen && limit[..] == t.limit && perm[..|length|] == t.perm[..|length|]
      && BaseTable(base[..], length, minLen, hi) && BaseTable(t.base, length, minLen, hi)
  {
    var maxLen;
    minLen, maxLen := Extremes(length);
    RowRange(length);
    CreateDecodeTables(limit, base, perm, length, minLen, maxLen);
    TablesDetermined(limit[..], perm[..], length, minLen, maxLen);
    BaseMade(length, minLen, maxLen);
    SortedIsAll(length, minLen, maxLen);
    assert perm[..][..|length|] == perm[..|length|];
  }
}
