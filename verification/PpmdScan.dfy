/** The scans over the statistics of a context: the encoder looks for a symbol, the decoder for a count, and both end
    at the same place. */
module PpmdScan {
  import opened Permutations
  import opened PpmdModel
  import opened PpmdSteps

  lemma WeightNext(stats: seq<State>, masked: set<int>, i: nat)
    requires i < |stats|
    ensures Weight(stats[..i + 1], masked) == Weight(stats[..i], masked) + (if stats[i].symbol in masked then 0 else stats[i].freq)
  {
    assert stats[..i + 1][..i] == stats[..i];
  }

  lemma {:induction false} WeightMono(stats: seq<State>, masked: set<int>, i: nat, j: nat)
    requires i <= j <= |stats| && forall k :: 0 <= k < |stats| ==> 0 < stats[k].freq < MAX_BYTE
    ensures Weight(stats[..i], masked) <= Weight(stats[..j], masked)
    decreases j
  {
    if i < j {
      WeightMono(stats, masked, i, j - 1);
      WeightNext(stats, masked, j - 1);
    }
  }

  /** The count falls into the part of the symbol at place i. */
  ghost predicate Falls(stats: seq<State>, masked: set<int>, i: nat, count: int)
    requires i < |stats|
  {
    stats[i].symbol !in masked && Weight(stats[..i], masked) <= count < Weight(stats[..i], masked) + stats[i].freq
  }

  /** A count falls into one part only. */
  lemma OnePart(stats: seq<State>, masked: set<int>, i: nat, j: nat, count: int)
    requires i < |stats| && j < |stats| && Falls(stats, masked, i, count) && Falls(stats, masked, j, count)
    requires forall k :: 0 <= k < |stats| ==> 0 < stats[k].freq < MAX_BYTE
    ensures i == j
  {
    WeightNext(stats, masked, i);
    WeightNext(stats, masked, j);
    if i < j {
      WeightMono(stats, masked, i + 1, j);
    } else if j < i {
      WeightMono(stats, masked, j + 1, i);
    }
  }

  lemma {:induction false} IndexOf(stats: seq<State>, i: nat)
    requires i < |stats| && forall k :: 0 <= k < i ==> stats[k].symbol != stats[i].symbol
    ensures Index(stats, stats[i].symbol) == i
  {
    if i > 0 {
      assert stats[0].symbol != stats[i].symbol && stats[1..][i - 1] == stats[i];
      forall k | 0 <= k < i - 1
        ensures stats[1..][k].symbol != stats[i].symbol
      {
        assert stats[1..][k] == stats[k + 1];
      }
      IndexOf(stats[1..], i - 1);
    }
  }

  /** Whatever falls on a known symbol's part is read as that symbol's place. */
  lemma SamePlace(stats: seq<State>, masked: set<int>, symbol: int, i: nat, count: int)
    requires GoodStats(stats) && i < |stats| && Falls(stats, masked, i, count)
    requires var k := Index(stats, symbol); k < |stats| && Falls(stats, masked, k, count)
    ensures i == Index(stats, symbol) && stats[i].symbol == symbol
  {
    OnePart(stats, masked, i, Index(stats, symbol), count);
  }

  /** A count that falls on some part is below the sum. */
  lemma BelowSum(stats: seq<State>, masked: set<int>, i: nat, count: int)
    requires GoodStats(stats) && i < |stats| && Falls(stats, masked, i, count)
    ensures 0 <= count < Weight(stats, masked)
  {
    PartOfWeight(stats, masked, i);
  }

  /** The encoder's search in the first context. */
  method Find(stats: seq<State>, symbol: int) returns (i: nat, sum: int)
    requires |stats| > 0
    ensures i == Index(stats, symbol) && (i > 0 ==> sum == Weight(stats[..i], {}))
    ensures i == |stats| ==> sum == Weight(stats, {}) && symbol !in Symbols(stats)
  {
    i, sum := 0, 0;
    if stats[0].symbol == symbol {
      return;
    }
    i, sum := 1, stats[0].freq;
    WeightNext(stats, {}, 0);
    while i < |stats| && stats[i].symbol != symbol
      invariant 1 <= i <= |stats| && sum == Weight(stats[..i], {}) && forall k :: 0 <= k < i ==> stats[k].symbol != symbol
    {
      WeightNext(stats, {}, i);
      sum := sum + stats[i].freq;
      i := i + 1;
    }
    IndexIs(stats, symbol);
    if i < |stats| {
      IndexOf(stats, i);
    } else {
      assert stats[..i] == stats;
    }
  }

  /** The decoder's search in the first context, once the count lies beyond the first symbol. */
  method FindCount(stats: seq<State>, count: int) returns (i: nat, hiCnt: int)
    requires GoodStats(stats) && stats[0].freq <= count
    ensures i <= |stats| && hiCnt == Weight(stats[..if i < |stats| then i + 1 else i], {})
    ensures if i < |stats| then 0 < i && Falls(stats, {}, i, count) else Weight(stats, {}) <= count
  {
    i, hiCnt := 0, stats[0].freq;
    WeightNext(stats, {}, 0);
    while i < |stats|
      invariant i < |stats| && hiCnt == Weight(stats[..i + 1], {}) <= count
    {
      i := i + 1;
      if i == |stats| {
        assert stats[..i] == stats;
        return;
      }
      WeightNext(stats, {}, i);
      hiCnt := hiCnt + stats[i].freq;
      if hiCnt > count {
        return;
      }
    }
  }

  /** The encoder's scan of a suffix: symbols passed over are masked, and the sum is completed once the symbol is found. */
  method Scan(stats: seq<State>, masked: set<int>, symbol: int) returns (i: nat, low: int, sum: int, mask: set<int>)
    requires GoodStats(stats)
    ensures i == Index(stats, symbol) && low == Weight(stats[..i], masked) && sum == Weight(stats, masked)
    ensures i == |stats| ==> mask == masked + Symbols(stats) && symbol !in Symbols(stats)
  {
    i, sum, mask := 0, 0, masked;
    while i < |stats| && stats[i].symbol != symbol
      invariant i <= |stats| && sum == Weight(stats[..i], masked) && mask == masked + Symbols(stats[..i])
      invariant forall k :: 0 <= k < i ==> stats[k].symbol != symbol
    {
      WeightNext(stats, masked, i);
      PassedOver(stats, i);
      sum := sum + if stats[i].symbol in mask then 0 else stats[i].freq;
      mask := mask + {stats[i].symbol};
      i := i + 1;
    }
    IndexIs(stats, symbol);
    low := sum;
    if i < |stats| {
      IndexOf(stats, i);
      sum := Complete(stats, masked, i, sum, mask);
    } else {
      assert stats[..i] == stats;
    }
  }

  /** The rest of the sum once the symbol is found: what lies ahead is not yet masked. */
  method Complete(stats: seq<State>, ghost masked: set<int>, i: nat, low: int, mask: set<int>) returns (sum: int)
    requires GoodStats(stats) && i <= |stats| && low == Weight(stats[..i], masked) && mask == masked + Symbols(stats[..i])
    ensures sum == Weight(stats, masked)
  {
    sum := low;
    for j := i to |stats|
      invariant sum == Weight(stats[..j], masked)
    {
      WeightNext(stats, masked, j);
      Fresh(stats, i, j);
      sum := sum + if stats[j].symbol in mask then 0 else stats[j].freq;
    }
    assert stats[..|stats|] == stats;
  }

  lemma PassedOver(stats: seq<State>, i: nat)
    requires GoodStats(stats) && i < |stats|
    ensures stats[i].symbol !in Symbols(stats[..i]) && Symbols(stats[..i + 1]) == Symbols(stats[..i]) + {stats[i].symbol}
  {
    Fresh(stats, i, i);
    assert stats[..i + 1][..i] == stats[..i];
  }

  // ----- the decoder's list of open symbols

  /** The places of the symbols that are not masked. */
  function Opens(stats: seq<State>, masked: set<int>): seq<nat> {
    if stats == [] then []
    else
      var k := |stats| - 1;
      Opens(stats[..k], masked) + (if stats[k].symbol in masked then [] else [k])
  }

  function Sum(stats: seq<State>, ps: seq<nat>): int {
    if ps == [] then 0
    else
      var k := |ps| - 1;
      Sum(stats, ps[..k]) + (if ps[k] < |stats| then stats[ps[k]].freq else 0)
  }

  lemma {:induction false} OpensCount(stats: seq<State>, masked: set<int>)
    requires GoodStats(stats) || stats == []
    ensures |Opens(stats, masked)| == |Symbols(stats) - masked|
  {
    if stats != [] {
      var k := |stats| - 1;
      OpensCount(stats[..k], masked);
      PassedOver(stats, k);
      assert stats[..k + 1] == stats;
      assert Symbols(stats) - masked == (Symbols(stats[..k]) - masked) + (if stats[k].symbol in masked then {} else {stats[k].symbol});
    }
  }

  /** As many are open as the context has symbols beyond the masked ones. */
  lemma OpensAll(stats: seq<State>, masked: set<int>)
    requires GoodStats(stats) && masked <= Symbols(stats)
    ensures |Opens(stats, masked)| == |stats| - |masked|
  {
    OpensCount(stats, masked);
    SymbolsCount(stats);
    assert Symbols(stats) == (Symbols(stats) - masked) + masked;
  }

  lemma {:induction false} OpensPrefix(stats: seq<State>, masked: set<int>, j: nat)
    requires j <= |stats|
    ensures |Opens(stats[..j], masked)| <= |Opens(stats, masked)|
    ensures |Opens(stats[..j], masked)| == |Opens(stats, masked)| ==>
      Opens(stats[..j], masked) == Opens(stats, masked) && Weight(stats[..j], masked) == Weight(stats, masked)
  {
    if j == |stats| {
      assert stats[..j] == stats;
    } else {
      var k := |stats| - 1;
      OpensPrefix(stats[..k], masked, j);
      assert stats[..k][..j] == stats[..j];
    }
  }

  lemma OpensNext(stats: seq<State>, masked: set<int>, i: nat)
    requires i < |stats|
    ensures Opens(stats[..i + 1], masked) == Opens(stats[..i], masked) + (if stats[i].symbol in masked then [] else [i])
  {
    assert stats[..i + 1][..i] == stats[..i];
  }

  ghost predicate OpenAt(stats: seq<State>, masked: set<int>, ps: seq<nat>, k: nat)
    requires k < |ps|
  {
    ps[k] < |stats| && stats[ps[k]].symbol !in masked && Sum(stats, ps[..k]) == Weight(stats[..ps[k]], masked)
  }

  lemma {:induction false} SumPrefix(stats: seq<State>, n: nat, ps: seq<nat>)
    requires n <= |stats| && forall k :: 0 <= k < |ps| ==> ps[k] < n
    ensures Sum(stats[..n], ps) == Sum(stats, ps)
  {
    if ps != [] {
      SumPrefix(stats, n, ps[..|ps| - 1]);
    }
  }

  lemma {:induction false} OpensAre(stats: seq<State>, masked: set<int>, k: nat)
    requires k < |Opens(stats, masked)|
    ensures OpenAt(stats, masked, Opens(stats, masked), k)
  {
    var n := |stats| - 1;
    var ps := Opens(stats[..n], masked);
    OpensLow(stats[..n], masked);
    if k < |ps| {
      OpensAre(stats[..n], masked, k);
      assert stats[..n][..ps[k]] == stats[..ps[k]] && Opens(stats, masked)[..k] == ps[..k];
      SumPrefix(stats, n, ps[..k]);
    } else {
      assert Opens(stats, masked)[..k] == ps;
      OpensSum(stats[..n], masked);
      SumPrefix(stats, n, ps);
    }
  }

  lemma {:induction false} OpensLow(stats: seq<State>, masked: set<int>)
    ensures forall k :: 0 <= k < |Opens(stats, masked)| ==> Opens(stats, masked)[k] < |stats|
  {
    if stats != [] {
      OpensLow(stats[..|stats| - 1], masked);
    }
  }

  lemma {:induction false} OpensSum(stats: seq<State>, masked: set<int>)
    ensures Sum(stats, Opens(stats, masked)) == Weight(stats, masked)
  {
    if stats != [] {
      var n := |stats| - 1;
      var ps := Opens(stats[..n], masked);
      OpensLow(stats[..n], masked);
      OpensSum(stats[..n], masked);
      SumPrefix(stats, n, ps);
      if stats[n].symbol !in masked {
        assert (ps + [n])[..|ps|] == ps;
      } else {
        assert ps + [] == ps;
      }
    }
  }

  /** The decoder's scan of a suffix: it ends as soon as the expected number of open symbols has been seen. */
  method Gather(stats: seq<State>, masked: set<int>, num: nat) returns (ps: seq<nat>, hiCnt: int)
    requires GoodStats(stats) && masked <= Symbols(stats) && num == |stats| - |masked| > 0
    ensures ps == Opens(stats, masked) && hiCnt == Weight(stats, masked)
  {
    OpensAll(stats, masked);
    assert stats[..|stats|] == stats;
    var s := 0;
    ps, hiCnt := [], 0;
    while |ps| != num
      invariant s <= |stats| && ps == Opens(stats[..s], masked) && hiCnt == Weight(stats[..s], masked)
      decreases |stats| - s
    {
      OpensNext(stats, masked, s);
      WeightNext(stats, masked, s);
      if stats[s].symbol !in masked {
        hiCnt := hiCnt + stats[s].freq;
        ps := ps + [s];
      }
      s := s + 1;
    }
    OpensPrefix(stats, masked, s);
  }

  /** The decoder's search among the open symbols. */
  method Pick(stats: seq<State>, ghost masked: set<int>, ps: seq<nat>, count: int) returns (i: nat, hiCnt: int)
    requires GoodStats(stats) && ps == Opens(stats, masked) && 0 <= count < Weight(stats, masked)
    ensures i < |stats| && Falls(stats, masked, i, count) && hiCnt == Weight(stats[..i], masked) + stats[i].freq
  {
    OpensSum(stats, masked);
    var k := 0;
    assert ps[..|ps|] == ps;
    OpensAre(stats, masked, 0);
    hiCnt := stats[ps[0]].freq;
    while hiCnt <= count
      invariant k < |ps| && OpenAt(stats, masked, ps, k) && hiCnt == Sum(stats, ps[..k]) + stats[ps[k]].freq
      invariant Sum(stats, ps[..k]) <= count
      decreases |ps| - k
    {
      SumNext(stats, ps, k);
      k := k + 1;
      OpensAre(stats, masked, k);
      hiCnt := hiCnt + stats[ps[k]].freq;
    }
    i := ps[k];
  }

  lemma SumNext(stats: seq<State>, ps: seq<nat>, k: nat)
    requires k < |ps| && ps[k] < |stats|
    ensures Sum(stats, ps[..k + 1]) == Sum(stats, ps[..k]) + stats[ps[k]].freq
  {
    assert ps[..k + 1][..k] == ps[..k];
  }

  /** Masking the open symbols masks all of the context's. */
  method MaskAll(stats: seq<State>, masked: set<int>, ps: seq<nat>) returns (mask: set<int>)
    requires GoodStats(stats) && ps == Opens(stats, masked)
    ensures mask == masked + Symbols(stats)
  {
    mask := masked;
    OpensLow(stats, masked);
    for i := |ps| downto 0
      invariant mask == masked + (set k | i <= k < |ps| :: stats[ps[k]].symbol)
    {
      mask := mask + {stats[ps[i]].symbol};
    }
    Covered(stats, masked, ps, mask);
  }

  lemma Covered(stats: seq<State>, masked: set<int>, ps: seq<nat>, mask: set<int>)
    requires ps == Opens(stats, masked) && forall k :: 0 <= k < |ps| ==> ps[k] < |stats|
    requires mask == masked + (set k | 0 <= k < |ps| :: stats[ps[k]].symbol)
    ensures mask == masked + Symbols(stats)
  {
    forall x | x in Symbols(stats) && x !in masked
      ensures x in mask
    {
      var i := SymbolAt(stats, x);
      var k := OpensCover(stats, masked, i);
      assert stats[ps[k]].symbol == x;
    }
    forall k | 0 <= k < |ps|
      ensures stats[ps[k]].symbol in Symbols(stats)
    {
      SymbolIn(stats, ps[k]);
    }
  }

  lemma {:induction false} OpensCover(stats: seq<State>, masked: set<int>, i: nat) returns (k: nat)
    requires i < |stats| && stats[i].symbol !in masked
    ensures k < |Opens(stats, masked)| && Opens(stats, masked)[k] == i
  {
    if i == |stats| - 1 {
      k := |Opens(stats, masked)| - 1;
    } else {
      k := OpensCover(stats[..|stats| - 1], masked, i);
    }
  }
}
