/** Rescale: when a frequency has grown too large, the frequencies of its context are halved in place, the states sorted by
    them, and states that vanish dropped. The context stays well-formed. */
module PpmdRescale {
  import opened PpmdModel
  import opened PpmdScan
  import opened PpmdSteps
  import opened RangeCoder

  import Bits

  const MAX_FREQ := 124

  function Halve(s: State, adder: int): State {
    s.(freq := (s.freq + adder) / 2)
  }

  function HalveAll(stats: seq<State>, adder: int): (r: seq<State>)
    ensures |r| == |stats| && forall i :: 0 <= i < |stats| ==> r[i] == Halve(stats[i], adder)
  {
    if stats == [] then [] else HalveAll(stats[..|stats| - 1], adder) + [Halve(stats[|stats| - 1], adder)]
  }

  /** The state at place i comes first, with four more; the others follow in their order. */
  function Fronted(stats: seq<State>, i: nat): seq<State>
    requires i < |stats|
  {
    [stats[i].(freq := stats[i].freq + 4)] + stats[..i] + stats[i + 1..]
  }

  ghost predicate Descending(s: seq<State>) {
    forall i, j :: 0 <= i < j < |s| ==> s[i].freq >= s[j].freq
  }

  // ----- sums and symbols of pieces

  lemma {:induction false} WeightConcat(a: seq<State>, b: seq<State>)
    ensures Weight(a + b, {}) == Weight(a, {}) + Weight(b, {})
  {
    if b == [] {
      assert a + b == a;
    } else {
      WeightConcat(a, b[..|b| - 1]);
      assert (a + b)[..|a + b| - 1] == a + b[..|b| - 1];
    }
  }

  lemma {:induction false} SymbolsConcat(a: seq<State>, b: seq<State>)
    ensures Symbols(a + b) == Symbols(a) + Symbols(b)
  {
    if b == [] {
      assert a + b == a;
    } else {
      SymbolsConcat(a, b[..|b| - 1]);
      assert (a + b)[..|a + b| - 1] == a + b[..|b| - 1];
    }
  }

  ghost predicate Distinct(s: seq<State>) {
    forall i, j :: 0 <= i < j < |s| ==> s[i].symbol != s[j].symbol
  }

  lemma RotatedWeight(a: seq<State>, b: seq<State>, x: seq<State>)
    ensures Weight(a + x + b, {}) == Weight(a + b + x, {})
  {
    WeightConcat(a + x, b);
    WeightConcat(a, x);
    WeightConcat(a + b, x);
    WeightConcat(a, b);
  }

  lemma RotatedSymbols(a: seq<State>, b: seq<State>, x: seq<State>)
    ensures Symbols(a + x + b) == Symbols(a + b + x)
  {
    SymbolsConcat(a + x, b);
    SymbolsConcat(a, x);
    SymbolsConcat(a + b, x);
    SymbolsConcat(a, b);
  }

  lemma RotatedDistinct(a: seq<State>, b: seq<State>, x: State)
    requires Distinct(a + b + [x])
    ensures Distinct(a + [x] + b)
  {
    var s, t, n := a + b + [x], a + [x] + b, |a|;
    forall i | 0 <= i < |t|
      ensures t[i] == s[if i < n then i else if i == n then |s| - 1 else i - 1]
    {
    }
  }

  /** Moving the last state down changes neither the states nor their sum nor their symbols. */
  lemma RotatedParts(s: seq<State>, a: seq<State>, b: seq<State>, x: seq<State>)
    requires s == a + b + x
    ensures multiset(a + x + b) == multiset(s) && Weight(a + x + b, {}) == Weight(s, {}) && Symbols(a + x + b) == Symbols(s)
  {
    RotatedWeight(a, b, x);
    RotatedSymbols(a, b, x);
  }

  // ----- the steps

  /** The found state is moved to the front. */
  method ToFirst(stats: array<State>, n: nat, found: nat)
    requires found < n <= stats.Length
    modifies stats
    ensures stats[..n] == [old(stats[..])[found]] + old(stats[..])[..found] + old(stats[..])[found + 1..n] && stats[n..] == old(stats[..])[n..]
  {
    var tmp := stats[found];
    var s := found;
    while s != 0
      invariant s <= found
      invariant forall i :: 0 <= i < stats.Length ==> stats[i] == old(stats[if s < i <= found then i - 1 else i])
    {
      stats[s] := stats[s - 1];
      s := s - 1;
    }
    stats[0] := tmp;
    ShiftedUp(old(stats[..]), stats[..], n, found);
  }

  lemma ShiftedUp(was: seq<State>, now: seq<State>, n: nat, found: nat)
    requires found < n <= |was| == |now|
    requires forall i :: 0 <= i < |was| ==> now[i] == was[if i == 0 then found else if i <= found then i - 1 else i]
    ensures now[..n] == [was[found]] + was[..found] + was[found + 1..n] && now[n..] == was[n..]
  {
  }

  /** Place k of a sorted stretch takes its place among the states before it. */
  method Sink(stats: array<State>, k: nat) returns (ghost a: seq<State>, ghost b: seq<State>)
    requires 0 < k < stats.Length && Descending(stats[..k])
    modifies stats
    ensures old(stats[..k + 1]) == a + b + [old(stats[k])] && stats[..k + 1] == a + [old(stats[k])] + b
    ensures Descending(stats[..k + 1]) && stats[k + 1..] == old(stats[k + 1..])
  {
    a, b := stats[..k], [];
    ghost var was := stats[..];
    if stats[k].freq > stats[k - 1].freq {
      var tmp := stats[k];
      var s := k;
      stats[s] := stats[s - 1];
      s := s - 1;
      while s != 0 && tmp.freq > stats[s - 1].freq
        invariant 0 <= s < k && tmp == was[k] && tmp.freq > was[s].freq
        invariant forall i :: 0 <= i < stats.Length ==> stats[i] == was[if s < i <= k then i - 1 else i]
      {
        stats[s] := stats[s - 1];
        s := s - 1;
      }
      stats[s] := tmp;
      a, b := was[..s], was[s..k];
      SunkTo(was, stats[..], k, s);
    } else {
      StaysPut(was, k);
    }
  }

  lemma SunkTo(was: seq<State>, now: seq<State>, k: nat, s: nat)
    requires |now| == |was| && s < k < |was| && Descending(was[..k]) && was[k].freq > was[s].freq
    requires s == 0 || was[k].freq <= was[s - 1].freq
    requires forall i :: 0 <= i < |was| ==> now[i] == (if i == s then was[k] else was[if s < i <= k then i - 1 else i])
    ensures was[..k + 1] == was[..s] + was[s..k] + [was[k]] && now[..k + 1] == was[..s] + [was[k]] + was[s..k] && now[k + 1..] == was[k + 1..] && Descending(now[..k + 1])
  {
    var d, e := was[..k], now[..k + 1];
    assert forall x :: 0 <= x < k ==> d[x] == was[x];
    assert forall x :: 0 <= x < k + 1 ==> e[x] == now[x];
  }

  lemma StaysPut(was: seq<State>, k: nat)
    requires 0 < k < |was| && Descending(was[..k]) && was[k].freq <= was[k - 1].freq
    ensures was[..k + 1] == was[..k] + [was[k]] && Descending(was[..k + 1])
  {
    var d := was[..k];
    assert forall x :: 0 <= x < k ==> d[x] == was[x];
  }

  // ----- the halved states

  lemma HalvedDistinct(a: seq<State>, adder: int)
    requires Distinct(a)
    ensures Distinct(HalveAll(a, adder))
  {
  }

  /** Halving keeps the symbols, and twice the new sum is about the old one. */
  lemma {:induction false} HalvedSums(a: seq<State>, adder: int)
    requires 0 <= adder <= 1 && forall i :: 0 <= i < |a| ==> a[i].freq >= 0
    ensures Symbols(HalveAll(a, adder)) == Symbols(a)
    ensures 0 <= 2 * Weight(HalveAll(a, adder), {}) <= Weight(a, {}) + |a|
  {
    if a != [] {
      var k := |a| - 1;
      HalvedSums(a[..k], adder);
      assert HalveAll(a, adder)[..k] == HalveAll(a[..k], adder);
    }
  }

  lemma AddDistinct(s: seq<State>, x: State)
    requires Distinct(s) && x.symbol !in Symbols(s)
    ensures Distinct(s + [x])
  {
    forall i | 0 <= i < |s|
      ensures s[i].symbol != x.symbol
    {
      SymbolIn(s, i);
    }
  }

  lemma FrontedIs(s: seq<State>, found: nat)
    requires found < |s| && GoodStats(s) && s[found].freq <= 128
    ensures var a := Fronted(s, found);
      && |a| == |s| && Distinct(a) && Symbols(a) == Symbols(s) && Weight(a, {}) == Weight(s, {}) + 4
      && forall i :: 0 <= i < |a| ==> 0 < a[i].freq <= 255 && 0 <= a[i].symbol < MAX_BYTE
  {
    var l, r := s[..found], s[found + 1..];
    assert s == l + [s[found]] + r;
    FrontedSums(l, r, s[found]);
    FrontedAt(s, found);
    FrontedDistinct(s, found);
  }

  lemma FrontedAt(s: seq<State>, found: nat)
    requires found < |s|
    ensures var a := Fronted(s, found);
      |a| == |s| && forall i :: 0 <= i < |a| ==>
        a[i] == if i == 0 then s[found].(freq := s[found].freq + 4) else s[if i <= found then i - 1 else i]
  {
  }

  lemma FrontedDistinct(s: seq<State>, found: nat)
    requires found < |s| && Distinct(s)
    ensures Distinct(Fronted(s, found))
  {
    FrontedAt(s, found);
  }

  lemma FrontedSums(l: seq<State>, r: seq<State>, x: State)
    ensures var y := x.(freq := x.freq + 4);
      Weight([y] + l + r, {}) == Weight(l + [x] + r, {}) + 4 && Symbols([y] + l + r) == Symbols(l + [x] + r)
  {
    var y := x.(freq := x.freq + 4);
    WeightConcat([y] + l, r);
    WeightConcat([y], l);
    WeightConcat(l + [x], r);
    WeightConcat(l, [x]);
    SymbolsConcat([y] + l, r);
    SymbolsConcat([y], l);
    SymbolsConcat(l + [x], r);
    SymbolsConcat(l, [x]);
    assert [x][..0] == [] == [y][..0];
  }

  // ----- the loop

  /** The first i states are halved and in order; the others are as they were. */
  ghost predicate Partly(stats: seq<State>, a: seq<State>, h: seq<State>, i: nat, sum: int)
  {
    && |a| == |h| <= |stats| && i <= |a|
    && Descending(stats[..i]) && Distinct(stats[..i]) && Weight(stats[..i], {}) == sum == Weight(h[..i], {})
    && Symbols(stats[..i]) == Symbols(h[..i]) && multiset(stats[..i]) == multiset(h[..i]) && stats[i..|a|] == a[i..]
  }

  lemma MoreOf(p: seq<State>, q: seq<State>, x: State)
    requires Distinct(p) && Weight(p, {}) == Weight(q, {}) && Symbols(p) == Symbols(q) && multiset(p) == multiset(q) && x.symbol !in Symbols(q)
    ensures Distinct(p + [x]) && Weight(p + [x], {}) == Weight(p, {}) + x.freq == Weight(q + [x], {})
    ensures Symbols(p + [x]) == Symbols(q + [x]) && multiset(p + [x]) == multiset(q + [x])
  {
    AddDistinct(p, x);
    assert (p + [x])[..|p|] == p && (q + [x])[..|q|] == q;
  }

  /** One more state is halved, before it takes its place. */
  lemma OneMore(stats: seq<State>, a: seq<State>, h: seq<State>, i: nat, sum: int, now: seq<State>)
    requires Partly(stats, a, h, i, sum) && i < |a| && Distinct(h) && |now| == |stats| && now == stats[i := h[i]]
    ensures now[..i + 1] == stats[..i] + [h[i]] && Distinct(now[..i + 1]) && Weight(now[..i + 1], {}) == sum + h[i].freq == Weight(h[..i + 1], {})
    ensures Symbols(now[..i + 1]) == Symbols(h[..i + 1]) && multiset(now[..i + 1]) == multiset(h[..i + 1]) && now[i + 1..|a|] == a[i + 1..]
  {
    Fresh(h, i, i);
    MoreOf(stats[..i], h[..i], h[i]);
    assert h[..i + 1] == h[..i] + [h[i]] && now[..i + 1] == stats[..i] + [h[i]];
  }

  lemma Settled(now: seq<State>, a: seq<State>, h: seq<State>, i: nat, sum: int, fin: seq<State>, p: seq<State>, q: seq<State>)
    requires |a| == |h| <= |now| == |fin| && i < |a| && now[..i + 1] == p + q + [now[i]] && fin[..i + 1] == p + [now[i]] + q
    requires Descending(fin[..i + 1]) && fin[i + 1..] == now[i + 1..] && Distinct(now[..i + 1])
    requires Weight(now[..i + 1], {}) == sum == Weight(h[..i + 1], {}) && Symbols(now[..i + 1]) == Symbols(h[..i + 1])
    requires multiset(now[..i + 1]) == multiset(h[..i + 1]) && now[i + 1..|a|] == a[i + 1..]
    ensures Partly(fin, a, h, i + 1, sum)
  {
    RotatedParts(now[..i + 1], p, q, [now[i]]);
    RotatedDistinct(p, q, now[i]);
    assert fin[i + 1..|a|] == fin[i + 1..][..|a| - i - 1] == now[i + 1..|a|];
  }

  method HalveOne(stats: array<State>, i: nat, adder: int)
    requires i < stats.Length
    modifies stats
    ensures stats[..] == old(stats[..])[i := Halve(old(stats[i]), adder)]
  {
    stats[i] := stats[i].(freq := (stats[i].freq + adder) / 2);
  }

  method HalveNext(stats: array<State>, i: nat, adder: int, sum: int, escFreq: int, ghost a: seq<State>, ghost h: seq<State>)
    returns (sum1: int, escFreq1: int)
    requires Partly(stats[..], a, h, i, sum) && 0 < i < |a| && Distinct(h) && h == HalveAll(a, adder)
    modifies stats
    ensures Partly(stats[..], a, h, i + 1, sum1) && stats[|a|..] == old(stats[|a|..])
    ensures escFreq1 + Weight(a[..i + 1], {}) == escFreq + Weight(a[..i], {})
  {
    ghost var was := stats[..];
    assert was[i] == was[i..|a|][0] == a[i];
    WeightNext(a, {}, i);
    escFreq1 := escFreq - stats[i].freq;
    HalveOne(stats, i, adder);
    ghost var now := stats[..];
    OneMore(was, a, h, i, sum, now);
    sum1 := sum + stats[i].freq;
    assert stats[..i] == was[..i];
    ghost var p, q := Sink(stats, i);
    Settled(now, a, h, i, sum1, stats[..], p, q);
    assert stats[|a|..] == stats[i + 1..][|a| - i - 1..];
  }

  /** The found state first, with four more, and halved. */
  method HalveFirst(stats: array<State>, n: nat, found: nat, adder: int, summFreq: int, ghost a: seq<State>, ghost h: seq<State>)
    returns (sum: int, escFreq: int)
    requires 2 <= n <= stats.Length && found < n && a == Fronted(stats[..n], found) && h == HalveAll(a, adder)
    modifies stats
    ensures Partly(stats[..], a, h, 1, sum) && stats[n..] == old(stats[n..]) && escFreq + Weight(a[..1], {}) == summFreq + 4
  {
    assert stats[..n][..found] == stats[..found] && stats[..n][found + 1..] == stats[found + 1..n];
    ToFirst(stats, n, found);
    ghost var was := stats[..];
    escFreq := summFreq - stats[0].freq;
    stats[0] := stats[0].(freq := stats[0].freq + 4);
    stats[0] := stats[0].(freq := (stats[0].freq + adder) / 2);
    sum := stats[0].freq;
    Begun(was, stats[..], a, h, n, adder);
  }

  method HalveRest(stats: array<State>, n: nat, adder: int, sum0: int, escFreq0: int, ghost a: seq<State>, ghost h: seq<State>)
    returns (sum: int, escFreq: int)
    requires 2 <= n == |a| <= stats.Length && Distinct(h) && h == HalveAll(a, adder) && Partly(stats[..], a, h, 1, sum0)
    modifies stats
    ensures Partly(stats[..], a, h, n, sum) && stats[n..] == old(stats[n..])
    ensures escFreq + Weight(a[..n], {}) == escFreq0 + Weight(a[..1], {})
  {
    sum, escFreq := sum0, escFreq0;
    for i := 1 to n
      invariant Partly(stats[..], a, h, i, sum) && stats[n..] == old(stats[n..])
      invariant escFreq + Weight(a[..i], {}) == escFreq0 + Weight(a[..1], {})
    {
      sum, escFreq := HalveNext(stats, i, adder, sum, escFreq, a, h);
    }
  }

  /** The sorted states against those before. */
  ghost predicate Sorted(s: seq<State>, stats: seq<State>, found: nat, adder: int, sum: int)
    requires found < |stats|
  {
    var h := HalveAll(Fronted(stats, found), adder);
    Descending(s) && Distinct(s) && sum == Weight(s, {}) == Weight(h, {}) && Symbols(s) == Symbols(h) && multiset(s) == multiset(h)
  }

  lemma PartlyAll(stats: seq<State>, a: seq<State>, h: seq<State>, sum: int, was: seq<State>, found: nat, adder: int)
    requires found < |was| && a == Fronted(was, found) && h == HalveAll(a, adder) && Partly(stats, a, h, |a|, sum)
    ensures Sorted(stats[..|a|], was, found, adder, sum) && a[..|a|] == a
  {
    assert h[..|a|] == h;
  }

  /** The first steps: the found state first, all halved, all in order. */
  method HalveAndSort(stats: array<State>, n: nat, found: nat, adder: int, summFreq: int) returns (sum: int, escFreq: int)
    requires 2 <= n <= stats.Length && found < n && GoodStats(stats[..n]) && stats[found].freq <= 128 && 0 <= adder <= 1
    modifies stats
    ensures Sorted(stats[..n], old(stats[..n]), found, adder, sum)
    ensures stats[n..] == old(stats[n..]) && escFreq == summFreq - Weight(old(stats[..n]), {})
  {
    ghost var was := stats[..n];
    ghost var a := Fronted(was, found);
    ghost var h := HalveAll(a, adder);
    FrontedIs(was, found);
    HalvedDistinct(a, adder);
    sum, escFreq := HalveFirst(stats, n, found, adder, summFreq, a, h);
    sum, escFreq := HalveRest(stats, n, adder, sum, escFreq, a, h);
    PartlyAll(stats[..], a, h, sum, was, found, adder);
  }

  lemma Begun(was: seq<State>, now: seq<State>, a: seq<State>, h: seq<State>, n: nat, adder: int)
    requires 1 <= n == |a| <= |was| && h == HalveAll(a, adder)
    requires was[..n][1..] == a[1..] && was[0].(freq := was[0].freq + 4) == a[0]
    requires now == was[0 := h[0]]
    ensures Partly(now, a, h, 1, h[0].freq) && now[n..] == was[n..] && Weight(a[..1], {}) == a[0].freq
  {
    assert a[..1] == [a[0]] && [a[0]][..0] == [];
    assert now[..1] == [h[0]] == h[..1];
    assert [h[0]][..0] == [];
    assert now[1..n] == was[..n][1..];
  }

  // ----- what vanishes

  /** The states with frequency zero are at the end, and count for nothing in the sum. */
  lemma {:induction false} ZerosAtEnd(s: seq<State>, k: nat)
    requires k <= |s| && forall i :: k <= i < |s| ==> s[i].freq == 0
    ensures Weight(s, {}) == Weight(s[..k], {}) && Symbols(s[..k]) <= Symbols(s)
    decreases |s|
  {
    if k == |s| {
      assert s[..k] == s;
    } else {
      ZerosAtEnd(s[..|s| - 1], k);
      assert s[..|s| - 1][..k] == s[..k];
    }
  }

  /** Each state after sorting is a halved one. */
  lemma FromHalved(s: seq<State>, h: seq<State>, x: State) returns (i: nat)
    requires multiset(s) == multiset(h) && x in s
    ensures i < |h| && h[i] == x
  {
    assert x in multiset(h);
    i :| i < |h| && h[i] == x;
  }

  /** The state that was found had the largest frequency, and still has. */
  lemma FoundFirst(s: seq<State>, stats: seq<State>, found: nat, adder: int)
    requires found < |stats| && stats[found].freq > MAX_FREQ && 0 <= adder <= 1 && |s| > 0
    requires forall i :: 0 <= i < |stats| && i != found ==> stats[i].freq <= MAX_FREQ
    requires multiset(s) == multiset(HalveAll(Fronted(stats, found), adder)) && Descending(s)
    ensures s[0] == Halve(stats[found].(freq := stats[found].freq + 4), adder)
  {
    var a := Fronted(stats, found);
    var h := HalveAll(a, adder);
    assert forall y :: 0 < y < |a| ==> a[y] == stats[if y <= found then y - 1 else y];
    assert h[0] in multiset(s);
    var x :| 0 <= x < |s| && s[x] == h[0];
    var y := FromHalved(s, h, s[0]);
  }

  /** Frequencies after halving, before zeros are dropped. */
  lemma SortedRange(s: seq<State>, stats: seq<State>, found: nat, adder: int)
    requires found < |stats| && GoodStats(stats) && stats[found].freq <= 128 && 0 <= adder <= 1
    requires multiset(s) == multiset(HalveAll(Fronted(stats, found), adder))
    ensures forall i :: 0 <= i < |s| ==> 0 <= s[i].freq <= 128 && 0 <= s[i].symbol < MAX_BYTE && (adder == 1 ==> s[i].freq > 0)
  {
    FrontedIs(stats, found);
    forall i | 0 <= i < |s|
      ensures 0 <= s[i].freq <= 128 && 0 <= s[i].symbol < MAX_BYTE && (adder == 1 ==> s[i].freq > 0)
    {
      var y := FromHalved(s, HalveAll(Fronted(stats, found), adder), s[i]);
    }
  }

  /** All that the sorted states are good for. */
  lemma SortedFacts(s: seq<State>, stats: seq<State>, found: nat, adder: int, sum: int)
    requires found < |stats| == |s| && GoodStats(stats) && MAX_FREQ < stats[found].freq <= 128 && 0 <= adder <= 1
    requires forall i :: 0 <= i < |stats| && i != found ==> stats[i].freq <= MAX_FREQ
    requires Sorted(s, stats, found, adder, sum)
    ensures s[0].symbol == stats[found].symbol && s[0].freq > 0 && Symbols(s) == Symbols(stats)
    ensures forall i :: 0 <= i < |s| ==> 0 <= s[i].freq <= 128 && 0 <= s[i].symbol < MAX_BYTE && (adder == 1 ==> s[i].freq > 0)
    ensures 2 * sum <= Weight(stats, {}) + 4 + |stats|
  {
    FrontedIs(stats, found);
    HalvedSums(Fronted(stats, found), adder);
    SortedRange(s, stats, found, adder);
    FoundFirst(s, stats, found, adder);
  }

  /** A frequency halved and rounded up k times, where 2^k is the largest power of two up to the escape's count, but k is not 0. */
  ghost predicate HalvedTimes(freq: int, escFreq: int, freq1: int, k: nat) {
    && k > 0 && (k > 1 ==> Bits.Pow2(k) <= escFreq) && escFreq < Bits.Pow2(k + 1)
    && (freq1 - 1) * Bits.Pow2(k) < freq <= freq1 * Bits.Pow2(k)
  }

  ghost predicate LoneFreq(freq: int, escFreq: int, freq1: int) {
    exists k: nat :: HalvedTimes(freq, escFreq, freq1, k)
  }

  lemma HalvedMore(freq: int, freq1: int, p: nat, escFreq: int, esc: int)
    requires (freq1 - 1) * p < freq <= freq1 * p && esc * p <= escFreq < (esc + 1) * p && p >= 1
    ensures var f := freq1 - freq1 / 2; (f - 1) * (2 * p) < freq <= f * (2 * p)
    ensures esc / 2 * (2 * p) <= escFreq < (esc / 2 + 1) * (2 * p)
  {
    var f := freq1 - freq1 / 2;
    MulMono(2 * (f - 1), freq1 - 1, p);
    MulMono(freq1, 2 * f, p);
    MulMono(2 * (esc / 2), esc, p);
    MulMono(esc + 1, 2 * (esc / 2 + 1), p);
    assert 2 * (f - 1) * p == (f - 1) * (2 * p) && 2 * f * p == f * (2 * p);
    assert 2 * (esc / 2) * p == esc / 2 * (2 * p) && 2 * (esc / 2 + 1) * p == (esc / 2 + 1) * (2 * p);
  }

  /** The frequency of a lone state is halved until little is left for the escape. */
  method HalveLone(freq: int, escFreq: int) returns (freq1: int)
    requires 0 < freq <= 128 && escFreq >= 1
    ensures 0 < freq1 <= freq && LoneFreq(freq, escFreq, freq1)
  {
    ghost var k: nat := 1;
    assert Bits.Pow2(1) == 2 * Bits.Pow2(0) == 2;
    HalvedMore(freq, freq, 1, escFreq, escFreq);
    freq1 := freq - freq / 2;
    var esc := escFreq / 2;
    while esc > 1
      invariant 0 < freq1 <= freq && esc >= 0 && k > 0 && (k > 1 ==> esc >= 1)
      invariant (freq1 - 1) * Bits.Pow2(k) < freq <= freq1 * Bits.Pow2(k) && esc * Bits.Pow2(k) <= escFreq < (esc + 1) * Bits.Pow2(k)
      decreases esc
    {
      HalvedMore(freq, freq1, Bits.Pow2(k), escFreq, esc);
      freq1 := freq1 - freq1 / 2;
      esc := esc / 2;
      k := k + 1;
    }
    MulMono(esc + 1, 2, Bits.Pow2(k));
    assert k > 1 ==> esc == 1;
    assert HalvedTimes(freq, escFreq, freq1, k);
  }

  /** How many states have vanished. */
  method CountZeros(stats: array<State>, n: nat) returns (zeros: nat)
    requires 0 < n <= stats.Length && Descending(stats[..n]) && stats[0].freq > 0 && forall i :: 0 <= i < n ==> stats[i].freq >= 0
    ensures zeros < n && forall i :: 0 <= i < n ==> (stats[i].freq == 0 <==> i >= n - zeros)
  {
    zeros := 0;
    var s := n - 1;
    if stats[s].freq == 0 {
      zeros, s := 1, s - 1;
      while stats[s].freq == 0
        invariant 0 <= s == n - 1 - zeros && forall i :: s < i < n ==> stats[i].freq == 0
        decreases s
      {
        zeros, s := zeros + 1, s - 1;
      }
    }
    assert forall i :: 0 <= i < n ==> stats[..n][i] == stats[i];
  }

  /** The new sum leaves room for an escape, and fits its 16 bits. */
  lemma NewSum(summFreq: int, w: int, sum: int, n: int, zeros: int, esc: int)
    requires w < summFreq < MAX_WORD && 0 <= w && 2 * sum <= w + 4 + n && 0 <= sum && 0 <= zeros <= n <= 256 && esc == summFreq - w + zeros
    ensures sum < sum + esc - esc / 2 < MAX_WORD
  {
  }

  /** The states that are left. */
  lemma LeftOver(s: seq<State>, k: nat)
    requires 1 <= k <= |s| <= 256 && Distinct(s) && forall i :: 0 <= i < |s| ==> 0 <= s[i].freq <= 128 && 0 <= s[i].symbol < MAX_BYTE
    requires forall i :: 0 <= i < |s| ==> (s[i].freq == 0 <==> i >= k)
    ensures GoodStats(s[..k]) && Weight(s[..k], {}) == Weight(s, {}) >= 0 && Symbols(s[..k]) <= Symbols(s)
  {
    ZerosAtEnd(s, k);
    WeightBounds(s[..k], {});
  }

  /** What the sum left for the escape, and one for each state that is dropped. */
  function Escape(was: seq<State>, summ: int, numStats: nat): int {
    summ - Weight(was, {}) + |was| - numStats
  }

  /** The halved states, in order, and how many are left. */
  ghost predicate Shrunk(was: seq<State>, found: nat, orderFall: nat, s: seq<State>, numStats: nat)
    requires found < |was|
  {
    && |s| == |was| && 1 <= numStats <= |s| && GoodStats(s[..numStats]) && s[0].symbol == was[found].symbol
    && multiset(s) == multiset(HalveAll(Fronted(was, found), if orderFall != 0 then 1 else 0))
    && Descending(s) && (forall i :: numStats <= i < |s| ==> s[i].freq == 0)
    && Symbols(s[..numStats]) <= Symbols(was)
    && (orderFall != 0 ==> numStats == |s| && Symbols(s[..numStats]) == Symbols(was))
  }

  /** What Rescale leaves: the states are the halved ones in order of their frequencies, the found one first; those that
      vanish are dropped, and none does unless the order fall is zero. The sum leaves the escape half of what it had, rounded up;
      if only one state is left, its frequency is halved as often as the escape could be. */
  ghost predicate Rescaled(was: seq<State>, summ: int, found: nat, orderFall: nat, s: seq<State>, numStats: nat, summFreq: int, one: State)
    requires found < |was|
  {
    var esc := Escape(was, summ, numStats);
    && Shrunk(was, found, orderFall, s, numStats)
    && (numStats != 1 ==> summFreq == Weight(s[..numStats], {}) + esc - esc / 2 && esc > 0 && summFreq < MAX_WORD)
    && (numStats == 1 ==> one == s[0].(freq := one.freq) && 0 < one.freq <= 128 && LoneFreq(s[0].freq, esc, one.freq))
  }

  /** If only one state is left, its frequency is halved. */
  method LoneState(first: State, numStats: nat, escFreq: int) returns (one: State)
    requires numStats == 1 ==> 0 < first.freq <= 128 && escFreq > 0
    ensures numStats == 1 ==> one == first.(freq := one.freq) && 0 < one.freq <= 128 && LoneFreq(first.freq, escFreq, one.freq)
  {
    one := first;
    if numStats == 1 {
      var f := HalveLone(one.freq, escFreq);
      one := one.(freq := f);
    }
  }

  /** All states are halved and sorted, and those that vanish are counted. */
  method Shrink(stats: array<State>, n: nat, found: nat, summFreq: int, orderFall: nat)
    returns (numStats: nat, sum: int, escFreq: int)
    requires 2 <= n <= stats.Length && found < n && GoodStats(stats[..n]) && Weight(stats[..n], {}) < summFreq < MAX_WORD
    requires MAX_FREQ < stats[found].freq <= 128 && forall i :: 0 <= i < n && i != found ==> stats[i].freq <= MAX_FREQ
    modifies stats
    ensures Shrunk(old(stats[..n]), found, orderFall, stats[..n], numStats) && stats[n..] == old(stats[n..])
    ensures sum == Weight(stats[..numStats], {}) && escFreq == Escape(old(stats[..n]), summFreq, numStats)
    ensures sum < sum + escFreq - escFreq / 2 < MAX_WORD
  {
    var adder := if orderFall != 0 then 1 else 0;
    ghost var was := stats[..n];
    WeightBounds(was, {});
    sum, escFreq := HalveAndSort(stats, n, found, adder, summFreq);
    ghost var s := stats[..n];
    SortedFacts(s, was, found, adder, sum);
    var zeros := CountZeros(stats, n);
    numStats := n - zeros;
    LeftOver(s, numStats);
    assert numStats == n ==> s[..n] == s;
    assert s[..numStats] == stats[..numStats];
    escFreq := escFreq + zeros;
    NewSum(summFreq, Weight(was, {}), sum, n, zeros, escFreq);
  }

  method Rescale(stats: array<State>, n: nat, found: nat, summFreq: int, orderFall: nat)
    returns (numStats: nat, summFreq1: int, one: State)
    requires 2 <= n <= stats.Length && found < n && GoodStats(stats[..n]) && Weight(stats[..n], {}) < summFreq < MAX_WORD
    requires MAX_FREQ < stats[found].freq <= 128 && forall i :: 0 <= i < n && i != found ==> stats[i].freq <= MAX_FREQ
    modifies stats
    ensures Rescaled(old(stats[..n]), summFreq, found, orderFall, stats[..n], numStats, summFreq1, one) && stats[n..] == old(stats[n..])
  {
    ghost var was := stats[..n];
    var sum, escFreq;
    numStats, sum, escFreq := Shrink(stats, n, found, summFreq, orderFall);
    assert stats[..n][..numStats] == stats[..numStats];
    summFreq1 := sum + escFreq - escFreq / 2;
    one := LoneState(stats[0], numStats, escFreq);
  }

  /** The context as it is stored afterwards: a lone state in place. */
  function Stored(c: Context, s: seq<State>, numStats: nat, summFreq: int, one: State): Context
    requires numStats <= |s|
  {
    c.(stats := if numStats == 1 then [one] else s[..numStats], summFreq := summFreq)
  }

  /** A well-formed context stays so, and knows no symbol it did not know before. A context that knows every byte is
      rescaled with an order fall that is not zero, and so loses none. */
  lemma StaysGood(contexts: map<nat, Context>, c: Context, found: nat, orderFall: nat, s: seq<State>, numStats: nat, summFreq: int, one: State)
    requires GoodContext(contexts, c) && |c.stats| >= 2 && found < |c.stats| && (c.suffix == 0 ==> orderFall != 0)
    requires Rescaled(c.stats, c.summFreq, found, orderFall, s, numStats, summFreq, one)
    ensures var d := Stored(c, s, numStats, summFreq, one);
      GoodContext(contexts, d) && Symbols(d.stats) <= Symbols(c.stats) && (orderFall != 0 ==> Symbols(d.stats) == Symbols(c.stats))
  {
    if numStats == 1 {
      assert s[..1] == [s[0]] && [s[0]][..0] == [] == [one][..0];
      assert s[..1][0] == s[0];
    }
  }
}
