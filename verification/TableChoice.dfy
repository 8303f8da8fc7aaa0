/** How sendMTFValues arrives at its coding tables: four rounds of giving every group of symbols the cheapest table and
    making new code lengths from the symbols each table got. */
module TableChoice {
  import opened Permutations
  import opened Counting
  import opened Bits
  import opened HuffmanCodes
  import opened HuffmanTree
  import opened HuffmanKraft
  import opened HuffmanLengths
  import opened DecodeTables
  import opened Wire
  import opened MtfStage

  const N_ITERS := 4
  const N_GROUPS := 6
  const MAX_LEN := 17

  /** The number of coding tables for a number of symbols. */
  function NGroups(nMTF: nat): (n: nat)
    ensures 2 <= n <= 6
  {
    if nMTF < 200 then 2 else if nMTF < 600 then 3 else if nMTF < 1200 then 4 else if nMTF < 2400 then 5 else 6
  }

  /** What symbols gs up to ge would cost with a table. */
  function Cost(row: seq<int>, mtfv: seq<int>, gs: nat, ge: nat): int
    decreases ge - gs
  {
    if ge <= gs || ge > |mtfv| || !(0 <= mtfv[ge - 1] < |row|) then 0 else Cost(row, mtfv, gs, ge - 1) + row[mtfv[ge - 1]]
  }

  ghost predicate Costs(lens: seq<seq<int>>, alphaSize: nat) {
    forall t :: 0 <= t < |lens| ==> |lens[t]| == alphaSize && forall v :: 0 <= v < alphaSize ==> 0 <= lens[t][v] <= LONGEST
  }

  lemma {:induction false} CostBound(row: seq<int>, mtfv: seq<int>, gs: nat, ge: nat)
    requires gs <= ge && forall v :: 0 <= v < |row| ==> 0 <= row[v] <= LONGEST
    ensures 0 <= Cost(row, mtfv, gs, ge) <= LONGEST * (ge - gs)
    decreases ge - gs
  {
    if gs < ge {
      CostBound(row, mtfv, gs, ge - 1);
    }
  }

  /** The costs of one group with every table; they fit 16 bits. */
  method GroupCosts(lens: seq<seq<int>>, mtfv: seq<int>, gs: nat, ge: nat, ghost alphaSize: nat) returns (cost: array<int>)
    requires |lens| <= N_GROUPS && Costs(lens, alphaSize) && InRange(mtfv, alphaSize) && gs < ge <= |mtfv| && ge <= gs + G_SIZE
    ensures fresh(cost) && cost.Length == N_GROUPS
    ensures forall t :: 0 <= t < |lens| ==> cost[t] == Cost(lens[t], mtfv, gs, ge) <= 1000
  {
    cost := new int[N_GROUPS];
    for t := 0 to |lens|
      invariant forall k :: 0 <= k < t ==> cost[k] == 0
    {
      cost[t] := 0;
    }
    for i := gs to ge
      invariant forall t :: 0 <= t < |lens| ==> cost[t] == Cost(lens[t], mtfv, gs, i)
    {
      var icv := mtfv[i];
      for t := 0 to |lens|
        invariant forall k :: 0 <= k < t ==> cost[k] == Cost(lens[k], mtfv, gs, i + 1)
        invariant forall k :: t <= k < |lens| ==> cost[k] == Cost(lens[k], mtfv, gs, i)
      {
        cost[t] := cost[t] + lens[t][icv];
      }
    }
    forall t | 0 <= t < |lens|
      ensures cost[t] <= 1000
    {
      CostBound(lens[t], mtfv, gs, ge);
    }
  }

  /** Two costs in one 32-bit word. */
  function Packed(high: int, low: int): int {
    0x1_0000 * high + low
  }

  lemma Unpacked(high: int, low: int)
    requires 0 <= low < 0x1_0000
    ensures Packed(high, low) % 0x1_0000 == low && Packed(high, low) / 0x1_0000 == high
  {
  }

  /** The common case, six tables and a full group, adds up two costs at a time without one running into the other. */
  method FullGroupCosts(lens: seq<seq<int>>, mtfv: seq<int>, gs: nat, ghost alphaSize: nat) returns (cost: array<int>)
    requires |lens| == 6 && Costs(lens, alphaSize) && InRange(mtfv, alphaSize) && gs + G_SIZE <= |mtfv|
    ensures fresh(cost) && cost.Length == N_GROUPS
    ensures forall t :: 0 <= t < 6 ==> cost[t] == Cost(lens[t], mtfv, gs, gs + G_SIZE) <= 1000
  {
    var cost01, cost23, cost45 := 0, 0, 0;
    for i := gs to gs + G_SIZE
      invariant cost01 == Packed(Cost(lens[1], mtfv, gs, i), Cost(lens[0], mtfv, gs, i))
      invariant cost23 == Packed(Cost(lens[3], mtfv, gs, i), Cost(lens[2], mtfv, gs, i))
      invariant cost45 == Packed(Cost(lens[5], mtfv, gs, i), Cost(lens[4], mtfv, gs, i))
    {
      var icv := mtfv[i];
      cost01 := cost01 + Packed(lens[1][icv], lens[0][icv]);
      cost23 := cost23 + Packed(lens[3][icv], lens[2][icv]);
      cost45 := cost45 + Packed(lens[5][icv], lens[4][icv]);
    }
    forall t | 0 <= t < 6
      ensures 0 <= Cost(lens[t], mtfv, gs, gs + G_SIZE) <= 1000
    {
      CostBound(lens[t], mtfv, gs, gs + G_SIZE);
    }
    cost := new int[N_GROUPS];
    ghost var ge := gs + G_SIZE;
    Unpacked(Cost(lens[1], mtfv, gs, ge), Cost(lens[0], mtfv, gs, ge));
    Unpacked(Cost(lens[3], mtfv, gs, ge), Cost(lens[2], mtfv, gs, ge));
    Unpacked(Cost(lens[5], mtfv, gs, ge), Cost(lens[4], mtfv, gs, ge));
    cost[0], cost[1] := cost01 % 0x1_0000, cost01 / 0x1_0000;
    cost[2], cost[3] := cost23 % 0x1_0000, cost23 / 0x1_0000;
    cost[4], cost[5] := cost45 % 0x1_0000, cost45 / 0x1_0000;
  }

  /** The first of the cheapest tables. */
  ghost predicate Cheapest(lens: seq<seq<int>>, mtfv: seq<int>, gs: nat, ge: nat, bt: int) {
    && 0 <= bt < |lens|
    && forall t :: 0 <= t < |lens| ==>
         Cost(lens[bt], mtfv, gs, ge) <= Cost(lens[t], mtfv, gs, ge) && (t < bt ==> Cost(lens[bt], mtfv, gs, ge) < Cost(lens[t], mtfv, gs, ge))
  }

  method BestTable(lens: seq<seq<int>>, mtfv: seq<int>, gs: nat, ge: nat, ghost alphaSize: nat) returns (bt: int)
    requires 1 <= |lens| <= N_GROUPS && Costs(lens, alphaSize) && InRange(mtfv, alphaSize) && gs < ge <= |mtfv| && ge <= gs + G_SIZE
    ensures Cheapest(lens, mtfv, gs, ge, bt)
  {
    var cost;
    if |lens| == 6 && 50 == ge - gs {
      cost := FullGroupCosts(lens, mtfv, gs, alphaSize);
    } else {
      cost := GroupCosts(lens, mtfv, gs, ge, alphaSize);
    }
    var bc := 999999999;
    bt := -1;
    for t := 0 to |lens|
      invariant t > 0 ==> 0 <= bt < t && bc == cost[bt]
      invariant t == 0 ==> bc == 999999999
      invariant forall k :: 0 <= k < t ==> bc <= cost[k] && (k < bt ==> bc < cost[k])
    {
      if cost[t] < bc {
        bc := cost[t];
        bt := t;
      }
    }
  }

  // ----- frequencies

  /** seen[t] lists the symbols that table t got. */
  ghost predicate Seen(rfreq: array2<int>, seen: seq<seq<int>>, alphaSize: nat, total: nat)
    reads rfreq
  {
    && |seen| == N_GROUPS == rfreq.Length0 && alphaSize <= rfreq.Length1
    && (forall t :: 0 <= t < N_GROUPS ==> |seen[t]| <= total)
    && forall t, v :: 0 <= t < N_GROUPS && 0 <= v < alphaSize ==> rfreq[t, v] == CountOf(seen[t], v)
  }

  method CountOne(rfreq: array2<int>, bt: int, c: int, ghost seen0: seq<seq<int>>, ghost alphaSize: nat, ghost total: nat)
    returns (ghost seen: seq<seq<int>>)
    requires Seen(rfreq, seen0, alphaSize, total) && 0 <= bt < N_GROUPS && 0 <= c < alphaSize
    modifies rfreq
    ensures Seen(rfreq, seen, alphaSize, total + 1) && seen == seen0[bt := seen0[bt] + [c]]
  {
    rfreq[bt, c] := rfreq[bt, c] + 1;
    assert (seen0[bt] + [c])[..|seen0[bt]|] == seen0[bt];
    seen := seen0[bt := seen0[bt] + [c]];
  }

  /** The symbols of a group are counted for its table. */
  method CountGroup(rfreq: array2<int>, bt: int, mtfv: seq<int>, gs: nat, ge: nat, ghost seen0: seq<seq<int>>, ghost alphaSize: nat)
    returns (ghost seen: seq<seq<int>>)
    requires Seen(rfreq, seen0, alphaSize, gs) && 0 <= bt < N_GROUPS && gs <= ge <= |mtfv| && InRange(mtfv, alphaSize)
    modifies rfreq
    ensures Seen(rfreq, seen, alphaSize, ge) && seen == seen0[bt := seen0[bt] + mtfv[gs..ge]]
  {
    seen := seen0;
    assert seen0[bt] + mtfv[gs..gs] == seen0[bt];
    for i := gs to ge
      invariant Seen(rfreq, seen, alphaSize, i) && seen == seen0[bt := seen0[bt] + mtfv[gs..i]]
    {
      assert seen0[bt] + mtfv[gs..i + 1] == seen0[bt] + mtfv[gs..i] + [mtfv[i]];
      seen := CountOne(rfreq, bt, mtfv[i], seen, alphaSize, i);
    }
  }

  /** Group k: 50 symbols, or what is left. */
  function Group(mtfv: seq<int>, k: nat): seq<int> {
    if |mtfv| <= G_SIZE * k then [] else if |mtfv| <= G_SIZE * k + G_SIZE then mtfv[G_SIZE * k..] else mtfv[G_SIZE * k..G_SIZE * k + G_SIZE]
  }

  /** The groups that selected table t, one behind the other. */
  function Share(mtfv: seq<int>, selector: seq<int>, t: int): seq<int> {
    if selector == [] then []
    else
      var k := |selector| - 1;
      Share(mtfv, selector[..k], t) + if selector[k] == t then Group(mtfv, k) else []
  }

  ghost predicate Shares(seen: seq<seq<int>>, mtfv: seq<int>, selector: seq<int>) {
    |seen| == N_GROUPS && forall t :: 0 <= t < N_GROUPS ==> seen[t] == Share(mtfv, selector, t)
  }

  lemma NextShare(seen: seq<seq<int>>, mtfv: seq<int>, selector: seq<int>, bt: int)
    requires Shares(seen, mtfv, selector) && 0 <= bt < N_GROUPS
    ensures Shares(seen[bt := seen[bt] + Group(mtfv, |selector|)], mtfv, selector + [bt])
  {
    assert (selector + [bt])[..|selector|] == selector;
  }

  /** Every group gets a selector: the cheapest table. */
  ghost predicate Selected(selector: seq<int>, lens: seq<seq<int>>, mtfv: seq<int>, upto: nat) {
    && (forall k :: 0 <= k < |selector| ==> Cheapest(lens, mtfv, G_SIZE * k, if G_SIZE * (k + 1) < |mtfv| then G_SIZE * (k + 1) else |mtfv|, selector[k]))
    && upto == if G_SIZE * |selector| < |mtfv| then G_SIZE * |selector| else |mtfv|
  }

  /** Where group k begins, or the end. */
  function GroupStart(mtfv: seq<int>, k: nat): nat {
    if G_SIZE * k < |mtfv| then G_SIZE * k else |mtfv|
  }

  lemma NextSelected(selector: seq<int>, lens: seq<seq<int>>, mtfv: seq<int>, bt: int)
    requires Selected(selector, lens, mtfv, GroupStart(mtfv, |selector|)) && G_SIZE * |selector| < |mtfv|
    requires Cheapest(lens, mtfv, G_SIZE * |selector|, GroupStart(mtfv, |selector| + 1), bt)
    ensures Selected(selector + [bt], lens, mtfv, GroupStart(mtfv, |selector| + 1))
  {
    var selector1, n := selector + [bt], |selector|;
    forall k | 0 <= k < |selector1|
      ensures Cheapest(lens, mtfv, G_SIZE * k, if G_SIZE * (k + 1) < |mtfv| then G_SIZE * (k + 1) else |mtfv|, selector1[k])
    {
      assert k < n ==> selector1[k] == selector[k];
    }
  }

  /** The cheapest table for the group that begins at gs. */
  method PickTable(lens: seq<seq<int>>, mtfv: seq<int>, gs: nat, ghost k: nat, ghost alphaSize: nat) returns (bt: int, ge: nat)
    requires 1 <= |lens| <= N_GROUPS && Costs(lens, alphaSize) && InRange(mtfv, alphaSize) && gs == G_SIZE * k < |mtfv|
    ensures ge == GroupStart(mtfv, k + 1) && Cheapest(lens, mtfv, gs, ge, bt)
  {
    var last := gs + G_SIZE - 1;
    if last >= |mtfv| {
      last := |mtfv| - 1;
    }
    ge := last + 1;
    bt := BestTable(lens, mtfv, gs, ge, alphaSize);
  }

  /** One group: its cheapest table is selected, and its symbols are counted for that table. */
  method SelectGroup(lens: seq<seq<int>>, mtfv: seq<int>, rfreq: array2<int>, selector0: seq<int>, gs: nat, ghost seen0: seq<seq<int>>,
                     ghost alphaSize: nat)
    returns (selector: seq<int>, ge: nat, ghost seen: seq<seq<int>>)
    requires 1 <= |lens| <= N_GROUPS && Costs(lens, alphaSize) && InRange(mtfv, alphaSize)
    requires gs == G_SIZE * |selector0| < |mtfv| && Selected(selector0, lens, mtfv, gs) && InRange(selector0, |lens|)
    requires Seen(rfreq, seen0, alphaSize, gs) && Shares(seen0, mtfv, selector0)
    modifies rfreq
    ensures |selector| == |selector0| + 1 && ge == GroupStart(mtfv, |selector|)
    ensures Selected(selector, lens, mtfv, ge) && InRange(selector, |lens|)
    ensures Seen(rfreq, seen, alphaSize, ge) && Shares(seen, mtfv, selector)
  {
    var bt;
    bt, ge := PickTable(lens, mtfv, gs, |selector0|, alphaSize);
    NextSelected(selector0, lens, mtfv, bt);
    NextShare(seen0, mtfv, selector0, bt);
    GroupIs(mtfv, |selector0|);
    selector := selector0 + [bt];
    seen := CountGroup(rfreq, bt, mtfv, gs, ge, seen0, alphaSize);
  }

  lemma GroupIs(mtfv: seq<int>, k: nat)
    requires G_SIZE * k < |mtfv|
    ensures GroupStart(mtfv, k + 1) <= |mtfv| && Group(mtfv, k) == mtfv[G_SIZE * k..GroupStart(mtfv, k + 1)]
  {
  }

  method SelectTables(lens: seq<seq<int>>, mtfv: seq<int>, rfreq: array2<int>, alphaSize: nat)
    returns (selector: seq<int>, ghost seen: seq<seq<int>>)
    requires 1 <= |lens| <= N_GROUPS && Costs(lens, alphaSize) && InRange(mtfv, alphaSize)
    requires rfreq.Length0 == N_GROUPS && alphaSize <= rfreq.Length1
    modifies rfreq
    ensures Selected(selector, lens, mtfv, |mtfv|) && InRange(selector, |lens|)
    ensures |mtfv| > 0 ==> G_SIZE * (|selector| - 1) < |mtfv| <= G_SIZE * |selector|
    ensures Seen(rfreq, seen, alphaSize, |mtfv|) && Shares(seen, mtfv, selector)
  {
    seen := ClearFrequencies(rfreq, alphaSize);
    selector := [];
    var gs := 0;
    while gs < |mtfv|
      invariant gs == GroupStart(mtfv, |selector|) && (|selector| > 0 ==> G_SIZE * (|selector| - 1) < |mtfv|)
      invariant Selected(selector, lens, mtfv, gs) && InRange(selector, |lens|)
      invariant Seen(rfreq, seen, alphaSize, gs) && Shares(seen, mtfv, selector)
      decreases |mtfv| - gs
    {
      selector, gs, seen := SelectGroup(lens, mtfv, rfreq, selector, gs, seen, alphaSize);
    }
  }

  method ClearFrequencies(rfreq: array2<int>, alphaSize: nat) returns (ghost seen: seq<seq<int>>)
    requires rfreq.Length0 == N_GROUPS && alphaSize <= rfreq.Length1
    modifies rfreq
    ensures Seen(rfreq, seen, alphaSize, 0) && forall t :: 0 <= t < N_GROUPS ==> seen[t] == []
  {
    for t := 0 to N_GROUPS
      invariant forall k, v :: 0 <= k < t && 0 <= v < alphaSize ==> rfreq[k, v] == 0
    {
      for v := 0 to alphaSize
        invariant forall k, v :: 0 <= k < t && 0 <= v < alphaSize ==> rfreq[k, v] == 0
        invariant forall u :: 0 <= u < v ==> rfreq[t, u] == 0
      {
        rfreq[t, v] := 0;
      }
    }
    seen := [[], [], [], [], [], []];
  }

  // ----- new lengths

  lemma {:induction false} FrequencyTotal(freq: seq<int>, s: seq<int>)
    requires forall v :: 0 <= v < |freq| ==> freq[v] == CountOf(s, v)
    ensures 0 <= Total(LeafWeights(freq)) <= CountBelow(s, |freq|) + |freq|
  {
    if freq != [] {
      var k := |freq| - 1;
      FrequencyTotal(freq[..k], s);
      assert LeafWeights(freq)[..k] == LeafWeights(freq[..k]);
      CountSteps(s, k);
    }
  }

  function CountsIn(s: seq<int>, alphaSize: nat): (r: seq<int>)
    ensures |r| == alphaSize
  {
    seq(alphaSize, v => CountOf(s, v))
  }

  /** No code is shorter for the symbols in s, each counted at least once; if they are too heavy, for their counts as they are halved. */
  ghost predicate BestCode(row: seq<int>, s: seq<int>, alphaSize: nat) {
    && (exists rounds: nat :: LeastCost(CountsIn(s, alphaSize), rounds, row) && TooHeavy(LeafWeights(CountsIn(s, alphaSize)), rounds, MAX_LEN))
    && (|s| + alphaSize < Fib(MAX_LEN + 3) ==> LeastCost(CountsIn(s, alphaSize), 0, row))
  }

  lemma LightCode(row: seq<int>, s: seq<int>, alphaSize: nat, rounds: nat)
    requires LeastCost(CountsIn(s, alphaSize), rounds, row) && TooHeavy(LeafWeights(CountsIn(s, alphaSize)), rounds, MAX_LEN)
    ensures BestCode(row, s, alphaSize)
  {
    var freq := CountsIn(s, alphaSize);
    FrequencyTotal(freq, s);
    CountSteps(s, alphaSize);
    if rounds > 0 {
      assert RescaledTimes(LeafWeights(freq), 0) == LeafWeights(freq);
    }
  }

  /** The code lengths of one table, a complete prefix code with codes for all symbols. */
  method NewLengths(rfreq: array2<int>, t: int, alphaSize: nat, ghost s: seq<int>) returns (row: seq<int>)
    requires 0 <= t < rfreq.Length0 && 3 <= alphaSize <= MAX_ALPHA_SIZE && alphaSize <= rfreq.Length1 && |s| <= 900001
    requires forall v :: 0 <= v < alphaSize ==> rfreq[t, v] == CountOf(s, v)
    ensures |row| == alphaSize && Lengths(row, 1, MAX_LEN) && Weight(row, MAX_LEN) == Pow2(MAX_LEN) && BestCode(row, s, alphaSize)
  {
    var freq: seq<int> := [];
    for v := 0 to alphaSize
      invariant |freq| == v && forall k :: 0 <= k < v ==> freq[k] == CountOf(s, k)
    {
      freq := freq + [rfreq[t, v]];
    }
    FrequencyTotal(freq, s);
    CountSteps(s, alphaSize);
    var len := new int[MAX_ALPHA_SIZE];
    assert freq == CountsIn(s, alphaSize);
    ghost var rounds := MakeCodeLengths(len, freq, MAX_LEN);
    row := len[..alphaSize];
    LightCode(row, s, alphaSize, rounds);
  }

  // ----- the first tables

  const GREATER_ICOST := 15
  const LESSER_ICOST := 0

  /** Extends a range of symbols until it holds a share of all occurrences. */
  method TakeShare(mtfFreq: seq<int>, gs: nat, tFreq: int, alphaSize: nat, ghost mtfv: seq<int>) returns (ge: int, aFreq: int)
    requires gs <= alphaSize <= |mtfFreq| && forall v :: 0 <= v < alphaSize ==> mtfFreq[v] == CountOf(mtfv, v)
    ensures gs - 1 <= ge < alphaSize && aFreq == CountBelow(mtfv, ge + 1) - CountBelow(mtfv, gs)
    ensures aFreq >= tFreq || ge == alphaSize - 1
  {
    ge, aFreq := gs - 1, 0;
    while aFreq < tFreq && ge < alphaSize - 1
      invariant gs - 1 <= ge < alphaSize && aFreq == CountBelow(mtfv, ge + 1) - CountBelow(mtfv, gs)
      decreases alphaSize - ge
    {
      ge := ge + 1;
      CountSteps(mtfv, ge);
      aFreq := aFreq + mtfFreq[ge];
    }
  }

  /** Each of the first symbols is cheap in one table, its owner. */
  ghost predicate Ranges(lens: seq<seq<int>>, owner: seq<int>, nPart: int, alphaSize: nat) {
    && |owner| <= alphaSize && (forall v :: 0 <= v < |owner| ==> nPart <= owner[v] < |lens|)
    && (forall t :: 0 <= t < |lens| ==> |lens[t]| == alphaSize)
    && forall t, v :: 0 <= t < |lens| && 0 <= v < alphaSize ==>
         lens[t][v] == if v < |owner| && owner[v] == t then LESSER_ICOST else GREATER_ICOST
  }

  function RangeRow(alphaSize: nat, gs: int, ge: int): (row: seq<int>)
    ensures |row| == alphaSize
  {
    seq(alphaSize, v => if gs <= v <= ge then LESSER_ICOST else GREATER_ICOST)
  }

  lemma RangeRowAt(alphaSize: nat, gs: int, ge: int, v: nat)
    requires v < alphaSize
    ensures RangeRow(alphaSize, gs, ge)[v] == if gs <= v <= ge then LESSER_ICOST else GREATER_ICOST
  {
  }

  method FillRow(alphaSize: nat, gs: int, ge: int) returns (row: seq<int>)
    ensures row == RangeRow(alphaSize, gs, ge)
  {
    row := [];
    for v := 0 to alphaSize
      invariant row == seq(v, v => if gs <= v <= ge then LESSER_ICOST else GREATER_ICOST)
    {
      row := row + [if gs <= v <= ge then 0 else 15];
    }
  }

  /** The owners of the first symbols, and of those of one more table. */
  function NextOwner(owner: seq<int>, t: int, ge: int): (r: seq<int>)
    requires |owner| - 1 <= ge
    ensures |r| == ge + 1 && forall v :: 0 <= v <= ge ==> r[v] == if v < |owner| then owner[v] else t
  {
    owner + seq(ge + 1 - |owner|, _ => t)
  }

  lemma NextRange(lens: seq<seq<int>>, owner: seq<int>, nPart: nat, ge: int, alphaSize: nat)
    requires Ranges(lens, owner, nPart, alphaSize) && 0 < nPart <= |lens| && |owner| - 1 <= ge < alphaSize
    ensures Ranges(lens[nPart - 1 := RangeRow(alphaSize, |owner|, ge)], NextOwner(owner, nPart - 1, ge), nPart - 1, alphaSize)
  {
    var lens1, owner1 := lens[nPart - 1 := RangeRow(alphaSize, |owner|, ge)], NextOwner(owner, nPart - 1, ge);
    forall t, v | 0 <= t < |lens1| && 0 <= v < alphaSize
      ensures lens1[t][v] == if v < |owner1| && owner1[v] == t then LESSER_ICOST else GREATER_ICOST
    {
      if v < |owner| {
        assert owner1[v] == owner[v] >= nPart;
      } else if v <= ge {
        assert owner1[v] == nPart - 1;
      }
      if t == nPart - 1 {
        RangeRowAt(alphaSize, |owner|, ge, v);
        assert lens1[t] == RangeRow(alphaSize, |owner|, ge);
      } else {
        assert lens1[t] == lens[t];
        assert lens[t][v] == if v < |owner| && owner[v] == t then LESSER_ICOST else GREATER_ICOST;
      }
    }
    forall t | 0 <= t < |lens1|
      ensures |lens1[t]| == alphaSize
    {
      assert t != nPart - 1 ==> lens1[t] == lens[t];
    }
    forall v | 0 <= v < |owner1|
      ensures nPart - 1 <= owner1[v] < |lens1|
    {
      assert v < |owner| ==> owner1[v] == owner[v];
    }
  }

  /** No symbol occurs from c on. */
  lemma NoneLeft(mtfv: seq<int>, c: nat, alphaSize: nat)
    requires InRange(mtfv, alphaSize) && CountBelow(mtfv, c) == |mtfv|
    ensures forall v :: c <= v < alphaSize ==> CountOf(mtfv, v) == 0
  {
    CountExtremes(mtfv, alphaSize);
    forall v | c <= v < alphaSize
      ensures CountOf(mtfv, v) == 0
    {
      CountMonotone(mtfv, c, v);
      CountMonotone(mtfv, v + 1, alphaSize);
      CountSteps(mtfv, v);
    }
  }

  /** The alphabet is cut into ranges of about equally many occurrences, each cheap in one table; every symbol that occurs is in one. */
  method InitialTables(mtfFreq: seq<int>, nGroups: nat, alphaSize: nat, nMTF: nat, ghost mtfv: seq<int>)
    returns (lens: seq<seq<int>>, ghost owner: seq<int>)
    requires 2 <= nGroups <= N_GROUPS && alphaSize <= |mtfFreq| && nMTF == |mtfv| && InRange(mtfv, alphaSize)
    requires forall v :: 0 <= v < alphaSize ==> mtfFreq[v] == CountOf(mtfv, v)
    ensures |lens| == nGroups && Costs(lens, alphaSize) && Ranges(lens, owner, 0, alphaSize)
    ensures forall v :: |owner| <= v < alphaSize ==> CountOf(mtfv, v) == 0
  {
    lens, owner := seq(nGroups, _ => seq(alphaSize, _ => GREATER_ICOST)), [];
    CountExtremes(mtfv, alphaSize);
    var nPart, remF, gs := nGroups, nMTF, 0;
    while nPart > 0
      invariant 0 <= nPart <= nGroups && 0 <= gs <= alphaSize && |lens| == nGroups && Costs(lens, alphaSize)
      invariant 0 <= remF == nMTF - CountBelow(mtfv, gs) && (nPart == 0 ==> remF == 0)
      invariant gs == |owner| && Ranges(lens, owner, nPart, alphaSize)
    {
      var tFreq := remF / nPart;
      var ge, aFreq := TakeShare(mtfFreq, gs, tFreq, alphaSize, mtfv);
      if ge > gs && nPart != nGroups && nPart != 1 && (nGroups - nPart) % 2 == 1 {
        CountSteps(mtfv, ge);
        aFreq := aFreq - mtfFreq[ge];
        ge := ge - 1;
      }
      NextRange(lens, owner, nPart, ge, alphaSize);
      var row := FillRow(alphaSize, gs, ge);
      lens := lens[nPart - 1 := row];
      owner := NextOwner(owner, nPart - 1, ge);
      nPart := nPart - 1;
      CountSteps(mtfv, ge);
      gs := ge + 1;
      remF := remF - aFreq;
    }
    NoneLeft(mtfv, gs, alphaSize);
  }

  // ----- all rounds

  ghost predicate AllComplete(lens: seq<seq<int>>, alphaSize: nat) {
    forall t :: 0 <= t < |lens| ==>
      |lens[t]| == alphaSize && Lengths(lens[t], 1, MAX_LEN) && Weight(lens[t], MAX_LEN) == Pow2(MAX_LEN)
  }

  method ChooseTables(mtfv: seq<int>, mtfFreq: seq<int>, alphaSize: nat) returns (lens: seq<seq<int>>, selector: seq<int>)
    requires 3 <= alphaSize <= MAX_ALPHA_SIZE && alphaSize <= |mtfFreq| && InRange(mtfv, alphaSize) && 0 < |mtfv| <= 900001
    requires forall v :: 0 <= v < alphaSize ==> mtfFreq[v] == CountOf(mtfv, v)
    ensures |lens| == NGroups(|mtfv|) && AllComplete(lens, alphaSize) && InRange(selector, |lens|)
    ensures forall t :: 0 <= t < |lens| ==> BestCode(lens[t], Share(mtfv, selector, t), alphaSize)
    ensures G_SIZE * (|selector| - 1) < |mtfv| <= G_SIZE * |selector|
  {
    assert |mtfv| > 0; // 3001
    var nGroups := if |mtfv| < 200 then 2 else if |mtfv| < 600 then 3 else if |mtfv| < 1200 then 4 else if |mtfv| < 2400 then 5 else 6;
    ghost var owner;
    lens, owner := InitialTables(mtfFreq, nGroups, alphaSize, |mtfv|, mtfv);
    var rfreq := new int[N_GROUPS, MAX_ALPHA_SIZE];
    selector := [];
    for iter := 0 to N_ITERS
      invariant |lens| == nGroups && Costs(lens, alphaSize) && InRange(selector, nGroups)
      invariant iter > 0 ==> AllComplete(lens, alphaSize) && G_SIZE * (|selector| - 1) < |mtfv| <= G_SIZE * |selector|
      invariant iter > 0 ==> forall t :: 0 <= t < |lens| ==> BestCode(lens[t], Share(mtfv, selector, t), alphaSize)
    {
      ghost var seen;
      selector, seen := SelectTables(lens, mtfv, rfreq, alphaSize);
      lens := RecomputeLengths(rfreq, nGroups, alphaSize, seen, |mtfv|);
      CompleteCosts(lens, alphaSize);
    }
  }

  lemma CompleteCosts(lens: seq<seq<int>>, alphaSize: nat)
    requires AllComplete(lens, alphaSize)
    ensures Costs(lens, alphaSize)
  {
  }

  method RecomputeLengths(rfreq: array2<int>, nGroups: nat, alphaSize: nat, ghost seen: seq<seq<int>>, ghost total: nat)
    returns (lens: seq<seq<int>>)
    requires nGroups <= N_GROUPS && 3 <= alphaSize <= MAX_ALPHA_SIZE && Seen(rfreq, seen, alphaSize, total) && total <= 900001
    ensures |lens| == nGroups && AllComplete(lens, alphaSize)
    ensures forall t :: 0 <= t < nGroups ==> BestCode(lens[t], seen[t], alphaSize)
  {
    lens := [];
    for t := 0 to nGroups
      invariant |lens| == t && AllComplete(lens, alphaSize) && forall k :: 0 <= k < t ==> BestCode(lens[k], seen[k], alphaSize)
    {
      var row := NewLengths(rfreq, t, alphaSize, seen[t]);
      lens := lens + [row];
    }
  }

  lemma {:induction false} KraftLonger(row: seq<int>, n: nat, d: nat)
    requires Kraft(row, n)
    ensures Kraft(row, n + d)
    decreases d
  {
    if d > 0 {
      KraftLonger(row, n, d - 1);
      WeightDoubles(row, n + d - 1);
      NoneOf(row, n + d);
    }
  }

  /** The tables are admissible codes. */
  lemma CompleteCodes(lens: seq<seq<int>>, alphaSize: nat)
    requires AllComplete(lens, alphaSize)
    ensures LensOk(lens, alphaSize) && forall t :: 0 <= t < |lens| ==> Kraft(lens[t], LONGEST)
  {
    forall t | 0 <= t < |lens|
      ensures Kraft(lens[t], LONGEST) && RowOk(lens[t])
    {
      KraftLonger(lens[t], MAX_LEN, 3);
    }
  }
}
