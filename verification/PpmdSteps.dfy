/** Coding one symbol with PPMd7 gives steps that the range coder can take, and means the symbol it was given. */
module PpmdSteps {
  import opened Permutations
  import opened PpmdModel
  import opened RangeCoder

  /** No symbol stands twice in a context. */
  lemma Fresh(stats: seq<State>, i: nat, j: nat)
    requires i <= j < |stats| && forall x, y :: 0 <= x < y < |stats| ==> stats[x].symbol != stats[y].symbol
    ensures stats[j].symbol !in Symbols(stats[..i])
  {
    if stats[j].symbol in Symbols(stats[..i]) {
      var k := SymbolAt(stats[..i], stats[j].symbol);
      assert false;
    }
  }

  lemma {:induction false} SymbolsCount(stats: seq<State>)
    requires forall i, j :: 0 <= i < j < |stats| ==> stats[i].symbol != stats[j].symbol
    ensures |Symbols(stats)| == |stats|
  {
    if stats != [] {
      var k := |stats| - 1;
      SymbolsCount(stats[..k]);
      Fresh(stats, k, k);
    }
  }

  /** A context with 256 symbols knows every byte. */
  lemma FullContext(stats: seq<State>, symbol: int)
    requires GoodStats(stats) && |stats| == MAX_BYTE && 0 <= symbol < MAX_BYTE
    ensures symbol in Symbols(stats)
  {
    SymbolsCount(stats);
    forall x | x in Symbols(stats)
      ensures x in Range(MAX_BYTE)
    {
      var i := SymbolAt(stats, x);
    }
    SubsetSize(Symbols(stats), Range(MAX_BYTE));
  }

  ghost predicate Landing<T>(m: Model<T>, r: Descent<T>, symbol: int) {
    match r
    case Bottom(end) => Good(end) && !(0 <= symbol < MAX_BYTE) && end.memory == m.memory
    case Landed(at) => Good(at) && Symbols(Here(m).stats) <= Symbols(Here(at).stats)
                       && |Here(m).stats| < |Here(at).stats| && at.memory == m.memory
  }

  lemma SuffixLarger(contexts: map<nat, Context>, c: Context)
    requires GoodContexts(contexts) && GoodContext(contexts, c) && c.suffix != 0
    ensures var d := contexts[c.suffix]; GoodContext(contexts, d) && Symbols(c.stats) <= Symbols(d.stats) && |c.stats| <= |d.stats|
    ensures |c.stats| == |contexts[c.suffix].stats| ==> Symbols(c.stats) == Symbols(contexts[c.suffix].stats)
  {
    var d := contexts[c.suffix];
    assert GoodContext(contexts, d);
    SymbolsCount(c.stats);
    SymbolsCount(d.stats);
    SubsetSize(Symbols(c.stats), Symbols(d.stats));
  }

  /** Only contexts with the very same symbols are skipped, so a byte is never lost on the way down. */
  lemma {:induction false} Descends<T>(m: Model<T>, symbol: int)
    requires Good(m) && symbol !in Symbols(Here(m).stats)
    ensures Landing(m, Descend(m, |Here(m).stats|), symbol)
    decreases Here(m).order
  {
    var c := m.memory.contexts[m.minContext];
    assert GoodContext(m.memory.contexts, c);
    if c.suffix == 0 {
      if 0 <= symbol < MAX_BYTE {
        FullContext(c.stats, symbol);
      }
    } else {
      SuffixLarger(m.memory.contexts, c);
      var below := m.(orderFall := (m.orderFall + 1) % 0x1_0000_0000, minContext := c.suffix);
      assert Good(below);
      if |Here(below).stats| == |c.stats| {
        Descends(below, symbol);
      }
    }
  }

  // ----- the sums

  lemma {:induction false} WeightBounds(stats: seq<State>, masked: set<int>)
    requires forall i :: 0 <= i < |stats| ==> 0 < stats[i].freq < MAX_BYTE
    ensures 0 <= Weight(stats, masked) <= 255 * |stats|
    ensures (exists i :: 0 <= i < |stats| && stats[i].symbol !in masked) ==> Weight(stats, masked) > 0
  {
    if stats != [] {
      WeightBounds(stats[..|stats| - 1], masked);
      assert forall i :: 0 <= i < |stats| - 1 ==> stats[..|stats| - 1][i] == stats[i];
    }
  }

  /** The part of a symbol that is not masked lies within the sum. */
  lemma {:induction false} PartOfWeight(stats: seq<State>, masked: set<int>, i: nat)
    requires i < |stats| && stats[i].symbol !in masked
    requires forall k :: 0 <= k < |stats| ==> 0 < stats[k].freq < MAX_BYTE
    ensures 0 <= Weight(stats[..i], masked) && Weight(stats[..i], masked) + stats[i].freq <= Weight(stats, masked)
  {
    var k := |stats| - 1;
    if i == k {
      WeightBounds(stats[..i], masked);
    } else {
      PartOfWeight(stats[..k], masked, i);
      assert stats[..k][..i] == stats[..i];
    }
  }

  // ----- all steps are legal

  lemma SeeTotals(ref: SeeRef, s: See)
    requires GoodSee(s)
    ensures 0 < EscFreq(ref, s) <= MAX_WORD && GoodSee(Taken(ref, s)) && GoodSee(Hit(Taken(ref, s)))
  {
    ShareInside(s);
  }

  lemma MissedGood(s: See, total: int)
    requires GoodSee(s)
    ensures GoodSee(Missed(s, total))
  {
  }

  ghost predicate Means<T>(o: Outcome<T>, symbol: int) {
    AllLegal(o.steps) && o.symbol == symbol
  }

  lemma ThenMeans<T>(s: Step, o: Outcome<T>, symbol: int)
    requires Legal(s) && Means(o, symbol)
    ensures Means(Then(s, o), symbol)
  {
  }

  lemma OneMeans<T>(s: Step, m: Model<T>, symbol: int)
    requires Legal(s)
    ensures Means(Outcome([s], m, symbol), symbol)
  {
  }

  /** What an estimator gives is a legal part beside the symbols, and the table stays well-formed. */
  lemma EstimatorGood<T>(m: Model<T>, numMasked: nat, total: int)
    requires Good(m) && 0 < numMasked < |Here(m).stats|
    ensures 0 < Escape(m, numMasked) <= MAX_WORD && Good(AfterMiss(m, numMasked, total))
  {
    var ref := Chosen(m, numMasked);
    var see := SeeAt(m, ref);
    ChosenInside(m, numMasked);
    GoodSeeAt(m, ref);
    SeeTotals(ref, see);
    MissedGood(Taken(ref, see), total);
    KeptGood(m, ref, Missed(Taken(ref, see), total));
  }

  lemma {:induction false} EscapesMean<T>(m: Model<T>, masked: set<int>, symbol: int, u: Updates<T>)
    requires Good(m) && -1 <= symbol < MAX_BYTE && masked == Symbols(Here(m).stats) && symbol !in masked
    ensures Means(Escapes(m, masked, symbol, u), symbol)
    decreases Here(m).order, 0
  {
    Descends(m, symbol);
    assert GoodContext(m.memory.contexts, m.memory.contexts[m.minContext]);
    match Descend(m, |Here(m).stats|)
    case Bottom(_) =>
    case Landed(at) =>
      SuffixMeans(at, |Here(m).stats|, masked, symbol, u);
  }

  /** The part of a symbol, and that of the escape, beside the estimator's share. */
  lemma SuffixStep(stats: seq<State>, masked: set<int>, symbol: int, esc: int)
    requires GoodStats(stats) && symbol !in masked && 0 < esc <= MAX_WORD
    ensures var sum, i := Weight(stats, masked), Index(stats, symbol);
      && Legal(Symbol(sum, esc, sum + esc))
      && (i < |stats| ==> Legal(Symbol(Weight(stats[..i], masked), stats[i].freq, sum + esc)))
  {
    var i := Index(stats, symbol);
    WeightBounds(stats, masked);
    if i < |stats| {
      PartOfWeight(stats, masked, i);
    }
  }

  lemma {:induction false} SuffixMeans<T>(m: Model<T>, numMasked: nat, masked: set<int>, symbol: int, u: Updates<T>)
    requires Good(m) && -1 <= symbol < MAX_BYTE && symbol !in masked && 0 < numMasked < |Here(m).stats|
    requires masked <= Symbols(Here(m).stats)
    ensures Means(InSuffix(m, numMasked, masked, symbol, u), symbol)
    decreases Here(m).order, 1
  {
    var stats, esc := Here(m).stats, Escape(m, numMasked);
    var sum, i := Weight(stats, masked), Index(stats, symbol);
    assert GoodStats(stats) by {
      assert GoodContext(m.memory.contexts, m.memory.contexts[m.minContext]);
    }
    EstimatorGood(m, numMasked, sum + esc);
    SuffixStep(stats, masked, symbol, esc);
    if i < |stats| {
      OneMeans(Symbol(Weight(stats[..i], masked), stats[i].freq, sum + esc),
               u.update2(FoundAt(AfterHit(m, numMasked), i)), symbol);
    } else {
      IndexIs(stats, symbol);
      var m1 := AfterMiss(m, numMasked, sum + esc);
      assert masked + Symbols(stats) == Symbols(stats);
      EscapesMean(m1, masked + Symbols(stats), symbol, u);
      ThenMeans(Symbol(sum, esc, sum + esc), Escapes(m1, masked + Symbols(stats), symbol, u), symbol);
    }
  }

  lemma ContextMeans<T>(m: Model<T>, symbol: int, u: Updates<T>)
    requires Good(m) && -1 <= symbol < MAX_BYTE && |Here(m).stats| != 1
    ensures Means(InContext(m, symbol, u), symbol)
  {
    var c := Here(m);
    assert GoodContext(m.memory.contexts, m.memory.contexts[m.minContext]);
    var i, sum := Index(c.stats, symbol), Weight(c.stats, {});
    IndexIs(c.stats, symbol);
    WeightBounds(c.stats, {});
    if i == |c.stats| {
      var m1 := m.(prevSuccess := 0, hiBitsFlag := HbFlag(FoundSymbol(m)));
      EscapesMean(m1, Symbols(c.stats), symbol, u);
      ThenMeans(Symbol(sum, c.summFreq - sum, c.summFreq), Escapes(m1, Symbols(c.stats), symbol, u), symbol);
    } else {
      PartOfWeight(c.stats, {}, i);
    }
  }

  lemma BinGood<T>(m: Model<T>, one: bool)
    requires Good(m) && |Here(m).stats| == 1
    ensures Good(BinUpdated(m, one))
  {
    BinInside(m);
    var i, j := BinRow(m), BinCol(m);
    ProbInside(Cell(m.binSumm, i, j), one);
    assert GoodBins(SetCell(m.binSumm, i, j, Prob(Cell(m.binSumm, i, j), one)));
  }

  lemma BinaryMeans<T>(m: Model<T>, symbol: int, u: Updates<T>)
    requires Good(m) && -1 <= symbol < MAX_BYTE && |Here(m).stats| == 1
    ensures Means(InBinary(m, symbol, u), symbol)
  {
    var c, size0 := Here(m), Cell(m.binSumm, BinRow(m), BinCol(m));
    BinInside(m);
    if c.stats[0].symbol == symbol {
      OneMeans(Bit(size0, false), u.updateBin(FoundAt(BinUpdated(m, false), 0)), symbol);
    } else {
      BinGood(m, true);
      EscapesMean(BinUpdated(m, true), Symbols(c.stats), symbol, u);
      ThenMeans(Bit(size0, true), Escapes(BinUpdated(m, true), Symbols(c.stats), symbol, u), symbol);
    }
  }

  /** For every well-formed model and every byte or end mark: each step can be taken by the range coder, and exactly
      the end mark runs out of contexts. */
  lemma CodedMeans<T>(m: Model<T>, symbol: int, u: Updates<T>)
    requires Good(m) && -1 <= symbol < MAX_BYTE
    ensures AllLegal(Coded(m, symbol, u).steps) && Coded(m, symbol, u).symbol == symbol
  {
    if |Here(m).stats| != 1 {
      ContextMeans(m, symbol, u);
    } else {
      BinaryMeans(m, symbol, u);
    }
  }
}
