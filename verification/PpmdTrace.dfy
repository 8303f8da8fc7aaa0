/** Where coding one symbol with PPMd7 stands between two escapes, for the encoder and for the decoder. */
module PpmdTrace {
  import opened PpmdModel
  import opened PpmdScan
  import opened PpmdSteps
  import opened RangeCoder

  // ----- steps in front of others

  lemma ApplyThen(e: Interval, s: Step, rest: seq<Step>)
    ensures ApplyAll(e, [s] + rest) == ApplyAll(Apply(e, s), rest)
  {
    assert ([s] + rest)[1..] == rest;
  }

  lemma ApplyOne(e: Interval, s: Step)
    ensures ApplyAll(e, [s]) == Apply(e, s)
  {
    assert [s][1..] == [];
  }

  lemma StepsAhead(e: Interval, f: Interval, s: Step, rest: seq<Step>)
    requires Normal(e) && AllLegal([s] + rest) && Within(f, ApplyAll(e, [s] + rest))
    ensures Legal(s) && AllLegal(rest) && Normal(Apply(e, s)) && Within(f, ApplyAll(Apply(e, s), rest))
    ensures Within(f, Apply(e, s)) && Within(f, Part(e, s))
  {
    var steps := [s] + rest;
    assert steps[1..] == rest && steps[0] == s && Legal(steps[0]);
    assert forall i :: 0 <= i < |rest| ==> rest[i] == steps[i + 1];
    StepWithin(e, steps);
    AllWithin(Apply(e, s), rest);
    WithinTrans(f, ApplyAll(Apply(e, s), rest), Apply(e, s));
    ApplyWithin(e, s);
    WithinTrans(f, Apply(e, s), Part(e, s));
  }

  // ----- tables that are written twice

  lemma SeeTwice<T>(m: Model<T>, ref: SeeRef, a: See, b: See)
    requires Good(m) && (ref.Entry? ==> ref.row < 25 && ref.col < 16)
    ensures SeeAt(WithSee(m, ref, a), ref) == a && WithSee(WithSee(m, ref, a), ref, b) == WithSee(m, ref, b)
  {
    if ref.Entry? {
      assert |m.see[ref.row]| == 16;
      CellTwice(m.see, ref.row, ref.col, a, b);
    }
  }

  lemma CellTwice(table: seq<seq<See>>, i: nat, j: nat, a: See, b: See)
    requires i < |table| && j < |table[i]|
    ensures var once := table[i := table[i][j := a]]; once[i := once[i][j := b]] == table[i := table[i][j := b]]
  {
    assert table[i][j := a][j := b] == table[i][j := b];
  }

  // ----- where coding one symbol stands

  /** All of the symbol's steps are taken. */
  ghost predicate Done<T>(o: Outcome<T>, e0: Interval, m: Model<T>, e: Interval) {
    m == o.model && e == ApplyAll(e0, o.steps)
  }

  /** An escape has been coded, and the suffixes of the current context are still to come. */
  ghost predicate Pending<T>(o: Outcome<T>, e0: Interval, m: Model<T>, e: Interval, masked: set<int>, symbol: int, u: Updates<T>) {
    && Good(m) && masked == Symbols(Here(m).stats) && symbol !in masked
    && Escapes(m, masked, symbol, u).model == o.model
    && ApplyAll(e, Escapes(m, masked, symbol, u).steps) == ApplyAll(e0, o.steps)
  }

  ghost predicate Shown(x: int) {
    true
  }

  ghost predicate Stands<T>(done: bool, o: Outcome<T>, e0: Interval, m: Model<T>, e: Interval, masked: set<int>, symbol: int,
                            u: Updates<T>) {
    forall x {:trigger Shown(x)} :: Shown(x) ==>
      if done then Done(o, e0, m, e) else Pending(o, e0, m, e, masked, symbol, u)
  }

  lemma OneDone<T>(s: Step, m: Model<T>, symbol: int, e0: Interval)
    ensures Done(Outcome([s], m, symbol), e0, m, Apply(e0, s))
  {
    ApplyOne(e0, s);
  }

  lemma EscapePending<T>(s: Step, m: Model<T>, masked: set<int>, symbol: int, u: Updates<T>, e0: Interval)
    requires Good(m) && masked == Symbols(Here(m).stats) && symbol !in masked
    ensures Pending(Then(s, Escapes(m, masked, symbol, u)), e0, m, Apply(e0, s), masked, symbol, u)
  {
    ApplyThen(e0, s, Escapes(m, masked, symbol, u).steps);
  }

  /** What stands after a suffix also stands for the whole symbol. */
  lemma Onward<T>(done: bool, o: Outcome<T>, e0: Interval, o1: Outcome<T>, e1: Interval, m: Model<T>, e: Interval,
                  masked: set<int>, symbol: int, u: Updates<T>)
    requires Stands(done, o1, e1, m, e, masked, symbol, u)
    requires o1.model == o.model && ApplyAll(e1, o1.steps) == ApplyAll(e0, o.steps)
    ensures Stands(done, o, e0, m, e, masked, symbol, u)
  {
    assert Shown(0);
  }

  /** The parts of the symbols and of the escape in a context with several symbols. */
  lemma ContextLegal(c: Context, symbol: int)
    requires GoodStats(c.stats) && Weight(c.stats, {}) < c.summFreq < MAX_WORD
    ensures var sum, i := Weight(c.stats, {}), Index(c.stats, symbol);
      && 0 <= sum && Legal(Symbol(sum, c.summFreq - sum, c.summFreq))
      && (i < |c.stats| ==> Legal(Symbol(Weight(c.stats[..i], {}), c.stats[i].freq, c.summFreq)))
  {
    var i := Index(c.stats, symbol);
    WeightBounds(c.stats, {});
    if i < |c.stats| {
      PartOfWeight(c.stats, {}, i);
    }
  }

  lemma ContextHit<T>(m: Model<T>, symbol: int, u: Updates<T>, e: Interval)
    requires Index(Here(m).stats, symbol) < |Here(m).stats|
    ensures var c, i := Here(m), Index(Here(m).stats, symbol);
      && (i == 0 ==> Stands(true, InContext(m, symbol, u), e, u.update10(FoundAt(m, 0)),
            Apply(e, Symbol(0, c.stats[0].freq, c.summFreq)), {}, symbol, u))
      && (i > 0 ==> Stands(true, InContext(m, symbol, u), e, u.update1(FoundAt(m.(prevSuccess := 0), i)),
            Apply(e, Symbol(Weight(c.stats[..i], {}), c.stats[i].freq, c.summFreq)), {}, symbol, u))
  {
    var c, i := Here(m), Index(Here(m).stats, symbol);
    if i == 0 {
      OneDone(Symbol(0, c.stats[0].freq, c.summFreq), u.update10(FoundAt(m, 0)), symbol, e);
    } else {
      OneDone(Symbol(Weight(c.stats[..i], {}), c.stats[i].freq, c.summFreq), u.update1(FoundAt(m.(prevSuccess := 0), i)), symbol, e);
    }
  }

  lemma ContextMiss<T>(m: Model<T>, symbol: int, u: Updates<T>, e: Interval)
    requires Good(m) && Index(Here(m).stats, symbol) == |Here(m).stats|
    ensures var c, sum := Here(m), Weight(Here(m).stats, {});
      Stands(false, InContext(m, symbol, u), e, Escaped(m),
        Apply(e, Symbol(sum, c.summFreq - sum, c.summFreq)), Symbols(c.stats), symbol, u)
  {
    var c, sum := Here(m), Weight(Here(m).stats, {});
    IndexIs(c.stats, symbol);
    EscapePending(Symbol(sum, c.summFreq - sum, c.summFreq), Escaped(m), Symbols(c.stats), symbol, u, e);
  }

  lemma BinaryHit<T>(m: Model<T>, symbol: int, u: Updates<T>, e: Interval)
    requires Here(m).stats != [] && Here(m).stats[0].symbol == symbol
    ensures Stands(true, InBinary(m, symbol, u), e, u.updateBin(FoundAt(BinUpdated(m, false), 0)),
      Apply(e, Bit(Cell(m.binSumm, BinRow(m), BinCol(m)), false)), {}, symbol, u)
  {
    OneDone(Bit(Cell(m.binSumm, BinRow(m), BinCol(m)), false), u.updateBin(FoundAt(BinUpdated(m, false), 0)), symbol, e);
  }

  lemma BinaryMiss<T>(m: Model<T>, symbol: int, u: Updates<T>, e: Interval)
    requires Good(m) && |Here(m).stats| == 1 && Here(m).stats[0].symbol != symbol
    ensures Stands(false, InBinary(m, symbol, u), e, BinUpdated(m, true),
      Apply(e, Bit(Cell(m.binSumm, BinRow(m), BinCol(m)), true)), Symbols(Here(m).stats), symbol, u)
  {
    BinGood(m, true);
    EscapePending(Bit(Cell(m.binSumm, BinRow(m), BinCol(m)), true), BinUpdated(m, true), Symbols(Here(m).stats), symbol, u, e);
  }

  lemma Absorb(masked: set<int>, all: set<int>)
    requires masked <= all
    ensures masked + all == all
  {
  }

  lemma SuffixHit<T>(m: Model<T>, numMasked: nat, masked: set<int>, symbol: int, u: Updates<T>, e: Interval)
    requires Index(Here(m).stats, symbol) < |Here(m).stats|
    ensures var stats, i := Here(m).stats, Index(Here(m).stats, symbol);
      Stands(true, InSuffix(m, numMasked, masked, symbol, u), e, u.update2(FoundAt(AfterHit(m, numMasked), i)),
        Apply(e, Symbol(Weight(stats[..i], masked), stats[i].freq, Weight(stats, masked) + Escape(m, numMasked))), masked, symbol, u)
  {
    var stats, i := Here(m).stats, Index(Here(m).stats, symbol);
    OneDone(Symbol(Weight(stats[..i], masked), stats[i].freq, Weight(stats, masked) + Escape(m, numMasked)),
            u.update2(FoundAt(AfterHit(m, numMasked), i)), symbol, e);
  }

  lemma SuffixMiss<T>(m: Model<T>, numMasked: nat, masked: set<int>, symbol: int, u: Updates<T>, e: Interval)
    requires Good(m) && Index(Here(m).stats, symbol) == |Here(m).stats| && 0 < numMasked < |Here(m).stats|
    requires masked <= Symbols(Here(m).stats)
    ensures var stats, esc := Here(m).stats, Escape(m, numMasked); var sum := Weight(stats, masked);
      Stands(false, InSuffix(m, numMasked, masked, symbol, u), e, AfterMiss(m, numMasked, sum + esc),
        Apply(e, Symbol(sum, esc, sum + esc)), Symbols(stats), symbol, u)
  {
    var stats, esc := Here(m).stats, Escape(m, numMasked);
    var sum := Weight(stats, masked);
    IndexIs(stats, symbol);
    EstimatorGood(m, numMasked, sum + esc);
    Absorb(masked, Symbols(stats));
    EscapePending(Symbol(sum, esc, sum + esc), AfterMiss(m, numMasked, sum + esc), Symbols(stats), symbol, u, e);
  }

  /** The parts of the symbols and of the escape in a suffix. */
  lemma SuffixParts<T>(m: Model<T>, numMasked: nat, masked: set<int>, symbol: int)
    requires Good(m) && symbol !in masked && 0 < numMasked < |Here(m).stats|
    ensures var stats, esc := Here(m).stats, Escape(m, numMasked); var sum, i := Weight(stats, masked), Index(stats, symbol);
      && Legal(Symbol(sum, esc, sum + esc))
      && (i < |stats| ==> Legal(Symbol(Weight(stats[..i], masked), stats[i].freq, sum + esc)))
  {
    EstimatorGood(m, numMasked, 0);
    assert GoodContext(m.memory.contexts, m.memory.contexts[m.minContext]);
    SuffixStep(Here(m).stats, masked, symbol, Escape(m, numMasked));
  }

  // ----- what the decoder knows ahead

  /** The first step in a context or suffix: the part of the symbol or that of the escape. */
  ghost function Head(stats: seq<State>, masked: set<int>, symbol: int, total: int): Step {
    var i, sum := Index(stats, symbol), Weight(stats, masked);
    if i < |stats| then Symbol(Weight(stats[..i], masked), stats[i].freq, total) else Symbol(sum, total - sum, total)
  }

  /** The stream lies within what a step leaves. */
  ghost predicate Ahead(e: Interval, f: Interval, s: Step) {
    Legal(s) && Normal(Apply(e, s)) && Within(f, Apply(e, s)) && Within(f, Part(e, s))
  }

  lemma StepAhead<T>(e: Interval, f: Interval, o: Outcome<T>, s: Step, rest: seq<Step>)
    requires Normal(e) && AllLegal(o.steps) && Within(f, ApplyAll(e, o.steps)) && o.steps == [s] + rest
    ensures Ahead(e, f, s)
  {
    StepsAhead(e, f, s, rest);
  }

  lemma ContextAhead<T>(m: Model<T>, symbol: int, u: Updates<T>, e: Interval, f: Interval)
    requires Good(m) && -1 <= symbol < MAX_BYTE && |Here(m).stats| != 1 && Normal(e)
    requires Within(f, ApplyAll(e, InContext(m, symbol, u).steps))
    ensures Ahead(e, f, Head(Here(m).stats, {}, symbol, Here(m).summFreq))
  {
    ContextMeans(m, symbol, u);
    var c, o := Here(m), InContext(m, symbol, u);
    var s := Head(c.stats, {}, symbol, c.summFreq);
    if Index(c.stats, symbol) < |c.stats| {
      assert o.steps == [s];
      StepAhead(e, f, o, s, []);
    } else {
      StepAhead(e, f, o, s, Escapes(Escaped(m), Symbols(c.stats), symbol, u).steps);
    }
  }

  lemma BinaryAhead<T>(m: Model<T>, symbol: int, u: Updates<T>, e: Interval, f: Interval)
    requires Good(m) && -1 <= symbol < MAX_BYTE && |Here(m).stats| == 1 && Normal(e)
    requires Within(f, ApplyAll(e, InBinary(m, symbol, u).steps))
    ensures Ahead(e, f, Bit(Cell(m.binSumm, BinRow(m), BinCol(m)), Here(m).stats[0].symbol != symbol))
  {
    BinaryMeans(m, symbol, u);
    var c, o := Here(m), InBinary(m, symbol, u);
    var s := Bit(Cell(m.binSumm, BinRow(m), BinCol(m)), c.stats[0].symbol != symbol);
    if c.stats[0].symbol == symbol {
      assert o.steps == [s];
      StepAhead(e, f, o, s, []);
    } else {
      StepAhead(e, f, o, s, Escapes(BinUpdated(m, true), Symbols(c.stats), symbol, u).steps);
    }
  }

  lemma SuffixAhead<T>(m: Model<T>, numMasked: nat, masked: set<int>, symbol: int, u: Updates<T>, e: Interval, f: Interval)
    requires Good(m) && -1 <= symbol < MAX_BYTE && symbol !in masked && 0 < numMasked < |Here(m).stats| && Normal(e)
    requires masked <= Symbols(Here(m).stats) && Within(f, ApplyAll(e, InSuffix(m, numMasked, masked, symbol, u).steps))
    ensures Ahead(e, f, Head(Here(m).stats, masked, symbol, Weight(Here(m).stats, masked) + Escape(m, numMasked)))
  {
    SuffixMeans(m, numMasked, masked, symbol, u);
    var stats, esc, o := Here(m).stats, Escape(m, numMasked), InSuffix(m, numMasked, masked, symbol, u);
    var sum := Weight(stats, masked);
    var s := Head(stats, masked, symbol, sum + esc);
    if Index(stats, symbol) < |stats| {
      assert o.steps == [s];
      StepAhead(e, f, o, s, []);
    } else {
      StepAhead(e, f, o, s, Escapes(AfterMiss(m, numMasked, sum + esc), masked + Symbols(stats), symbol, u).steps);
    }
  }

  /** A count within the first step's part that falls on some symbol falls on the one that was encoded. */
  lemma Placed(stats: seq<State>, masked: set<int>, symbol: int, total: int, i: nat, count: int)
    requires GoodStats(stats) && i < |stats| && Falls(stats, masked, i, count) && symbol !in masked
    requires var s := Head(stats, masked, symbol, total); s.start <= count < s.start + s.size
    ensures i == Index(stats, symbol) && stats[i].symbol == symbol
    ensures Head(stats, masked, symbol, total) == Symbol(Weight(stats[..i], masked), stats[i].freq, total)
  {
    BelowSum(stats, masked, i, count);
    SamePlace(stats, masked, symbol, i, count);
  }

  /** A count beyond all symbols is the escape. */
  lemma Beyond(stats: seq<State>, masked: set<int>, symbol: int, total: int, count: int)
    requires GoodStats(stats) && Weight(stats, masked) <= count && symbol !in masked
    requires var s := Head(stats, masked, symbol, total); s.start <= count < s.start + s.size
    ensures Index(stats, symbol) == |stats| && count < total
    ensures Head(stats, masked, symbol, total) == Symbol(Weight(stats, masked), total - Weight(stats, masked), total)
  {
    var i := Index(stats, symbol);
    if i < |stats| {
      BelowSum(stats, masked, i, count);
    }
  }

  /** The decoder between GetThreshold and Decode. */
  ghost predicate Weighed(rc: RangeDec, e: Interval, f: Interval, total: int)
    reads rc
  {
    && AllBytes(rc.input) && rc.pos == e.digits + 4 <= |rc.input| && rc.Code == Num(rc.input[..rc.pos]) - e.low
    && total > 0 && rc.Range == e.range / total > 0 && Normal(e) && rc.Spells(f)
  }

  /** Range_GetThreshold, when the next step is known to the proof. */
  method Threshold(rc: RangeDec, total: nat, ghost s: Step, ghost e: Interval, ghost f: Interval) returns (count: int)
    requires s.Symbol? && s.total == total && rc.Tracks(e) && Normal(e) && rc.Spells(f) && Ahead(e, f, s)
    modifies rc`Range
    ensures s.start <= count < s.start + s.size && Weighed(rc, e, f, total) && s.start * rc.Range <= rc.Code
  {
    count := rc.GetThreshold(total, e, s.start, s.size, f);
  }

  method Narrow(rc: RangeDec, start: nat, size: nat, ghost total: nat, ghost e: Interval, ghost f: Interval)
    requires Weighed(rc, e, f, total) && Ahead(e, f, Symbol(start, size, total)) && start * rc.Range <= rc.Code
    modifies rc
    ensures rc.Tracks(Apply(e, Symbol(start, size, total)))
  {
    rc.Decode(start, size, total, e, f);
  }

  lemma FirstFalls(stats: seq<State>, count: int)
    requires stats != [] && 0 <= count < stats[0].freq
    ensures Falls(stats, {}, 0, count)
  {
  }
}
