/** The PPMd7 context model as the symbol coder sees it: contexts with their suffixes, the escape estimators and the
    binary contexts, and what coding one symbol is meant to do. */
module PpmdModel {
  import opened RangeCoder

  import Bits

  const MAX_BYTE := 256
  const MAX_WORD := 0x1_0000

  // ----- data

  datatype State = State(symbol: int, freq: int, successor: int)

  /** The number of statistics is the length of stats; suffix 0 is none. The order is the length of the context, which
      the program leaves implicit. */
  datatype Context = Context(stats: seq<State>, summFreq: int, suffix: nat, order: nat)

  datatype See = See(summ: int, shift: nat, count: int)

  /** An estimator by its place: a row and a column of See, or DummySee. */
  datatype SeeRef = Dummy | Entry(row: nat, col: nat)

  /** The contexts, by their places in memory. */
  datatype Memory = Memory(contexts: map<nat, Context>)

  datatype Place = Place(context: nat, index: nat)

  /** The fields of CPpmd7; text, successors' targets and the allocator are in the store, which coding leaves alone. */
  datatype Model<T> = Model(
    memory: Memory, minContext: nat, found: Place, orderFall: nat, initEsc: nat, prevSuccess: nat,
    hiBitsFlag: nat, runLength: int, see: seq<seq<See>>, dummySee: See, binSumm: seq<seq<int>>, store: T)

  /** Ppmd7_Update1_0, Ppmd7_Update1, Ppmd7_UpdateBin and Ppmd7_Update2, which encoder and decoder share. */
  datatype Updates<!T> = Updates(update10: Model<T> -> Model<T>, update1: Model<T> -> Model<T>,
                                 updateBin: Model<T> -> Model<T>, update2: Model<T> -> Model<T>)

  const NOWHERE := Context([], 0, 0, 0)

  function At(contexts: map<nat, Context>, c: nat): Context {
    if c in contexts then contexts[c] else NOWHERE
  }

  function Here<T>(m: Model<T>): Context {
    At(m.memory.contexts, m.minContext)
  }

  function FoundSymbol<T>(m: Model<T>): int {
    var c := At(m.memory.contexts, m.found.context);
    if m.found.index < |c.stats| then c.stats[m.found.index].symbol else 0
  }

  // ----- tables

  function HbFlag(symbol: int): nat {
    if symbol < 0x40 then 0 else 8
  }

  function BinColumn(i: int): nat {
    if i <= 0 then 0 else if i == 1 then 2 else if i < 11 then 4 else 6
  }

  /** Row m is taken m - 2 times, then row m + 1. */
  function RowFrom(m: nat, i: nat): nat
    decreases i
  {
    if m <= 2 || i < m - 2 then m else RowFrom(m + 1, i - (m - 2))
  }

  function SeeRow(i: nat): nat {
    if i < 3 then i else RowFrom(3, i - 3)
  }

  const EXP_ESCAPE := [25, 14, 9, 7, 5, 5, 4, 4, 4, 3, 3, 3, 2, 2, 2, 2]

  lemma {:induction false} RowBound(m: nat, i: nat)
    requires 3 <= m <= 24 && 2 * i + (m - 3) * (m - 2) < 506
    ensures RowFrom(m, i) <= 24
    decreases i
  {
    if i >= m - 2 {
      assert 2 * (i - (m - 2)) + (m - 2) * (m - 1) == 2 * i + (m - 3) * (m - 2);
      assert m < 24;
      RowBound(m + 1, i - (m - 2));
    }
  }

  /** The table of Ppmd7_Construct stays within the 25 rows. */
  lemma SeeRowBound(i: nat)
    requires i < 256
    ensures SeeRow(i) < 25
  {
    if i >= 3 {
      RowBound(3, i - 3);
    }
  }

  /** How many places the rows from 3 up to m take. */
  function Before(m: nat): nat {
    if m <= 3 then 0 else Before(m - 1) + m - 3
  }

  lemma {:induction false} RowsBefore(m: nat, x: nat)
    requires m >= 3
    ensures RowFrom(3, Before(m) + x) == RowFrom(m, x)
  {
    if m > 3 {
      RowsBefore(m - 1, m - 3 + x);
    }
  }

  /** The part of Ppmd7_Construct that fills the tables of the model. */
  method FillTables(ns2Indx: array<int>, ns2BSIndx: array<int>, hb2Flag: array<int>)
    requires ns2Indx.Length == 256 && ns2BSIndx.Length == 256 && hb2Flag.Length == 256
    requires ns2Indx != ns2BSIndx && ns2Indx != hb2Flag && ns2BSIndx != hb2Flag
    modifies ns2Indx, ns2BSIndx, hb2Flag
    ensures forall i :: 0 <= i < 256 ==> ns2Indx[i] == SeeRow(i) < 25 && ns2BSIndx[i] == BinColumn(i) && hb2Flag[i] == HbFlag(i)
  {
    for i := 0 to 256
      modifies ns2BSIndx, hb2Flag
      invariant forall j :: 0 <= j < i ==> ns2BSIndx[j] == BinColumn(j) && hb2Flag[j] == HbFlag(j)
    {
      ns2BSIndx[i] := if i == 0 then 0 else if i == 1 then 2 else if i < 11 then 4 else 6;
      hb2Flag[i] := if i < 0x40 then 0 else 8;
    }
    FillRows(ns2Indx);
    forall i | 0 <= i < 256
      ensures SeeRow(i) < 25
    {
      SeeRowBound(i);
    }
  }

  method FillRows(ns2Indx: array<int>)
    requires ns2Indx.Length == 256
    modifies ns2Indx
    ensures forall i :: 0 <= i < 256 ==> ns2Indx[i] == SeeRow(i)
  {
    for i := 0 to 3
      invariant forall j :: 0 <= j < i ==> ns2Indx[j] == SeeRow(j)
    {
      ns2Indx[i] := i;
    }
    var m: nat, k: nat := 3, 1;
    for i := 3 to 256
      invariant m >= 3 && 1 <= k <= m - 2 && i - 3 == Before(m) + (m - 2 - k)
      invariant forall j :: 0 <= j < i ==> ns2Indx[j] == SeeRow(j)
    {
      RowsBefore(m, m - 2 - k);
      ns2Indx[i] := m;
      k := k - 1;
      if k == 0 {
        m := m + 1;
        k := m - 2;
      }
    }
  }

  // ----- frequencies

  /** The sum of the frequencies of the symbols that are not masked. */
  function Weight(stats: seq<State>, masked: set<int>): int {
    if stats == [] then 0
    else
      var k := |stats| - 1;
      Weight(stats[..k], masked) + (if stats[k].symbol in masked then 0 else stats[k].freq)
  }

  function Symbols(stats: seq<State>): set<int> {
    if stats == [] then {} else Symbols(stats[..|stats| - 1]) + {stats[|stats| - 1].symbol}
  }

  lemma {:induction false} SymbolIn(stats: seq<State>, i: nat)
    requires i < |stats|
    ensures stats[i].symbol in Symbols(stats)
  {
    if i < |stats| - 1 {
      SymbolIn(stats[..|stats| - 1], i);
    }
  }

  lemma {:induction false} SymbolAt(stats: seq<State>, x: int) returns (i: nat)
    requires x in Symbols(stats)
    ensures i < |stats| && stats[i].symbol == x
  {
    i := |stats| - 1;
    if stats[i].symbol != x {
      i := SymbolAt(stats[..|stats| - 1], x);
    }
  }

  /** The first place of the symbol, or the number of statistics. */
  function Index(stats: seq<State>, symbol: int): (i: nat)
    ensures i <= |stats|
    ensures i < |stats| ==> stats[i].symbol == symbol
  {
    if stats == [] then 0 else if stats[0].symbol == symbol then 0 else 1 + Index(stats[1..], symbol)
  }

  lemma {:induction false} IndexFirst(stats: seq<State>, symbol: int)
    ensures forall k :: 0 <= k < Index(stats, symbol) ==> stats[k].symbol != symbol
  {
    if stats != [] && stats[0].symbol != symbol {
      IndexFirst(stats[1..], symbol);
      forall k | 0 <= k < Index(stats, symbol)
        ensures stats[k].symbol != symbol
      {
        assert k > 0 ==> stats[k] == stats[1..][k - 1];
      }
    }
  }

  lemma IndexIs(stats: seq<State>, symbol: int)
    ensures Index(stats, symbol) < |stats| <==> symbol in Symbols(stats)
  {
    IndexFirst(stats, symbol);
    if Index(stats, symbol) < |stats| {
      SymbolIn(stats, Index(stats, symbol));
    } else if symbol in Symbols(stats) {
      var i := SymbolAt(stats, symbol);
      assert false;
    }
  }

  // ----- well-formed models

  ghost predicate GoodStats(stats: seq<State>) {
    && 0 < |stats| <= MAX_BYTE
    && (forall i :: 0 <= i < |stats| ==> 0 < stats[i].freq < MAX_BYTE && 0 <= stats[i].symbol < MAX_BYTE)
    && (forall i, j :: 0 <= i < j < |stats| ==> stats[i].symbol != stats[j].symbol)
  }

  /** Distinct symbols, positive frequencies with room for an escape, and all symbols known to the suffix as well. A
      context without a suffix knows every byte. */
  ghost predicate GoodContext(contexts: map<nat, Context>, c: Context) {
    && GoodStats(c.stats)
    && (|c.stats| != 1 ==> Weight(c.stats, {}) < c.summFreq < MAX_WORD)
    && (|c.stats| == 1 ==> c.stats[0].freq <= 128 && c.suffix != 0)
    && (c.suffix == 0 ==> |c.stats| == MAX_BYTE)
    && (c.suffix != 0 ==>
      && c.suffix in contexts && contexts[c.suffix].order < c.order
      && Symbols(c.stats) <= Symbols(contexts[c.suffix].stats))
  }

  ghost predicate GoodContexts(contexts: map<nat, Context>) {
    0 !in contexts && forall c {:trigger GoodContext(contexts, contexts[c])} :: c in contexts ==> GoodContext(contexts, contexts[c])
  }

  ghost predicate GoodSee(s: See) {
    0 <= s.summ < MAX_WORD && 0 <= s.count < MAX_BYTE
  }

  ghost predicate GoodTable(see: seq<seq<See>>) {
    && |see| == 25
    && (forall i :: 0 <= i < 25 ==> |see[i]| == 16)
    && (forall i, j :: 0 <= i < 25 && 0 <= j < 16 ==> GoodSee(see[i][j]))
  }

  ghost predicate GoodBins(bins: seq<seq<int>>) {
    && |bins| == 128
    && (forall i :: 0 <= i < 128 ==> |bins[i]| == 64)
    && (forall i, j :: 0 <= i < 128 && 0 <= j < 64 ==> 0 < bins[i][j] < BIN_SCALE)
  }

  ghost predicate Good<T>(m: Model<T>) {
    && GoodContexts(m.memory.contexts) && m.minContext in m.memory.contexts
    && m.found.context in m.memory.contexts && m.found.index < |m.memory.contexts[m.found.context].stats|
    && m.prevSuccess <= 1 && m.hiBitsFlag in {0, 8}
    && GoodTable(m.see) && GoodSee(m.dummySee) && GoodBins(m.binSumm)
  }

  // ----- binary contexts

  /** PPMD_GET_MEAN and the two updates of a binary probability. */
  function Mean(p: int): int {
    (p + 32) / 128
  }

  function Prob(p: int, one: bool): int {
    if one then p - Mean(p) else p + 128 - Mean(p)
  }

  /** A binary probability never reaches either end of the scale. */
  lemma ProbInside(p: int, one: bool)
    requires 0 < p < BIN_SCALE
    ensures 0 < Prob(p, one) < BIN_SCALE
  {
  }

  function BinRow<T>(m: Model<T>): int {
    var c := Here(m);
    if c.stats == [] then 0 else c.stats[0].freq - 1
  }

  function BinCol<T>(m: Model<T>): int {
    var c := Here(m);
    var own := if c.stats == [] then 0 else c.stats[0].symbol;
    m.prevSuccess + BinColumn(|At(m.memory.contexts, c.suffix).stats| - 1) + HbFlag(FoundSymbol(m)) + 2 * HbFlag(own)
    + (if m.runLength < 0 then 32 else 0)
  }

  function Cell(bins: seq<seq<int>>, i: int, j: int): int {
    if 0 <= i < |bins| && 0 <= j < |bins[i]| then bins[i][j] else 0
  }

  function SetCell(bins: seq<seq<int>>, i: int, j: int, x: int): seq<seq<int>> {
    if 0 <= i < |bins| && 0 <= j < |bins[i]| then bins[i := bins[i][j := x]] else bins
  }

  /** Ppmd7_GetBinSumm stays within the table. */
  lemma BinInside<T>(m: Model<T>)
    requires Good(m) && |Here(m).stats| == 1
    ensures 0 <= BinRow(m) < 128 && 0 <= BinCol(m) < 64
    ensures 0 < Cell(m.binSumm, BinRow(m), BinCol(m)) < BIN_SCALE
  {
    var c := m.memory.contexts[m.minContext];
    assert GoodContext(m.memory.contexts, c);
    assert GoodStats(c.stats);
    assert 0 <= BinRow(m) < 128;
    assert 0 <= BinCol(m) < 64;
    assert |m.binSumm[BinRow(m)]| == 64;
  }

  // ----- escape estimators

  function SeeAt<T>(m: Model<T>, ref: SeeRef): See {
    match ref
    case Dummy => m.dummySee
    case Entry(row, col) => if row < |m.see| && col < |m.see[row]| then m.see[row][col] else m.dummySee
  }

  function WithSee<T>(m: Model<T>, ref: SeeRef, s: See): (r: Model<T>)
    ensures r.memory == m.memory && r.minContext == m.minContext
  {
    match ref
    case Dummy => m.(dummySee := s)
    case Entry(row, col) =>
      if row < |m.see| && col < |m.see[row]| then m.(see := m.see[row := m.see[row][col := s]]) else m
  }

  function Flag(b: bool): nat {
    if b then 1 else 0
  }

  /** The estimator that Ppmd7_MakeEscFreq picks. */
  function Chosen<T>(m: Model<T>, numMasked: nat): SeeRef {
    var c := Here(m);
    var n := |c.stats|;
    if n == MAX_BYTE || n <= numMasked then Dummy
    else
      var nonMasked := n - numMasked;
      Entry(SeeRow(nonMasked - 1),
            Flag(nonMasked < |At(m.memory.contexts, c.suffix).stats| - n) + 2 * Flag(c.summFreq < 11 * n)
            + 4 * Flag(numMasked > nonMasked) + m.hiBitsFlag)
  }

  /** What it takes from the estimator, and the frequency it gives to the escape. */
  function Share(s: See): int {
    s.summ / Bits.Pow2(s.shift)
  }

  function EscFreq(ref: SeeRef, s: See): int {
    if ref.Dummy? then 1 else Share(s) + Flag(Share(s) == 0)
  }

  function Taken(ref: SeeRef, s: See): See {
    if ref.Dummy? then s else s.(summ := s.summ - Share(s))
  }

  /** Ppmd_See_Update. */
  function Hit(s: See): See {
    if s.shift >= 7 then s
    else
      var count := (s.count + 255) % 256;
      if count != 0 then s.(count := count) else See(2 * s.summ % 0x1_0000, s.shift + 1, 3 * Bits.Pow2(s.shift) % 256)
  }

  function Missed(s: See, total: int): See {
    s.(summ := (s.summ + total) % 0x1_0000)
  }

  lemma ShareInside(s: See)
    requires GoodSee(s)
    ensures 0 <= Share(s) <= s.summ
  {
    var p := Bits.Pow2(s.shift);
    Division(s.summ, p);
    if Share(s) < 0 {
      MulMono(Share(s), -1, p);
    }
    MulMono(1, p, Share(s));
  }

  /** The estimator's row and column are in the table, whatever the context. */
  lemma ChosenInside<T>(m: Model<T>, numMasked: nat)
    requires Good(m) && 0 < numMasked < |Here(m).stats|
    ensures var ref := Chosen(m, numMasked); ref.Entry? ==> ref.row < 25 && ref.col < 16
  {
    assert GoodContext(m.memory.contexts, m.memory.contexts[m.minContext]);
    if |Here(m).stats| != MAX_BYTE {
      SeeRowBound(|Here(m).stats| - numMasked - 1);
    }
  }

  lemma GoodSeeAt<T>(m: Model<T>, ref: SeeRef)
    requires Good(m) && (ref.Entry? ==> ref.row < 25 && ref.col < 16)
    ensures GoodSee(SeeAt(m, ref))
  {
  }

  lemma KeptGood<T>(m: Model<T>, ref: SeeRef, s: See)
    requires Good(m) && GoodSee(s) && (ref.Entry? ==> ref.row < 25 && ref.col < 16)
    ensures Good(WithSee(m, ref, s))
  {
    if ref.Entry? {
      assert GoodTable(WithSee(m, ref, s).see);
    }
  }

  /** Ppmd7_MakeEscFreq, and the model after a symbol has been found or not. */
  function Escape<T>(m: Model<T>, numMasked: nat): int {
    var ref := Chosen(m, numMasked);
    EscFreq(ref, SeeAt(m, ref))
  }

  function AfterHit<T>(m: Model<T>, numMasked: nat): Model<T> {
    var ref := Chosen(m, numMasked);
    WithSee(m, ref, Hit(Taken(ref, SeeAt(m, ref))))
  }

  function AfterMiss<T>(m: Model<T>, numMasked: nat, total: int): (r: Model<T>)
    ensures r.memory == m.memory && r.minContext == m.minContext
  {
    var ref := Chosen(m, numMasked);
    WithSee(m, ref, Missed(Taken(ref, SeeAt(m, ref)), total))
  }

  // ----- coding one symbol

  datatype Descent<T> = Bottom(model: Model<T>) | Landed(model: Model<T>)

  /** The loop that skips the suffixes with no more symbols than are masked already. */
  function Descend<T>(m: Model<T>, numMasked: nat): (r: Descent<T>)
    ensures r.Landed? ==> Here(r.model).order < Here(m).order
    decreases Here(m).order
  {
    var fallen := m.(orderFall := (m.orderFall + 1) % 0x1_0000_0000);
    var below := fallen.(minContext := Here(m).suffix);
    if Here(m).suffix == 0 || Here(below).order >= Here(m).order then Bottom(fallen)
    else if |Here(below).stats| == numMasked then Descend(below, numMasked)
    else Landed(below)
  }

  /** Steps for the range coder, the model afterwards, and the symbol that is meant: -1 for the end mark. */
  datatype Outcome<T> = Outcome(steps: seq<Step>, model: Model<T>, symbol: int)

  function Then<T>(s: Step, o: Outcome<T>): Outcome<T> {
    Outcome([s] + o.steps, o.model, o.symbol)
  }

  function FoundAt<T>(m: Model<T>, i: nat): Model<T> {
    m.(found := Place(m.minContext, i))
  }

  /** Coding in the suffixes, after an escape from the current context. */
  function Escapes<T>(m: Model<T>, masked: set<int>, symbol: int, u: Updates<T>): Outcome<T>
    decreases Here(m).order, 0
  {
    match Descend(m, |Here(m).stats|)
    case Bottom(end) => Outcome([], end, -1)
    case Landed(at) => InSuffix(at, |Here(m).stats|, masked, symbol, u)
  }

  function InSuffix<T>(m: Model<T>, numMasked: nat, masked: set<int>, symbol: int, u: Updates<T>): Outcome<T>
    decreases Here(m).order, 1
  {
    var stats, esc := Here(m).stats, Escape(m, numMasked);
    var sum, i := Weight(stats, masked), Index(stats, symbol);
    if i < |stats| then
      Outcome([Symbol(Weight(stats[..i], masked), stats[i].freq, sum + esc)],
              u.update2(FoundAt(AfterHit(m, numMasked), i)), symbol)
    else
      Then(Symbol(sum, esc, sum + esc),
           Escapes(AfterMiss(m, numMasked, sum + esc), masked + Symbols(stats), symbol, u))
  }

  /** The model after an escape from a context with several symbols. */
  function Escaped<T>(m: Model<T>): Model<T> {
    m.(prevSuccess := 0, hiBitsFlag := HbFlag(FoundSymbol(m)))
  }

  /** A context with several symbols. */
  function InContext<T>(m: Model<T>, symbol: int, u: Updates<T>): Outcome<T> {
    var c := Here(m);
    var i, sum := Index(c.stats, symbol), Weight(c.stats, {});
    if i == |c.stats| then
      Then(Symbol(sum, c.summFreq - sum, c.summFreq),
           Escapes(Escaped(m), Symbols(c.stats), symbol, u))
    else if i == 0 then
      Outcome([Symbol(0, c.stats[0].freq, c.summFreq)], u.update10(FoundAt(m, 0)), symbol)
    else
      Outcome([Symbol(Weight(c.stats[..i], {}), c.stats[i].freq, c.summFreq)],
              u.update1(FoundAt(m.(prevSuccess := 0), i)), symbol)
  }

  /** The model after the flag and the probability of a binary context have been brought up to date. */
  function BinUpdated<T>(m: Model<T>, one: bool): Model<T> {
    var p := Prob(Cell(m.binSumm, BinRow(m), BinCol(m)), one);
    var m1 := m.(hiBitsFlag := HbFlag(FoundSymbol(m)), binSumm := SetCell(m.binSumm, BinRow(m), BinCol(m), p));
    if one then m1.(prevSuccess := 0, initEsc := Expected(p)) else m1
  }

  function Expected(p: int): nat {
    if 0 <= p / 1024 < 16 then EXP_ESCAPE[p / 1024] else 0
  }

  /** A context with one symbol. */
  function InBinary<T>(m: Model<T>, symbol: int, u: Updates<T>): Outcome<T> {
    var c, size0 := Here(m), Cell(m.binSumm, BinRow(m), BinCol(m));
    if c.stats != [] && c.stats[0].symbol == symbol then
      Outcome([Bit(size0, false)], u.updateBin(FoundAt(BinUpdated(m, false), 0)), symbol)
    else
      Then(Bit(size0, true), Escapes(BinUpdated(m, true), Symbols(c.stats), symbol, u))
  }

  /** One symbol: Ppmd7_EncodeSymbol seen from outside. */
  function Coded<T>(m: Model<T>, symbol: int, u: Updates<T>): Outcome<T> {
    if |Here(m).stats| != 1 then InContext(m, symbol, u) else InBinary(m, symbol, u)
  }
}
