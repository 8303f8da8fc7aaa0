/** Which way the model moves: what has been seen becomes more likely, and nothing but the estimate that was used is changed. */
module PpmdLearns {
  import opened PpmdModel
  import opened PpmdSteps
  import opened RangeCoder

  import Bits

  // ----- binary contexts

  /** A hit takes the probability one part in 128 of the way to the upper end, an escape as far to the lower one, up to rounding. */
  lemma ProbMoves(p: int)
    requires 0 < p < BIN_SCALE
    ensures 127 * (16384 - p) - 96 < 128 * (16384 - Prob(p, false)) <= 127 * (16384 - p) + 32
    ensures 127 * p - 32 <= 128 * Prob(p, true) < 127 * p + 96
    ensures p <= Prob(p, false) && (p < 16352 ==> p < Prob(p, false))
    ensures Prob(p, true) <= p && (p >= 96 ==> Prob(p, true) < p)
  {
  }

  /** The likelier a hit was, the less an escape is expected to follow another one. */
  lemma ExpectedFalls(p: int, q: int)
    requires 0 <= p <= q < BIN_SCALE
    ensures 2 <= Expected(q) <= Expected(p) <= 25
  {
    var i, j := p / 1024, q / 1024;
    assert i <= j < 16;
    for k := 0 to 16
      invariant k > 0 ==> forall a, b :: 0 <= a <= b < k ==> 2 <= EXP_ESCAPE[b] <= EXP_ESCAPE[a] <= 25
    {
      if k > 0 {
        assert EXP_ESCAPE[k] <= EXP_ESCAPE[k - 1];
      }
    }
  }

  /** The cell that was used, and the others. */
  ghost predicate OneCell(bins: seq<seq<int>>, bins1: seq<seq<int>>, i: int, j: int, x: int) {
    && Cell(bins1, i, j) == x
    && forall a, b {:trigger Cell(bins1, a, b)} :: 0 <= a < 128 && 0 <= b < 64 && (a != i || b != j) ==> Cell(bins1, a, b) == Cell(bins, a, b)
  }

  lemma SetOne(bins: seq<seq<int>>, i: int, j: int, x: int)
    requires GoodBins(bins) && 0 <= i < 128 && 0 <= j < 64
    ensures OneCell(bins, SetCell(bins, i, j, x), i, j, x)
  {
  }

  /** A symbol found in a binary context: its probability rises, and all others stay. */
  lemma BinaryHitLearns<T>(m: Model<T>, symbol: int, u: Updates<T>) returns (m1: Model<T>)
    requires Good(m) && |Here(m).stats| == 1 && Here(m).stats[0].symbol == symbol
    ensures var p, q := Cell(m.binSumm, BinRow(m), BinCol(m)), Cell(m1.binSumm, BinRow(m), BinCol(m));
      && Coded(m, symbol, u) == Outcome([Bit(p, false)], u.updateBin(m1), symbol)
      && p <= q < BIN_SCALE && (p < 16352 ==> p < q) && OneCell(m.binSumm, m1.binSumm, BinRow(m), BinCol(m), q)
    ensures m1 == m.(binSumm := m1.binSumm, hiBitsFlag := if FoundSymbol(m) < 0x40 then 0 else 8, found := Place(m.minContext, 0))
  {
    BinInside(m);
    m1 := FoundAt(BinUpdated(m, false), 0);
    var p := Cell(m.binSumm, BinRow(m), BinCol(m));
    SetOne(m.binSumm, BinRow(m), BinCol(m), Prob(p, false));
    ProbMoves(p);
    ProbInside(p, false);
  }

  /** An escape from a binary context: the probability of its symbol falls, and coding goes on in the suffixes. */
  lemma BinaryMissLearns<T>(m: Model<T>, symbol: int, u: Updates<T>) returns (m1: Model<T>)
    requires Good(m) && |Here(m).stats| == 1 && Here(m).stats[0].symbol != symbol
    ensures var p, q := Cell(m.binSumm, BinRow(m), BinCol(m)), Cell(m1.binSumm, BinRow(m), BinCol(m));
      && Coded(m, symbol, u) == Then(Bit(p, true), Escapes(m1, Symbols(Here(m).stats), symbol, u))
      && 0 < q <= p && (p >= 96 ==> q < p) && OneCell(m.binSumm, m1.binSumm, BinRow(m), BinCol(m), q)
    ensures m1 == m.(binSumm := m1.binSumm, hiBitsFlag := if FoundSymbol(m) < 0x40 then 0 else 8, prevSuccess := 0, initEsc := m1.initEsc)
    ensures 2 <= m1.initEsc <= 25
  {
    BinInside(m);
    m1 := BinUpdated(m, true);
    var p := Cell(m.binSumm, BinRow(m), BinCol(m));
    SetOne(m.binSumm, BinRow(m), BinCol(m), Prob(p, true));
    ProbMoves(p);
    ProbInside(p, true);
    ExpectedFalls(Prob(p, true), Prob(p, true));
  }

  // ----- escape estimators

  lemma Below(q: int, r: int, d: int)
    requires q * d < (r + 1) * d && d >= 1
    ensures q <= r
  {
    if q > r {
      MulMono(r + 1, q, d);
    }
  }

  lemma QuotientIs(x: int, d: int) returns (q: int)
    requires d >= 1 && x >= 0
    ensures q == x / d && q * d <= x < (q + 1) * d
  {
    q := x / d;
    Division(x, d);
    assert (q + 1) * d == q * d + d;
  }

  lemma QuotientMono(x: int, y: int, d: int)
    requires d >= 1 && 0 <= x <= y
    ensures x / d <= y / d && (x + d <= y ==> x / d < y / d)
  {
    var q := QuotientIs(x, d);
    var r := QuotientIs(y, d);
    Below(q, r, d);
    if x + d <= y {
      assert (q + 1) * d == q * d + d;
      Below(q + 1, r, d);
    }
  }

  lemma HalfQuotient(x: int, d: int)
    requires d >= 1 && x >= 0
    ensures 2 * x / (2 * d) == x / d
  {
    var q := QuotientIs(x, d);
    var r := QuotientIs(2 * x, 2 * d);
    assert r * (2 * d) == 2 * (r * d) && (r + 1) * (2 * d) == 2 * ((r + 1) * d);
    Below(q, r, d);
    Below(r, q, d);
  }

  /** Twice as much over twice as much, cut to 16 bits. */
  lemma Slower(x: int, p: nat)
    requires 0 <= x < MAX_WORD && p >= 1
    ensures 2 * x % 0x1_0000 / (2 * p) <= x / p && (2 * x < MAX_WORD ==> 2 * x % 0x1_0000 / (2 * p) == x / p)
  {
    HalfQuotient(x, p);
    QuotientMono(2 * x % 0x1_0000, 2 * x, 2 * p);
  }

  /** The estimator that was used, after a hit: the escape gets no larger share than before, and a smaller one as soon as it had
      2^shift; every time its count runs out it learns more slowly, down to one part in 128, without a jump of the share. */
  lemma HitShare(s: See)
    requires GoodSee(s)
    ensures var t := Hit(s.(summ := s.summ - Share(s)));
      && Share(t) <= Share(s) && (Share(s) >= Bits.Pow2(s.shift) ==> Share(t) < Share(s))
      && (2 * s.summ < MAX_WORD ==> Share(t) == (s.summ - Share(s)) / Bits.Pow2(s.shift))
      && (if s.shift < 7 && s.count == 1 then t.shift == s.shift + 1 && t.count == 3 * Bits.Pow2(s.shift) % 256 else t.shift == s.shift)
      && (s.shift < 7 && s.count > 1 ==> t.count == s.count - 1) && (s.shift >= 7 ==> t.count == s.count)
  {
    ShareInside(s);
    var p, x := Bits.Pow2(s.shift), s.summ - Share(s);
    QuotientMono(x, s.summ, p);
    Slower(x, p);
    assert Bits.Pow2(s.shift + 1) == 2 * p;
  }

  /** After a miss the escape gets no smaller share, if the total that is added does not overflow 16 bits. */
  lemma MissShare(s: See, total: int)
    requires GoodSee(s) && Share(s) <= total && s.summ - Share(s) + total < MAX_WORD
    ensures var t := Missed(s.(summ := s.summ - Share(s)), total);
      && t == s.(summ := s.summ - Share(s) + total)
      && Share(s) <= Share(t) && (Share(s) + Bits.Pow2(s.shift) <= total ==> Share(s) < Share(t))
  {
    ShareInside(s);
    QuotientMono(s.summ, s.summ - Share(s) + total, Bits.Pow2(s.shift));
  }

  /** Only the estimator that was used is changed. */
  ghost predicate OneSee<T>(m: Model<T>, m1: Model<T>, ref: SeeRef) {
    && m1 == m.(see := m1.see, dummySee := m1.dummySee)
    && forall r: SeeRef {:trigger SeeAt(m1, r)} :: (r.Entry? ==> r.row < 25 && r.col < 16) && r != ref ==> SeeAt(m1, r) == SeeAt(m, r)
  }

  lemma EscapeLearns<T>(m: Model<T>, numMasked: nat, total: int)
    requires Good(m) && 0 < numMasked < |Here(m).stats|
    ensures var ref := Chosen(m, numMasked); var s := SeeAt(m, ref);
      && OneSee(m, AfterHit(m, numMasked), ref) && OneSee(m, AfterMiss(m, numMasked, total), ref)
      && (ref.Entry? ==>
           && Share(SeeAt(AfterHit(m, numMasked), ref)) <= Share(s)
           && (Share(s) <= total && s.summ - Share(s) + total < MAX_WORD ==> Share(s) <= Share(SeeAt(AfterMiss(m, numMasked, total), ref))))
  {
    var ref := Chosen(m, numMasked);
    ChosenInside(m, numMasked);
    GoodSeeAt(m, ref);
    HitShare(SeeAt(m, ref));
    if Share(SeeAt(m, ref)) <= total && SeeAt(m, ref).summ - Share(SeeAt(m, ref)) + total < MAX_WORD {
      MissShare(SeeAt(m, ref), total);
    }
  }
}
