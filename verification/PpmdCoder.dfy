/** Ppmd7_EncodeSymbol and Ppmd7_DecodeSymbol over the range coder: the decoder returns the symbol that was encoded and
    leaves the same model behind. */
module PpmdCoder {
  import opened PpmdModel
  import opened PpmdScan
  import opened PpmdSteps
  import opened PpmdTrace
  import opened RangeCoder

  import Bits

  class Ppmd7<T> {
    var contexts: map<nat, Context>
    var minContext: nat
    var foundState: Place
    var orderFall: nat
    var initEsc: nat
    var prevSuccess: nat
    var hiBitsFlag: nat
    var runLength: int
    var see: seq<seq<See>>
    var dummySee: See
    var binSumm: seq<seq<int>>
    var store: T

    ghost function Now(): Model<T>
      reads this
    {
      Model(Memory(contexts), minContext, foundState, orderFall, initEsc, prevSuccess, hiBitsFlag, runLength, see, dummySee, binSumm, store)
    }

    constructor (m: Model<T>)
      ensures Now() == m
    {
      contexts, minContext, foundState, orderFall := m.memory.contexts, m.minContext, m.found, m.orderFall;
      initEsc, prevSuccess, hiBitsFlag, runLength := m.initEsc, m.prevSuccess, m.hiBitsFlag, m.runLength;
      see, dummySee, binSumm, store := m.see, m.dummySee, m.binSumm, m.store;
    }

    /** One of the four updates is carried out on the whole model. */
    method Update(update: Model<T> -> Model<T>)
      modifies this
      ensures Now() == update(old(Now()))
    {
      var m := update(Model(Memory(contexts), minContext, foundState, orderFall, initEsc, prevSuccess, hiBitsFlag, runLength, see,
                            dummySee, binSumm, store));
      contexts, minContext, foundState, orderFall := m.memory.contexts, m.minContext, m.found, m.orderFall;
      PutFlags(m);
      PutTables(m);
    }

    method PutFlags(m: Model<T>)
      modifies `initEsc, `prevSuccess, `hiBitsFlag, `runLength
      ensures initEsc == m.initEsc && prevSuccess == m.prevSuccess && hiBitsFlag == m.hiBitsFlag && runLength == m.runLength
    {
      initEsc, prevSuccess, hiBitsFlag, runLength := m.initEsc, m.prevSuccess, m.hiBitsFlag, m.runLength;
    }

    method PutTables(m: Model<T>)
      modifies `see, `dummySee, `binSumm, `store
      ensures see == m.see && dummySee == m.dummySee && binSumm == m.binSumm && store == m.store
    {
      see, dummySee, binSumm, store := m.see, m.dummySee, m.binSumm, m.store;
    }

    /** The symbol at place i of the current context is the one found. */
    method Take(i: nat, update: Model<T> -> Model<T>)
      modifies this
      ensures Now() == update(FoundAt(old(Now()), i))
    {
      foundState := Place(minContext, i);
      Update(update);
    }

    /** The flags are set for an escape from a context with several symbols. */
    method EscapeHere()
      requires Good(Now())
      modifies `prevSuccess, `hiBitsFlag
      ensures Now() == Escaped(old(Now()))
    {
      prevSuccess, hiBitsFlag := 0, HbFlag(contexts[foundState.context].stats[foundState.index].symbol);
    }

    /** Down the suffixes to the first context with other symbols than the masked ones. */
    method EscapeDown() returns (more: bool)
      requires GoodContexts(contexts) && minContext in contexts
      modifies `minContext, `orderFall
      ensures Descend(old(Now()), |old(contexts[minContext].stats)|) == if more then Landed(Now()) else Bottom(Now())
    {
      var numMasked := |contexts[minContext].stats|;
      more := true;
      var going := true;
      while going
        invariant more && minContext in contexts
        invariant Descend(old(Now()), numMasked) == if going then Descend(Now(), numMasked) else Landed(Now())
        decreases going, At(contexts, minContext).order
      {
        ghost var was := Now();
        assert GoodContext(contexts, contexts[minContext]);
        orderFall := (orderFall + 1) % 0x1_0000_0000;
        if contexts[minContext].suffix == 0 {
          return false;
        }
        minContext := contexts[minContext].suffix;
        going := |contexts[minContext].stats| == numMasked;
      }
    }

    /** Ppmd7_MakeEscFreq. */
    method MakeEscFreq(numMasked: nat) returns (ref: SeeRef, escFreq: int)
      requires Good(Now()) && 0 < numMasked < |contexts[minContext].stats|
      modifies `see
      ensures ref == Chosen(old(Now()), numMasked) && escFreq == Escape(old(Now()), numMasked)
      ensures Now() == WithSee(old(Now()), ref, Taken(ref, SeeAt(old(Now()), ref)))
    {
      var c := contexts[minContext];
      ghost var m := Now();
      assert GoodContext(contexts, c);
      ChosenInside(m, numMasked);
      var nonMasked := |c.stats| - numMasked;
      if |c.stats| == MAX_BYTE {
        return Dummy, 1;
      }
      var row, col := SeeRow(nonMasked - 1), (if nonMasked < |contexts[c.suffix].stats| - |c.stats| then 1 else 0)
        + (if c.summFreq < 11 * |c.stats| then 2 else 0) + (if numMasked > nonMasked then 4 else 0) + hiBitsFlag;
      ref := Entry(row, col);
      assert ref == Chosen(m, numMasked);
      var s := see[row][col];
      var r := s.summ / Bits.Pow2(s.shift);
      see := see[row := see[row][col := s.(summ := s.summ - r)]];
      escFreq := if r == 0 then 1 else r;
    }

    /** The estimator is changed in place. */
    method PutSee(ref: SeeRef, s: See)
      modifies `see, `dummySee
      ensures Now() == WithSee(old(Now()), ref, s)
    {
      match ref
      case Dummy =>
        dummySee := s;
      case Entry(row, col) =>
        if row < |see| && col < |see[row]| {
          see := see[row := see[row][col := s]];
        }
    }

    // ----- the encoder

    /** A context with several symbols. */
    method EncodeContext(rc: RangeEnc, symbol: int, u: Updates<T>) returns (done: bool, mask: set<int>)
      requires Good(Now()) && rc.Valid() && -1 <= symbol < MAX_BYTE && |contexts[minContext].stats| != 1
      modifies this, rc
      ensures rc.Valid()
      ensures Stands(done, InContext(old(Now()), symbol, u), old(rc.Abs()), Now(), rc.Abs(), mask, symbol, u)
    {
      var c := contexts[minContext];
      assert GoodContext(contexts, c);
      var i, sum := Find(c.stats, symbol);
      if i < |c.stats| {
        EncodeFound(rc, symbol, u, i, sum);
        done, mask := true, {};
      } else {
        EncodeEscape(rc, symbol, u, sum);
        done, mask := false, Symbols(c.stats);
      }
    }

    method EncodeFound(rc: RangeEnc, symbol: int, u: Updates<T>, i: nat, sum: int)
      requires Good(Now()) && rc.Valid() && |contexts[minContext].stats| != 1
      requires var stats := contexts[minContext].stats;
        i == Index(stats, symbol) < |stats| && (i > 0 ==> sum == Weight(stats[..i], {}))
      modifies this, rc
      ensures rc.Valid()
      ensures Stands(true, InContext(old(Now()), symbol, u), old(rc.Abs()), Now(), rc.Abs(), {}, symbol, u)
    {
      ghost var m, e := Now(), rc.Abs();
      var c := contexts[minContext];
      assert GoodContext(contexts, c);
      ContextLegal(c, symbol);
      ContextHit(m, symbol, u, e);
      if i == 0 {
        rc.Encode(0, c.stats[0].freq, c.summFreq);
        Take(0, u.update10);
      } else {
        prevSuccess := 0;
        rc.Encode(sum, c.stats[i].freq, c.summFreq);
        Take(i, u.update1);
      }
    }

    method EncodeEscape(rc: RangeEnc, symbol: int, u: Updates<T>, sum: int)
      requires Good(Now()) && rc.Valid() && |contexts[minContext].stats| != 1
      requires var stats := contexts[minContext].stats; Index(stats, symbol) == |stats| && sum == Weight(stats, {})
      modifies this, rc
      ensures rc.Valid()
      ensures Stands(false, InContext(old(Now()), symbol, u), old(rc.Abs()), Now(), rc.Abs(),
                Symbols(old(contexts[minContext].stats)), symbol, u)
    {
      var c := contexts[minContext];
      assert GoodContext(contexts, c);
      ContextLegal(c, symbol);
      ContextMiss(Now(), symbol, u, rc.Abs());
      EscapeHere();
      rc.Encode(sum, c.summFreq - sum, c.summFreq);
    }

    /** Ppmd7_GetBinSumm: the place of the probability, with the flag set on the way. */
    method GetBinSumm() returns (row: nat, col: nat, size0: int)
      requires Good(Now()) && |contexts[minContext].stats| == 1
      modifies `hiBitsFlag
      ensures row == BinRow(old(Now())) && col == BinCol(old(Now())) && row < 128 && col < 64
      ensures size0 == Cell(binSumm, row, col) && 0 < size0 < BIN_SCALE && hiBitsFlag == HbFlag(FoundSymbol(old(Now())))
    {
      BinInside(Now());
      var c := contexts[minContext];
      assert GoodContext(contexts, c);
      hiBitsFlag := HbFlag(contexts[foundState.context].stats[foundState.index].symbol);
      row := c.stats[0].freq - 1;
      col := prevSuccess + BinColumn(|contexts[c.suffix].stats| - 1) + hiBitsFlag + 2 * HbFlag(c.stats[0].symbol)
        + if runLength < 0 then 32 else 0;
      size0 := binSumm[row][col];
    }

    /** The probability is brought up to date, and after an escape what depends on it. */
    method BinUpdate(row: nat, col: nat, size0: int, one: bool, ghost m: Model<T>)
      requires Good(m) && |Here(m).stats| == 1 && Now() == m.(hiBitsFlag := HbFlag(FoundSymbol(m)))
      requires row == BinRow(m) && col == BinCol(m) && size0 == Cell(m.binSumm, row, col)
      modifies `binSumm, `prevSuccess, `initEsc
      ensures Now() == BinUpdated(m, one)
    {
      BinInside(m);
      ProbInside(size0, one);
      var mean := (size0 + 32) / 128;
      var p := if one then size0 - mean else size0 + 128 - mean;
      binSumm := binSumm[row := binSumm[row][col := p]];
      if one {
        initEsc := EXP_ESCAPE[p / 1024];
        prevSuccess := 0;
      }
    }

    /** A context with one symbol. */
    method EncodeBinary(rc: RangeEnc, symbol: int, u: Updates<T>) returns (done: bool, mask: set<int>)
      requires Good(Now()) && rc.Valid() && -1 <= symbol < MAX_BYTE && |contexts[minContext].stats| == 1
      modifies this, rc
      ensures rc.Valid()
      ensures Stands(done, InBinary(old(Now()), symbol, u), old(rc.Abs()), Now(), rc.Abs(), mask, symbol, u)
    {
      ghost var m, e := Now(), rc.Abs();
      var s := contexts[minContext].stats;
      var row, col, size0 := GetBinSumm();
      done := s[0].symbol == symbol;
      rc.EncodeBit(size0, !done);
      BinUpdate(row, col, size0, !done, m);
      if done {
        BinaryHit(m, symbol, u, e);
        Take(0, u.updateBin);
        mask := {};
      } else {
        BinaryMiss(m, symbol, u, e);
        mask := Symbols(s);
      }
    }

    /** A suffix with more symbols than those masked. */
    method EncodeSuffix(rc: RangeEnc, numMasked: nat, masked: set<int>, symbol: int, u: Updates<T>) returns (done: bool, mask: set<int>)
      requires Good(Now()) && rc.Valid() && -1 <= symbol < MAX_BYTE && symbol !in masked
      requires 0 < numMasked < |contexts[minContext].stats| && masked <= Symbols(contexts[minContext].stats)
      modifies this, rc
      ensures rc.Valid() && (!done ==> contexts == old(contexts) && minContext == old(minContext))
      ensures Stands(done, InSuffix(old(Now()), numMasked, masked, symbol, u), old(rc.Abs()), Now(), rc.Abs(), mask, symbol, u)
    {
      ghost var m, e := Now(), rc.Abs();
      var stats := contexts[minContext].stats;
      assert GoodStats(stats) by {
        assert GoodContext(contexts, contexts[minContext]);
      }
      var ref, escFreq := MakeEscFreq(numMasked);
      SuffixParts(m, numMasked, masked, symbol);
      var i, low, sum, seen := Scan(stats, masked, symbol);
      done := i < |stats|;
      if done {
        EncodeOpen(rc, ref, masked, i, low, sum + escFreq, symbol, u, m, numMasked);
        mask := masked;
      } else {
        EncodeLost(rc, ref, masked, sum, escFreq, symbol, u, m, numMasked);
        Absorb(masked, Symbols(stats));
        mask := seen;
      }
    }

    method EncodeOpen(rc: RangeEnc, ref: SeeRef, ghost masked: set<int>, i: nat, low: int, total: int, ghost symbol: int, u: Updates<T>,
                      ghost m: Model<T>, ghost numMasked: nat)
      requires Good(m) && ref == Chosen(m, numMasked) && 0 < numMasked < |Here(m).stats|
      requires Now() == WithSee(m, ref, Taken(ref, SeeAt(m, ref))) && rc.Valid()
      requires var stats := Here(m).stats;
        && i == Index(stats, symbol) < |stats| && low == Weight(stats[..i], masked)
        && total == Weight(stats, masked) + Escape(m, numMasked) && Legal(Symbol(low, stats[i].freq, total))
      modifies this, rc
      ensures rc.Valid()
      ensures Stands(true, InSuffix(m, numMasked, masked, symbol, u), old(rc.Abs()), Now(), rc.Abs(), masked, symbol, u)
    {
      SuffixHit(m, numMasked, masked, symbol, u, rc.Abs());
      EncodeHit(rc, ref, i, low, contexts[minContext].stats[i].freq, total, u, m, numMasked);
    }

    method EncodeLost(rc: RangeEnc, ref: SeeRef, ghost masked: set<int>, sum: int, escFreq: int, ghost symbol: int, ghost u: Updates<T>,
                      ghost m: Model<T>, ghost numMasked: nat)
      requires Good(m) && ref == Chosen(m, numMasked) && 0 < numMasked < |Here(m).stats| && masked <= Symbols(Here(m).stats)
      requires Now() == WithSee(m, ref, Taken(ref, SeeAt(m, ref))) && rc.Valid() && Legal(Symbol(sum, escFreq, sum + escFreq))
      requires var stats := Here(m).stats;
        Index(stats, symbol) == |stats| && sum == Weight(stats, masked) && escFreq == Escape(m, numMasked)
      modifies this, rc
      ensures rc.Valid() && contexts == m.memory.contexts && minContext == m.minContext
      ensures Stands(false, InSuffix(m, numMasked, masked, symbol, u), old(rc.Abs()), Now(), rc.Abs(), Symbols(Here(m).stats), symbol, u)
    {
      SuffixMiss(m, numMasked, masked, symbol, u, rc.Abs());
      EncodeMiss(rc, ref, sum, escFreq, m, numMasked);
    }

    method EncodeHit(rc: RangeEnc, ref: SeeRef, i: nat, low: int, freq: int, total: int, u: Updates<T>, ghost m: Model<T>, ghost numMasked: nat)
      requires Good(m) && ref == Chosen(m, numMasked) && 0 < numMasked < |Here(m).stats|
      requires Now() == WithSee(m, ref, Taken(ref, SeeAt(m, ref))) && rc.Valid() && Legal(Symbol(low, freq, total))
      modifies this, rc
      ensures rc.Valid() && rc.Abs() == Apply(old(rc.Abs()), Symbol(low, freq, total))
      ensures Now() == u.update2(FoundAt(AfterHit(m, numMasked), i))
    {
      rc.Encode(low, freq, total);
      SeeUpdate(ref, m, numMasked);
      Take(i, u.update2);
    }

    method EncodeMiss(rc: RangeEnc, ref: SeeRef, sum: int, escFreq: int, ghost m: Model<T>, ghost numMasked: nat)
      requires Good(m) && ref == Chosen(m, numMasked) && 0 < numMasked < |Here(m).stats|
      requires Now() == WithSee(m, ref, Taken(ref, SeeAt(m, ref))) && rc.Valid() && Legal(Symbol(sum, escFreq, sum + escFreq))
      modifies this, rc
      ensures rc.Valid() && rc.Abs() == Apply(old(rc.Abs()), Symbol(sum, escFreq, sum + escFreq))
      ensures Now() == AfterMiss(m, numMasked, sum + escFreq)
    {
      rc.Encode(sum, escFreq, sum + escFreq);
      SeeMissed(ref, sum + escFreq, m, numMasked);
    }

    function GetSee(ref: SeeRef): See
      reads `see, `dummySee
    {
      match ref
      case Dummy => dummySee
      case Entry(row, col) => if row < |see| && col < |see[row]| then see[row][col] else dummySee
    }

    /** Ppmd_See_Update on the estimator that was taken. */
    method SeeUpdate(ref: SeeRef, ghost m: Model<T>, ghost numMasked: nat)
      requires Good(m) && ref == Chosen(m, numMasked) && 0 < numMasked < |Here(m).stats|
      requires Now() == WithSee(m, ref, Taken(ref, SeeAt(m, ref)))
      modifies `see, `dummySee
      ensures Now() == AfterHit(m, numMasked)
    {
      ChosenInside(m, numMasked);
      SeeTwice(m, ref, Taken(ref, SeeAt(m, ref)), Hit(Taken(ref, SeeAt(m, ref))));
      var s := GetSee(ref);
      if s.shift < 7 {
        var count := (s.count + 255) % 256;
        s := if count == 0 then See(2 * s.summ % 0x1_0000, s.shift + 1, 3 * Bits.Pow2(s.shift) % 256) else s.(count := count);
      }
      PutSee(ref, s);
    }

    /** The estimator learns that the symbol was not found. */
    method SeeMissed(ref: SeeRef, total: int, ghost m: Model<T>, ghost numMasked: nat)
      requires Good(m) && ref == Chosen(m, numMasked) && 0 < numMasked < |Here(m).stats|
      requires Now() == WithSee(m, ref, Taken(ref, SeeAt(m, ref)))
      modifies `see, `dummySee
      ensures Now() == AfterMiss(m, numMasked, total)
    {
      ChosenInside(m, numMasked);
      SeeTwice(m, ref, Taken(ref, SeeAt(m, ref)), Missed(Taken(ref, SeeAt(m, ref)), total));
      var s := GetSee(ref);
      PutSee(ref, s.(summ := (s.summ + total) % 0x1_0000));
    }

    /** Ppmd7_EncodeSymbol: the range coder takes the symbol's steps, and the model changes as it should. */
    method EncodeSymbol(rc: RangeEnc, symbol: int, u: Updates<T>)
      requires Good(Now()) && rc.Valid() && -1 <= symbol < MAX_BYTE
      modifies this, rc
      ensures rc.Valid() && Now() == Coded(old(Now()), symbol, u).model
      ensures rc.Abs() == ApplyAll(old(rc.Abs()), Coded(old(Now()), symbol, u).steps)
    {
      ghost var o, e := Coded(Now(), symbol, u), rc.Abs();
      var done, mask;
      if |contexts[minContext].stats| != 1 {
        done, mask := EncodeContext(rc, symbol, u);
      } else {
        done, mask := EncodeBinary(rc, symbol, u);
      }
      while !done
        invariant rc.Valid() && Stands(done, o, e, Now(), rc.Abs(), mask, symbol, u)
        decreases !done, At(contexts, minContext).order
      {
        done, mask := EncodeNext(rc, mask, symbol, u, o, e);
      }
      assert Shown(0);
    }

    method EncodeNext(rc: RangeEnc, masked: set<int>, symbol: int, u: Updates<T>, ghost o: Outcome<T>, ghost e: Interval)
      returns (done: bool, mask: set<int>)
      requires rc.Valid() && -1 <= symbol < MAX_BYTE && Stands(false, o, e, Now(), rc.Abs(), masked, symbol, u)
      modifies this, rc
      ensures rc.Valid() && Stands(done, o, e, Now(), rc.Abs(), mask, symbol, u)
      ensures !done ==> At(contexts, minContext).order < old(At(contexts, minContext).order)
    {
      assert Shown(0);
      ghost var m, e1 := Now(), rc.Abs();
      var numMasked := |contexts[minContext].stats|;
      Descends(m, symbol);
      assert GoodContext(contexts, contexts[minContext]);
      ghost var o1 := Escapes(m, masked, symbol, u);
      var more := EscapeDown();
      if more {
        done, mask := EncodeSuffix(rc, numMasked, masked, symbol, u);
      } else {
        done, mask := true, masked;
      }
      Onward(done, o, e, o1, e1, Now(), rc.Abs(), mask, symbol, u);
    }

    // ----- the decoder

    /** A context with several symbols. */
    method DecodeContext(rc: RangeDec, u: Updates<T>, ghost symbol: int, ghost e: Interval, ghost f: Interval)
      returns (r: int, done: bool, mask: set<int>, ghost e1: Interval)
      requires Good(Now()) && -1 <= symbol < MAX_BYTE && |contexts[minContext].stats| != 1
      requires rc.Tracks(e) && Normal(e) && rc.Spells(f) && Within(f, ApplyAll(e, InContext(Now(), symbol, u).steps))
      modifies this, rc
      ensures rc.Tracks(e1) && Normal(e1) && (done ==> r == symbol)
      ensures Stands(done, InContext(old(Now()), symbol, u), e, Now(), e1, mask, symbol, u)
    {
      var c := contexts[minContext];
      assert GoodContext(contexts, c);
      ContextAhead(Now(), symbol, u, e, f);
      ghost var s := Head(c.stats, {}, symbol, c.summFreq);
      e1 := Apply(e, s);
      var count := Threshold(rc, c.summFreq, s, e, f);
      if count < c.stats[0].freq {
        FirstFalls(c.stats, count);
        Placed(c.stats, {}, symbol, c.summFreq, 0, count);
        r := DecodeFound(rc, u, 0, 0, symbol, e, f);
        return r, true, {}, e1;
      }
      r, done := DecodeBeyond(rc, u, count, symbol, s, e, f);
      mask := if done then {} else Symbols(c.stats);
    }

    /** The count lies beyond the first symbol. */
    method DecodeBeyond(rc: RangeDec, u: Updates<T>, count: int, ghost symbol: int, ghost s: Step, ghost e: Interval, ghost f: Interval)
      returns (r: int, done: bool)
      requires Good(Now()) && |contexts[minContext].stats| > 1
      requires var c := contexts[minContext];
        && s == Head(c.stats, {}, symbol, c.summFreq) && s.start <= count < s.start + s.size && c.stats[0].freq <= count
        && Ahead(e, f, s) && Weighed(rc, e, f, c.summFreq) && s.start * rc.Range <= rc.Code
      modifies this, rc
      ensures rc.Tracks(Apply(e, s)) && (done ==> r == symbol)
      ensures Stands(done, InContext(old(Now()), symbol, u), e, Now(), Apply(e, s),
                if done then {} else Symbols(old(contexts[minContext].stats)), symbol, u)
    {
      var c := contexts[minContext];
      assert GoodContext(contexts, c);
      WeightBounds(c.stats, {});
      var i, hiCnt := FindCount(c.stats, count);
      if i < |c.stats| {
        Placed(c.stats, {}, symbol, c.summFreq, i, count);
        WeightNext(c.stats, {}, i);
        r := DecodeFound(rc, u, i, hiCnt - c.stats[i].freq, symbol, e, f);
        return r, true;
      }
      assert c.stats[..i] == c.stats;
      Beyond(c.stats, {}, symbol, c.summFreq, count);
      if count >= c.summFreq {
        return -2, true;
      }
      DecodeEscape(rc, u, hiCnt, symbol, e, f);
      r, done := -1, false;
    }

    method DecodeFound(rc: RangeDec, u: Updates<T>, i: nat, start: int, ghost symbol: int, ghost e: Interval, ghost f: Interval)
      returns (r: int)
      requires Good(Now()) && |contexts[minContext].stats| != 1
      requires var c := contexts[minContext];
        && i == Index(c.stats, symbol) < |c.stats| && start == Weight(c.stats[..i], {}) >= 0
        && Weighed(rc, e, f, c.summFreq) && Ahead(e, f, Symbol(start, c.stats[i].freq, c.summFreq)) && start * rc.Range <= rc.Code
      modifies this, rc
      ensures var c := old(contexts[minContext]);
        && rc.Tracks(Apply(e, Symbol(start, c.stats[i].freq, c.summFreq))) && r == symbol
        && Stands(true, InContext(old(Now()), symbol, u), e, Now(), Apply(e, Symbol(start, c.stats[i].freq, c.summFreq)), {}, symbol, u)
    {
      ghost var m := Now();
      var c := contexts[minContext];
      ContextHit(m, symbol, u, e);
      Narrow(rc, start, c.stats[i].freq, c.summFreq, e, f);
      r := c.stats[i].symbol;
      if i == 0 {
        Take(0, u.update10);
      } else {
        prevSuccess := 0;
        Take(i, u.update1);
      }
    }

    method DecodeEscape(rc: RangeDec, u: Updates<T>, hiCnt: nat, ghost symbol: int, ghost e: Interval, ghost f: Interval)
      requires Good(Now()) && |contexts[minContext].stats| != 1
      requires var c := contexts[minContext];
        && Index(c.stats, symbol) == |c.stats| && hiCnt == Weight(c.stats, {}) < c.summFreq && hiCnt * rc.Range <= rc.Code
        && Weighed(rc, e, f, c.summFreq) && Ahead(e, f, Symbol(hiCnt, c.summFreq - hiCnt, c.summFreq))
      modifies this, rc
      ensures var c := old(contexts[minContext]);
        && rc.Tracks(Apply(e, Symbol(hiCnt, c.summFreq - hiCnt, c.summFreq)))
        && Stands(false, InContext(old(Now()), symbol, u), e, Now(), Apply(e, Symbol(hiCnt, c.summFreq - hiCnt, c.summFreq)),
                  Symbols(c.stats), symbol, u)
    {
      var c := contexts[minContext];
      ContextMiss(Now(), symbol, u, e);
      EscapeHere();
      Narrow(rc, hiCnt, c.summFreq - hiCnt, c.summFreq, e, f);
    }

    /** A context with one symbol. */
    method DecodeBinary(rc: RangeDec, u: Updates<T>, ghost symbol: int, ghost e: Interval, ghost f: Interval)
      returns (r: int, done: bool, mask: set<int>, ghost e1: Interval)
      requires Good(Now()) && -1 <= symbol < MAX_BYTE && |contexts[minContext].stats| == 1
      requires rc.Tracks(e) && Normal(e) && rc.Spells(f) && Within(f, ApplyAll(e, InBinary(Now(), symbol, u).steps))
      modifies this, rc
      ensures rc.Tracks(e1) && Normal(e1) && (done ==> r == symbol)
      ensures Stands(done, InBinary(old(Now()), symbol, u), e, Now(), e1, mask, symbol, u)
    {
      ghost var m := Now();
      var s := contexts[minContext].stats;
      BinaryAhead(m, symbol, u, e, f);
      var row, col, size0 := GetBinSumm();
      e1 := Apply(e, Bit(size0, s[0].symbol != symbol));
      var bit := rc.DecodeBit(size0, s[0].symbol != symbol, e, f);
      done := bit == 0;
      BinUpdate(row, col, size0, !done, m);
      if done {
        BinaryHit(m, symbol, u, e);
        r := s[0].symbol;
        Take(0, u.updateBin);
        mask := {};
      } else {
        BinaryMiss(m, symbol, u, e);
        r, mask := -1, Symbols(s);
      }
    }

    /** A suffix with more symbols than those masked. */
    method DecodeSuffix(rc: RangeDec, numMasked: nat, masked: set<int>, u: Updates<T>, ghost symbol: int, ghost e: Interval, ghost f: Interval)
      returns (r: int, done: bool, mask: set<int>, ghost e1: Interval)
      requires Good(Now()) && -1 <= symbol < MAX_BYTE && symbol !in masked && numMasked == |masked|
      requires 0 < numMasked < |contexts[minContext].stats| && masked <= Symbols(contexts[minContext].stats)
      requires rc.Tracks(e) && Normal(e) && rc.Spells(f)
      requires Within(f, ApplyAll(e, InSuffix(Now(), numMasked, masked, symbol, u).steps))
      modifies this, rc
      ensures rc.Tracks(e1) && Normal(e1) && (done ==> r == symbol)
      ensures !done ==> contexts == old(contexts) && minContext == old(minContext)
      ensures Stands(done, InSuffix(old(Now()), numMasked, masked, symbol, u), e, Now(), e1, mask, symbol, u)
    {
      ghost var m := Now();
      var stats := contexts[minContext].stats;
      assert GoodStats(stats) by {
        assert GoodContext(contexts, contexts[minContext]);
      }
      SuffixAhead(m, numMasked, masked, symbol, u, e, f);
      WeightBounds(stats, masked);
      var ps, hiCnt := Gather(stats, masked, |stats| - numMasked);
      var ref, escFreq := MakeEscFreq(numMasked);
      EstimatorGood(m, numMasked, 0);
      var total := escFreq + hiCnt;
      ghost var s := Head(stats, masked, symbol, total);
      e1 := Apply(e, s);
      var count := Threshold(rc, total, s, e, f);
      if count < hiCnt {
        r := DecodeOpen(rc, ref, masked, ps, count, total, u, m, numMasked, symbol, s, e, f);
        return r, true, masked, e1;
      }
      Beyond(stats, masked, symbol, total, count);
      if count >= total {
        return -2, true, masked, e1;
      }
      mask := DecodeLost(rc, ref, masked, ps, hiCnt, total, u, m, numMasked, symbol, s, e, f);
      r, done := -1, false;
    }

    /** The symbol is not in this suffix. */
    method DecodeLost(rc: RangeDec, ref: SeeRef, masked: set<int>, ps: seq<nat>, hiCnt: int, total: int, ghost u: Updates<T>,
                      ghost m: Model<T>, ghost numMasked: nat, ghost symbol: int, ghost s: Step, ghost e: Interval, ghost f: Interval)
      returns (mask: set<int>)
      requires Good(m) && ref == Chosen(m, numMasked) && 0 < numMasked < |Here(m).stats| && masked <= Symbols(Here(m).stats)
      requires Now() == WithSee(m, ref, Taken(ref, SeeAt(m, ref)))
      requires var stats := Here(m).stats;
        && ps == Opens(stats, masked) && hiCnt == Weight(stats, masked) && total == hiCnt + Escape(m, numMasked)
        && Index(stats, symbol) == |stats| && s == Symbol(hiCnt, total - hiCnt, total) && Ahead(e, f, s)
        && Weighed(rc, e, f, total) && hiCnt * rc.Range <= rc.Code
      modifies this, rc
      ensures rc.Tracks(Apply(e, s)) && contexts == m.memory.contexts && minContext == m.minContext
      ensures Stands(false, InSuffix(m, numMasked, masked, symbol, u), e, Now(), Apply(e, s), mask, symbol, u)
    {
      var stats := contexts[minContext].stats;
      assert GoodStats(stats) by {
        assert GoodContext(contexts, contexts[minContext]);
      }
      SuffixMiss(m, numMasked, masked, symbol, u, e);
      DecodeMiss(rc, ref, hiCnt, total, m, numMasked, e, f);
      mask := MaskAll(stats, masked, ps);
      Absorb(masked, Symbols(stats));
    }

    /** The symbol is among those that are not masked. */
    method DecodeOpen(rc: RangeDec, ref: SeeRef, masked: set<int>, ps: seq<nat>, count: int, total: int, u: Updates<T>,
                      ghost m: Model<T>, ghost numMasked: nat, ghost symbol: int, ghost s: Step, ghost e: Interval, ghost f: Interval)
      returns (r: int)
      requires Good(m) && ref == Chosen(m, numMasked) && 0 < numMasked < |Here(m).stats| && symbol !in masked
      requires Now() == WithSee(m, ref, Taken(ref, SeeAt(m, ref)))
      requires var stats := Here(m).stats;
        && ps == Opens(stats, masked) && 0 <= count < Weight(stats, masked) && total == Weight(stats, masked) + Escape(m, numMasked)
        && s == Head(stats, masked, symbol, total) && s.start <= count < s.start + s.size && Ahead(e, f, s)
        && Weighed(rc, e, f, total) && s.start * rc.Range <= rc.Code
      modifies this, rc
      ensures r == symbol && rc.Tracks(Apply(e, s))
      ensures Stands(true, InSuffix(m, numMasked, masked, symbol, u), e, Now(), Apply(e, s), masked, symbol, u)
    {
      var stats := contexts[minContext].stats;
      assert GoodStats(stats) by {
        assert GoodContext(contexts, contexts[minContext]);
      }
      var i, high := Pick(stats, masked, ps, count);
      Placed(stats, masked, symbol, total, i, count);
      SuffixHit(m, numMasked, masked, symbol, u, e);
      r := stats[i].symbol;
      DecodeHit(rc, ref, i, high - stats[i].freq, stats[i].freq, total, u, m, numMasked, e, f);
    }

    method DecodeHit(rc: RangeDec, ref: SeeRef, i: nat, low: int, freq: int, total: int, u: Updates<T>, ghost m: Model<T>,
                     ghost numMasked: nat, ghost e: Interval, ghost f: Interval)
      requires Good(m) && ref == Chosen(m, numMasked) && 0 < numMasked < |Here(m).stats|
      requires Now() == WithSee(m, ref, Taken(ref, SeeAt(m, ref)))
      requires Weighed(rc, e, f, total) && Ahead(e, f, Symbol(low, freq, total)) && low * rc.Range <= rc.Code
      modifies this, rc
      ensures rc.Tracks(Apply(e, Symbol(low, freq, total))) && Now() == u.update2(FoundAt(AfterHit(m, numMasked), i))
    {
      Narrow(rc, low, freq, total, e, f);
      SeeUpdate(ref, m, numMasked);
      Take(i, u.update2);
    }

    method DecodeMiss(rc: RangeDec, ref: SeeRef, hiCnt: int, total: int, ghost m: Model<T>, ghost numMasked: nat,
                      ghost e: Interval, ghost f: Interval)
      requires Good(m) && ref == Chosen(m, numMasked) && 0 < numMasked < |Here(m).stats|
      requires Now() == WithSee(m, ref, Taken(ref, SeeAt(m, ref)))
      requires Weighed(rc, e, f, total) && Ahead(e, f, Symbol(hiCnt, total - hiCnt, total)) && hiCnt * rc.Range <= rc.Code
      modifies this, rc
      ensures rc.Tracks(Apply(e, Symbol(hiCnt, total - hiCnt, total))) && Now() == AfterMiss(m, numMasked, total)
    {
      Narrow(rc, hiCnt, total - hiCnt, total, e, f);
      SeeMissed(ref, total, m, numMasked);
    }

    /** Ppmd7_DecodeSymbol: on a stream that continues with the steps of a symbol it returns that symbol, -1 for the end
        mark, has read exactly those steps, and leaves the model that the encoder left. */
    method DecodeSymbol(rc: RangeDec, u: Updates<T>, ghost symbol: int, ghost e: Interval, ghost f: Interval) returns (r: int)
      requires Good(Now()) && -1 <= symbol < MAX_BYTE && rc.Tracks(e) && Normal(e) && rc.Spells(f)
      requires Within(f, ApplyAll(e, Coded(Now(), symbol, u).steps))
      modifies this, rc
      ensures r == symbol && Now() == Coded(old(Now()), symbol, u).model
      ensures rc.Tracks(ApplyAll(e, Coded(old(Now()), symbol, u).steps))
    {
      ghost var o := Coded(Now(), symbol, u);
      var done, mask;
      ghost var e1;
      if |contexts[minContext].stats| != 1 {
        r, done, mask, e1 := DecodeContext(rc, u, symbol, e, f);
      } else {
        r, done, mask, e1 := DecodeBinary(rc, u, symbol, e, f);
      }
      while !done
        invariant rc.Tracks(e1) && Normal(e1) && Stands(done, o, e, Now(), e1, mask, symbol, u) && (done ==> r == symbol)
        decreases !done, At(contexts, minContext).order
      {
        r, done, mask, e1 := DecodeNext(rc, mask, u, symbol, o, e, e1, f);
      }
      assert Shown(0);
    }

    method DecodeNext(rc: RangeDec, masked: set<int>, u: Updates<T>, ghost symbol: int, ghost o: Outcome<T>, ghost e: Interval,
                      ghost e1: Interval, ghost f: Interval)
      returns (r: int, done: bool, mask: set<int>, ghost e2: Interval)
      requires -1 <= symbol < MAX_BYTE && rc.Tracks(e1) && Normal(e1) && rc.Spells(f) && Within(f, ApplyAll(e, o.steps))
      requires Stands(false, o, e, Now(), e1, masked, symbol, u)
      modifies this, rc
      ensures rc.Tracks(e2) && Normal(e2) && Stands(done, o, e, Now(), e2, mask, symbol, u) && (done ==> r == symbol)
      ensures !done ==> At(contexts, minContext).order < old(At(contexts, minContext).order)
    {
      assert Shown(0);
      ghost var m := Now();
      var numMasked := |contexts[minContext].stats|;
      Descends(m, symbol);
      assert GoodContext(contexts, contexts[minContext]);
      SymbolsCount(contexts[minContext].stats);
      ghost var o1 := Escapes(m, masked, symbol, u);
      var more := EscapeDown();
      if more {
        r, done, mask, e2 := DecodeSuffix(rc, numMasked, masked, u, symbol, e1, f);
      } else {
        r, done, mask, e2 := -1, true, masked, e1;
      }
      Onward(done, o, e, o1, e1, Now(), e2, mask, symbol, u);
    }
  }
}
