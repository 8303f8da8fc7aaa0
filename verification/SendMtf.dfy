/** The writing part of sendMTFValues: what it writes is what the decoder is proved to read back. */
module SendMtf {
  import opened Permutations
  import opened Counting
  import opened Bits
  import opened BitStream
  import opened HuffmanCodes
  import opened DecodeTables
  import opened Mtf
  import opened MtfStage
  import opened Wire
  import opened BlockBits
  import opened MapBits
  import opened SelectorBits
  import opened LengthBits
  import opened SymbolBits

  method PutBit(w: BitWriter, b: bool)
    requires w.Valid()
    modifies w
    ensures w.Valid() && w.Written() == old(w.Written()) + [Flag(b)]
  {
    if b {
      w.BsW(1, 1);
    } else {
      w.BsW(1, 0);
    }
    assert Spell(1, 1) == [1] && Spell(0, 1) == [0];
  }

  // ----- the mapping table

  method PutFlags(w: BitWriter, s: seq<bool>)
    requires w.Valid()
    modifies w
    ensures w.Valid() && w.Written() == old(w.Written()) + Flags(s)
  {
    assert s[0..] == s;
    for i := 0 to |s|
      invariant w.Valid() && w.Written() + Flags(s[i..]) == old(w.Written()) + Flags(s)
    {
      Assoc(w.Written(), [Flag(s[i])], Flags(s[i + 1..]));
      assert s[i..][1..] == s[i + 1..];
      PutBit(w, s[i]);
    }
    assert s[|s|..] == [];
    assert w.Written() + [] == w.Written();
  }

  method UsedGroups(inUse: seq<bool>) returns (inUse16: seq<bool>)
    requires |inUse| == 256
    ensures inUse16 == Groups(inUse)
  {
    inUse16 := [];
    for i := 0 to 16
      invariant |inUse16| == i && forall k :: 0 <= k < i ==> inUse16[k] == Groups(inUse)[k]
    {
      var used := false;
      ghost var row := inUse[16 * i..16 * (i + 1)];
      for j := 0 to 16
        invariant used <==> true in row[..j]
      {
        assert row[..j + 1] == row[..j] + [inUse[16 * i + j]];
        if inUse[16 * i + j] {
          used := true;
        }
      }
      assert row[..16] == row;
      GroupAt(inUse, i);
      inUse16 := inUse16 + [used];
    }
  }

  method PutMap(w: BitWriter, inUse: seq<bool>)
    requires w.Valid() && |inUse| == 256
    modifies w
    ensures w.Valid() && w.Written() == old(w.Written()) + MapBits.MapBits(inUse)
  {
    var inUse16 := UsedGroups(inUse);
    Assoc(w.Written(), Flags(inUse16), Rows(inUse));
    PutFlags(w, inUse16);
    ghost var before := w.Written();
    assert inUse[16 * 0..] == inUse;
    for i := 0 to 16
      invariant w.Valid() && w.Written() + Rows(inUse[16 * i..]) == before + Rows(inUse)
    {
      ghost var rest := inUse[16 * i..];
      assert rest[..16] == inUse[16 * i..16 * (i + 1)] && rest[16..] == inUse[16 * (i + 1)..];
      GroupAt(inUse, i);
      Assoc(w.Written(), Flags(rest[..16]), Rows(rest[16..]));
      if inUse16[i] {
        PutFlags(w, inUse[16 * i..16 * (i + 1)]);
      } else {
        assert [] + Rows(rest[16..]) == Rows(rest[16..]);
      }
    }
    assert w.Written() + [] == w.Written();
  }

  // ----- the selectors

  method PutUnary(w: BitWriter, n: nat)
    requires w.Valid()
    modifies w
    ensures w.Valid() && w.Written() == old(w.Written()) + (Ones(n) + [0])
  {
    for j := 0 to n
      invariant w.Valid() && w.Written() + Ones(n - j) == old(w.Written()) + Ones(n)
    {
      Assoc(w.Written(), [1], Ones(n - j - 1));
      PutBit(w, true);
    }
    assert w.Written() + [] == w.Written();
    Assoc(old(w.Written()), Ones(n), [0]);
    PutBit(w, false);
  }

  method PutSelectors(w: BitWriter, nGroups: nat, selectorMtf: seq<int>, ghost sel: seq<int>)
    requires w.Valid() && nGroups <= 6 && |selectorMtf| == |sel| <= MAX_SELECTORS
    requires selectorMtf == MtfOf(sel, Upto(nGroups)) && InRange(selectorMtf, nGroups)
    modifies w
    ensures w.Valid() && w.Written() == old(w.Written()) + SelectorBits.SelectorBits(nGroups, sel)
  {
    Fifteen();
    Assoc(w.Written(), Spell(nGroups, GROUPS_LEN), Spell(|sel|, COUNT_LEN) + Unary(selectorMtf));
    w.BsW(GROUPS_LEN, nGroups);
    Assoc(w.Written(), Spell(|sel|, COUNT_LEN), Unary(selectorMtf));
    w.BsW(COUNT_LEN, |selectorMtf|);
    ghost var before := w.Written();
    assert selectorMtf[0..] == selectorMtf;
    for i := 0 to |selectorMtf|
      invariant w.Valid() && w.Written() + Unary(selectorMtf[i..]) == before + Unary(selectorMtf)
    {
      assert selectorMtf[i..][1..] == selectorMtf[i + 1..];
      Assoc(w.Written(), Ones(selectorMtf[i]) + [0], Unary(selectorMtf[i + 1..]));
      PutUnary(w, selectorMtf[i]);
    }
    assert w.Written() + [] == w.Written();
  }

  // ----- the code lengths

  /** One step towards length l. */
  method PutStep(w: BitWriter, curr0: int, l: int) returns (curr: int)
    requires w.Valid() && curr0 != l
    modifies w
    ensures w.Valid() && curr == (if curr0 < l then curr0 + 1 else curr0 - 1)
    ensures w.Written() + Steps(curr, l) == old(w.Written()) + Steps(curr0, l)
  {
    ghost var before := w.Written();
    assert Spell(2, 2) == [1, 0] && Spell(3, 2) == [1, 1] && Pow2(2) == 4;
    if curr0 < l {
      w.BsW(2, 2);
      curr := curr0 + 1;
      Assoc(before, [1, 0], Steps(curr, l));
    } else {
      w.BsW(2, 3);
      curr := curr0 - 1;
      Assoc(before, [1, 1], Steps(curr, l));
    }
  }

  method PutSteps(w: BitWriter, curr0: int, l: int) returns (curr: int)
    requires w.Valid()
    modifies w
    ensures w.Valid() && curr == l && w.Written() == old(w.Written()) + (Steps(curr0, l) + [0])
  {
    curr := curr0;
    ghost var before := w.Written();
    ghost var total := before + Steps(curr0, l);
    while curr < l
      invariant w.Valid() && (curr0 <= l ==> curr <= l) && (curr0 > l ==> curr == curr0)
      invariant w.Written() + Steps(curr, l) == total
    {
      curr := PutStep(w, curr, l);
    }
    while curr > l
      invariant w.Valid() && curr >= l && w.Written() + Steps(curr, l) == total
    {
      curr := PutStep(w, curr, l);
    }
    assert w.Written() + [] == w.Written();
    Assoc(before, Steps(curr0, l), [0]);
    PutBit(w, false);
  }

  method PutTable(w: BitWriter, row: seq<int>)
    requires w.Valid() && row != [] && 0 <= row[0] < 32
    modifies w
    ensures w.Valid() && w.Written() == old(w.Written()) + TableBits(row)
  {
    Fifteen();
    var curr := row[0];
    Assoc(w.Written(), Spell(curr, CURR_LEN), Deltas(curr, row));
    w.BsW(CURR_LEN, curr);
    ghost var before := w.Written();
    assert row[0..] == row;
    for i := 0 to |row|
      invariant w.Valid() && w.Written() + Deltas(curr, row[i..]) == before + Deltas(row[0], row)
    {
      assert row[i..][1..] == row[i + 1..];
      Assoc(w.Written(), Steps(curr, row[i]) + [0], Deltas(row[i], row[i + 1..]));
      curr := PutSteps(w, curr, row[i]);
    }
    assert w.Written() + [] == w.Written();
  }

  method PutTables(w: BitWriter, lens: seq<seq<int>>, ghost alphaSize: nat)
    requires w.Valid() && LensOk(lens, alphaSize) && alphaSize >= 1
    modifies w
    ensures w.Valid() && w.Written() == old(w.Written()) + LengthBits.LengthBits(lens)
  {
    assert lens[0..] == lens;
    for t := 0 to |lens|
      invariant w.Valid() && w.Written() + LengthBits.LengthBits(lens[t..]) == old(w.Written()) + LengthBits.LengthBits(lens)
    {
      assert lens[t..][1..] == lens[t + 1..];
      Assoc(w.Written(), TableBits(lens[t]), LengthBits.LengthBits(lens[t + 1..]));
      PutTable(w, lens[t]);
    }
    assert w.Written() + [] == w.Written();
  }

  // ----- the symbols

  /** The codes assigned to the lengths of one table, and of all. */
  ghost predicate RowAssigned(code: seq<int>, row: seq<int>) {
    |code| == |row| && forall i :: 0 <= i < |row| ==> row[i] >= 0 && code[i] == Code(row, i)
  }

  ghost predicate Assigned(code: seq<seq<int>>, lens: seq<seq<int>>) {
    |code| == |lens| && forall t :: 0 <= t < |lens| ==> RowAssigned(code[t], lens[t])
  }

  method PutSymbol(w: BitWriter, row: seq<int>, code: seq<int>, sym: nat)
    requires w.Valid() && sym < |row| && RowAssigned(code, row) && Kraft(row, LONGEST)
    modifies w
    ensures w.Valid() && w.Written() == old(w.Written()) + Codeword(row, sym)
  {
    CodeFits(row, sym, LONGEST);
    w.BsW(row[sym], code[sym]);
  }

  lemma SymBitsAt(lens: seq<seq<int>>, selector: seq<int>, mtfv: seq<int>, k: nat, i: nat)
    requires G_SIZE * k <= i < G_SIZE * (k + 1) && i < |mtfv| && k < |selector| && 0 <= selector[k] < |lens|
    requires 0 <= mtfv[i] < |lens[selector[k]]| && lens[selector[k]][mtfv[i]] >= 0
    ensures SymBits(lens, selector, mtfv, i) == Codeword(lens[selector[k]], mtfv[i]) + SymBits(lens, selector, mtfv, i + 1)
  {
    assert i / G_SIZE == k;
  }

  /** Symbols gs to ge, which use one table. */
  method PutGroup(w: BitWriter, row: seq<int>, code: seq<int>, mtfv: seq<int>, gs: nat, ge: nat,
                  ghost lens: seq<seq<int>>, ghost selector: seq<int>, ghost k: nat)
    requires w.Valid() && RowAssigned(code, row) && Kraft(row, LONGEST) && InRange(mtfv, |row|)
    requires k < |selector| && 0 <= selector[k] < |lens| && lens[selector[k]] == row
    requires G_SIZE * k == gs <= ge < gs + G_SIZE && ge < |mtfv|
    modifies w
    ensures w.Valid()
    ensures w.Written() + SymBits(lens, selector, mtfv, ge + 1) == old(w.Written()) + SymBits(lens, selector, mtfv, gs)
  {
    ghost var total := w.Written() + SymBits(lens, selector, mtfv, gs);
    for i := gs to ge + 1
      invariant w.Valid() && w.Written() + SymBits(lens, selector, mtfv, i) == total
    {
      ghost var before, rest := w.Written(), SymBits(lens, selector, mtfv, i + 1);
      SymBitsAt(lens, selector, mtfv, k, i);
      Assoc(before, Codeword(row, mtfv[i]), rest);
      PutSymbol(w, row, code, mtfv[i]);
    }
  }

  /** The symbols of group k. */
  method PutNext(w: BitWriter, lens: seq<seq<int>>, code: seq<seq<int>>, selector: seq<int>, mtfv: seq<int>, k: nat, gs0: nat, ghost alphaSize: nat)
    returns (gs: nat)
    requires w.Valid() && Codes(lens, alphaSize) && Assigned(code, lens) && InRange(selector, |lens|) && InRange(mtfv, alphaSize)
    requires k < |selector| && G_SIZE * k == gs0 < |mtfv|
    modifies w
    ensures w.Valid() && gs == (if gs0 + G_SIZE < |mtfv| then gs0 + G_SIZE else |mtfv|)
    ensures w.Written() + SymBits(lens, selector, mtfv, gs) == old(w.Written()) + SymBits(lens, selector, mtfv, gs0)
  {
    var ge := GroupEnd(gs0, |mtfv|);
    var t := selector[k];
    assert t < |lens|; // 3006
    GroupFacts(lens, code, mtfv, t, alphaSize);
    PutGroup(w, lens[t], code[t], mtfv, gs0, ge, lens, selector, k);
    gs := ge + 1;
  }

  lemma GroupFacts(lens: seq<seq<int>>, code: seq<seq<int>>, mtfv: seq<int>, t: nat, alphaSize: nat)
    requires Codes(lens, alphaSize) && Assigned(code, lens) && InRange(mtfv, alphaSize) && t < |lens|
    ensures t < |code| && RowAssigned(code[t], lens[t]) && Kraft(lens[t], LONGEST) && InRange(mtfv, |lens[t]|)
  {
  }

  /** The last position of the group that starts at gs. */
  method GroupEnd(gs: nat, nMTF: nat) returns (ge: nat)
    requires gs < nMTF
    ensures gs <= ge < nMTF && ge < gs + G_SIZE && ge + 1 == (if gs + G_SIZE < nMTF then gs + G_SIZE else nMTF)
  {
    ge := gs + G_SIZE - 1;
    if ge >= nMTF {
      ge := nMTF - 1;
    }
  }

  method PutSymbols(w: BitWriter, lens: seq<seq<int>>, code: seq<seq<int>>, selector: seq<int>, mtfv: seq<int>, ghost alphaSize: nat)
    requires w.Valid() && Codes(lens, alphaSize) && Assigned(code, lens) && InRange(selector, |lens|)
    requires InRange(mtfv, alphaSize) && G_SIZE * (|selector| - 1) < |mtfv| <= G_SIZE * |selector|
    modifies w
    ensures w.Valid() && w.Written() == old(w.Written()) + SymBits(lens, selector, mtfv, 0)
  {
    ghost var total := w.Written() + SymBits(lens, selector, mtfv, 0);
    var selCtr, gs := 0, 0;
    while gs < |mtfv|
      invariant 0 <= selCtr && gs == (if G_SIZE * selCtr < |mtfv| then G_SIZE * selCtr else |mtfv|)
      invariant G_SIZE * (selCtr - 1) < |mtfv|
      invariant w.Valid() && w.Written() + SymBits(lens, selector, mtfv, gs) == total
    {
      gs := PutNext(w, lens, code, selector, mtfv, selCtr, gs, alphaSize);
      selCtr := selCtr + 1;
    }
    assert selCtr == |selector|; // 3007
    assert w.Written() + [] == w.Written();
  }
}
