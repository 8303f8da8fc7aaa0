/** sendMTFValues: the tables are chosen and everything is written. */
module SendValues {
  import opened Permutations
  import opened Counting
  import opened Rotations
  import opened Bits
  import opened BitStream
  import opened HuffmanCodes
  import opened DecodeTables
  import opened Mtf
  import opened MtfStage
  import opened Wire
  import opened BlockBits
  import opened MapBits
  import opened SelectorBits
  import opened LengthBits
  import opened SymbolBits
  import opened WholeBlock
  import opened Selectors
  import opened TableChoice
  import opened SendMtf

  // ----- sendMTFValues

  /** The codes of one table. */
  method RowCodes(row: seq<int>) returns (code: seq<int>)
    requires 0 < |row| <= MAX_ALPHA_SIZE && Lengths(row, 1, MAX_LEN)
    ensures RowAssigned(code, row)
  {
    var minLen, maxLen := Extremes(row);
    RowRange(row);
    assert maxLen <= 17 by { ExtremesBound(row, |row|); } // 3004
    assert minLen >= 1; // 3005
    var codes := new int[MAX_ALPHA_SIZE];
    AssignCodes(codes, row, minLen, maxLen);
    code := codes[..|row|];
  }

  method AllCodes(lens: seq<seq<int>>, ghost alphaSize: nat) returns (code: seq<seq<int>>)
    requires AllComplete(lens, alphaSize) && 0 < alphaSize <= MAX_ALPHA_SIZE
    ensures Assigned(code, lens)
  {
    code := [];
    for t := 0 to |lens|
      invariant |code| == t && forall k :: 0 <= k < t ==> RowAssigned(code[k], lens[k])
    {
      var c := RowCodes(lens[t]);
      code := code + [c];
    }
  }

  /** What is sent for the symbols: the bytes in use, the selectors, the tables and the symbols themselves. */
  function MtfBits(inUse: seq<bool>, sel: seq<int>, lens: seq<seq<int>>, syms: seq<int>): seq<Bit> {
    MapBits.MapBits(inUse) + (SelectorBits.SelectorBits(|lens|, sel) + (LengthBits.LengthBits(lens) + SymBits(lens, sel, syms, 0)))
  }

  method Transmit(w: BitWriter, inUse: seq<bool>, selector: seq<int>, lens: seq<seq<int>>, code: seq<seq<int>>, mtfv: seq<int>,
                  ghost alphaSize: nat)
    requires w.Valid() && |inUse| == 256 && 2 <= |lens| <= 6 && InRange(selector, |lens|) && |selector| <= MAX_SELECTORS
    requires Codes(lens, alphaSize) && alphaSize >= 1 && Assigned(code, lens) && InRange(mtfv, alphaSize)
    requires G_SIZE * (|selector| - 1) < |mtfv| <= G_SIZE * |selector|
    modifies w
    ensures w.Valid() && w.Written() == old(w.Written()) + MtfBits(inUse, selector, lens, mtfv)
  {
    var selectorMtf := SelectorMtf(selector, |lens|);
    UptoListing(|lens|);
    MtfUndone(selector, Upto(|lens|));
    ghost var w0 := w.Written();
    PutMap(w, inUse);
    ghost var w1 := w.Written();
    PutSelectors(w, |lens|, selectorMtf, selector);
    ghost var w2 := w.Written();
    PutTables(w, lens, alphaSize);
    ghost var w3 := w.Written();
    PutSymbols(w, lens, code, selector, mtfv, alphaSize);
    Assoc(w2, LengthBits.LengthBits(lens), SymBits(lens, selector, mtfv, 0));
    Assoc(w1, SelectorBits.SelectorBits(|lens|, selector), LengthBits.LengthBits(lens) + SymBits(lens, selector, mtfv, 0));
    Assoc(w0, MapBits.MapBits(inUse),
          SelectorBits.SelectorBits(|lens|, selector) + (LengthBits.LengthBits(lens) + SymBits(lens, selector, mtfv, 0)));
  }

  method SendMtfValues(w: BitWriter, mtfv: seq<int>, mtfFreq: seq<int>, inUse: seq<bool>, nInUse: nat)
    returns (ghost sel: seq<int>, ghost lens: seq<seq<int>>)
    requires w.Valid() && |inUse| == 256 && nInUse == |UsedList(inUse)| >= 1
    requires 0 < |mtfv| <= 900001 && InRange(mtfv, nInUse + 2) && Counts(mtfFreq, mtfv, nInUse + 1)
    modifies w
    ensures w.Valid() && w.Written() == old(w.Written()) + MtfBits(inUse, sel, lens, mtfv)
    ensures 2 <= |lens| <= 6 && InRange(sel, |lens|) && 1 <= |sel| <= MAX_SELECTORS && Codes(lens, nInUse + 2) && |mtfv| <= G_SIZE * |sel|
    ensures G_SIZE * (|sel| - 1) < |mtfv| && forall t :: 0 <= t < |lens| ==> Lengths(lens[t], 1, MAX_LEN)
  {
    var alphaSize := nInUse + 2;
    var tables, selector := ChooseTables(mtfv, mtfFreq, alphaSize);
    assert |tables| < 8; // 3002
    assert |selector| < 32768 && |selector| <= MAX_SELECTORS; // 3003
    CompleteCodes(tables, alphaSize);
    var code := AllCodes(tables, alphaSize);
    Transmit(w, inUse, selector, tables, code, mtfv, alphaSize);
    sel, lens := selector, tables;
  }
}
