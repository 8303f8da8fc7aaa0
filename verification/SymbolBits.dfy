/** The symbols of the block, in groups of fifty, each with the codes of the table that its selector names. */
module SymbolBits {
  import opened Counting
  import opened Bits
  import opened HuffmanCodes
  import opened DecodeTables
  import opened MtfStage
  import opened Wire
  import opened BlockBits
  import opened LengthBits

  /** The codeword of the k-th symbol. */
  function CodeOf(lens: seq<seq<int>>, sel: seq<int>, k: nat, sym: int): seq<Bit> {
    if k / G_SIZE < |sel| && 0 <= sel[k / G_SIZE] < |lens| && 0 <= sym < |lens[sel[k / G_SIZE]]| && lens[sel[k / G_SIZE]][sym] >= 0
    then Codeword(lens[sel[k / G_SIZE]], sym) else []
  }

  function SymBits(lens: seq<seq<int>>, sel: seq<int>, syms: seq<int>, k: nat): seq<Bit>
    decreases |syms| - k
  {
    if k >= |syms| then [] else CodeOf(lens, sel, k, syms[k]) + SymBits(lens, sel, syms, k + 1)
  }

  // ----- one codeword

  ghost predicate GoodRow(row: seq<int>, sym: nat) {
    RowOk(row) && |row| <= MAX_ALPHA_SIZE && Kraft(row, LONGEST) && sym < |row|
  }

  lemma RowTable(row: seq<int>, sym: nat, n: nat)
    requires GoodRow(row, sym) && MinLen(row, |row|) <= n <= row[sym]
    ensures TableOk(MakeTable(row)) && 1 <= n <= row[sym] <= LONGEST && MakeTable(row).limit[n] == Used(row, n) - 1
    ensures MakeTable(row).base[n] == First(row, n) - CountBelow(row, n)
    ensures Place(row, sym) < |row| && MakeTable(row).perm[Place(row, sym)] == sym
  {
    RowRange(row);
    MakesTables(row);
  }

  /** At its last bit the symbol is recognised. */
  lemma CodeEnds(row: seq<int>, sym: nat, n: nat)
    requires GoodRow(row, sym) && n == row[sym] && MinLen(row, |row|) <= n
    ensures TableOk(MakeTable(row)) && n >= 1 && JudgeBy(MakeTable(row), n, Value(Codeword(row, sym)[..n])) == Complete(sym)
  {
    RowTable(row, sym, n);
    ShortCode(row, Codeword(row, sym), n, sym, LONGEST);
    CodeFits(row, sym, LONGEST);
    assert Code(row, sym) - MakeTable(row).base[n] == Place(row, sym);
  }

  /** Before, one more bit is asked for. */
  lemma CodeGoesOn(row: seq<int>, sym: nat, n: nat)
    requires GoodRow(row, sym) && MinLen(row, |row|) <= n < row[sym]
    ensures TableOk(MakeTable(row)) && n >= 1 && JudgeBy(MakeTable(row), n, Value(Codeword(row, sym)[..n])) == OneMore
  {
    RowTable(row, sym, n);
    LongerCode(row, Codeword(row, sym), n, sym, LONGEST);
  }

  // ----- steps of the reader

  function CodeRead(v: Vars, n: nat, z: nat): Vars {
    v.(sym := v.sym.(zn := n, zvec := z))
  }

  lemma ReadMtf1(v: Vars, z: nat, end: St)
    requires SymOk(v) && 1 <= v.sym.zn <= LONGEST && z < Pow2(v.sym.zn) && end == Decide(CodeRead(v, v.sym.zn, z))
    ensures Read(St(Mtf1, v), Spell(z, v.sym.zn), end)
  {
    ReadOne(St(Mtf1, v), z);
  }

  lemma ReadMtf2(v: Vars, n: nat, z: nat, bit: Bit, end: St)
    requires SymOk(v) && 1 <= n <= LONGEST && end == Decide(CodeRead(v, n + 1, 2 * z + bit))
    ensures Read(St(Mtf2, CodeRead(v, n + 1, z)), [bit], end)
  {
    NextMtf2(v, n, z, bit);
    ReadBit(St(Mtf2, CodeRead(v, n + 1, z)), bit);
  }

  lemma NextMtf2(v: Vars, n: nat, z: nat, bit: Bit)
    requires SymOk(v) && 1 <= n <= LONGEST
    ensures SymOk(CodeRead(v, n + 1, z)) && Next(St(Mtf2, CodeRead(v, n + 1, z)), bit) == Decide(CodeRead(v, n + 1, 2 * z + bit))
  {
    var w := CodeRead(v, n + 1, z);
    assert w.(sym := w.sym.(zvec := 2 * z + bit)) == CodeRead(v, n + 1, 2 * z + bit);
  }

  /** n bits of the codeword have been read, and the next one is awaited. */
  function Awaiting(v: Vars, row: seq<int>, sym: nat, n: nat): St
    requires sym < |row| && row[sym] > n
  {
    St(Mtf2, CodeRead(v, n + 1, Value(Codeword(row, sym)[..n])))
  }

  lemma LastBit(v: Vars, row: seq<int>, sym: nat, n: nat, end: St)
    requires SymOk(v) && sym < |row| && row[sym] == n + 1 && 1 <= n < LONGEST
    requires Ok(end) && end == Decide(CodeRead(v, n + 1, Value(Codeword(row, sym))))
    ensures Read(Awaiting(v, row, sym, n), Codeword(row, sym)[n..], end)
  {
    var cw := Codeword(row, sym);
    assert cw[n..] == [cw[n]];
    ReadMtf2(v, n, Value(cw[..n]), cw[n], end);
  }

  lemma MiddleBit(v: Vars, row: seq<int>, sym: nat, n: nat)
    requires SymOk(v) && sym < |row| && n + 1 < row[sym] <= LONGEST && n >= 1
    requires JudgeBy(v.sym.tables[v.sym.gSel], n + 1, Value(Codeword(row, sym)[..n + 1])) == OneMore
    ensures Read(Awaiting(v, row, sym, n), [Codeword(row, sym)[n]], Awaiting(v, row, sym, n + 1))
  {
    var cw := Codeword(row, sym);
    assert cw[..n + 1][..n] == cw[..n];
    ReadMtf2(v, n, Value(cw[..n]), cw[n], Awaiting(v, row, sym, n + 1));
  }

  lemma ReadBitThen(s: St, bits: seq<Bit>, n: nat, t: St, u: St)
    requires Ok(s) && Ok(t) && Ok(u) && n < |bits| && Read(s, [bits[n]], t) && Read(t, bits[n + 1..], u)
    ensures Read(s, bits[n..], u)
  {
    assert bits[n..] == [bits[n]] + bits[n + 1..];
    ReadThen(s, [bits[n]], t, bits[n + 1..], u);
  }

  /** The bits from the n-th on, when the first n have been read. */
  lemma {:induction false} ReadTail(v: Vars, row: seq<int>, sym: nat, n: nat, end: St)
    requires SymOk(v) && v.sym.tables[v.sym.gSel] == MakeTable(row) && GoodRow(row, sym)
    requires MinLen(row, |row|) <= n < row[sym] <= LONGEST && n >= 1
    requires Ok(end) && end == Decide(CodeRead(v, row[sym], Value(Codeword(row, sym))))
    ensures Read(Awaiting(v, row, sym, n), Codeword(row, sym)[n..], end)
    decreases row[sym] - n
  {
    var cw := Codeword(row, sym);
    if n + 1 == row[sym] {
      LastBit(v, row, sym, n, end);
    } else {
      CodeGoesOn(row, sym, n + 1);
      MiddleBit(v, row, sym, n);
      ReadTail(v, row, sym, n + 1, end);
      ReadBitThen(Awaiting(v, row, sym, n), cw, n, Awaiting(v, row, sym, n + 1), end);
    }
  }

  /** What a codeword is read with. */
  ghost predicate Reading(v: Vars, row: seq<int>, sym: nat, n: nat) {
    && SymOk(v) && v.sym.tables[v.sym.gSel] == MakeTable(row) && GoodRow(row, sym)
    && v.sym.zn == MinLen(row, |row|) == n && 1 <= n <= row[sym] <= LONGEST
  }

  lemma ReadFirst(v: Vars, row: seq<int>, sym: nat, n: nat)
    requires Reading(v, row, sym, n) && n < row[sym]
    ensures Read(St(Mtf1, v), Codeword(row, sym)[..n], Awaiting(v, row, sym, n))
  {
    var first := Codeword(row, sym)[..n];
    SpellOfValue(first);
    CodeGoesOn(row, sym, n);
    ReadMtf1(v, Value(first), Awaiting(v, row, sym, n));
  }

  lemma ReadShort(v: Vars, row: seq<int>, sym: nat, n: nat, end: St)
    requires Reading(v, row, sym, n) && n == row[sym] && Ok(end) && end == Decide(CodeRead(v, n, Value(Codeword(row, sym))))
    ensures Read(St(Mtf1, v), Codeword(row, sym), end)
  {
    SpellOfValue(Codeword(row, sym));
    ReadMtf1(v, Value(Codeword(row, sym)), end);
  }

  lemma ReadCode(v: Vars, row: seq<int>, sym: nat, n: nat, end: St)
    requires Reading(v, row, sym, n) && Ok(end) && end == Decide(CodeRead(v, row[sym], Value(Codeword(row, sym))))
    ensures Read(St(Mtf1, v), Codeword(row, sym), end)
  {
    var cw := Codeword(row, sym);
    if n == row[sym] {
      ReadShort(v, row, sym, n, end);
    } else {
      ReadFirst(v, row, sym, n);
      ReadTail(v, row, sym, n, end);
      assert cw == cw[..n] + cw[n..];
      ReadThen(St(Mtf1, v), cw[..n], Awaiting(v, row, sym, n), cw[n..], end);
    }
  }

  // ----- groups

  /** Every table is an admissible code. */
  ghost predicate Codes(lens: seq<seq<int>>, alphaSize: nat) {
    LensOk(lens, alphaSize) && alphaSize <= MAX_ALPHA_SIZE && forall t :: 0 <= t < |lens| ==> Kraft(lens[t], LONGEST)
  }

  /** Ordinary symbols and then the end mark, with a selector for every group. */
  ghost predicate Sendable(v: Vars, lens: seq<seq<int>>, syms: seq<int>) {
    && SelectorsOk(v) && Codes(lens, AlphaSize(v)) && |lens| == v.sel.nGroups && 1 <= |syms| <= G_SIZE * v.sel.nSelectors
    && (forall k :: 0 <= k < |syms| - 1 ==> 0 <= syms[k] <= NInUse(v)) && syms[|syms| - 1] == NInUse(v) + 1
  }

  /** Symbol k comes next, to be decoded with the table of its group. */
  ghost predicate Ready(v: Vars, lens: seq<seq<int>>, syms: seq<int>, k: nat) {
    && TablesOk(v) && v.sym.tables == MakeTables(lens) && k < |syms| && v.sym.syms == syms[..k]
    && k / G_SIZE < |v.sel.selector| && v.sym.gSel == v.sel.selector[k / G_SIZE] && 0 <= v.sym.gSel < |lens|
    && v.sym.groupNo == k / G_SIZE && v.sym.groupPos == G_SIZE - 1 - k % G_SIZE
    && v.sym.zn == MakeTable(lens[v.sym.gSel]).minLen
  }

  lemma TableReady(v: Vars, lens: seq<seq<int>>, syms: seq<int>, k: nat)
    requires Ready(v, lens, syms, k) && Sendable(v, lens, syms)
    ensures 0 <= syms[k] < |lens[v.sym.gSel]| && Reading(v, lens[v.sym.gSel], syms[k], v.sym.zn)
    ensures CodeOf(lens, v.sel.selector, k, syms[k]) == Codeword(lens[v.sym.gSel], syms[k])
  {
    var row := lens[v.sym.gSel];
    ExtremesBound(row, |row|);
    RowRange(row);
  }

  /** A block with these symbols has been added to those read. */
  ghost predicate Handed(v: Vars, w: Vars, syms: seq<int>) {
    w == v.(inUse16 := w.inUse16, inUse := w.inUse, sel := w.sel, cod := w.cod, sym := w.sym, done := v.done + [Block(v.head, v.inUse, syms)])
  }

  /** After a symbol the next one is due, until the end mark. */
  lemma GotNext(v: Vars, lens: seq<seq<int>>, syms: seq<int>, k: nat, n: nat, z: nat) returns (w: Vars)
    requires Ready(v, lens, syms, k) && Sendable(v, lens, syms)
    ensures k + 1 < |syms| ==> GotSym(CodeRead(v, n, z), syms[k]) == St(Mtf1, w) && Ready(w, lens, syms, k + 1) && w == v.(sym := w.sym)
    ensures k + 1 == |syms| ==> GotSym(CodeRead(v, n, z), syms[k]) == St(BlkHdr(0), w) && Handed(v, w, syms)
  {
    w := GotSym(CodeRead(v, n, z), syms[k]).v;
    if k + 1 < |syms| {
      GotOne(v, lens, syms, k, n, z);
    } else {
      GotLast(v, lens, syms, k, n, z);
    }
  }

  lemma GotOne(v: Vars, lens: seq<seq<int>>, syms: seq<int>, k: nat, n: nat, z: nat)
    requires Ready(v, lens, syms, k) && Sendable(v, lens, syms) && k + 1 < |syms|
    ensures var w := GotSym(CodeRead(v, n, z), syms[k]).v;
      GotSym(CodeRead(v, n, z), syms[k]) == St(Mtf1, w) && Ready(w, lens, syms, k + 1) && w == v.(sym := w.sym)
  {
    assert syms[..k] + [syms[k]] == syms[..k + 1];
  }

  lemma GotLast(v: Vars, lens: seq<seq<int>>, syms: seq<int>, k: nat, n: nat, z: nat)
    requires Ready(v, lens, syms, k) && Sendable(v, lens, syms) && k + 1 == |syms|
    ensures var w := GotSym(CodeRead(v, n, z), syms[k]).v;
      GotSym(CodeRead(v, n, z), syms[k]) == St(BlkHdr(0), w) && Handed(v, w, syms)
  {
    assert syms[..k] + [syms[k]] == syms;
  }

  lemma CodeDecides(v: Vars, row: seq<int>, sym: nat, n: nat)
    requires Reading(v, row, sym, n)
    ensures Decide(CodeRead(v, row[sym], Value(Codeword(row, sym)))) == GotSym(CodeRead(v, row[sym], Value(Codeword(row, sym))), sym)
  {
    var cw := Codeword(row, sym);
    assert cw[..row[sym]] == cw;
    CodeEnds(row, sym, row[sym]);
  }

  lemma OneSym(v: Vars, lens: seq<seq<int>>, syms: seq<int>, k: nat) returns (w: Vars)
    requires Ready(v, lens, syms, k) && Sendable(v, lens, syms)
    ensures Ok(St(Mtf1, v))
    ensures k + 1 < |syms| ==> Ready(w, lens, syms, k + 1) && Ok(St(Mtf1, w)) && w == v.(sym := w.sym)
    ensures k + 1 == |syms| ==> Handed(v, w, syms)
    ensures Read(St(Mtf1, v), CodeOf(lens, v.sel.selector, k, syms[k]), St(if k + 1 < |syms| then Mtf1 else BlkHdr(0), w))
  {
    TableReady(v, lens, syms, k);
    var row := lens[v.sym.gSel];
    var n, cw := row[syms[k]], Codeword(row, syms[k]);
    CodeDecides(v, row, syms[k], v.sym.zn);
    w := GotNext(v, lens, syms, k, n, Value(cw));
    ReadCode(v, row, syms[k], v.sym.zn, St(if k + 1 < |syms| then Mtf1 else BlkHdr(0), w));
  }

  lemma {:induction false} ReadSyms(v: Vars, lens: seq<seq<int>>, syms: seq<int>, k: nat) returns (w: Vars)
    requires Ready(v, lens, syms, k) && Sendable(v, lens, syms)
    ensures Ok(St(Mtf1, v)) && Read(St(Mtf1, v), SymBits(lens, v.sel.selector, syms, k), St(BlkHdr(0), w))
    ensures Handed(v, w, syms)
    decreases |syms| - k
  {
    w := OneSym(v, lens, syms, k);
    var c := CodeOf(lens, v.sel.selector, k, syms[k]);
    if k + 1 == |syms| {
      assert SymBits(lens, v.sel.selector, syms, k + 1) == [];
      assert c + [] == c;
    } else {
      var u := w;
      w := ReadSyms(u, lens, syms, k + 1);
      ReadThen(St(Mtf1, v), c, St(Mtf1, u), SymBits(lens, v.sel.selector, syms, k + 1), St(BlkHdr(0), w));
    }
  }

  /** The first group. */
  lemma FirstReady(v: Vars, lens: seq<seq<int>>, syms: seq<int>) returns (w: Vars)
    requires Sendable(v, lens, syms) && v.cod.len == lens
    ensures CodingDone(v) == St(Mtf1, w) && Ready(w, lens, syms, 0) && w == v.(sym := w.sym)
  {
    w := CodingDone(v).v;
    assert syms[..0] == [];
  }
}
