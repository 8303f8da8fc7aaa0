/** Whole streams: what the automaton makes of any bits is what the format says, and so is the text of any bytes. */
module ReaderStream {
  import opened Counting
  import opened Bits
  import opened BitStream
  import opened HuffmanCodes
  import opened DecodeTables
  import opened MtfStage
  import opened Output
  import opened Wire
  import opened BlockBits
  import opened Reader
  import opened ReaderRuns
  import opened ReaderCodes
  import opened ReaderSymbols
  import opened StreamBits
  import opened BlockText
  import opened StreamText

  // ----- a block

  lemma GroupsRuns(v: Vars, bits: seq<Bit>)
    requires |v.inUse| == 256 && NInUse(v) >= 1
    ensures |bits| < 3 ==> Leads(St(SelGroups, v), bits, Short)
    ensures |bits| >= 3 ==> var x := Value(bits[..3]);
              if 2 <= x <= 6 then Leads(St(SelGroups, v), bits, Got(St(SelCount, v.(sel := v.sel.(nGroups := x))), bits[3..]))
              else Leads(St(SelGroups, v), bits, Wrong)
  {
    Served(St(SelGroups, v), bits);
  }

  /** The state in which the first symbol is due. */
  function Coded(v: Vars, w: Vars): Vars {
    v.(sel := w.sel, cod := w.cod, sym := w.sym)
  }

  lemma SymbolsBegin(v: Vars, m: seq<int>, lens: seq<seq<int>>, c: int) returns (w: Vars)
    requires SelectOk(v) && Wire.InRange(m, v.sel.nGroups) && |m| >= 1 && LensOk(lens, AlphaSize(v)) && |lens| == v.sel.nGroups
    ensures Due(w, 0) && SelectorsOk(Selected(v, m).v) && TablesAt(Selected(v, m).v, lens, c) == StartSym(w) && w == Coded(v, w)
    ensures w.sym.tables == MakeTables(lens) && w.sel.selector == UndoMtf(m, Upto(|lens|)) && w.sym.syms == []
  {
    var u := Selected(v, m).v;
    var x := u.(cod := Cod(lens, [], c));
    TablesMade(lens, AlphaSize(v));
    w := x.(sym := Sym(MakeTables(lens), -1, 0, 0, 0, 0, []));
  }

  /** From s, where block v is being read, the bits lead to the end of it if the parsed symbols say so. */
  ghost predicate BlockLeads(s: St, bits: seq<Bit>, v: Vars, p: Parsed<seq<int>>, w: Vars) {
    && Ok(s)
    && match p
       case Got(syms, rest) => Leads(s, bits, Got(St(BlkHdr(0), w), rest)) && Over(v, w, syms)
       case Wrong => Leads(s, bits, Wrong)
       case Short => Leads(s, bits, Short)
  }

  lemma BlockFollows(s: St, bits: seq<Bit>, t: St, rest: seq<Bit>, v: Vars, p: Parsed<seq<int>>, w: Vars)
    requires Ok(s) && Ok(t) && Leads(s, bits, Got(t, rest)) && BlockLeads(t, rest, v, p, w)
    ensures BlockLeads(s, bits, v, p, w)
  {
  }

  lemma SameBlock(s: St, bits: seq<Bit>, u: Vars, v: Vars, p: Parsed<seq<int>>, w: Vars)
    requires BlockLeads(s, bits, u, p, w) && u.head == v.head && u.done == v.done && u.inUse == v.inUse
    ensures BlockLeads(s, bits, v, p, w)
  {
  }

  ghost predicate MtfOk(v: Vars, m: seq<int>) {
    SelectOk(v) && Wire.InRange(m, v.sel.nGroups) && |m| >= 1
  }

  lemma SymbolsStage(v: Vars, m: seq<int>, lens: seq<seq<int>>, c: int, bits: seq<Bit>) returns (w: Vars)
    requires MtfOk(v, m) && LensOk(lens, AlphaSize(v)) && |lens| == v.sel.nGroups
    ensures SelectorsOk(Selected(v, m).v)
    ensures BlockLeads(TablesAt(Selected(v, m).v, lens, c), bits, v, AfterTables(bits, m, lens, AlphaSize(v)), w)
  {
    var x := SymbolsBegin(v, m, lens, c);
    w := SymbolsRun(x, 0, bits);
    var p := AfterTables(bits, m, lens, AlphaSize(v));
    assert p.Got? ==> [] + p.value == p.value;
  }

  lemma TablesStage(v: Vars, m: seq<int>, bits: seq<Bit>) returns (w: Vars)
    requires MtfOk(v, m)
    ensures BlockLeads(Selected(v, m), bits, v, AfterSelectors(bits, m, v.sel.nGroups, AlphaSize(v)), w)
  {
    w := v;
    var u := Selected(v, m).v;
    var last := TablesRun(u, [], u.cod.curr, bits);
    assert TablesAt(u, [], u.cod.curr) == Selected(v, m);
    var lens := Rows(bits, v.sel.nGroups, AlphaSize(v));
    if lens.Got? {
      assert [] + lens.value == lens.value;
      w := SymbolsStage(v, m, lens.value, last, lens.rest);
      BlockFollows(Selected(v, m), bits, TablesAt(u, lens.value, last), lens.rest, v,
                   AfterTables(lens.rest, m, lens.value, AlphaSize(v)), w);
    }
  }

  lemma CountStage(v: Vars, bits: seq<Bit>) returns (w: Vars)
    requires SelectOk(v)
    ensures BlockLeads(St(SelCount, v), bits, v, AfterGroups(bits, v.sel.nGroups, AlphaSize(v)), w)
  {
    w := v;
    SelectorsRun(v, bits);
    var m := Selectors(bits, v.sel.nGroups);
    if m.Got? {
      w := TablesStage(v, m.value, m.rest);
      BlockFollows(St(SelCount, v), bits, Selected(v, m.value), m.rest, v, AfterSelectors(m.rest, m.value, v.sel.nGroups, AlphaSize(v)), w);
    }
  }

  lemma GroupsStage(v: Vars, bits: seq<Bit>) returns (w: Vars)
    requires |v.inUse| == 256 && NInUse(v) >= 1
    ensures BlockLeads(St(SelGroups, v), bits, v, AfterMap(bits, AlphaSize(v)), w)
  {
    w := v;
    GroupsRuns(v, bits);
    if |bits| >= 3 {
      var x := Value(bits[..3]);
      if 2 <= x <= 6 {
        w := GroupsGood(v, bits, x);
      }
    }
  }

  function Grouped(v: Vars, x: nat): Vars {
    v.(sel := v.sel.(nGroups := x))
  }

  lemma Counted(v: Vars, bits: seq<Bit>, x: nat) returns (w: Vars)
    requires |v.inUse| == 256 && NInUse(v) >= 1 && 2 <= x <= 6
    ensures Ok(St(SelCount, Grouped(v, x)))
    ensures BlockLeads(St(SelCount, Grouped(v, x)), bits, v, AfterGroups(bits, x, AlphaSize(v)), w)
  {
    var u := Grouped(v, x);
    assert AlphaSize(u) == AlphaSize(v) && u.sel.nGroups == x;
    w := CountStage(u, bits);
    SameBlock(St(SelCount, u), bits, u, v, AfterGroups(bits, x, AlphaSize(v)), w);
  }

  lemma GroupsGood(v: Vars, bits: seq<Bit>, x: nat) returns (w: Vars)
    requires |v.inUse| == 256 && NInUse(v) >= 1 && |bits| >= 3 && 2 <= x <= 6
    requires Leads(St(SelGroups, v), bits, Got(St(SelCount, v.(sel := v.sel.(nGroups := x))), bits[3..]))
    ensures BlockLeads(St(SelGroups, v), bits, v, AfterGroups(bits[3..], x, AlphaSize(v)), w)
  {
    w := Counted(v, bits[3..], x);
    BlockFollows(St(SelGroups, v), bits, St(SelCount, Grouped(v, x)), bits[3..], v, AfterGroups(bits[3..], x, AlphaSize(v)), w);
  }

  // ----- from its magic to its end

  /** The block that is read, behind its magic. */
  ghost predicate WholeLeads(s: St, bits: seq<Bit>, v: Vars, p: Parsed<Block>, w: Vars) {
    && Ok(s)
    && match p
       case Got(b, rest) => Leads(s, bits, Got(St(BlkHdr(0), w), rest)) && w.done == v.done + [b] && w.head == b.head
       case Wrong => Leads(s, bits, Wrong)
       case Short => Leads(s, bits, Short)
  }

  lemma WholeFollows(s: St, bits: seq<Bit>, t: St, rest: seq<Bit>, v: Vars, p: Parsed<Block>, w: Vars)
    requires Ok(s) && Ok(t) && Leads(s, bits, Got(t, rest)) && WholeLeads(t, rest, v, p, w)
    ensures WholeLeads(s, bits, v, p, w)
  {
  }

  /** The parsed symbols and what was known before them are a block. */
  function BlockOf(v: Vars, p: Parsed<seq<int>>): Parsed<Block> {
    match p
    case Got(syms, rest) => Got(Block(v.head, v.inUse, syms), rest)
    case Wrong => Wrong
    case Short => Short
  }

  lemma AfterBytesIs(v: Vars, bits: seq<Bit>)
    requires |v.inUse| == 256
    ensures AfterBytes(bits, v.head, v.inUse) == BlockOf(v, AfterMap(bits, AlphaSize(v)))
  {
  }

  lemma BlockWhole(s: St, bits: seq<Bit>, v: Vars, p: Parsed<seq<int>>, w: Vars)
    requires BlockLeads(s, bits, v, p, w)
    ensures WholeLeads(s, bits, v, BlockOf(v, p), w)
  {
  }

  lemma GroupsWhole(v: Vars, bits: seq<Bit>) returns (w: Vars)
    requires |v.inUse| == 256 && NInUse(v) >= 1
    ensures WholeLeads(St(SelGroups, v), bits, v, AfterBytes(bits, v.head, v.inUse), w)
  {
    w := GroupsStage(v, bits);
    BlockWhole(St(SelGroups, v), bits, v, AfterMap(bits, AlphaSize(v)), w);
    AfterBytesIs(v, bits);
  }

  lemma MapStage(v: Vars, bits: seq<Bit>) returns (w: Vars)
    requires v.inUse16 == []
    ensures WholeLeads(St(Mapping1, v), bits, v, AfterHead(bits, v.head), w)
  {
    w := v;
    var u := InUseRuns(v, bits);
    var inUse := InUse(bits);
    if inUse.Got? {
      w := GroupsWhole(u, inUse.rest);
      WholeFollows(St(Mapping1, v), bits, St(SelGroups, u), inUse.rest, u, AfterBytes(inUse.rest, v.head, inUse.value), w);
    }
  }

  lemma HeadStage(v: Vars, bits: seq<Bit>) returns (w: Vars)
    requires v.head.storedCombinedCRC == 0
    ensures WholeLeads(St(BlockCrc(0), CrcSet(v, 0)), bits, v, AfterMagic(bits, v.head.blockSize100k), w)
    ensures AfterMagic(bits, v.head.blockSize100k).Got? ==> w.head.storedCombinedCRC == 0 && w.head.blockSize100k == v.head.blockSize100k
  {
    w := v;
    HeadRuns(v, bits);
    var h := HeadOf(bits, v.head.blockSize100k);
    if h.Got? {
      var u := Headed(v, h.value).v;
      w := MapStage(u, h.rest);
      WholeFollows(St(BlockCrc(0), CrcSet(v, 0)), bits, St(Mapping1, u), h.rest, u, AfterHead(h.rest, h.value), w);
    }
  }

  lemma BlockStage(v: Vars, bits: seq<Bit>) returns (w: Vars)
    requires v.head.storedCombinedCRC == 0
    ensures WholeLeads(St(BlkHdr(1), v), bits, v, OneBlock(bits, v.head.blockSize100k), w)
    ensures OneBlock(bits, v.head.blockSize100k).Got? ==> w.head.storedCombinedCRC == 0 && w.head.blockSize100k == v.head.blockSize100k
  {
    w := v;
    BlockMagicRuns(1, v, bits);
    assert BLOCK_MAGIC[1..] == BLOCK_REST;
    var magic := Expect(bits, BLOCK_REST);
    if magic.Got? {
      w := HeadStage(v, magic.rest);
      WholeFollows(St(BlkHdr(1), v), bits, St(BlockCrc(0), CrcSet(v, 0)), magic.rest, v, AfterMagic(magic.rest, v.head.blockSize100k), w);
    }
  }

  // ----- a stream

  /** The blocks up to the end, and the combined checksum. */
  ghost predicate StreamLeads(s: St, bits: seq<Bit>, v: Vars, p: Parsed<Whole>, w: Vars) {
    && Ok(s)
    && match p
       case Got(whole, rest) =>
         && Run(s, bits) == (St(StreamEnd, w), rest)
         && w.done == v.done + whole.blocks && w.head.storedCombinedCRC == whole.combinedCRC
       case Wrong => Leads(s, bits, Wrong)
       case Short => Leads(s, bits, Short)
  }

  lemma CombRuns(v: Vars, bits: seq<Bit>) returns (w: Vars)
    ensures match Num(bits, 32)
            case Got(c, rest) => Run(EndMagic(6, v), bits) == (St(StreamEnd, w), rest) && w.done == v.done && w.head.storedCombinedCRC == c
            case Wrong => false
            case Short => Leads(EndMagic(6, v), bits, Short)
  {
    w := v;
    if |bits| < 32 {
      CombShort(0, v.(head := v.head.(storedCombinedCRC := 0)), bits);
    } else {
      var c := AsBytes(bits[..32], 4);
      ReadCombPart(v, c, 4);
      w := EndSet(v, c);
      ReadRun(St(CombCrc(0), EndSet(v, 0)), Bytes(c, 4), St(StreamEnd, w), bits[32..]);
      assert bits == bits[..32] + bits[32..];
    }
  }

  lemma CombStage(v: Vars, bits: seq<Bit>) returns (w: Vars)
    ensures StreamLeads(EndMagic(6, v), bits, v, AfterEndMagic(bits), w)
  {
    w := CombRuns(v, bits);
    assert v.done + [] == v.done;
  }

  lemma TrailerStage(v: Vars, bits: seq<Bit>) returns (w: Vars)
    ensures StreamLeads(St(EndHdr(1), v), bits, v, AfterEnd(bits), w)
  {
    w := v;
    EndMagicRuns(1, v, bits);
    assert END_MAGIC[1..] == END_REST;
    var magic := Expect(bits, END_REST);
    if magic.Got? {
      w := CombStage(v, magic.rest);
      StreamFollows(St(EndHdr(1), v), bits, EndMagic(6, v), magic.rest, v, AfterEndMagic(magic.rest), w);
    }
  }

  lemma MoreBlocks(s: St, bits: seq<Bit>, v: Vars, b: Block, u: Vars, rest: seq<Bit>, o: Parsed<Whole>, w: Vars)
    requires Ok(s) && Leads(s, bits, Got(St(BlkHdr(0), u), rest)) && u.done == v.done + [b] && StreamLeads(St(BlkHdr(0), u), rest, u, o, w)
    ensures StreamLeads(s, bits, v, if o.Got? then Got(Whole([b] + o.value.blocks, o.value.combinedCRC), o.rest) else o, w)
  {
    assert Shown(0);
    if o.Got? {
      assert v.done + [b] + o.value.blocks == v.done + ([b] + o.value.blocks);
    }
  }

  /** The first byte of a magic tells what follows. */
  lemma FirstByte(v: Vars, bits: seq<Bit>)
    ensures |bits| < 8 ==> Leads(St(BlkHdr(0), v), bits, Short)
    ensures |bits| >= 8 ==> var x := Value(bits[..8]);
              if x == END_START then Leads(St(BlkHdr(0), v), bits, Got(St(EndHdr(1), v), bits[8..]))
              else if x == BLOCK_START then Leads(St(BlkHdr(0), v), bits, Got(St(BlkHdr(1), v), bits[8..]))
              else Leads(St(BlkHdr(0), v), bits, Wrong)
  {
    Served(St(BlkHdr(0), v), bits);
  }

  lemma StreamFollows(s: St, bits: seq<Bit>, t: St, rest: seq<Bit>, v: Vars, p: Parsed<Whole>, w: Vars)
    requires Ok(s) && Ok(t) && Leads(s, bits, Got(t, rest)) && StreamLeads(t, rest, v, p, w)
    ensures StreamLeads(s, bits, v, p, w)
  {
    assert Shown(0);
  }

  lemma {:induction false} BlocksRun(v: Vars, bits: seq<Bit>) returns (w: Vars)
    requires v.head.storedCombinedCRC == 0
    ensures StreamLeads(St(BlkHdr(0), v), bits, v, Blocks(bits, v.head.blockSize100k), w)
    decreases |bits|
  {
    w := v;
    FirstByte(v, bits);
    if |bits| >= 8 {
      var x, rest := Value(bits[..8]), bits[8..];
      if x == END_START {
        w := TrailerStage(v, rest);
        StreamFollows(St(BlkHdr(0), v), bits, St(EndHdr(1), v), rest, v, AfterEnd(rest), w);
      } else if x == BLOCK_START {
        w := OneMore(v, bits, rest);
      }
    }
  }

  lemma {:induction false} OneMore(v: Vars, bits: seq<Bit>, rest: seq<Bit>) returns (w: Vars)
    requires v.head.storedCombinedCRC == 0 && |rest| < |bits| && Leads(St(BlkHdr(0), v), bits, Got(St(BlkHdr(1), v), rest))
    ensures StreamLeads(St(BlkHdr(0), v), bits, v, AfterStart(rest, v.head.blockSize100k), w)
    decreases |rest|, 1
  {
    var u := BlockStage(v, rest);
    WholeFollows(St(BlkHdr(0), v), bits, St(BlkHdr(1), v), rest, v, OneBlock(rest, v.head.blockSize100k), u);
    w := u;
    var b := OneBlock(rest, v.head.blockSize100k);
    if b.Got? {
      w := BlocksRun(u, b.rest);
      MoreBlocks(St(BlkHdr(0), v), bits, v, b.value, u, b.rest, Blocks(b.rest, v.head.blockSize100k), w);
    }
  }
}
