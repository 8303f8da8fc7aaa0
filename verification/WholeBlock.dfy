/** A whole block on the wire, the stream header before and the trailer behind the blocks. */
module WholeBlock {
  import opened Counting
  import opened Bits
  import opened HuffmanCodes
  import opened DecodeTables
  import opened MtfStage
  import opened Wire
  import opened BlockBits
  import opened MapBits
  import opened SelectorBits
  import opened LengthBits
  import opened SymbolBits

  /** Everything that is sent for a block. */
  datatype Payload = Payload(crc: nat, origPtr: nat, inUse: seq<bool>, sel: seq<int>, lens: seq<seq<int>>, syms: seq<int>)

  ghost predicate Sound(p: Payload, blockSize100k: int) {
    && p.crc < Pow2(BYTE_LEN * CRC_BYTES) && p.origPtr < Pow2(BYTE_LEN * ORIG_BYTES) && p.origPtr <= 10 + 100000 * blockSize100k
    && |p.inUse| == 256 && |UsedList(p.inUse)| >= 1
    && 2 <= |p.lens| <= 6 && InRange(p.sel, |p.lens|) && 1 <= |p.sel| <= MAX_SELECTORS && Codes(p.lens, |UsedList(p.inUse)| + 2)
    && 1 <= |p.syms| <= G_SIZE * |p.sel| && p.syms[|p.syms| - 1] == |UsedList(p.inUse)| + 1
    && forall k :: 0 <= k < |p.syms| - 1 ==> 0 <= p.syms[k] <= |UsedList(p.inUse)|
  }

  function CodedBits(p: Payload): seq<Bit> {
    LengthBits.LengthBits(p.lens) + SymBits(p.lens, p.sel, p.syms, 0)
  }

  /** The block that the decoder makes of a payload. */
  function BlockOf(p: Payload, level: int): Block {
    Block(Head(level, p.crc, 0, false, p.origPtr), p.inUse, p.syms)
  }

  function PayloadBits(p: Payload): seq<Bit> {
    HeadBits(p.crc, p.origPtr) + (MapBits.MapBits(p.inUse) + (SelectorBits.SelectorBits(|p.lens|, p.sel) + CodedBits(p)))
  }

  // ----- reading it back

  lemma ReadCoded(v: Vars, p: Payload, c: int) returns (w: Vars)
    requires Sendable(v, p.lens, p.syms) && p.sel == v.sel.selector
    ensures Ok(TableState(v, p.lens, 0, c)) && Read(TableState(v, p.lens, 0, c), CodedBits(p), St(BlkHdr(0), w))
    ensures Handed(v, w, p.syms)
  {
    var last := ReadTables(v, p.lens, 0, c);
    assert p.lens[0..] == p.lens;
    var u := v.(cod := Cod(p.lens, [], last));
    var x := FirstReady(u, p.lens, p.syms);
    w := ReadSyms(x, p.lens, p.syms, 0);
    ReadThen(TableState(v, p.lens, 0, c), LengthBits.LengthBits(p.lens), St(Mtf1, x), SymBits(p.lens, p.sel, p.syms, 0), St(BlkHdr(0), w));
  }

  lemma ReadFromSelectors(v: Vars, p: Payload, blockSize100k: int) returns (w: Vars)
    requires Sound(p, blockSize100k) && v.inUse == p.inUse
    ensures Read(St(SelGroups, v), SelectorBits.SelectorBits(|p.lens|, p.sel) + CodedBits(p), St(BlkHdr(0), w))
    ensures Handed(v, w, p.syms)
  {
    ReadSelectors(v, |p.lens|, p.sel);
    var u := SelectorSet(v, |p.lens|, p.sel);
    w := ReadCoded(u, p, 0);
    assert TableState(u, p.lens, 0, 0) == St(Coding1, u) by {
      assert p.lens[..0] == [];
    }
    ReadThen(St(SelGroups, v), SelectorBits.SelectorBits(|p.lens|, p.sel), St(Coding1, u), CodedBits(p), St(BlkHdr(0), w));
  }

  /** The decoder reads back every part of a block. */
  lemma ReadBlock(v: Vars, p: Payload) returns (w: Vars)
    requires Sound(p, v.head.blockSize100k)
    ensures Read(St(BlkHdr(0), v), PayloadBits(p), St(BlkHdr(0), w))
    ensures w.head == v.head.(storedBlockCRC := p.crc, origPtr := p.origPtr, blockRandomised := false)
    ensures w.done == v.done + [Block(w.head, p.inUse, p.syms)]
  {
    var h := HeadSet(v, p.crc, p.origPtr);
    var m := MapSet(h, p.inUse);
    w := ReadFromSelectors(m, p, v.head.blockSize100k);
    var rest := SelectorBits.SelectorBits(|p.lens|, p.sel) + CodedBits(p);
    ReadMap(h, p.inUse);
    assert h.(inUse16 := []) == h;
    ReadThen(St(Mapping1, h), MapBits.MapBits(p.inUse), St(SelGroups, m), rest, St(BlkHdr(0), w));
    ReadHead(v, p.crc, p.origPtr);
    ReadThen(St(BlkHdr(0), v), HeadBits(p.crc, p.origPtr), St(Mapping1, h), MapBits.MapBits(p.inUse) + rest, St(BlkHdr(0), w));
  }
}
