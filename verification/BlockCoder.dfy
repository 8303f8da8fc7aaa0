/** The work BZ2_compressBlock does for one block: sorting, coding, writing. */
module BlockCoder {
  import opened Permutations
  import opened Counting
  import opened Rotations
  import opened Bits
  import opened BitStream
  import opened Mtf
  import opened MtfStage
  import opened RunLength
  import opened Output
  import opened MainCompare
  import opened MainFinish
  import opened BlockSort
  import opened Wire
  import opened BlockBits
  import opened SymbolBits
  import opened WholeBlock
  import opened StreamBits
  import opened BlockText
  import opened SendMtf
  import opened SendValues
  import opened HuffmanCodes
  import opened PayloadSize
  import opened TableChoice

  // ----- header bytes

  method PutUChars(w: BitWriter, m: seq<int>)
    requires w.Valid() && InRange(m, 256)
    modifies w
    ensures w.Valid() && w.Written() == old(w.Written()) + Letters(m)
  {
    assert m[0..] == m;
    for i := 0 to |m|
      invariant w.Valid() && w.Written() + Letters(m[i..]) == old(w.Written()) + Letters(m)
    {
      assert m[i..][1..] == m[i + 1..];
      BitStream.Assoc(w.Written(), Spell(m[i], BYTE_LEN), Letters(m[i + 1..]));
      PutUChar(w, m[i]);
    }
    assert w.Written() + [] == w.Written();
  }

  lemma FourBytes(u: nat)
    ensures Bytes(u, CRC_BYTES) == Spell(u / 0x100_0000 % 256, BYTE_LEN) + Spell(u / 0x1_0000 % 256, BYTE_LEN) + Spell(u / 0x100 % 256, BYTE_LEN) + Spell(u % 256, BYTE_LEN)
  {
    var b, c := u / 256, u / 256 / 256;
    assert c / 256 == u / 0x100_0000 && c == u / 0x1_0000;
    assert Bytes(c / 256, 1) == [] + Spell(c / 256 % 256, BYTE_LEN) == Spell(c / 256 % 256, BYTE_LEN);
    assert Bytes(c, 2) == Bytes(c / 256, 1) + Spell(c % 256, BYTE_LEN);
    assert Bytes(b, ORIG_BYTES) == Bytes(c, 2) + Spell(b % 256, BYTE_LEN);
  }

  lemma Join4(w: seq<Bit>, a: seq<Bit>, b: seq<Bit>, c: seq<Bit>, d: seq<Bit>)
    ensures w + a + b + c + d == w + (a + b + c + d)
  {
  }

  method PutUChar(w: BitWriter, c: nat)
    requires w.Valid() && c < 256
    modifies w
    ensures w.Valid() && w.Written() == old(w.Written()) + Spell(c, BYTE_LEN)
  {
    FitsByte(c);
    w.BsW(BYTE_LEN, c);
  }

  /** The highest byte first. */
  method PutUInt32(w: BitWriter, u: Word)
    requires w.Valid()
    modifies w
    ensures w.Valid() && w.Written() == old(w.Written()) + Bytes(u, CRC_BYTES)
  {
    FourBytes(u);
    var b3, b2, b1, b0 := u / 0x100_0000 % 256, u / 0x1_0000 % 256, u / 0x100 % 256, u % 256;
    Join4(w.Written(), Spell(b3, BYTE_LEN), Spell(b2, BYTE_LEN), Spell(b1, BYTE_LEN), Spell(b0, BYTE_LEN));
    PutUChar(w, b3);
    PutUChar(w, b2);
    PutUChar(w, b1);
    PutUChar(w, b0);
  }

  /** Magic bytes, checksum, the bit for randomising, and the position of the block among its rotations. */
  method PutHead(w: BitWriter, crc: Word, origPtr: nat)
    requires w.Valid() && origPtr < 0x100_0000
    modifies w
    ensures w.Valid() && w.Written() == old(w.Written()) + HeadBits(crc, origPtr)
  {
    Pow2Is32();
    BytesSpell(origPtr, 3);
    BitStream.Assoc(w.Written(), Letters(BLOCK_MAGIC), Bytes(crc, CRC_BYTES) + ([0] + Bytes(origPtr, ORIG_BYTES)));
    PutUChars(w, BLOCK_MAGIC);
    BitStream.Assoc(w.Written(), Bytes(crc, CRC_BYTES), [0] + Bytes(origPtr, ORIG_BYTES));
    PutUInt32(w, crc);
    BitStream.Assoc(w.Written(), [0], Bytes(origPtr, ORIG_BYTES));
    PutBit(w, false);
    w.BsW(REST_LEN, origPtr);
  }

  /** The header of the stream. */
  method PutStreamHead(w: BitWriter, level: nat)
    requires w.Valid() && 1 <= level <= 9
    modifies w
    ensures w.Valid() && w.Written() == old(w.Written()) + StreamHead(level)
  {
    BitStream.Assoc(w.Written(), Letters(STREAM_MAGIC), Spell(0x30 + level, BYTE_LEN));
    PutUChars(w, STREAM_MAGIC);
    PutUChar(w, 0x30 + level);
  }

  method PutTrailer(w: BitWriter, combinedCRC: Word)
    requires w.Valid()
    modifies w
    ensures w.Valid() && w.Written() == old(w.Written()) + Trailer(combinedCRC)
  {
    BitStream.Assoc(w.Written(), Letters(END_MAGIC), Bytes(combinedCRC, CRC_BYTES));
    PutUChars(w, END_MAGIC);
    PutUInt32(w, combinedCRC);
  }

  // ----- symbols

  lemma {:induction false} EncRange(u: seq<int>, yy: seq<int>, z: nat)
    requires |yy| >= 1
    ensures forall i :: 0 <= i < |Enc(u, yy, z)| ==> 0 <= Enc(u, yy, z)[i] <= |yy|
    decreases |u|
  {
    if u != [] && u[0] in yy {
      if u[0] == yy[0] {
        EncRange(u[1..], yy, z + 1);
      } else {
        EncRange(u[1..], ToFront(yy, Find(yy, u[0])), 0);
      }
    }
  }

  /** The symbols of a block, and the counts the table choice starts from. */
  ghost predicate Symbols(mtfv: seq<int>, freq: seq<int>, b: seq<Byte>, ptr: seq<int>, inUse: seq<bool>)
    requires SortsRotations(ptr, b) && AllUsed(inUse, b)
  {
    var m := |UsedList(inUse)|;
    mtfv == Enc(Indices(inUse, LastColumn(b, ptr)), Upto(m), 0) + [m + 1] && Counts(freq, mtfv, m + 1)
  }

  lemma SomeInUse(inUse: seq<bool>, b: seq<Byte>)
    requires AllUsed(inUse, b) && b != []
    ensures |UsedList(inUse)| > 0
  {
    UsedAt(inUse, b[0], |inUse|);
  }

  /** Sorts the block and codes its last column; the work arrays live as long as this takes. */
  method SortAndCode(block: array<int>, n: nat, inUse: seq<bool>, workFactor: int, ghost b: seq<Byte>)
    returns (origPtr: int, nInUse: nat, mtfv: seq<int>, mtfFreq: seq<int>, ghost ptr: seq<int>)
    requires 0 < n == |b| <= 900000 && n + OVERSHOOT <= block.Length && block[..n] == b && AllUsed(inUse, b)
    modifies block
    ensures block[..n] == b && SortsRotations(ptr, b) && 0 <= origPtr < n && ptr[origPtr] == 0
    ensures nInUse == |UsedList(inUse)| > 0 && Symbols(mtfv, mtfFreq, b, ptr, inUse) && 0 < |mtfv| <= n + 1
  {
    var arr1, quadrant, eclass := new int[n], new int[n + OVERSHOOT], new int[n];
    var ftab, bhtab := new int[65537], new bool[32 * (n / 32 + 3)];
    origPtr := BlockSort.BlockSort(arr1, block, quadrant, eclass, ftab, bhtab, n, workFactor, b);
    ptr := arr1[..n];
    SomeInUse(inUse, b);
    nInUse, mtfv, mtfFreq := CodeColumn(arr1, block, n, inUse, b);
  }

  method CodeColumn(arr1: array<int>, block: array<int>, n: nat, inUse: seq<bool>, ghost b: seq<Byte>)
    returns (nInUse: nat, mtfv: seq<int>, mtfFreq: seq<int>)
    requires 0 < n == |b| && n <= block.Length && block[..n] == b && AllUsed(inUse, b) && n <= arr1.Length
    requires SortsRotations(arr1[..n], b) && |UsedList(inUse)| > 0
    ensures nInUse == |UsedList(inUse)| && Symbols(mtfv, mtfFreq, b, arr1[..n], inUse) && 0 < |mtfv| <= n + 1
  {
    var unseqToSeq := new int[256];
    nInUse := MakeMapsE(inUse, unseqToSeq);
    var symbols, freq := new int[n + 1], new int[258];
    var nMTF := GenerateMtfValues(arr1, block, n, unseqToSeq, nInUse, symbols, freq, inUse, b);
    mtfv, mtfFreq := symbols[..nMTF], freq[..];
  }

  lemma SymbolsRange(mtfv: seq<int>, freq: seq<int>, b: seq<Byte>, ptr: seq<int>, inUse: seq<bool>)
    requires SortsRotations(ptr, b) && AllUsed(inUse, b) && Symbols(mtfv, freq, b, ptr, inUse) && |UsedList(inUse)| > 0
    ensures var m := |UsedList(inUse)|;
      InRange(mtfv, m + 2) && mtfv[|mtfv| - 1] == m + 1 && forall k :: 0 <= k < |mtfv| - 1 ==> 0 <= mtfv[k] <= m
  {
    EncRange(Indices(inUse, LastColumn(b, ptr)), Upto(|UsedList(inUse)|), 0);
  }

  /** Header, tables and symbols. */
  method PutPayload(w: BitWriter, blockCRC: Word, origPtr: int, inUse: seq<bool>, nInUse: nat, mtfv: seq<int>, mtfFreq: seq<int>,
                    ghost level: nat)
    returns (ghost p: Payload)
    requires w.Valid() && |inUse| == 256 && nInUse == |UsedList(inUse)| >= 1 && 0 <= origPtr <= 10 + 100000 * level <= 900010
    requires 0 < |mtfv| <= 900001 && InRange(mtfv, nInUse + 2) && Counts(mtfFreq, mtfv, nInUse + 1)
    requires mtfv[|mtfv| - 1] == nInUse + 1 && forall k :: 0 <= k < |mtfv| - 1 ==> 0 <= mtfv[k] <= nInUse
    modifies w
    ensures w.Valid() && w.Written() == old(w.Written()) + PayloadBits(p) && Sound(p, level)
    ensures p.crc == blockCRC && p.origPtr == origPtr && p.inUse == inUse && p.syms == mtfv && Compact(p, |mtfv| - 1)
  {
    ghost var sel, lens;
    sel, lens := PutParts(w, blockCRC, origPtr, inUse, nInUse, mtfv, mtfFreq);
    p := Payload(blockCRC, origPtr, inUse, sel, lens, mtfv);
    PayloadSound(p, level);
    PayloadCompact(p);
  }

  method PutParts(w: BitWriter, blockCRC: Word, origPtr: int, inUse: seq<bool>, nInUse: nat, mtfv: seq<int>, mtfFreq: seq<int>)
    returns (ghost sel: seq<int>, ghost lens: seq<seq<int>>)
    requires w.Valid() && |inUse| == 256 && nInUse == |UsedList(inUse)| >= 1 && 0 <= origPtr <= 900010
    requires 0 < |mtfv| <= 900001 && InRange(mtfv, nInUse + 2) && Counts(mtfFreq, mtfv, nInUse + 1)
    modifies w
    ensures w.Valid() && w.Written() == old(w.Written()) + (HeadBits(blockCRC, origPtr) + MtfBits(inUse, sel, lens, mtfv))
    ensures 2 <= |lens| <= 6 && InRange(sel, |lens|) && 1 <= |sel| <= MAX_SELECTORS && Codes(lens, nInUse + 2) && |mtfv| <= G_SIZE * |sel|
    ensures G_SIZE * (|sel| - 1) < |mtfv| && forall t :: 0 <= t < |lens| ==> Lengths(lens[t], 1, MAX_LEN)
  {
    ghost var before := w.Written();
    PutHead(w, blockCRC, origPtr);
    sel, lens := SendMtfValues(w, mtfv, mtfFreq, inUse, nInUse);
    BitStream.Assoc(before, HeadBits(blockCRC, origPtr), MtfBits(inUse, sel, lens, mtfv));
  }

  lemma PayloadCompact(p: Payload)
    requires |p.syms| > 0 && G_SIZE * (|p.sel| - 1) < |p.syms| && forall t :: 0 <= t < |p.lens| ==> Lengths(p.lens[t], 1, MAX_LEN)
    ensures Compact(p, |p.syms| - 1)
  {
  }

  lemma PayloadSound(p: Payload, level: nat)
    requires 0 <= p.crc < 0x1_0000_0000 && 0 <= p.origPtr <= 10 + 100000 * level <= 900010 && |p.inUse| == 256 && |UsedList(p.inUse)| >= 1
    requires 2 <= |p.lens| <= 6 && InRange(p.sel, |p.lens|) && 1 <= |p.sel| <= MAX_SELECTORS && Codes(p.lens, |UsedList(p.inUse)| + 2)
    requires 0 < |p.syms| <= G_SIZE * |p.sel| && p.syms[|p.syms| - 1] == |UsedList(p.inUse)| + 1
    requires forall k :: 0 <= k < |p.syms| - 1 ==> 0 <= p.syms[k] <= |UsedList(p.inUse)|
    ensures Sound(p, level)
  {
    Pow2Is32();
  }

  lemma PayloadSays(p: Payload, pairs: seq<Pair>, b: seq<Byte>, ptr: seq<int>, freq: seq<int>, step: (Word, int) -> Word, level: nat)
    requires b != [] && |b| <= 100000 * level <= 900000 && SortsRotations(ptr, b) && 0 <= p.origPtr < |b| && ptr[p.origPtr] == 0
    requires AllUsed(p.inUse, b) && Proper(pairs) && Coded(pairs) == b && p.crc == Finalise(Crc(step, Plain(pairs)))
    requires Symbols(p.syms, freq, b, ptr, p.inUse)
    ensures Says(step, BlockOf(p, level), Plain(pairs))
  {
    BlockSurvives(p, pairs, b, ptr, step, level);
  }

  /** One block: whatever its bytes, what is written for it is read back, and comes out as the bytes of its runs. */
  method CodeBlock(w: BitWriter, block: array<int>, n: nat, inUse: seq<bool>, blockCRC: Word, workFactor: int,
                   ghost pairs: seq<Pair>, ghost b: seq<Byte>, ghost level: nat, ghost step: (Word, int) -> Word)
    returns (ghost p: Payload)
    requires w.Valid() && 0 < n == |b| <= 100000 * level <= 900000 && n + OVERSHOOT <= block.Length && block[..n] == b
    requires AllUsed(inUse, b) && Proper(pairs) && Coded(pairs) == b && blockCRC == Finalise(Crc(step, Plain(pairs)))
    modifies w, block
    ensures w.Valid() && w.Written() == old(w.Written()) + PayloadBits(p) && block[..n] == b
    ensures p.crc == blockCRC && Sound(p, level) && Compact(p, n) && Says(step, BlockOf(p, level), Plain(pairs))
  {
    var origPtr, nInUse, mtfv, mtfFreq;
    ghost var ptr;
    origPtr, nInUse, mtfv, mtfFreq, ptr := SortAndCode(block, n, inUse, workFactor, b);
    SymbolsRange(mtfv, mtfFreq, b, ptr, inUse);
    p := PutPayload(w, blockCRC, origPtr, inUse, nInUse, mtfv, mtfFreq, level);
    PayloadSays(p, pairs, b, ptr, mtfFreq, step, level);
  }
}
