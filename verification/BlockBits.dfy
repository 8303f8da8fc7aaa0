/** The bits of a block, and that reading them gives back what was written. */
module BlockBits {
  import opened Counting
  import opened Bits
  import opened HuffmanCodes
  import opened DecodeTables
  import opened Mtf
  import opened MtfStage
  import opened Wire

  // ----- numbers and magic bytes

  /** k whole bytes, the highest first. */
  function Bytes(v: nat, k: nat): (r: seq<Bit>)
  {
    if k == 0 then [] else Bytes(v / 256, k - 1) + Spell(v % 256, BYTE_LEN)
  }

  /** Bytes one by one or all bits at once. */
  lemma {:induction false} BytesSpell(v: nat, k: nat)
    ensures Bytes(v, k) == Spell(v, 8 * k)
  {
    if k != 0 {
      BytesSpell(v / 256, k - 1);
      SpellSplit(v, 8 * (k - 1), BYTE_LEN);
      HighIsQuotient(v, BYTE_LEN);
      assert Pow2(8) == 256;
      SpellMod(v, BYTE_LEN);
    }
  }

  function Letters(m: seq<int>): seq<Bit>
    requires InRange(m, 256)
  {
    if m == [] then [] else Spell(m[0], BYTE_LEN) + Letters(m[1..])
  }

  lemma Assoc3(a: seq<Bit>, b: seq<Bit>, c: seq<Bit>)
    ensures (a + b) + c == a + (b + c)
  {
  }

  lemma FitsByte(x: nat)
    requires x < 256
    ensures x < Pow2(BYTE_LEN)
  {
    assert Pow2(8) == 256;
  }

  ghost predicate Read(s: St, bits: seq<Bit>, t: St)
    requires Ok(s) && Ok(t)
  {
    forall rest {:trigger bits + rest} :: Run(s, bits + rest) == Run(t, rest)
  }

  lemma ReadRun(s: St, bits: seq<Bit>, t: St, rest: seq<Bit>)
    requires Ok(s) && Ok(t) && Read(s, bits, t)
    ensures Run(s, bits + rest) == Run(t, rest)
  {
  }

  lemma ReadOne(s: St, x: nat)
    requires Ok(s) && Want(s) >= 1 && x < Pow2(Want(s))
    ensures Read(s, Spell(x, Want(s)), Next(s, x))
  {
    forall rest
      ensures Run(s, Spell(x, Want(s)) + rest) == Run(Next(s, x), rest)
    {
      RunStep(s, x, rest);
    }
  }

  lemma ReadNothing(s: St)
    requires Ok(s)
    ensures Read(s, [], s)
  {
    forall rest
      ensures Run(s, [] + rest) == Run(s, rest)
    {
      assert [] + rest == rest;
    }
  }

  lemma ReadThen(s: St, a: seq<Bit>, t: St, b: seq<Bit>, u: St)
    requires Ok(s) && Ok(t) && Ok(u) && Read(s, a, t) && Read(t, b, u)
    ensures Read(s, a + b, u)
  {
    forall rest
      ensures Run(s, a + b + rest) == Run(u, rest)
    {
      Assoc3(a, b, rest);
      ReadRun(s, a, t, b + rest);
      ReadRun(t, b, u, rest);
    }
  }

  lemma ReadBit(s: St, x: Bit)
    requires Ok(s) && Want(s) == 1
    ensures Read(s, [x], Next(s, x))
  {
    ReadOne(s, x);
    assert Spell(x, 1) == [x];
  }

  // ----- block header

  lemma {:induction false} ReadBlkHdr(k: nat, v: Vars)
    requires k <= 5
    ensures Read(St(BlkHdr(k), v), Letters(BLOCK_MAGIC[k..]), St(BlockCrc(0), v.(head := v.head.(storedBlockCRC := 0))))
    decreases 5 - k
  {
    var x := BLOCK_MAGIC[k];
    FitsByte(x);
    ReadOne(St(BlkHdr(k), v), x);
    assert BLOCK_MAGIC[k..][1..] == BLOCK_MAGIC[k + 1..];
    if k < 5 {
      ReadBlkHdr(k + 1, v);
      ReadThen(St(BlkHdr(k), v), Spell(x, BYTE_LEN), St(BlkHdr(k + 1), v), Letters(BLOCK_MAGIC[k + 1..]),
               St(BlockCrc(0), v.(head := v.head.(storedBlockCRC := 0))));
    } else {
      assert Letters(BLOCK_MAGIC[5..]) == Spell(x, BYTE_LEN) + [] == Spell(x, BYTE_LEN);
    }
  }

  function CrcSet(v: Vars, c: nat): Vars {
    v.(head := v.head.(storedBlockCRC := c))
  }

  lemma CrcByte(v: Vars, c: nat, k: nat)
    requires k <= 3
    ensures Read(St(BlockCrc(k), CrcSet(v, c / 256)), Spell(c % 256, BYTE_LEN), St(if k < 3 then BlockCrc(k + 1) else RandBit, CrcSet(v, c)))
  {
    FitsByte(c % 256);
    ReadOne(St(BlockCrc(k), CrcSet(v, c / 256)), c % 256);
  }

  lemma {:induction false} ReadCrcPart(v: Vars, c: nat, k: nat)
    requires k <= 4 && c < Pow2(BYTE_LEN * k)
    ensures Read(St(BlockCrc(0), CrcSet(v, 0)), Bytes(c, k), St(if k < 4 then BlockCrc(k) else RandBit, CrcSet(v, c)))
  {
    if k == 0 {
      ReadNothing(St(BlockCrc(0), CrcSet(v, 0)));
    } else {
      ByteOff(c, k);
      ReadCrcPart(v, c / 256, k - 1);
      CrcByte(v, c, k - 1);
      ReadThen(St(BlockCrc(0), CrcSet(v, 0)), Bytes(c / 256, k - 1), St(BlockCrc(k - 1), CrcSet(v, c / 256)), Spell(c % 256, BYTE_LEN),
               St(if k < 4 then BlockCrc(k) else RandBit, CrcSet(v, c)));
    }
  }

  /** A number without its last byte. */
  lemma ByteOff(c: nat, k: nat)
    requires k >= 1 && c < Pow2(BYTE_LEN * k)
    ensures c / 256 < Pow2(BYTE_LEN * (k - 1)) && 256 * (c / 256) + c % 256 == c && c % 256 < 256
  {
    assert Pow2(8) == 256;
    Pow2Sum(8 * (k - 1), 8);
  }

  function OrigSet(v: Vars, p: nat): Vars {
    v.(head := v.head.(blockRandomised := false, origPtr := p))
  }

  function OrigNext(v: Vars, p: nat, k: nat): St {
    if k < 3 then St(OrigPtr(k), OrigSet(v, p)) else St(Mapping1, OrigSet(v, p).(inUse16 := []))
  }

  lemma OrigByte(v: Vars, p: nat, k: nat)
    requires k <= 2 && p <= 10 + 100000 * v.head.blockSize100k
    ensures Read(St(OrigPtr(k), OrigSet(v, p / 256)), Spell(p % 256, BYTE_LEN), OrigNext(v, p, k + 1))
  {
    FitsByte(p % 256);
    ReadOne(St(OrigPtr(k), OrigSet(v, p / 256)), p % 256);
    OrigStep(v, p, k);
  }

  lemma OrigStep(v: Vars, p: nat, k: nat)
    requires k <= 2 && p <= 10 + 100000 * v.head.blockSize100k
    ensures NextOrigPtr(k, OrigSet(v, p / 256), p % 256) == OrigNext(v, p, k + 1)
  {
  }

  lemma {:induction false} ReadOrigPart(v: Vars, p: nat, k: nat)
    requires k <= 3 && p < Pow2(BYTE_LEN * k) && p <= 10 + 100000 * v.head.blockSize100k
    ensures Read(St(OrigPtr(0), OrigSet(v, 0)), Bytes(p, k), OrigNext(v, p, k))
  {
    if k == 0 {
      ReadNothing(St(OrigPtr(0), OrigSet(v, 0)));
    } else {
      ByteOff(p, k);
      ReadOrigPart(v, p / 256, k - 1);
      OrigByte(v, p, k - 1);
      ReadThen(St(OrigPtr(0), OrigSet(v, 0)), Bytes(p / 256, k - 1), St(OrigPtr(k - 1), OrigSet(v, p / 256)), Spell(p % 256, BYTE_LEN),
               OrigNext(v, p, k));
    }
  }

  /** Magic bytes, checksum, the bit for randomising, never set, and the position of the block among its rotations. */
  function HeadBits(crc: nat, origPtr: nat): seq<Bit> {
    Letters(BLOCK_MAGIC) + (Bytes(crc, CRC_BYTES) + ([0] + Bytes(origPtr, ORIG_BYTES)))
  }

  function HeadSet(v: Vars, crc: nat, origPtr: nat): Vars {
    OrigSet(CrcSet(v, crc), origPtr).(inUse16 := [])
  }

  lemma ReadFromRandBit(v: Vars, origPtr: nat)
    requires origPtr < Pow2(BYTE_LEN * ORIG_BYTES) && origPtr <= 10 + 100000 * v.head.blockSize100k
    ensures Read(St(RandBit, v), [0] + Bytes(origPtr, ORIG_BYTES), St(Mapping1, OrigSet(v, origPtr).(inUse16 := [])))
  {
    ReadOrigPart(v, origPtr, 3);
    ReadBit(St(RandBit, v), 0);
    ReadThen(St(RandBit, v), [0], St(OrigPtr(0), OrigSet(v, 0)), Bytes(origPtr, ORIG_BYTES), OrigNext(v, origPtr, 3));
  }

  lemma ReadHead(v: Vars, crc: nat, origPtr: nat)
    requires crc < Pow2(BYTE_LEN * CRC_BYTES) && origPtr < Pow2(BYTE_LEN * ORIG_BYTES) && origPtr <= 10 + 100000 * v.head.blockSize100k
    ensures Read(St(BlkHdr(0), v), HeadBits(crc, origPtr), St(Mapping1, HeadSet(v, crc, origPtr)))
  {
    var w := CrcSet(v, crc);
    var end := St(Mapping1, HeadSet(v, crc, origPtr));
    ReadFromRandBit(w, origPtr);
    ReadCrcPart(v, crc, 4);
    ReadThen(St(BlockCrc(0), CrcSet(v, 0)), Bytes(crc, CRC_BYTES), St(RandBit, w), [0] + Bytes(origPtr, ORIG_BYTES), end);
    ReadBlkHdr(0, v);
    assert BLOCK_MAGIC[0..] == BLOCK_MAGIC;
    ReadThen(St(BlkHdr(0), v), Letters(BLOCK_MAGIC), St(BlockCrc(0), CrcSet(v, 0)), Bytes(crc, CRC_BYTES) + ([0] + Bytes(origPtr, ORIG_BYTES)), end);
  }
}
