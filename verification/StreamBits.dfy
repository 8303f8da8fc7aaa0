/** What stands before and behind the blocks of a stream. */
module StreamBits {
  import opened Bits
  import opened Wire
  import opened BlockBits

  // ----- the stream header

  lemma {:induction false} ReadMagic(k: nat, v: Vars)
    requires k <= 3
    ensures Read(St(Magic(k), v), Letters(STREAM_MAGIC[k..]), St(Magic(3), v))
    decreases 3 - k
  {
    if k == 3 {
      ReadNothing(St(Magic(3), v));
    } else {
      var x := STREAM_MAGIC[k];
      FitsByte(x);
      ReadOne(St(Magic(k), v), x);
      ReadMagic(k + 1, v);
      assert STREAM_MAGIC[k..][1..] == STREAM_MAGIC[k + 1..];
      ReadThen(St(Magic(k), v), Spell(x, BYTE_LEN), St(Magic(k + 1), v), Letters(STREAM_MAGIC[k + 1..]), St(Magic(3), v));
    }
  }

  function LevelSet(level: nat): Vars {
    Start().v.(head := Start().v.head.(blockSize100k := level))
  }

  function StreamHead(level: nat): seq<Bit> {
    Letters(STREAM_MAGIC) + Spell(0x30 + level, BYTE_LEN)
  }

  lemma ReadLevel(level: nat)
    requires 1 <= level <= 9
    ensures Read(St(Magic(3), Start().v), Spell(0x30 + level, BYTE_LEN), St(BlkHdr(0), LevelSet(level)))
  {
    FitsByte(0x30 + level);
    ReadOne(St(Magic(3), Start().v), 0x30 + level);
  }

  lemma ReadStreamHead(level: nat)
    requires 1 <= level <= 9
    ensures Read(Start(), StreamHead(level), St(BlkHdr(0), LevelSet(level)))
  {
    var v := Start().v;
    ReadMagic(0, v);
    assert STREAM_MAGIC[0..] == STREAM_MAGIC;
    ReadLevel(level);
    ReadThen(Start(), Letters(STREAM_MAGIC), St(Magic(3), v), Spell(0x30 + level, BYTE_LEN), St(BlkHdr(0), LevelSet(level)));
  }

  // ----- the trailer

  function EndSet(v: Vars, c: nat): Vars {
    v.(head := v.head.(storedCombinedCRC := c))
  }

  lemma {:induction false} ReadEndHdr(k: nat, v: Vars)
    requires 1 <= k <= 6
    ensures Read(St(if k < 6 then EndHdr(k) else CombCrc(0), if k < 6 then v else EndSet(v, 0)), Letters(END_MAGIC[k..]),
                 St(CombCrc(0), EndSet(v, 0)))
    decreases 6 - k
  {
    if k == 6 {
      ReadNothing(St(CombCrc(0), EndSet(v, 0)));
    } else {
      var x := END_MAGIC[k];
      FitsByte(x);
      ReadOne(St(EndHdr(k), v), x);
      ReadEndHdr(k + 1, v);
      assert END_MAGIC[k..][1..] == END_MAGIC[k + 1..];
      var t := if k < 5 then St(EndHdr(k + 1), v) else St(CombCrc(0), EndSet(v, 0));
      ReadThen(St(EndHdr(k), v), Spell(x, BYTE_LEN), t, Letters(END_MAGIC[k + 1..]), St(CombCrc(0), EndSet(v, 0)));
    }
  }

  lemma CombByte(v: Vars, c: nat, k: nat)
    requires k <= 3
    ensures Read(St(CombCrc(k), EndSet(v, c / 256)), Spell(c % 256, BYTE_LEN), St(if k < 3 then CombCrc(k + 1) else StreamEnd, EndSet(v, c)))
  {
    var x := c % 256;
    FitsByte(x);
    NextComb(v, c, k, x);
    ReadOne(St(CombCrc(k), EndSet(v, c / 256)), x);
  }

  lemma NextComb(v: Vars, c: nat, k: nat, x: nat)
    requires k <= 3 && x == c % 256
    ensures Next(St(CombCrc(k), EndSet(v, c / 256)), x) == St(if k < 3 then CombCrc(k + 1) else StreamEnd, EndSet(v, c))
  {
    assert 256 * (c / 256) + x == c;
  }

  lemma {:induction false} ReadCombPart(v: Vars, c: nat, k: nat)
    requires k <= 4 && c < Pow2(BYTE_LEN * k)
    ensures Read(St(CombCrc(0), EndSet(v, 0)), Bytes(c, k), St(if k < 4 then CombCrc(k) else StreamEnd, EndSet(v, c)))
  {
    if k == 0 {
      ReadNothing(St(CombCrc(0), EndSet(v, 0)));
    } else {
      ByteOff(c, k);
      ReadCombPart(v, c / 256, k - 1);
      CombByte(v, c, k - 1);
      ReadThen(St(CombCrc(0), EndSet(v, 0)), Bytes(c / 256, k - 1), St(CombCrc(k - 1), EndSet(v, c / 256)), Spell(c % 256, BYTE_LEN),
               St(if k < 4 then CombCrc(k) else StreamEnd, EndSet(v, c)));
    }
  }

  function Trailer(c: nat): seq<Bit> {
    Letters(END_MAGIC) + Bytes(c, CRC_BYTES)
  }

  lemma ReadTrailer(v: Vars, c: nat)
    requires c < Pow2(BYTE_LEN * CRC_BYTES)
    ensures Read(St(BlkHdr(0), v), Trailer(c), St(StreamEnd, EndSet(v, c)))
  {
    var x := END_MAGIC[0];
    FitsByte(x);
    ReadOne(St(BlkHdr(0), v), x);
    ReadEndHdr(1, v);
    ReadThen(St(BlkHdr(0), v), Spell(x, BYTE_LEN), St(EndHdr(1), v), Letters(END_MAGIC[1..]), St(CombCrc(0), EndSet(v, 0)));
    ReadCombPart(v, c, 4);
    ReadThen(St(BlkHdr(0), v), Letters(END_MAGIC), St(CombCrc(0), EndSet(v, 0)), Bytes(c, CRC_BYTES), St(StreamEnd, EndSet(v, c)));
  }
}
