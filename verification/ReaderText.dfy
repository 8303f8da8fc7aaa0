/** What a stream stands for, in terms of the format alone; and that selectors beyond the 18002 that are kept do not matter. */
module ReaderText {
  import opened Counting
  import opened Bits
  import opened BitStream
  import opened HuffmanCodes
  import opened MtfStage
  import opened Output
  import opened Wire
  import opened BlockBits
  import opened StreamBits
  import SelectorBits
  import opened Reader
  import opened ReaderRuns
  import opened ReaderCodes
  import opened ReaderStream
  import opened BlockText
  import opened StreamText

  /** The level, and the blocks up to the end mark. */
  lemma LevelRuns(bits: seq<Bit>)
    ensures match Level(bits)
            case Got(l, rest) => 1 <= l <= 9 && Leads(Start(), bits, Got(St(BlkHdr(0), LevelSet(l)), rest))
            case Wrong => Run(Start(), bits).0.at == Failed(true)
            case Short => Leads(Start(), bits, Short)
  {
    assert Shown(0);
    StreamMagicRuns(0, Start().v, bits);
    assert STREAM_MAGIC[0..] == STREAM_MAGIC == STREAM_START;
    var magic := Expect(bits, STREAM_START);
    if magic.Got? {
      Served(St(Magic(3), Start().v), magic.rest);
    }
  }

  /** From the first bit on the automaton does what the format says: it ends with the blocks and the checksum of a stream, tells
      a wrong magic from other errors, and otherwise waits. */
  lemma Reads(bits: seq<Bit>) returns (w: Vars)
    ensures match Level(bits)
            case Got(l, rest) => StreamLeads(Start(), bits, Start().v, Blocks(rest, l), w)
            case Wrong => Run(Start(), bits).0.at == Failed(true)
            case Short => Leads(Start(), bits, Short)
  {
    w := Start().v;
    LevelRuns(bits);
    var l := Level(bits);
    if l.Got? {
      w := BlocksRun(LevelSet(l.value), l.rest);
      StreamFollows(Start(), bits, St(BlkHdr(0), LevelSet(l.value)), l.rest, LevelSet(l.value), Blocks(l.rest, l.value), w);
    }
  }

  /** The bits stop before the stream ends. */
  predicate CutShort(bits: seq<Bit>) {
    match Level(bits)
    case Got(l, rest) => Blocks(rest, l).Short?
    case Wrong => false
    case Short => true
  }

  lemma {:induction false} MagicFails(k: nat, v: Vars, bits: seq<Bit>)
    requires k <= 3
    ensures match Expect(bits, STREAM_MAGIC[k..])
            case Wrong => Run(St(Magic(k), v), bits).0 == St(Failed(true), v)
            case _ => true
    decreases 3 - k
  {
    if k < 3 {
      Served(St(Magic(k), v), bits);
      assert STREAM_MAGIC[k..][1..] == STREAM_MAGIC[k + 1..];
      if |bits| >= 8 {
        MagicFails(k + 1, v, bits[8..]);
      }
    }
  }

  /** Where reading comes to rest tells what is wrong with the bits, if anything is; before the level no block has been read. */
  lemma Tells(bits: seq<Bit>)
    ensures Run(Start(), bits).0.at == Failed(true) <==> Level(bits).Wrong?
    ensures Level(bits).Wrong? ==> Run(Start(), bits).0.v.done == []
    ensures Waiting(Run(Start(), bits).0) <==> CutShort(bits)
  {
    assert Shown(0);
    var w := Reads(bits);
    if Level(bits).Wrong? {
      MagicFails(0, Start().v, bits);
      assert STREAM_MAGIC[0..] == STREAM_MAGIC == STREAM_START;
      var magic := Expect(bits, STREAM_START);
      if magic.Got? {
        StreamMagicRuns(0, Start().v, bits);
        Served(St(Magic(3), Start().v), magic.rest);
      }
    }
  }

  /** The text of a stream: that of its blocks, if their checksums combine to that of the stream. */
  ghost function TextOf(step: (Word, int) -> Word, rNums: int -> int, combine: (Word, Word) -> Word, bits: seq<Bit>): Text {
    match Level(bits)
    case Got(l, rest) =>
      (match Blocks(rest, l)
       case Got(whole, _) => if CombinedOf(combine, whole.blocks) == whole.combinedCRC then AllTexts(step, rNums, whole.blocks) else Corrupt
       case _ => Corrupt)
    case _ => Corrupt
  }

  lemma DecompressedIs(step: (Word, int) -> Word, rNums: int -> int, combine: (Word, Word) -> Word, bytes: seq<int>)
    requires AllBytes(bytes)
    ensures Decompressed(step, rNums, combine, bytes) == TextOf(step, rNums, combine, ByteBits(bytes))
  {
    assert Shown(0);
    var bits := ByteBits(bytes);
    var w := Reads(bits);
    var l := Level(bits);
    if l.Got? {
      var p := Blocks(l.rest, l.value);
      if p.Got? {
        assert [] + p.value.blocks == p.value.blocks;
      }
    }
  }

  // ----- surplus selectors

  lemma {:induction false} UnaryOf(n: nat, j: nat, limit: nat, rest: seq<Bit>)
    requires j <= n < limit
    ensures Unary(SelectorBits.Ones(n - j) + [0] + rest, j, limit) == Got(n, rest)
    decreases n - j
  {
    var bits := SelectorBits.Ones(n - j) + [0] + rest;
    if j < n {
      assert bits[1..] == SelectorBits.Ones(n - j - 1) + [0] + rest;
      UnaryOf(n, j + 1, limit, rest);
    } else {
      assert bits == [0] + rest && bits[1..] == rest;
    }
  }

  lemma {:induction false} UnariesOf(m: seq<int>, limit: nat, rest: seq<Bit>)
    requires limit > 0 && Wire.InRange(m, limit)
    ensures Unaries(SelectorBits.Unary(m) + rest, |m|, limit) == Got(m, rest)
    decreases |m|
  {
    if m == [] {
      assert [] + rest == rest;
    } else {
      var more := SelectorBits.Unary(m[1..]) + rest;
      assert SelectorBits.Unary(m) + rest == SelectorBits.Ones(m[0]) + [0] + more;
      UnaryOf(m[0], 0, limit, more);
      UnariesOf(m[1..], limit, rest);
      assert [m[0]] + m[1..] == m;
    }
  }

  /** The count and the selectors, as they are written. */
  function CountedBits(m: seq<int>): seq<Bit> {
    Spell(|m|, COUNT_LEN) + SelectorBits.Unary(m)
  }

  lemma SelectorsOf(m: seq<int>, limit: nat, rest: seq<Bit>)
    requires limit > 0 && Wire.InRange(m, limit) && 1 <= |m| < 32768
    ensures Selectors(CountedBits(m) + rest, limit) == Got(Kept(m), rest)
  {
    var bits := CountedBits(m) + rest;
    Fifteen();
    ValueOfSpell(|m|, COUNT_LEN);
    DivModUnique(|m|, Pow2(COUNT_LEN), 0, |m|);
    assert bits[..15] == Spell(|m|, COUNT_LEN) && bits[15..] == SelectorBits.Unary(m) + rest;
    UnariesOf(m, limit, rest);
  }

  /** Any number of selectors that 15 bits can tell is read, and those beyond 18002 change nothing. */
  lemma SurplusSkipped(v: Vars, m: seq<int>, rest: seq<Bit>)
    requires SelectOk(v) && Wire.InRange(m, v.sel.nGroups) && MAX_SELECTORS < |m| < 32768
    ensures Run(St(SelCount, v), CountedBits(m) + rest) == Run(St(SelCount, v), CountedBits(m[..MAX_SELECTORS]) + rest)
    ensures Run(St(SelCount, v), CountedBits(m) + rest) == Run(Selected(v, m[..MAX_SELECTORS]), rest)
  {
    assert Shown(0);
    SelectorsOf(m, v.sel.nGroups, rest);
    SelectorsOf(m[..MAX_SELECTORS], v.sel.nGroups, rest);
    SelectorsRun(v, CountedBits(m) + rest);
    SelectorsRun(v, CountedBits(m[..MAX_SELECTORS]) + rest);
  }

  /** A stream that ends, and bits behind it. */
  lemma EndStays(bits: seq<Bit>, more: seq<Bit>)
    requires Run(Start(), bits).0.at == StreamEnd
    ensures Run(Start(), bits + more).0 == Run(Start(), bits).0
  {
    RunAppend(Start(), bits, more);
  }

  lemma SurplusRuns(v: Vars, pre: seq<Bit>, m: seq<int>, post: seq<Bit>)
    requires Run(Start(), pre) == (St(SelCount, v), []) && Wire.InRange(m, v.sel.nGroups) && MAX_SELECTORS < |m| < 32768
    ensures Run(Start(), pre + (CountedBits(m) + post)) == Run(Start(), pre + (CountedBits(m[..MAX_SELECTORS]) + post))
  {
    RunAppend(Start(), pre, CountedBits(m) + post);
    RunAppend(Start(), pre, CountedBits(m[..MAX_SELECTORS]) + post);
    assert [] + (CountedBits(m) + post) == CountedBits(m) + post;
    assert [] + (CountedBits(m[..MAX_SELECTORS]) + post) == CountedBits(m[..MAX_SELECTORS]) + post;
    SurplusSkipped(v, m, post);
  }

  /** Two files that differ only in surplus selectors, somewhere in one of their blocks, stand for the same text. */
  lemma SurplusText(step: (Word, int) -> Word, rNums: int -> int, combine: (Word, Word) -> Word,
                    bytes: seq<int>, bytes': seq<int>, pre: seq<Bit>, v: Vars, m: seq<int>, post: seq<Bit>, pad: seq<Bit>, pad': seq<Bit>)
    requires AllBytes(bytes) && AllBytes(bytes')
    requires Run(Start(), pre) == (St(SelCount, v), []) && Wire.InRange(m, v.sel.nGroups) && MAX_SELECTORS < |m| < 32768
    requires ByteBits(bytes) == pre + (CountedBits(m) + post) + pad
    requires ByteBits(bytes') == pre + (CountedBits(m[..MAX_SELECTORS]) + post) + pad'
    requires Run(Start(), pre + (CountedBits(m) + post)).0.at == StreamEnd
    ensures Decompressed(step, rNums, combine, bytes) == Decompressed(step, rNums, combine, bytes')
  {
    SurplusRuns(v, pre, m, post);
    EndStays(pre + (CountedBits(m) + post), pad);
    EndStays(pre + (CountedBits(m[..MAX_SELECTORS]) + post), pad');
  }
}
