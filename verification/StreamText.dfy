/** What a whole compressed stream stands for, and that it stands for what was compressed. */
module StreamText {
  import opened Counting
  import opened Bits
  import opened BitStream
  import opened RunLength
  import opened Output
  import opened Wire
  import opened BlockBits
  import opened BlockText

  // ----- the compressor's side

  /** The bytes of all runs of all blocks, in order. */
  function AllPlain(blocks: seq<seq<Pair>>): seq<int> {
    if blocks == [] then [] else AllPlain(blocks[..|blocks| - 1]) + Plain(blocks[|blocks| - 1])
  }

  /** The combined checksum of all non-empty blocks. */
  function Combined(step: (Word, int) -> Word, combine: (Word, Word) -> Word, blocks: seq<seq<Pair>>): Word {
    if blocks == [] then 0
    else
      var k := |blocks| - 1;
      var c := Combined(step, combine, blocks[..k]);
      if blocks[k] == [] then c else combine(c, Finalise(Crc(step, Plain(blocks[k]))))
  }

  // ----- the decompressor's side

  /** The texts of all blocks, if none is corrupt. */
  ghost function AllTexts(step: (Word, int) -> Word, rNums: int -> int, ks: seq<Wire.Block>): Text {
    if ks == [] then Clean([])
    else
      var k := |ks| - 1;
      match AllTexts(step, rNums, ks[..k])
      case Corrupt => Corrupt
      case Clean(a) =>
        match BlockText.BlockText(step, rNums, ks[k])
        case Corrupt => Corrupt
        case Clean(b) => Clean(a + b)
  }

  function CombinedOf(combine: (Word, Word) -> Word, ks: seq<Wire.Block>): Word {
    if ks == [] then 0
    else
      var k := |ks| - 1;
      var c := ks[k].head.storedBlockCRC;
      combine(CombinedOf(combine, ks[..k]), if c < 0x1_0000_0000 then c else 0)
  }

  /** What a compressed stream decompresses to; bytes behind its end do not matter. */
  ghost function Decompressed(step: (Word, int) -> Word, rNums: int -> int, combine: (Word, Word) -> Word, bytes: seq<int>): Text
    requires AllBytes(bytes)
  {
    var end := Wire.Run(Start(), ByteBits(bytes)).0;
    if end.at != StreamEnd || CombinedOf(combine, end.v.done) != end.v.head.storedCombinedCRC then Corrupt
    else AllTexts(step, rNums, end.v.done)
  }

  // ----- together

  function NonEmpty(blocks: seq<seq<Pair>>): seq<seq<Pair>> {
    if blocks == [] then []
    else
      var k := |blocks| - 1;
      NonEmpty(blocks[..k]) + if blocks[k] == [] then [] else [blocks[k]]
  }

  /** Block i is decoded to the bytes of the i-th list of runs. */
  ghost predicate MatchAt(step: (Word, int) -> Word, done: seq<Wire.Block>, full: seq<seq<Pair>>, i: int) {
    && 0 <= i < |done| == |full| && done[i].head.storedBlockCRC == Finalise(Crc(step, Plain(full[i])))
    && Says(step, done[i], Plain(full[i]))
  }

  /** The blocks read are those handed to the compressor, without the empty ones. */
  ghost predicate Matches(step: (Word, int) -> Word, done: seq<Wire.Block>, full: seq<seq<Pair>>) {
    |done| == |full| && forall i {:trigger MatchAt(step, done, full, i)} :: 0 <= i < |full| ==> MatchAt(step, done, full, i)
  }

  lemma MatchesMore(step: (Word, int) -> Word, done: seq<Wire.Block>, full: seq<seq<Pair>>, k: Wire.Block, pairs: seq<Pair>)
    requires Matches(step, done, full) && k.head.storedBlockCRC == Finalise(Crc(step, Plain(pairs)))
    requires Says(step, k, Plain(pairs))
    ensures Matches(step, done + [k], full + [pairs])
  {
    forall i | 0 <= i < |full| + 1
      ensures MatchAt(step, done + [k], full + [pairs], i)
    {
      if i < |full| {
        assert MatchAt(step, done, full, i);
      }
    }
  }

  lemma MatchesLess(step: (Word, int) -> Word, done: seq<Wire.Block>, full: seq<seq<Pair>>, k: nat)
    requires Matches(step, done, full) && |full| == k + 1
    ensures Matches(step, done[..k], full[..k]) && MatchAt(step, done, full, k)
  {
    var d, f := done[..k], full[..k];
    forall i | 0 <= i < k
      ensures MatchAt(step, d, f, i)
    {
      assert MatchAt(step, done, full, i);
    }
  }

  lemma {:induction false} FullText(step: (Word, int) -> Word, rNums: int -> int, combine: (Word, Word) -> Word, done: seq<Wire.Block>, full: seq<seq<Pair>>)
    requires Matches(step, done, full) && forall i :: 0 <= i < |full| ==> full[i] != []
    ensures AllTexts(step, rNums, done) == Clean(AllPlain(full)) && CombinedOf(combine, done) == Combined(step, combine, full)
    decreases |full|
  {
    if full != [] {
      var k := |full| - 1;
      MatchesLess(step, done, full, k);
      FullText(step, rNums, combine, done[..k], full[..k]);
    }
  }

  /** Empty blocks add nothing. */
  lemma {:induction false} NonEmptyPlain(step: (Word, int) -> Word, combine: (Word, Word) -> Word, blocks: seq<seq<Pair>>)
    ensures AllPlain(NonEmpty(blocks)) == AllPlain(blocks)
    ensures Combined(step, combine, NonEmpty(blocks)) == Combined(step, combine, blocks)
    ensures forall i :: 0 <= i < |NonEmpty(blocks)| ==> NonEmpty(blocks)[i] != []
  {
    if blocks != [] {
      var k := |blocks| - 1;
      var f := NonEmpty(blocks[..k]);
      NonEmptyPlain(step, combine, blocks[..k]);
      if blocks[k] == [] {
        assert f + [] == f && AllPlain(blocks[..k]) + [] == AllPlain(blocks[..k]);
      } else {
        assert (f + [blocks[k]])[..|f|] == f;
      }
    }
  }

  lemma MatchesText(step: (Word, int) -> Word, rNums: int -> int, combine: (Word, Word) -> Word, done: seq<Wire.Block>, blocks: seq<seq<Pair>>)
    requires Matches(step, done, NonEmpty(blocks))
    ensures AllTexts(step, rNums, done) == Clean(AllPlain(blocks)) && CombinedOf(combine, done) == Combined(step, combine, blocks)
  {
    NonEmptyPlain(step, combine, blocks);
    FullText(step, rNums, combine, done, NonEmpty(blocks));
  }

  /** A decoder that has read these bits has handed on some blocks and waits for the next one. */
  ghost predicate Delivers(bits: seq<Bit>, v: Vars, level: int) {
    && v.head.blockSize100k == level && v.head.storedCombinedCRC == 0
    && Read(Start(), bits, St(BlkHdr(0), v))
  }

  /** The stream ends within these bits; whatever comes behind does not matter. */
  ghost predicate Ends(bits: seq<Bit>, v: Vars) {
    forall rest {:trigger bits + rest} :: Wire.Run(Start(), bits + rest).0 == St(StreamEnd, v)
  }

  /** A complete stream decompresses to the bytes of the blocks. */
  lemma StreamSurvives(step: (Word, int) -> Word, rNums: int -> int, combine: (Word, Word) -> Word, bytes: seq<int>, v: Vars, blocks: seq<seq<Pair>>)
    requires AllBytes(bytes) && Ends(ByteBits(bytes), v) && Matches(step, v.done, NonEmpty(blocks))
    requires v.head.storedCombinedCRC == Combined(step, combine, blocks)
    ensures Decompressed(step, rNums, combine, bytes) == Clean(AllPlain(blocks))
  {
    assert ByteBits(bytes) + [] == ByteBits(bytes);
    MatchesText(step, rNums, combine, v.done, blocks);
  }

  /** The bytes decompress to this text, whatever the table of counts for randomised blocks may be. */
  ghost predicate Restores(step: (Word, int) -> Word, combine: (Word, Word) -> Word, bytes: seq<int>, text: seq<int>)
    requires AllBytes(bytes)
  {
    forall rNums: int -> int {:trigger Decompressed(step, rNums, combine, bytes)} :: Decompressed(step, rNums, combine, bytes) == Clean(text)
  }

  // ----- sizes

  /** A run's code is at most a quarter longer than the run. */
  lemma {:induction false} CodedSize(pairs: seq<Pair>)
    ensures 4 * |Coded(pairs)| <= 5 * |Plain(pairs)|
  {
    if pairs != [] {
      CodedSize(pairs[..|pairs| - 1]);
      PairSize(pairs[|pairs| - 1]);
    }
  }

  lemma PairSize(p: Pair)
    ensures 4 * |CodedPair(p)| <= 5 * |PlainPair(p)|
  {
  }
}
