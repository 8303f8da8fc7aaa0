/** BZ2_compressBlock on the bit stream: header, block and trailer extend what has been written, and a decoder that
    reads it gets the blocks back. */
module BlockWriter {
  import opened Counting
  import opened Rotations
  import opened Bits
  import opened BitStream
  import opened MtfStage
  import opened RunLength
  import opened Output
  import opened MainCompare
  import Wire
  import opened BlockBits
  import opened WholeBlock
  import opened StreamBits
  import opened BlockText
  import opened BlockCoder
  import opened StreamText
  import opened PayloadSize

  // ----- the stream header

  lemma FromNothing(m: seq<Bit>, before: seq<Bit>, head: seq<Bit>)
    requires m + before == []
    ensures m + (before + head) == head
  {
  }

  lemma HeadDelivers(level: nat)
    requires 1 <= level <= 9
    ensures Delivers(StreamHead(level), LevelSet(level), level)
  {
    ReadStreamHead(level);
  }

  /** A block's output begins, after the stream header if it is the first. */
  method OpenBlock(w: BitWriter, blockNo: nat, level: nat, ghost m: seq<Bit>, ghost v0: Wire.Vars) returns (ghost v: Wire.Vars)
    requires w.Valid() && 1 <= level <= 9
    requires if blockNo == 1 then m + TopBits(w.bsBuff, w.bsLive) == [] && v0.done == []
             else Delivers(m + TopBits(w.bsBuff, w.bsLive), v0, level)
    modifies w
    ensures w.Valid() && Delivers(m + w.Written(), v, level) && v.done == v0.done
    ensures |w.Written()| == old(w.bsLive) + if blockNo == 1 then 32 else 0
  {
    w.Restart();
    v := v0;
    if blockNo == 1 {
      ghost var before := w.Written();
      PutStreamHead(w, level);
      FromNothing(m, before, StreamHead(level));
      StreamHeadSize(level);
      HeadDelivers(level);
      v := LevelSet(level);
    }
  }

  // ----- the block

  /** What a block holds, ready to be sorted. */
  ghost predicate Holds(block: array<int>, n: nat, inUse: seq<bool>, level: nat, pairs: seq<Pair>)
    reads block
  {
    && n <= 100000 * level - 10 && 1 <= level <= 9 && n + OVERSHOOT <= block.Length && |inUse| == 256
    && Proper(pairs) && block[..n] == Coded(pairs) && forall c :: 0 <= c < 256 ==> (inUse[c] <==> c in block[..n])
  }

  lemma HeldBytes(block: array<int>, n: nat, inUse: seq<bool>, level: nat, pairs: seq<Pair>) returns (b: seq<Byte>)
    requires Holds(block, n, inUse, level, pairs)
    ensures b == Coded(pairs) == block[..n] && AllUsed(inUse, b)
  {
    CodedBytes(pairs);
    b := Coded(pairs);
  }

  lemma HeldEmpty(pairs: seq<Pair>)
    requires Proper(pairs)
    ensures |Coded(pairs)| == 0 <==> pairs == []
  {
    if pairs != [] {
      CodedStarts(pairs);
    }
  }

  lemma BlockDelivers(bits: seq<Bit>, v0: Wire.Vars, level: nat, p: Payload) returns (v: Wire.Vars)
    requires Delivers(bits, v0, level) && Sound(p, level)
    ensures Delivers(bits + PayloadBits(p), v, level) && v.done == v0.done + [BlockOf(p, level)]
  {
    v := ReadBlock(v0, p);
    ReadThen(Wire.Start(), bits, Wire.St(Wire.BlkHdr(0), v0), PayloadBits(p), Wire.St(Wire.BlkHdr(0), v));
  }

  /** A non-empty block is sorted, coded and written. */
  method SendPayload(w: BitWriter, block: array<int>, n: nat, inUse: seq<bool>, level: nat, crc: Word, workFactor: int,
                     ghost step: (Word, int) -> Word, ghost m: seq<Bit>, ghost v0: Wire.Vars, ghost pairs: seq<Pair>)
    returns (ghost v: Wire.Vars, ghost k: Wire.Block)
    requires w.Valid() && Holds(block, n, inUse, level, pairs) && n > 0 && crc == Finalise(Crc(step, Plain(pairs)))
    requires Delivers(m + w.Written(), v0, level)
    modifies w, block
    ensures w.Valid() && Delivers(m + w.Written(), v, level) && v.done == v0.done + [k]
    ensures k.head.storedBlockCRC == crc && Says(step, k, Plain(pairs)) && |w.Written()| <= |old(w.Written())| + Room(n)
  {
    ghost var b: seq<Byte> := HeldBytes(block, n, inUse, level, pairs);
    ghost var before := w.Written();
    ghost var p := CodeBlock(w, block, n, inUse, crc, workFactor, pairs, b, level, step);
    BitStream.Assoc(m, before, PayloadBits(p));
    PayloadFits(p, level, n);
    v := BlockDelivers(m + before, v0, level, p);
    k := BlockOf(p, level);
  }

  lemma CombinedMore(step: (Word, int) -> Word, combine: (Word, Word) -> Word, blocks: seq<seq<Pair>>, pairs: seq<Pair>)
    ensures Combined(step, combine, blocks + [pairs])
         == if pairs == [] then Combined(step, combine, blocks)
            else combine(Combined(step, combine, blocks), Finalise(Crc(step, Plain(pairs))))
    ensures NonEmpty(blocks + [pairs]) == NonEmpty(blocks) + if pairs == [] then [] else [pairs]
  {
    assert (blocks + [pairs])[..|blocks|] == blocks;
  }

  /** The block itself, if it is not empty; the checksums are combined. */
  method SendBody(w: BitWriter, block: array<int>, n: nat, inUse: seq<bool>, level: nat, blockCRC: Word, combined0: Word,
                  workFactor: int, step: (Word, int) -> Word, combine: (Word, Word) -> Word,
                  ghost m: seq<Bit>, ghost v0: Wire.Vars, ghost blocks: seq<seq<Pair>>, ghost pairs: seq<Pair>)
    returns (combined: Word, ghost v: Wire.Vars)
    requires w.Valid() && Holds(block, n, inUse, level, pairs) && blockCRC == Crc(step, Plain(pairs))
    requires Delivers(m + w.Written(), v0, level) && Matches(step, v0.done, NonEmpty(blocks))
    requires combined0 == Combined(step, combine, blocks)
    modifies w, block
    ensures w.Valid() && Delivers(m + w.Written(), v, level) && Matches(step, v.done, NonEmpty(blocks + [pairs]))
    ensures combined == Combined(step, combine, blocks + [pairs]) && |w.Written()| <= |old(w.Written())| + Room(n)
  {
    combined, v := combined0, v0;
    HeldEmpty(pairs);
    CombinedMore(step, combine, blocks, pairs);
    if n > 0 {
      var crc := 0xffff_ffff - blockCRC;
      combined := combine(combined, crc);
      ghost var k;
      v, k := SendPayload(w, block, n, inUse, level, crc, workFactor, step, m, v0, pairs);
      MatchesMore(step, v0.done, NonEmpty(blocks), k, pairs);
    } else {
      assert NonEmpty(blocks) + [] == NonEmpty(blocks);
    }
  }

  // ----- the trailer

  lemma TrailerEnds(bits: seq<Bit>, v: Wire.Vars, level: int, combined: Word, zeros: seq<Bit>)
    requires Delivers(bits, v, level)
    ensures Ends(bits + Trailer(combined) + zeros, EndSet(v, combined))
  {
    Pow2Is32();
    ReadTrailer(v, combined);
    var end := Wire.St(Wire.StreamEnd, EndSet(v, combined));
    var all := bits + Trailer(combined);
    ReadThen(Wire.Start(), bits, Wire.St(Wire.BlkHdr(0), v), Trailer(combined), end);
    StaysEnded(all, end, zeros);
  }

  /** What is read behind the trailer changes nothing. */
  lemma StaysEnded(all: seq<Bit>, end: Wire.St, zeros: seq<Bit>)
    requires Wire.Ok(Wire.Start()) && Wire.Ok(end) && end.at == Wire.StreamEnd && Read(Wire.Start(), all, end)
    ensures forall rest {:trigger all + zeros + rest} :: Wire.Run(Wire.Start(), all + zeros + rest).0 == end
  {
    forall rest
      ensures Wire.Run(Wire.Start(), all + zeros + rest).0 == end
    {
      BitStream.Assoc(all, zeros, rest);
      ReadRun(Wire.Start(), all, end, zeros + rest);
    }
  }

  /** The trailer of the last block; the last byte is filled up. */
  method SendTrailer(w: BitWriter, combined: Word, level: nat, ghost m: seq<Bit>, ghost v0: Wire.Vars) returns (ghost v: Wire.Vars)
    requires w.Valid() && Delivers(m + w.Written(), v0, level)
    modifies w
    ensures w.Valid() && w.bsLive == 0 && Ends(m + w.Written(), v) && v.done == v0.done && v.head.storedCombinedCRC == combined
    ensures 80 <= |w.Written()| <= |old(w.Written())| + 87
  {
    TrailerSize(combined);
    ghost var before := w.Written();
    PutTrailer(w, combined);
    ghost var pad := w.BsFinishWrite();
    assert w.Written() == ByteBits(w.zbits) + [] == ByteBits(w.zbits);
    TrailerEnds(m + before, v0, level, combined, Zeros(pad));
    BitStream.Assoc(m, before + Trailer(combined), Zeros(pad));
    BitStream.Assoc(m, before, Trailer(combined));
    v := EndSet(v0, combined);
  }

  // ----- all of it

  /** What has been written so far: the beginning of a stream, or a whole one, from which a decoder gets the blocks
      handed to the compressor. */
  ghost predicate Sent(bits: seq<Bit>, v: Wire.Vars, blocks: seq<seq<Pair>>, ended: bool, combined: Word, level: nat, step: (Word, int) -> Word)
  {
    && Matches(step, v.done, NonEmpty(blocks))
    && if ended then Ends(bits, v) && v.head.storedCombinedCRC == combined
       else if blocks == [] then bits == [] && v.done == []
       else Delivers(bits, v, level)
  }

  /** What a stream needs to be read on: the header, if nothing has been written. */
  lemma Resumes(bits: seq<Bit>, v0: Wire.Vars, blocks: seq<seq<Pair>>, combined: Word, level: nat, step: (Word, int) -> Word)
    returns (more: seq<Bit>, v: Wire.Vars)
    requires Sent(bits, v0, blocks, false, combined, level, step) && 1 <= level <= 9
    ensures Delivers(bits + more, v, level) && v.done == v0.done
  {
    if blocks == [] {
      more, v := StreamHead(level), LevelSet(level);
      HeadDelivers(level);
      assert bits + more == more;
    } else {
      more, v := [], v0;
      assert bits + [] == bits;
    }
  }

  /** Bits behind some bytes, filled up to whole bytes. */
  lemma FillUp(made: seq<int>, tail: seq<Bit>) returns (rest: seq<int>, zeros: seq<Bit>)
    requires AllBytes(made)
    ensures AllBytes(made + rest) && ByteBits(made + rest) == ByteBits(made) + (tail + zeros)
  {
    zeros := Zeros(7 - (|tail| + 7) % 8);
    rest := PackBits(tail + zeros);
    ByteBitsAppend(made, rest);
  }

  lemma FiveParts(a: seq<Bit>, b: seq<Bit>, c: seq<Bit>, d: seq<Bit>, e: seq<Bit>)
    ensures a + b + c + d + e == a + (b + c + d + e)
  {
  }

  /** Whatever has been written so far could be completed, to a stream of just the blocks handed over. */
  lemma Completion(made: seq<int>, live: seq<Bit>, v0: Wire.Vars, blocks: seq<seq<Pair>>, combined: Word, level: nat, step: (Word, int) -> Word)
    returns (rest: seq<int>, v: Wire.Vars)
    requires AllBytes(made) && Sent(ByteBits(made) + live, v0, blocks, false, combined, level, step) && 1 <= level <= 9
    ensures AllBytes(made + rest) && Ends(ByteBits(made + rest), v) && v.done == v0.done && v.head.storedCombinedCRC == combined
  {
    var more;
    more, v := Resumes(ByteBits(made) + live, v0, blocks, combined, level, step);
    var zeros;
    rest, zeros := FillUp(made, live + more + Trailer(combined));
    FiveParts(ByteBits(made), live, more, Trailer(combined), zeros);
    TrailerEnds(ByteBits(made) + live + more, v, level, combined, zeros);
    v := EndSet(v, combined);
  }

  /** The bits written, counted. */
  lemma WrittenSize(w: BitWriter)
    requires w.Valid()
    ensures |w.Written()| == 8 * |w.zbits| + w.bsLive
  {
  }

  lemma HandedOver(w: BitWriter, made: seq<int>)
    requires w.Valid() && AllBytes(made)
    ensures AllBytes(made + w.zbits) && ByteBits(made + w.zbits) + TopBits(w.bsBuff, w.bsLive) == ByteBits(made) + w.Written()
  {
    ByteBitsAppend(made, w.zbits);
    BitStream.Assoc(ByteBits(made), ByteBits(w.zbits), TopBits(w.bsBuff, w.bsLive));
  }

  /** zbits lies behind the block in the bytes of arr2, which has room for 100000 * level + OVERSHOOT words: what is written
      for a block never reaches its end. */
  lemma ZbitsFit(n: nat, level: nat, live: nat, zbits: nat)
    requires n <= 100000 * level && 1 <= level <= 9 && live <= 32 && 8 * zbits <= live + Room(n) + 32 + 87
    ensures n + zbits <= 4 * (100000 * level + OVERSHOOT)
  {
  }

  method WriteBlock(w: BitWriter, block: array<int>, n: nat, inUse: seq<bool>, blockNo: nat, level: nat, blockCRC: Word,
                    combined0: Word, workFactor: int, is_last_block: bool, step: (Word, int) -> Word, combine: (Word, Word) -> Word,
                    ghost made: seq<int>, ghost v0: Wire.Vars, ghost blocks: seq<seq<Pair>>, ghost pairs: seq<Pair>)
    returns (combined: Word, ghost v: Wire.Vars)
    requires Holds(block, n, inUse, level, pairs) && blockCRC == Crc(step, Plain(pairs)) && blockNo == |blocks| + 1
    requires w.Valid() && AllBytes(made) && combined0 == Combined(step, combine, blocks)
    requires Sent(ByteBits(made) + TopBits(w.bsBuff, w.bsLive), v0, blocks, false, combined0, level, step)
    modifies w, block
    ensures w.Valid() && AllBytes(made + w.zbits) && (is_last_block ==> w.bsLive == 0)
    ensures Sent(ByteBits(made + w.zbits) + TopBits(w.bsBuff, w.bsLive), v, blocks + [pairs], is_last_block, combined, level, step)
    ensures combined == Combined(step, combine, blocks + [pairs])
    ensures 8 * |w.zbits| + w.bsLive <= old(w.bsLive) + Room(n) + (if blockNo == 1 then 32 else 0) + (if is_last_block then 87 else 0)
    ensures (is_last_block ==> w.zbits != []) && n + |w.zbits| <= 4 * (100000 * level + OVERSHOOT)
  {
    ghost var m, live := ByteBits(made), w.bsLive;
    v := OpenBlock(w, blockNo, level, m, v0);
    combined, v := SendBody(w, block, n, inUse, level, blockCRC, combined0, workFactor, step, combine, m, v, blocks, pairs);
    if is_last_block {
      v := SendTrailer(w, combined, level, m, v);
    }
    HandedOver(w, made);
    WrittenSize(w);
    ZbitsFit(n, level, live, |w.zbits|);
  }
}
