/** BZ2_bzDecompress, called again and again with any input and any room for output, and the one-call function on top of it. */
module Decompressor {
  import opened Counting
  import opened Bits
  import opened BitStream
  import RunLength
  import opened Output
  import opened BlockText
  import opened BlockDecoder
  import opened Wire
  import opened WireBlocks
  import opened Decoder
  import opened StreamText
  import Compressor
  import Reader
  import ReaderRuns
  import ReaderText

  datatype Result = StreamOk | AtEnd | OutOfSequence | BadStream(magic: bool)

  datatype BuffCode = BuffOk | OutbuffFull | UnexpectedEof | BadMagic | BadData

  /** Later blocks never take back what earlier ones said. */
  ghost predicate Extends(t: Text, u: Text) {
    match t
    case Corrupt => u == Corrupt
    case Clean(a) => u == Corrupt || a <= u.bytes
  }

  lemma LastExtends(step: (Word, int) -> Word, rNums: int -> int, more: seq<Block>)
    requires more != []
    ensures Extends(AllTexts(step, rNums, more[..|more| - 1]), AllTexts(step, rNums, more))
  {
  }

  lemma {:induction false} TextsExtend(step: (Word, int) -> Word, rNums: int -> int, ks: seq<Block>, more: seq<Block>)
    requires ks <= more
    ensures Extends(AllTexts(step, rNums, ks), AllTexts(step, rNums, more))
    decreases |more|
  {
    if |ks| < |more| {
      TextsExtend(step, rNums, ks, more[..|more| - 1]);
      LastExtends(step, rNums, more);
    } else {
      assert ks == more;
    }
  }

  lemma {:induction false} RunGrows(s: St, bits: seq<Bit>)
    requires Ok(s) && Known(s)
    ensures s.v.done <= Run(s, bits).0.v.done
    decreases |bits|
  {
    var n := Want(s);
    if n != 0 && |bits| >= n {
      var t := Next(s, Value(bits[..n]));
      NextKnown(s, Value(bits[..n]));
      RunGrows(t, bits[n..]);
    }
  }

  /** The decoder has taken in these bytes, and goes on from there as one run over all of them would. */
  ghost predicate Reaches(d: Decoder, supplied: seq<int>)
    reads d, d.reader
  {
    && AllBytes(supplied) && d.Valid()
    && forall more {:trigger d.Outlook(more)} :: d.Outlook(more) == Run(Start(), ByteBits(supplied) + more)
  }

  lemma Foretold(d: Decoder, supplied: seq<int>, rest: seq<int>)
    requires Reaches(d, supplied) && AllBytes(rest)
    ensures AllBytes(supplied + rest) && Run(Start(), ByteBits(supplied + rest)) == d.Outlook(ByteBits(rest))
  {
    ByteBitsAppend(supplied, rest);
  }

  /** Whatever input follows, it never takes back what the blocks read so far say. */
  lemma Ahead(step: (Word, int) -> Word, rNums: int -> int, combine: (Word, Word) -> Word, d: Decoder, supplied: seq<int>, rest: seq<int>)
    requires Reaches(d, supplied) && AllBytes(rest)
    ensures AllBytes(supplied + rest) && Extends(AllTexts(step, rNums, d.vars.done), Decompressed(step, rNums, combine, supplied + rest))
  {
    Foretold(d, supplied, rest);
    RunGrows(d.Now(), d.reader.Pending() + ByteBits(rest));
    TextsExtend(step, rNums, d.vars.done, Run(Start(), ByteBits(supplied + rest)).0.v.done);
  }

  lemma NoMoreWanted(s: St)
    requires Ok(s) && (s.at.StreamEnd? || s.at.Failed?)
    ensures Want(s) == 0
  {
  }

  lemma Verdict(step: (Word, int) -> Word, rNums: int -> int, combine: (Word, Word) -> Word, bytes: seq<int>, end: St,
                out: seq<int>, combined: Word)
    requires AllBytes(bytes) && Run(Start(), ByteBits(bytes)).0 == end && end.at == StreamEnd
    requires Gathered(step, rNums, combine, end.v.done, out, combined)
    ensures Decompressed(step, rNums, combine, bytes) == if combined == end.v.head.storedCombinedCRC then Clean(out) else Corrupt
  {
  }

  /** A decoder that wants no more bits stays where it is. */
  lemma Over(d: Decoder, supplied: seq<int>, rest: seq<int>)
    requires Reaches(d, supplied) && AllBytes(rest) && Want(d.Now()) == 0
    ensures AllBytes(supplied + rest) && Run(Start(), ByteBits(supplied + rest)).0 == d.Now()
  {
    Foretold(d, supplied, rest);
  }

  lemma Waits(d: Decoder, supplied: seq<int>)
    requires Reaches(d, supplied) && |d.reader.Pending()| < Want(d.Now())
    ensures Run(Start(), ByteBits(supplied)).0 == d.Now()
  {
    Foretold(d, supplied, []);
    assert supplied + [] == supplied && d.reader.Pending() + ByteBits([]) == d.reader.Pending();
  }

  /** Where reading all of the input comes to rest. */
  ghost function Rest(supplied: seq<int>): St
    requires AllBytes(supplied)
  {
    Run(Start(), ByteBits(supplied)).0
  }

  /** The magic bytes or the level are wrong. */
  ghost predicate NoStream(supplied: seq<int>)
    requires AllBytes(supplied)
  {
    Rest(supplied).at == Failed(true)
  }

  lemma RestsNow(d: Decoder, supplied: seq<int>)
    requires Reaches(d, supplied) && Want(d.Now()) == 0
    ensures Rest(supplied) == d.Now()
  {
    Foretold(d, supplied, []);
    assert supplied + [] == supplied;
    NoMoreWanted(d.Now());
  }

  lemma EndIsStream(d: Decoder, supplied: seq<int>)
    requires Reaches(d, supplied) && d.state.StreamEnd?
    ensures !NoStream(supplied)
  {
    RestsNow(d, supplied);
  }

  lemma StarvedRests(d: Decoder, supplied: seq<int>)
    requires Reaches(d, supplied) && |d.reader.Pending()| < Want(d.Now())
    ensures ReaderRuns.Waiting(Rest(supplied))
  {
    Waits(d, supplied);
  }

  /** Once a block has been read the magic was right. */
  lemma BlockSeen(d: Decoder, supplied: seq<int>)
    requires Reaches(d, supplied) && d.vars.done != []
    ensures !NoStream(supplied)
  {
    Foretold(d, supplied, []);
    assert supplied + [] == supplied;
    RunGrows(d.Now(), d.reader.Pending() + ByteBits([]));
    ReaderText.Tells(ByteBits(supplied));
  }

  /** A decoder that waits for bits has not seen the end of the stream. */
  lemma Unfinished(step: (Word, int) -> Word, rNums: int -> int, combine: (Word, Word) -> Word, d: Decoder, supplied: seq<int>)
    requires Reaches(d, supplied) && |d.reader.Pending()| < Want(d.Now())
    ensures Decompressed(step, rNums, combine, supplied) == Corrupt
  {
    Waits(d, supplied);
  }

  lemma NextText(step: (Word, int) -> Word, rNums: int -> int, done: seq<Block>, more: seq<Block>)
    requires |more| == |done| + 1 && more[..|done|] == done
    ensures AllTexts(step, rNums, more)
         == match AllTexts(step, rNums, done)
            case Corrupt => Corrupt
            case Clean(a) =>
              match BlockText.BlockText(step, rNums, more[|done|])
              case Corrupt => Corrupt
              case Clean(b) => Clean(a + b)
  {
  }

  /** What has been put out for the blocks read so far. */
  ghost predicate Gathered(step: (Word, int) -> Word, rNums: int -> int, combine: (Word, Word) -> Word, done: seq<Block>, dest: seq<int>,
                           combined: Word) {
    AllTexts(step, rNums, done) == Clean(dest) && combined == CombinedOf(combine, done)
  }

  lemma CombinedNext(combine: (Word, Word) -> Word, done: seq<Block>)
    requires done != []
    ensures var c := done[|done| - 1].head.storedBlockCRC;
      CombinedOf(combine, done) == combine(CombinedOf(combine, done[..|done| - 1]), if c < 0x1_0000_0000 then c else 0)
  {
  }

  // ----- the block being put out

  /** All bytes of the block, put out or not, and whether it will turn out to be corrupt. */
  ghost predicate Amid(s: DState, e: (seq<int>, bool))
    reads s
  {
    && s.Ready() && e == RunLength.Expand(s.d, s.save_nblock, 1)
    && s.All() == e.0 && s.BadFrom(s.nblock_used) == e.1
  }

  lemma AmidStarts(s: DState)
    requires s.Ready() && s.nblock_used == 1 && s.state_out_len == 0 && s.out == []
    ensures Amid(s, RunLength.Expand(s.d, s.save_nblock, 1))
  {
    AllAtStart(RunLength.Expand(s.d, s.save_nblock, 1).0, s.state_out_ch);
  }

  lemma PutOut(s: DState, e: (seq<int>, bool))
    requires Amid(s, e)
    ensures s.out <= e.0 && (s.Finished() ==> e == (s.out, false))
  {
    if s.Finished() {
      NothingLeft(s.out, s.state_out_ch);
    }
  }

  /** Unless the block is finished there is more to come, or it is corrupt. */
  lemma MoreToCome(s: DState, e: (seq<int>, bool))
    requires Amid(s, e) && !s.Finished()
    ensures e.1 || |s.out| < |e.0|
  {
    if s.state_out_len > 0 {
      CopiesHead(s.state_out_ch, s.state_out_len);
    } else if s.nblock_used <= s.save_nblock {
      var r := RunLength.Run(s.d, s.save_nblock, s.nblock_used);
      RunUnfolds(s.d, s.save_nblock, s.nblock_used);
      CopiesHead(s.d[s.nblock_used - 1], r.0);
    }
  }

  // ----- the stream

  /** Output that is not at odds with a text. */
  ghost predicate Behind(out: seq<int>, t: Text) {
    t == Corrupt || out <= t.bytes
  }

  ghost predicate FarBehind(out: seq<int>, t: Text) {
    t == Corrupt || (out <= t.bytes && |out| < |t.bytes|)
  }

  lemma StaysBehind(out: seq<int>, t: Text, u: Text)
    requires Extends(t, u)
    ensures Behind(out, t) ==> Behind(out, u)
    ensures FarBehind(out, t) ==> FarBehind(out, u)
  {
  }

  lemma AppendOn(a: seq<int>, b: seq<int>, c: seq<int>)
    ensures a + (b + c) == a + b + c
  {
  }

  lemma Grown(was: seq<int>, now: seq<int>, all: seq<int>)
    requires was <= all && now <= all && |was| <= |now|
    ensures now == was + now[|was|..]
  {
  }

  lemma AppendNothing(a: seq<int>)
    ensures a + [] == a
  {
  }

  ghost predicate Opened(x: int) {
    true
  }

  ghost predicate Wrapped(x: int) {
    true
  }

  datatype Put = Done | NoRoom | Corrupted

  class Stream {
    const small: bool
    const step: (Word, int) -> Word
    const rNums: int -> int
    const combine: (Word, Word) -> Word
    const d: Decoder
    /** The output stage of the block that is being put out; none while blocks are read. */
    var s: DState?
    var combined: Word
    var ended: bool
    /** All input and all output so far, and the text of the blocks put out completely. */
    ghost var supplied: seq<int>
    ghost var produced: seq<int>
    ghost var before: seq<int>
    /** All bytes of the block that is being put out, and whether it is corrupt. */
    ghost var whole: (seq<int>, bool)

    /** No block is being put out. */
    ghost predicate Between()
      reads `combined, `produced, `before, d
    {
      produced == before && Gathered(step, rNums, combine, d.vars.done, before, combined)
    }

    /** All blocks but the last one have been put out, and o stands for the last one. Opened by Opened(0). */
    ghost predicate Underway(o: DState)
      reads `combined, `before, d
    {
      var done := d.vars.done;
      done != [] && forall x {:trigger Opened(x)} :: Opened(x) ==>
        Gathered(step, rNums, combine, done[..|done| - 1], before, combined) && StandsFor(o, step, rNums, done[|done| - 1])
    }

    /** The last block read is being put out. */
    ghost predicate PuttingOut(o: DState)
      reads `combined, `produced, `before, `whole, d, o
    {
      Underway(o) && Amid(o, whole) && produced == before + o.out
    }

    ghost predicate Valid()
      reads `s, `combined, `ended, `supplied, `produced, `before, `whole, d, d.reader, s
    {
      && Reaches(d, supplied) && (if s == null then Between() else PuttingOut(s))
      && (ended ==> s == null && d.state.StreamEnd? && combined == d.vars.head.storedCombinedCRC)
    }

    /** BZ2_bzDecompressInit. */
    constructor (small: bool, step: (Word, int) -> Word, rNums: int -> int, combine: (Word, Word) -> Word)
      ensures Sound() && supplied == [] && produced == [] && !ended && fresh(d) && fresh(d.reader) && s == null
      ensures this.step == step && this.rNums == rNums && this.combine == combine
    {
      this.small, this.step, this.rNums, this.combine := small, step, rNums, combine;
      d := new Decoder();
      s, combined, ended := null, 0, false;
      supplied, produced, before, whole := [], [], [], ([], false);
      new;
      forall more {:trigger d.Outlook(more)}
        ensures d.Outlook(more) == Run(Start(), ByteBits(supplied) + more)
      {
      }
    }

    /** New input is seen. */
    method Supply(more: seq<int>)
      requires Valid() && AllBytes(more)
      modifies `supplied, d.reader
      ensures Valid() && supplied == old(supplied) + more
    {
      ghost var was := supplied;
      d.reader.Supply(more);
      supplied := supplied + more;
      ByteBitsAppend(was, more);
      forall rest {:trigger d.Outlook(rest)}
        ensures d.Outlook(rest) == Run(Start(), ByteBits(supplied) + rest)
      {
        assert old(d.Outlook(ByteBits(more) + rest)) == Run(Start(), ByteBits(was) + (ByteBits(more) + rest));
        Assoc(ByteBits(was), ByteBits(more), rest);
        Assoc(old(d.reader.Pending()), ByteBits(more), rest);
      }
    }

    // ----- one call

    /** The output stage of the block: what fits is put out. */
    method Pour(o: DState, room: nat) returns (corrupt: bool, piece: seq<int>)
      requires o.Ready() && Amid(o, whole) && o.out <= whole.0
      modifies o
      ensures corrupt ==> whole.1
      ensures !corrupt ==> Amid(o, whole) && o.out == old(o.out) + piece && |piece| + o.avail_out == room
      ensures !corrupt ==> o.avail_out == 0 || o.Finished()
    {
      ghost var was := o.out;
      o.avail_out := room;
      var n := |o.out|;
      corrupt := o.UnRle();
      piece := [];
      if !corrupt {
        PutOut(o, whole);
        piece := o.out[n..];
        Grown(was, o.out, whole.0);
      }
    }

    lemma TextSoFar(o: DState)
      requires d.Valid() && PuttingOut(o) && o.out <= whole.0
      ensures AllTexts(step, rNums, d.vars.done) == if whole.1 || Finalise(Crc(step, whole.0)) != LastCrc() then Corrupt else Clean(before + whole.0)
    {
      var done := d.vars.done;
      assert Opened(0);
      NextText(step, rNums, done[..|done| - 1], done);
    }

    /** The stored checksum of the last block. */
    ghost function LastCrc(): int
      requires d.vars.done != []
      reads d
    {
      d.vars.done[|d.vars.done| - 1].head.storedBlockCRC
    }

    lemma Closes(o: DState, crc: Word, b: seq<int>, c: Word)
      requires d.Valid() && PuttingOut(o) && whole == (o.out, false) && crc == Finalise(Crc(step, o.out)) == LastCrc()
      requires b == before + o.out && c == combine(combined, crc)
      ensures Gathered(step, rNums, combine, d.vars.done, b, c)
    {
      assert Opened(0);
      TextSoFar(o);
      CombinedNext(combine, d.vars.done);
    }

    /** The block is finished and its checksum is right. */
    method CloseBlock(o: DState, crc: Word)
      requires d.Valid() && PuttingOut(o) && whole == (o.out, false) && crc == Finalise(Crc(step, o.out)) == LastCrc()
      modifies `s, `combined, `before
      ensures s == null && Between()
    {
      ghost var b := before + o.out;
      var c := combine(combined, crc);
      Closes(o, crc, b, c);
      s, combined, before := null, c, b;
    }

    /** What fits is put out. */
    method PourBlock(o: DState, room: nat) returns (corrupt: bool, piece: seq<int>)
      requires d.Valid() && PuttingOut(o)
      modifies `produced, o
      ensures |piece| <= room && produced == old(produced) + piece
      ensures corrupt ==> AllTexts(step, rNums, d.vars.done) == Corrupt
      ensures !corrupt ==> PuttingOut(o) && (|piece| == room || o.Finished())
    {
      PutOut(o, whole);
      ghost var was := o.out;
      BadBlock(o);
      corrupt, piece := Pour(o, room);
      if corrupt {
        piece := [];
      } else {
        AppendOn(before, was, piece);
      }
      AppendNothing(produced);
      produced := produced + piece;
    }

    /** What a finished block comes to is decided by its checksum. */
    lemma AtFinish(o: DState)
      requires d.Valid() && PuttingOut(o) && o.Finished()
      ensures whole == (o.out, false) && o.calculatedBlockCRC == Crc(step, o.out)
      ensures Finalise(o.calculatedBlockCRC) != LastCrc() ==> AllTexts(step, rNums, d.vars.done) == Corrupt
    {
      assert Opened(0);
      PutOut(o, whole);
      TextSoFar(o);
    }

    /** The whole block has been put out. */
    method FinishBlock(o: DState) returns (ok: bool)
      requires d.Valid() && PuttingOut(o) && o.Finished() && s == o
      modifies `s, `combined, `before
      ensures if ok then s == null && Between() else s == o && AllTexts(step, rNums, d.vars.done) == Corrupt
    {
      AtFinish(o);
      var crc := 0xffff_ffff - o.calculatedBlockCRC;
      ok := crc == d.vars.done[|d.vars.done| - 1].head.storedBlockCRC;
      if ok {
        CloseBlock(o, crc);
      }
    }

    /** A corrupt block, and one that is not put out completely. */
    lemma BadBlock(o: DState)
      requires d.Valid() && PuttingOut(o)
      ensures whole.1 ==> AllTexts(step, rNums, d.vars.done) == Corrupt
    {
      PutOut(o, whole);
      TextSoFar(o);
    }

    lemma Starved(o: DState)
      requires d.Valid() && PuttingOut(o) && !o.Finished()
      ensures FarBehind(produced, AllTexts(step, rNums, d.vars.done))
    {
      PutOut(o, whole);
      TextSoFar(o);
      MoreToCome(o, whole);
    }

    /** The block is put out as far as there is room. */
    method PutBlock(o: DState, room: nat) returns (code: Put, piece: seq<int>)
      requires d.Valid() && PuttingOut(o) && s == o
      modifies `s, `combined, `produced, `before, o
      ensures |piece| <= room && produced == old(produced) + piece && (s == null || s == o)
      ensures code == Done ==> s == null && Between()
      ensures code == NoRoom ==> PuttingOut(o) && s == o && |piece| == room && FarBehind(produced, AllTexts(step, rNums, d.vars.done))
      ensures code == Corrupted ==> AllTexts(step, rNums, d.vars.done) == Corrupt
    {
      ghost var done := d.vars.done;
      var corrupt;
      corrupt, piece := PourBlock(o, room);
      if corrupt {
        return Corrupted, piece;
      }
      if !(o.nblock_used == o.save_nblock + 1 && o.state_out_len == 0) {
        Starved(o);
        return NoRoom, piece;
      }
      var ok := FinishBlock(o);
      code := if ok then Done else Corrupted;
    }

    // ----- what the input means

    /** No continuation of the input is a compressed text. */
    ghost predicate Hopeless()
      requires AllBytes(supplied)
      reads `supplied
    {
      forall rest {:trigger supplied + rest} :: AllBytes(rest) ==> Decompressed(step, rNums, combine, supplied + rest) == Corrupt
    }

    /** Every continuation of the input is a compressed form of this text. */
    ghost predicate Settled(text: seq<int>)
      requires AllBytes(supplied)
      reads `supplied
    {
      forall rest {:trigger supplied + rest} :: AllBytes(rest) ==> Decompressed(step, rNums, combine, supplied + rest) == Clean(text)
    }

    lemma CorruptSoFar()
      requires Reaches(d, supplied) && AllTexts(step, rNums, d.vars.done) == Corrupt
      ensures Hopeless()
    {
      forall rest | AllBytes(rest)
        ensures Decompressed(step, rNums, combine, supplied + rest) == Corrupt
      {
        Ahead(step, rNums, combine, d, supplied, rest);
      }
    }

    lemma EndText(rest: seq<int>)
      requires Reaches(d, supplied) && Between() && d.state.StreamEnd? && AllBytes(rest)
      ensures AllBytes(supplied + rest)
      ensures Decompressed(step, rNums, combine, supplied + rest) == if combined == d.vars.head.storedCombinedCRC then Clean(produced) else Corrupt
    {
      NoMoreWanted(d.Now());
      Over(d, supplied, rest);
      Verdict(step, rNums, combine, supplied + rest, d.Now(), produced, combined);
    }

    /** At the end of the stream the combined checksum decides. */
    lemma AtStreamEnd()
      requires Reaches(d, supplied) && Between() && d.state.StreamEnd?
      ensures combined == d.vars.head.storedCombinedCRC ==> Settled(produced)
      ensures combined != d.vars.head.storedCombinedCRC ==> Hopeless()
    {
      forall rest {:trigger supplied + rest} | AllBytes(rest)
        ensures Decompressed(step, rNums, combine, supplied + rest) == if combined == d.vars.head.storedCombinedCRC then Clean(produced) else Corrupt
      {
        EndText(rest);
      }
    }

    lemma AtFailure()
      requires Reaches(d, supplied) && d.state.Failed?
      ensures Hopeless()
    {
      forall rest | AllBytes(rest)
        ensures Decompressed(step, rNums, combine, supplied + rest) == Corrupt
      {
        NoMoreWanted(d.Now());
        Over(d, supplied, rest);
      }
    }

    // ----- reading on

    /** The decoder reads on, to the end of the next block if the input reaches so far. */
    method Advance() returns (r: Code)
      requires Reaches(d, supplied) && Between()
      modifies d, d.reader
      ensures Reaches(d, supplied)
      ensures r != BlockDone ==> Between()
      ensures r == NeedsInput ==> |d.reader.Pending()| < Want(d.Now()) && d.reader.input == []
      ensures r == StreamDone ==> d.state.StreamEnd?
      ensures r == MagicError || r == DataError ==> d.state == Failed(r == MagicError)
      ensures r == BlockDone ==> |d.reader.Pending()| < old(|d.reader.Pending()|) && LastRead(d.vars.done)
    {
      r := d.Decompress();
    }

    /** All blocks but the last one have been put out. */
    ghost predicate LastRead(done: seq<Block>)
      reads `combined, `produced, `before
    {
      done != [] && produced == before && Gathered(step, rNums, combine, done[..|done| - 1], before, combined)
    }

    lemma ReadableLast(done: seq<Block>)
      requires AllReadable(done) && done != []
      ensures Readable(done[|done| - 1])
    {
    }

    lemma BadLast(done: seq<Block>)
      requires LastRead(done) && BlockText.BlockText(step, rNums, done[|done| - 1]) == Corrupt
      ensures AllTexts(step, rNums, done) == Corrupt
    {
      NextText(step, rNums, done[..|done| - 1], done);
    }

    lemma Begins(o: DState)
      requires LastRead(d.vars.done) && StandsFor(o, step, rNums, d.vars.done[|d.vars.done| - 1])
      requires o.Ready() && o.nblock_used == 1 && o.state_out_len == 0 && o.out == [] && whole == RunLength.Expand(o.d, o.save_nblock, 1)
      ensures PuttingOut(o)
    {
      AmidStarts(o);
      AppendNothing(before);
    }

    /** The output stage of the block just read is set up, unless the block is corrupt. */
    method Open() returns (ok: bool)
      requires AllReadable(d.vars.done) && LastRead(d.vars.done)
      modifies `s, `whole
      ensures if ok then s != null && fresh(s) && PuttingOut(s) else s == old(s) && AllTexts(step, rNums, d.vars.done) == Corrupt
    {
      var k := d.vars.done[|d.vars.done| - 1];
      ReadableLast(d.vars.done);
      var o := OpenBlock(k, small, step, rNums);
      ok := o != null;
      if ok {
        s, whole := o, RunLength.Expand(o.d, o.save_nblock, 1);
        Begins(o);
      } else {
        BadLast(d.vars.done);
      }
    }

    /** All input has been taken, and more is wanted. */
    ghost predicate Exhausted()
      requires AllBytes(supplied)
      reads `supplied, d.reader
    {
      d.reader.input == [] && Decompressed(step, rNums, combine, supplied) == Corrupt && ReaderRuns.Waiting(Rest(supplied))
    }

    /** What is known when the decoder has read on. */
    ghost predicate HasRead(r: Code)
      reads `s, `combined, `supplied, `produced, `before, `whole, d, d.reader, s
    {
      AllBytes(supplied) &&
      match r
      case NeedsInput => Reaches(d, supplied) && Between() && s == null && Exhausted()
      case StreamDone => Reaches(d, supplied) && Between() && s == null && d.state.StreamEnd?
                         && if combined == d.vars.head.storedCombinedCRC then Settled(produced) else Hopeless() && !NoStream(supplied)
      case MagicError => Hopeless() && NoStream(supplied)
      case DataError => Hopeless() && !NoStream(supplied)
      case BlockDone => Reaches(d, supplied) && s != null && PuttingOut(s)
    }

    lemma HasEnded()
      requires Reaches(d, supplied) && Between() && s == null && d.state.StreamEnd?
      ensures HasRead(StreamDone)
    {
      AtStreamEnd();
      EndIsStream(d, supplied);
    }

    lemma HasFailed(r: Code)
      requires Reaches(d, supplied) && d.state == Failed(r == MagicError) && r in {MagicError, DataError}
      ensures HasRead(r)
    {
      AtFailure();
      RestsNow(d, supplied);
    }

    lemma HasStarved()
      requires Reaches(d, supplied) && Between() && s == null && |d.reader.Pending()| < Want(d.Now()) && d.reader.input == []
      ensures HasRead(NeedsInput)
    {
      Unfinished(step, rNums, combine, d, supplied);
      StarvedRests(d, supplied);
    }

    method OpenNext() returns (r: Code)
      requires Reaches(d, supplied) && LastRead(d.vars.done)
      modifies `s, `whole
      ensures HasRead(r) && (s == old(s) || fresh(s)) && (r == BlockDone ==> fresh(s)) && r in {BlockDone, DataError}
    {
      var ok := Open();
      if ok {
        r := BlockDone;
      } else {
        CorruptSoFar();
        BlockSeen(d, supplied);
        r := DataError;
      }
    }

    method ReadOn() returns (r: Code)
      requires Reaches(d, supplied) && Between() && s == null
      modifies `s, `whole, d, d.reader
      ensures HasRead(r) && (s == null || fresh(s)) && (r == BlockDone ==> fresh(s) && |d.reader.Pending()| < old(|d.reader.Pending()|))
    {
      r := Advance();
      if r == NeedsInput {
        HasStarved();
      } else if r == StreamDone {
        HasEnded();
      } else if r != BlockDone {
        HasFailed(r);
      } else {
        r := OpenNext();
      }
    }

    // ----- BZ2_bzDecompress

    /** The text that the input stands for goes on behind what has been put out, or there is none yet. */
    ghost predicate Incomplete()
      requires AllBytes(supplied)
      reads `supplied, `produced
    {
      FarBehind(produced, Decompressed(step, rNums, combine, supplied))
    }

    lemma StarvedText()
      requires Reaches(d, supplied) && FarBehind(produced, AllTexts(step, rNums, d.vars.done))
      ensures Incomplete()
    {
      Ahead(step, rNums, combine, d, supplied, []);
      assert supplied + [] == supplied;
      StaysBehind(produced, AllTexts(step, rNums, d.vars.done), Decompressed(step, rNums, combine, supplied));
    }

    /** What is known when a block has been put out as far as possible. */
    ghost predicate HasPut(code: Put, o: DState)
      reads `s, `combined, `supplied, `produced, `before, `whole, d, d.reader, o
    {
      AllBytes(supplied) &&
      match code
      case Done => Reaches(d, supplied) && s == null && Between()
      case NoRoom => Reaches(d, supplied) && s == o && PuttingOut(o) && Incomplete()
      case Corrupted => Hopeless() && !NoStream(supplied)
    }

    method PutTurn(o: DState, room: nat) returns (code: Put, piece: seq<int>)
      requires Reaches(d, supplied) && PuttingOut(o) && s == o
      modifies `s, `combined, `produced, `before, o
      ensures |piece| <= room && produced == old(produced) + piece && (s == null || s == o)
      ensures HasPut(code, o) && (code == NoRoom ==> |piece| == room)
    {
      code, piece := PutBlock(o, room);
      if code == NoRoom {
        StarvedText();
      } else if code == Corrupted {
        CorruptSoFar();
        BlockSeen(d, supplied);
      }
    }

    /** Valid, closed where it is only passed on; opened by Wrapped(0). */
    ghost predicate Sound()
      reads `s, `combined, `ended, `supplied, `produced, `before, `whole, d, d.reader, s
    {
      AllBytes(supplied) && forall x {:trigger Wrapped(x)} :: Wrapped(x) ==> Valid()
    }

    /** What a call reports: the end exactly when the text is complete, and an error only if no continuation of the input stands
        for any text. */
    ghost predicate Reports(code: Result)
      reads `s, `combined, `ended, `supplied, `produced, `before, `whole, d, d.reader, s
    {
      AllBytes(supplied) &&
      match code
      case StreamOk => Sound() && !ended && Incomplete()
      case AtEnd => Sound() && ended && Settled(produced)
      case OutOfSequence => Sound() && ended
      case BadStream(magic) => Hopeless() && (magic <==> NoStream(supplied))
    }

    /** The first half of the loop: the block that is being put out, if there is one. */
    method PutHalf(room: nat) returns (over: bool, code: Result, piece: seq<int>)
      requires Sound() && !ended
      modifies `s, `combined, `produced, `before, s
      ensures |piece| <= room && produced == old(produced) + piece && (s == null || s == old(s)) && !ended
      ensures if over then Reports(code) && code in {StreamOk, BadStream(false)} && (code == StreamOk ==> |piece| == room && s != null) else Sound() && s == null
    {
      over, code, piece := false, StreamOk, [];
      AppendNothing(produced);
      assert Wrapped(0);
      if s != null {
        var put;
        put, piece := PutTurn(s, room);
        over, code := put != Done, if put == Corrupted then BadStream(false) else StreamOk;
      }
    }

    /** The second half: the decoder reads on. */
    method ReadHalf() returns (over: bool, code: Result)
      requires Sound() && !ended && s == null
      modifies `s, `ended, `whole, d, d.reader
      ensures s == null || fresh(s)
      ensures if over then Reports(code) && code != OutOfSequence && (code == StreamOk ==> Exhausted())
              else Sound() && !ended && Left() < old(Left())
    {
      over, code := true, StreamOk;
      assert Wrapped(0);
      var r := ReadOn();
      if r == StreamDone {
        if combined != d.vars.head.storedCombinedCRC {
          return true, BadStream(false);
        }
        ended := true;
        code := AtEnd;
      } else if r == BlockDone {
        over := false;
      } else if r != NeedsInput {
        code := BadStream(r == MagicError);
      }
    }

    /** The bits that have not been read. */
    ghost function Left(): nat
      reads d.reader
    {
      if d.reader.Valid() then |d.reader.Pending()| else 0
    }

    /** Output is never taken back: whatever input follows, what has been put out is the beginning of the text. */
    lemma NeverAhead(rest: seq<int>)
      requires Sound() && AllBytes(rest)
      ensures AllBytes(supplied + rest) && Behind(produced, Decompressed(step, rNums, combine, supplied + rest))
    {
      assert Wrapped(0);
      Ahead(step, rNums, combine, d, supplied, rest);
      if s != null {
        PutOut(s, whole);
        TextSoFar(s);
      }
      StaysBehind(produced, AllTexts(step, rNums, d.vars.done), Decompressed(step, rNums, combine, supplied + rest));
    }

    /** One round of the loop. */
    method Turn(room: nat) returns (over: bool, code: Result, piece: seq<int>)
      requires Sound() && !ended
      modifies `s, `combined, `ended, `produced, `before, `whole, d, d.reader, s
      ensures |piece| <= room && produced == old(produced) + piece && (s == null || s == old(s) || fresh(s))
      ensures if over then Reports(code) && code != OutOfSequence && (code == StreamOk ==> (|piece| == room && s != null) || Exhausted())
              else Sound() && !ended && Left() < old(Left())
    {
      over, code, piece := PutHalf(room);
      if !over {
        over, code := ReadHalf();
      }
    }

    method TakeInput(more: seq<int>)
      requires Sound() && AllBytes(more)
      modifies `supplied, d.reader
      ensures Sound() && supplied == old(supplied) + more
    {
      assert Wrapped(0);
      Supply(more);
    }

    /** One call: more input, and room for so much output. What is put out continues the text that the input stands for. */
    method BzDecompress(more: seq<int>, avail: nat) returns (code: Result, out: seq<int>)
      requires Sound() && AllBytes(more)
      modifies this, d, d.reader, s
      ensures Reports(code) && |out| <= avail && produced == old(produced) + out && (s == null || s == old(s) || fresh(s))
      ensures (code == OutOfSequence <==> old(ended)) && supplied == if old(ended) then old(supplied) else old(supplied) + more
      ensures code == StreamOk ==> (|out| == avail && s != null) || Exhausted()
    {
      out := [];
      AppendNothing(produced);
      if ended {
        return OutOfSequence, out;
      }
      TakeInput(more);
      var over := false;
      code := StreamOk;
      while !over
        invariant if over then Reports(code) && code != OutOfSequence && (code == StreamOk ==> (|out| == avail && s != null) || Exhausted())
                  else Sound() && !ended
        invariant supplied == old(supplied) + more && produced == old(produced) + out && |out| <= avail
        invariant s == null || s == old(s) || fresh(s)
        decreases if over then 0 else 1 + Left()
      {
        var piece;
        over, code, piece := Turn(avail - |out|);
        AppendOn(old(produced), out, piece);
        out := out + piece;
      }
    }

    /** What a call that fails on a whole text tells about it. */
    lemma Refusal(code: Result, room: nat)
      requires Reports(code) && |produced| <= room && code != OutOfSequence && (code == StreamOk ==> (|produced| == room && s != null) || Exhausted())
      ensures code == StreamOk && |produced| < room ==> ReaderRuns.Waiting(Rest(supplied))
      ensures NoStream(supplied) ==> code == BadStream(true)
      ensures code == BadStream(true) ==> NoStream(supplied)
      ensures var t := Decompressed(step, rNums, combine, supplied);
        t.Clean? && code != AtEnd ==> code == StreamOk && |produced| == room && |t.bytes| > room && produced == t.bytes[..room]
    {
      assert supplied + [] == supplied && AllBytes([]);
      if code == StreamOk && s != null {
        assert Wrapped(0);
        BlockSeen(d, supplied);
      }
      if code == AtEnd {
        assert Wrapped(0);
        EndIsStream(d, supplied);
      }
    }

    /** What one call on a whole text comes to. */
    lemma Overall(code: Result, room: nat)
      requires Reports(code) && |produced| <= room && code != OutOfSequence && (code == StreamOk ==> |produced| == room || Exhausted())
      ensures var t := Decompressed(step, rNums, combine, supplied);
        if code == AtEnd then t == Clean(produced) else t == Corrupt || |t.bytes| > room
    {
      assert supplied + [] == supplied && AllBytes([]);
    }
  }

  /** BZ2_bzBuffToBuffDecompress: succeeds exactly if the source is a compressed text that fits, and then gives that text. */
  method BuffToBuffDecompress(source: seq<int>, destLen: nat, small: bool, step: (Word, int) -> Word, rNums: int -> int,
                              combine: (Word, Word) -> Word)
    returns (code: BuffCode, dest: seq<int>)
    requires AllBytes(source)
    ensures |dest| <= destLen
    ensures code == BuffOk ==> Decompressed(step, rNums, combine, source) == Clean(dest)
    ensures code != BuffOk ==>
              match Decompressed(step, rNums, combine, source)
              case Corrupt => true
              case Clean(a) => |a| > destLen && code == OutbuffFull && dest == a[..destLen]
    ensures code == OutbuffFull ==> |dest| == destLen
    ensures code == UnexpectedEof ==> |dest| < destLen && ReaderText.CutShort(ByteBits(source))
    ensures code == BadMagic <==> Reader.Level(ByteBits(source)).Wrong?
  {
    var strm := new Stream(small, step, rNums, combine);
    var ret;
    ret, dest := strm.BzDecompress(source, destLen);
    assert [] + source == source && [] + dest == dest;
    strm.Overall(ret, destLen);
    strm.Refusal(ret, destLen);
    ReaderText.Tells(ByteBits(source));
    if ret == StreamOk {
      code := if |dest| < destLen then UnexpectedEof else OutbuffFull;
    } else if ret == AtEnd {
      code := BuffOk;
    } else {
      code := if ret.magic then BadMagic else BadData;
    }
  }

  /** The law bzip2 is for, over whole runs on both sides and at any moment: whatever calls have fed the compressor, and whatever
      calls have handed its output, or the beginning of it, to the decompressor, what has come out is the beginning of what was
      fed, and no error is ever reported. When the compressor has reported the end, the decompressor reports the end with all that
      was fed, and does so with the last of the output: until then less has come out. */
  lemma AnyCutting(c: Compressor.EState, strm: Stream, code: Result)
    requires c.Sound() && strm.Reports(code) && code != OutOfSequence
    requires strm.step == c.crcStep && strm.combine == c.crcCombine && strm.supplied <= c.output
    ensures code == AtEnd || code == StreamOk
    ensures strm.produced <= c.eaten
    ensures c.mode == Compressor.Idle && c.Complete() && code == AtEnd ==> strm.produced == c.eaten
    ensures c.mode == Compressor.Idle && c.Complete() && strm.supplied == c.output && code == StreamOk ==> |strm.produced| < |c.eaten|
  {
    var more := c.Continues();
    var rest := c.output[|strm.supplied|..] + more;
    assert strm.supplied + rest == c.output + more;
    assert forall i :: 0 <= i < |rest| ==> rest[i] == (strm.supplied + rest)[|strm.supplied| + i];
    assert Decompressed(strm.step, strm.rNums, strm.combine, strm.supplied + rest) == Clean(AllPlain(c.blocks));
    if code == StreamOk {
      strm.NeverAhead(rest);
    }
    if c.mode == Compressor.Idle && c.Complete() {
      c.Restored();
      assert c.output + [] == c.output && AllBytes([]);
      assert Decompressed(strm.step, strm.rNums, strm.combine, c.output) == Clean(c.eaten);
    }
  }

  /** The same with one call on each side: what was compressed, packed, comes back. */
  method RoundTrip(source: seq<int>, room: nat, blockSize100k: nat, workFactor: int, small: bool,
                   step: (Word, int) -> Word, rNums: int -> int, combine: (Word, Word) -> Word)
    returns (fits: bool, packed: seq<int>, back: seq<int>)
    requires AllBytes(source) && 1 <= blockSize100k <= 9 && 0 <= workFactor <= 250
    ensures fits ==> |packed| <= room && AllBytes(packed) && Restores(step, combine, packed, source)
    ensures (fits ==> back == source) && (room >= 3 * |source| + 6600 ==> fits)
  {
    var c;
    c, packed := Compressor.BuffToBuffCompress(source, room, blockSize100k, workFactor, step, combine);
    if c != Compressor.BuffOk {
      return false, packed, [];
    }
    var r;
    r, back := BuffToBuffDecompress(packed, |source|, small, step, rNums, combine);
    assert r == BuffOk;
    fits := true;
  }
}
