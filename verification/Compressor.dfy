/** The compressor's stream machine: run-length input, blocks, output, and the RUN/FLUSH/FINISH protocol. */
module Compressor {
  import opened Counting
  import opened Rotations
  import opened Bits
  import opened BitStream
  import opened MtfStage
  import opened RunLength
  import opened Output
  import opened MainCompare
  import Wire
  import opened BlockText
  import opened StreamText
  import opened BlockWriter
  import PayloadSize

  const NO_CH := 256

  datatype Mode = Idle | Running | Flushing | Finishing
  datatype State = Input | Emitting
  datatype Action = Run | Flush | Finish | Other
  datatype Code = SequenceError | ParamError | RunOk | FlushOk | FinishOk | StreamEnd

  /** Bytes that a full block holds at least. */
  const FULL := 79984

  /** What has been written for so many bytes in so many blocks, in bits. */
  ghost predicate Budget(bits: nat, plain: nat, blocks: nat, trailers: nat) {
    bits <= 32 + 52000 * blocks + 22 * plain + 87 * trailers
  }

  /** All blocks are full but those that a flush or the end has closed. */
  ghost predicate MostlyFull(plain: nat, blocks: nat, flushes: nat, trailers: nat) {
    FULL * (blocks - flushes - trailers) <= plain
  }

  ghost predicate About(v: Wire.Vars) {
    true
  }

  ghost predicate Opened(x: int) {
    true
  }

  ghost predicate Shown(x: int) {
    true
  }

  ghost predicate Kept(x: int) {
    true
  }

  /** Which code a call is answered with: by the mode it finds, by whether a flush or finish that goes on is offered the input
      it expects, and by whether anything could be moved. */
  ghost predicate Answers(mode: Mode, expected: int, action: Action, offered: int, progress: bool, code: Code) {
    match mode
    case Idle => code == SequenceError && !progress
    case Running =>
      (match action
       case Run => code == if progress then RunOk else ParamError
       case Flush => code in {FlushOk, RunOk}
       case Finish => code in {FinishOk, StreamEnd, SequenceError} && (code == SequenceError <==> !progress)
       case Other => code == ParamError && !progress)
    case Flushing =>
      if action == Flush && expected == offered then code in {FlushOk, RunOk} else code == SequenceError && !progress
    case Finishing =>
      if action == Finish && expected == offered then code in {FinishOk, StreamEnd, SequenceError} && (code == SequenceError <==> !progress)
      else code == SequenceError && !progress
  }

  class EState {
    const blockSize100k: nat
    const nblockMAX: int
    const workFactor: int
    const block: array<int>
    const inUse: array<bool>
    /** bsBuff, bsLive and the bytes written for the current block. */
    const w: BitWriter
    const crcStep: (Word, int) -> Word
    const crcCombine: (Word, Word) -> Word

    var mode: Mode
    var state: State
    var avail_in_expect: nat
    var state_in_ch: int
    var state_in_len: nat
    var nblock: nat
    var blockNo: nat
    var blockCRC: Word
    var combinedCRC: Word
    var zbits: seq<int>
    var numZ: nat
    var state_out_pos: nat
    // the caller's buffers: what is left of the input, and what has been written
    var input: seq<int>
    var avail_out: nat
    var output: seq<int>

    /** All input consumed so far. */
    ghost var eaten: seq<int>
    /** The runs of all blocks handed to compressBlock, and of the current one. */
    ghost var blocks: seq<seq<Pair>>
    ghost var pairs: seq<Pair>
    /** All bytes that compressBlock produced, and how often it wrote a trailer. */
    ghost var made: seq<int>
    ghost var trailers: nat
    /** How many blocks were closed by a flush. */
    ghost var flushes: nat
    /** The state a decoder is in that has read everything made so far. */
    ghost var reader: Wire.Vars

    /** BZ2_bzCompressInit, for parameters it accepts. */
    constructor (blockSize100k: nat, workFactor: int, crcStep: (Word, int) -> Word, crcCombine: (Word, Word) -> Word)
      requires 1 <= blockSize100k <= 9 && 0 <= workFactor <= 250
      ensures Sound() && mode == Running && state == Input && eaten == [] && output == [] && flushes == 0
      ensures this.blockSize100k == blockSize100k && this.crcStep == crcStep && this.crcCombine == crcCombine
      ensures fresh(block) && fresh(inUse) && fresh(w)
    {
      this.blockSize100k, nblockMAX := blockSize100k, 100000 * blockSize100k - 19;
      this.workFactor := if workFactor == 0 then 30 else workFactor;
      this.crcStep, this.crcCombine := crcStep, crcCombine;
      block, inUse := new int[100000 * blockSize100k + OVERSHOOT], new bool[256];
      w := new BitWriter();
      blockNo, state, mode, combinedCRC := 0, Input, Running, 0;
      avail_in_expect, input, avail_out, output := 0, [], 0, [];
      state_in_ch, state_in_len := NO_CH, 0;
      eaten, blocks, pairs, made, trailers, flushes, reader := [], [], [], [], 0, 0, Wire.Start().v;
      nblock, numZ, zbits, state_out_pos, blockCRC := 0, 0, [], 0, 0;
      new;
      Begin();
    }

    // ----- the current block

    ghost predicate Shape() {
      && 1 <= blockSize100k <= 9 && nblockMAX == 100000 * blockSize100k - 19
      && block.Length == 100000 * blockSize100k + OVERSHOOT && inUse.Length == 256
    }

    /** The run that is still growing. */
    ghost predicate PendingOk()
      reads `state_in_ch, `state_in_len
    {
      if state_in_ch == NO_CH then state_in_len == 0 else 0 <= state_in_ch < 256 && 1 <= state_in_len <= 255
    }

    ghost function Pending(): seq<int>
      reads `state_in_ch, `state_in_len
    {
      Copies(state_in_ch, state_in_len)
    }

    predicate IsEmptyRL()
      reads `state_in_ch, `state_in_len
    {
      !(state_in_ch < 256 && state_in_len > 0)
    }

    /** inUse marks exactly the bytes of the block. */
    ghost predicate Marked()
      requires Shape() && nblock <= block.Length
      reads `nblock, block, inUse
    {
      forall c {:trigger inUse[c]} :: 0 <= c < 256 ==> (inUse[c] <==> c in block[..nblock])
    }

    /** The block holds the code of its runs; inUse marks exactly the bytes in it; the checksum covers its bytes. Opened by Kept(0). */
    ghost predicate Filled()
      reads `nblock, `pairs, `blockCRC, block, inUse
    {
      && Shape() && nblock <= block.Length
      && forall x {:trigger Kept(x)} :: Kept(x) ==> Contents()
    }

    ghost predicate Contents()
      requires Shape() && nblock <= block.Length
      reads `nblock, `pairs, `blockCRC, block, inUse
    {
      Proper(pairs) && block[..nblock] == Coded(pairs) && blockCRC == Crc(crcStep, Plain(pairs)) && Marked()
    }

    /** The growing run may follow the runs of the block; without one the block is still empty. */
    ghost predicate Joins()
      reads `pairs, `state_in_ch
    {
      pairs != [] ==>
        state_in_ch != NO_CH && (pairs[|pairs| - 1].ch != state_in_ch || pairs[|pairs| - 1].len == 255)
    }

    /** The checksum of a run that is about to be added. */
    method RunCrc(ch: int, len: nat)
      requires blockCRC == Crc(crcStep, Plain(pairs))
      modifies `blockCRC
      ensures blockCRC == Crc(crcStep, Plain(pairs) + Copies(ch, len))
    {
      ghost var plain := Plain(pairs);
      assert plain + Copies(ch, 0) == plain;
      for i := 0 to len
        invariant blockCRC == Crc(crcStep, plain + Copies(ch, i))
      {
        CrcMore(plain, ch, i);
        blockCRC := crcStep(blockCRC, ch);
      }
    }

    lemma CrcMore(plain: seq<int>, ch: int, i: nat)
      ensures Crc(crcStep, plain + Copies(ch, i + 1)) == crcStep(Crc(crcStep, plain + Copies(ch, i)), ch)
    {
      var s := plain + Copies(ch, i);
      assert plain + Copies(ch, i + 1) == s + [ch];
      assert (s + [ch])[..|s|] == s;
    }

    /** One byte of code. */
    method Store(c: int)
      requires Shape() && nblock < block.Length
      modifies `nblock, block
      ensures nblock == old(nblock) + 1 && block[..nblock] == old(block[..nblock]) + [c]
    {
      block[nblock] := c;
      nblock := nblock + 1;
    }

    lemma MarksMore(s: seq<int>, t: seq<int>, u: seq<bool>, v: seq<bool>)
      requires |u| == |v| == 256 && forall c :: 0 <= c < 256 ==> (u[c] <==> c in s)
      requires forall c :: 0 <= c < 256 ==> (v[c] <==> u[c] || c in t)
      ensures forall c :: 0 <= c < 256 ==> (v[c] <==> c in s + t)
    {
    }

    method StoreTwo(ch: int)
      requires Shape() && nblock + 2 <= block.Length
      modifies `nblock, block
      ensures nblock == old(nblock) + 2 && block[..nblock] == old(block[..nblock]) + [ch, ch]
    {
      Store(ch);
      Store(ch);
    }

    /** Four bytes of a run, and the count of the others. */
    method StoreLong(ch: int, len: nat)
      requires Shape() && 4 <= len <= 255 && nblock + 5 <= block.Length
      modifies `nblock, block
      ensures nblock == old(nblock) + 5 && block[..nblock] == old(block[..nblock]) + CodedPair(Pair(ch, len))
    {
      CopiesFour(ch);
      StoreTwo(ch);
      StoreTwo(ch);
      Store(len - 4);
    }

    /** The bytes of one run; the switch over its length falls into short and long runs. */
    method StoreBytes(ch: int, len: nat)
      requires Shape() && 1 <= len <= 255 && nblock + 5 <= block.Length
      modifies `nblock, block
      ensures nblock <= old(nblock) + 5 && nblock <= block.Length
      ensures block[..nblock] == old(block[..nblock]) + CodedPair(Pair(ch, len))
    {
      CopiesFour(ch);
      if len == 1 {
        Store(ch);
      } else if len == 2 {
        Store(ch);
        Store(ch);
      } else if len == 3 {
        Store(ch);
        Store(ch);
        Store(ch);
      } else {
        StoreLong(ch, len);
      }
    }

    method MarkUsed(ch: int, len: nat)
      requires Shape() && 1 <= len <= 255 && 0 <= ch < 256
      modifies inUse
      ensures forall c :: 0 <= c < 256 ==> (inUse[c] <==> old(inUse[c]) || c in CodedPair(Pair(ch, len)))
    {
      CopiesFour(ch);
      inUse[ch] := true;
      if len >= 4 {
        inUse[len - 4] := true;
      }
    }

    lemma PairAdded(p: Pair)
      requires Proper(pairs) && Good(p) && (pairs != [] ==> Follows(pairs[|pairs| - 1], p))
      ensures Proper(pairs + [p]) && Coded(pairs + [p]) == Coded(pairs) + CodedPair(p)
      ensures Plain(pairs + [p]) == Plain(pairs) + Copies(p.ch, p.len)
    {
      var more := pairs + [p];
      assert more[..|pairs|] == pairs;
      forall i | 0 < i < |more|
        ensures FollowsAt(more, i)
      {
        assert i < |pairs| ==> FollowsAt(pairs, i);
      }
    }

    method StorePair(ch: int, len: nat)
      requires Shape() && 1 <= len <= 255 && 0 <= ch < 256 && nblock + 5 <= block.Length && Marked()
      modifies `nblock, block, inUse
      ensures nblock <= old(nblock) + 5 && nblock <= block.Length && Marked()
      ensures block[..nblock] == old(block[..nblock]) + CodedPair(Pair(ch, len))
    {
      ghost var s, u := block[..nblock], inUse[..];
      MarkUsed(ch, len);
      StoreBytes(ch, len);
      MarksMore(s, CodedPair(Pair(ch, len)), u, inUse[..]);
    }

    /** add_pair_to_block: the growing run becomes part of the block. */
    method AddPair()
      requires Filled() && PendingOk() && state_in_ch != NO_CH && Joins() && nblock + 5 <= block.Length
      modifies `nblock, block, inUse, `blockCRC, `pairs
      ensures Filled() && pairs == old(pairs) + [Pair(state_in_ch, state_in_len)] && nblock <= old(nblock) + 5
    {
      assert Kept(0);
      ghost var p := Pair(state_in_ch, state_in_len);
      PairAdded(p);
      RunCrc(state_in_ch, state_in_len);
      StorePair(state_in_ch, state_in_len);
      pairs := pairs + [p];
    }

    /** All bytes fed into the current block, the growing run included. */
    ghost function Fed(): seq<int>
      reads `pairs, `state_in_ch, `state_in_len
    {
      Plain(pairs) + Pending()
    }

    /** What holds while input is taken. */
    ghost predicate Taking()
      reads `nblock, `pairs, `blockCRC, `state_in_ch, `state_in_len, block, inUse
    {
      Filled() && PendingOk() && Joins()
    }

    /** The common case: a run of one byte ends; AddPair for it is unfolded in the code. */
    method TurnShort(zchh: int)
      requires Taking() && 0 <= zchh < 256 && nblock + 5 <= block.Length && zchh != state_in_ch && state_in_len == 1
      modifies `nblock, block, inUse, `blockCRC, `pairs, `state_in_ch
      ensures Taking() && state_in_ch != NO_CH && nblock <= old(nblock) + 5
      ensures Fed() == old(Fed()) + [zchh]
    {
      ghost var plain, pend := Plain(pairs), Pending();
      AddPair();
      state_in_ch := zchh;
      NewRun(plain, pend, zchh);
    }

    /** A run ends, or the first one begins. */
    method TurnLong(zchh: int)
      requires Taking() && 0 <= zchh < 256 && nblock + 5 <= block.Length && (zchh != state_in_ch || state_in_len == 255)
      modifies `nblock, block, inUse, `blockCRC, `pairs, `state_in_ch, `state_in_len
      ensures Taking() && state_in_ch != NO_CH && nblock <= old(nblock) + 5
      ensures Fed() == old(Fed()) + [zchh]
    {
      ghost var plain, pend := Plain(pairs), Pending();
      if state_in_ch < 256 {
        AddPair();
      } else {
        assert pend == [];
      }
      state_in_ch := zchh;
      state_in_len := 1;
      NewRun(plain, pend, zchh);
    }

    /** ADD_CHAR_TO_BLOCK: one more byte is fed; at most five bytes enter the block. */
    method AddChar(zchh: int)
      requires Taking() && 0 <= zchh < 256 && nblock + 5 <= block.Length
      modifies `nblock, block, inUse, `blockCRC, `pairs, `state_in_ch, `state_in_len
      ensures Taking() && state_in_ch != NO_CH && nblock <= old(nblock) + 5
      ensures Fed() == old(Fed()) + [zchh]
    {
      if zchh != state_in_ch && state_in_len == 1 {
        TurnShort(zchh);
      } else if zchh != state_in_ch || state_in_len == 255 {
        TurnLong(zchh);
      } else {
        Appended(Plain(pairs), Pending(), zchh);
        state_in_len := state_in_len + 1;
      }
    }

    lemma Appended(all: seq<int>, fed: seq<int>, c: int)
      ensures all + fed + [c] == all + (fed + [c])
    {
    }

    lemma NewRun(plain: seq<int>, pend: seq<int>, c: int)
      ensures plain + pend + Copies(c, 1) == plain + pend + [c]
    {
      CopiesFour(c);
    }

    /** flush_RL: the growing run ends here. */
    method FlushRL()
      requires Taking() && nblock + 5 <= block.Length
      modifies `nblock, block, inUse, `blockCRC, `pairs, `state_in_ch, `state_in_len
      ensures Filled() && PendingOk() && IsEmptyRL() && Fed() == old(Fed()) && nblock <= old(nblock) + 5
      ensures Plain(pairs) == Fed()
    {
      ghost var plain, pend := Plain(pairs), Pending();
      if state_in_ch < 256 {
        AddPair();
      } else {
        assert plain + pend == plain;
      }
      state_in_ch, state_in_len := NO_CH, 0;
      assert Plain(pairs) + Pending() == Plain(pairs);
    }

    // ----- the whole machine

    /** All input is in the blocks, the current one included. */
    ghost predicate Accounted()
      reads `eaten, `blocks, `pairs, `state_in_ch, `state_in_len
    {
      eaten == AllPlain(blocks) + Fed()
    }

    /** Every byte produced is written once, in order, and the checksums are combined. Opened by Shown(0). */
    ghost predicate Steady()
      reads `combinedCRC, `zbits, `numZ, `state_out_pos, `output, `blocks, `made
    {
      forall x {:trigger Shown(x)} :: Shown(x) ==>
        && combinedCRC == Combined(crcStep, crcCombine, blocks)
        && numZ == |zbits| && state_out_pos <= numZ && made == output + zbits[state_out_pos..]
    }

    /** Input is conserved, and so is output. */
    ghost predicate Conserved()
      reads `avail_in_expect, `state_in_ch, `state_in_len, `nblock, `combinedCRC, `zbits, `numZ
      reads `state_out_pos, `output, `eaten, `blocks, `pairs, `made, block, inUse
    {
      Shape() && PendingOk() && Accounted() && Steady() && nblock <= 100000 * blockSize100k - 10
    }

    /** The protocol's state is consistent as well. */
    ghost predicate Valid()
      reads `mode, `state, `avail_in_expect, `state_in_ch, `state_in_len, `nblock, `blockCRC, `combinedCRC, `zbits, `numZ
      reads `state_out_pos, `output, `eaten, `blocks, `pairs, `made, `trailers, block, inUse
    {
      match state
      case Input =>
        Conserved() && mode != Idle && Taking() && nblock < nblockMAX && numZ == 0 && trailers == 0
      case Emitting =>
        && Conserved() && pairs == [] && trailers <= 1 && (mode == Idle ==> trailers == 1)
        && (trailers == 1 ==> IsEmptyRL() && (mode == Idle || (mode == Finishing && avail_in_expect == 0)))
        && (trailers == 0 ==> !IsEmptyRL() || (mode == Flushing && avail_in_expect == 0))
    }

    /** The caller's input consists of bytes, and a flush or finish has seen no other amount of it. */
    ghost predicate InputOk()
      reads `input, `mode, `avail_in_expect
    {
      && (mode in {Flushing, Finishing} ==> avail_in_expect == |input|)
      && forall i :: 0 <= i < |input| ==> 0 <= input[i] < 256
    }

    /** What holds between two bytes of input. */
    ghost predicate Feeding()
      reads `mode, `avail_in_expect, `state_in_ch, `state_in_len, `nblock, `blockCRC, `input, `eaten, `blocks, `pairs, block, inUse
    {
      && Taking() && mode != Idle && nblock <= nblockMAX + 4 && Accounted() && InputOk()
    }

    /** copy_input_until_stop: stops when the block is full or the input is used up. */
    method CopyInput() returns (progress_in: bool)
      requires Feeding()
      modifies `nblock, block, inUse, `blockCRC, `pairs, `state_in_ch, `state_in_len, `input, `eaten, `avail_in_expect
      ensures Feeding() && eaten + input == old(eaten + input) && (input == [] || nblock >= nblockMAX)
      ensures |input| <= |old(input)| && progress_in == (|input| < |old(input)|)
      ensures progress_in ==> state_in_ch != NO_CH
      ensures !progress_in ==> nblock == old(nblock) && state_in_ch == old(state_in_ch) && state_in_len == old(state_in_len)
    {
      progress_in := false;
      while true
        invariant Feeding() && eaten + input == old(eaten + input)
        invariant |input| <= |old(input)| && progress_in == (|input| < |old(input)|)
        invariant progress_in ==> state_in_ch != NO_CH
        invariant !progress_in ==> nblock == old(nblock) && state_in_ch == old(state_in_ch) && state_in_len == old(state_in_len)
        decreases |input|
      {
        if nblock >= nblockMAX {
          break;
        }
        if |input| == 0 {
          break;
        }
        if mode != Running && avail_in_expect == 0 {
          break;
        }
        progress_in := true;
        TakeOne();
      }
    }

    method FeedOne(c: int)
      requires Taking() && Accounted() && 0 <= c < 256 && nblock + 5 <= block.Length
      modifies `nblock, block, inUse, `blockCRC, `pairs, `state_in_ch, `state_in_len, `eaten
      ensures Taking() && Accounted() && state_in_ch != NO_CH && nblock <= old(nblock) + 5 && eaten == old(eaten) + [c]
    {
      Appended(AllPlain(blocks), Fed(), c);
      AddChar(c);
      eaten := eaten + [c];
    }

    lemma TakesFirst(e: seq<int>, s: seq<int>)
      requires s != []
      ensures e + [s[0]] + s[1..] == e + s
    {
    }

    /** Feeds the next input byte. */
    method TakeOne()
      requires Feeding() && nblock < nblockMAX && input != []
      modifies `nblock, block, inUse, `blockCRC, `pairs, `state_in_ch, `state_in_len, `input, `eaten, `avail_in_expect
      ensures Feeding() && state_in_ch != NO_CH
      ensures input == old(input)[1..] && eaten + input == old(eaten + input)
    {
      TakesFirst(eaten, input);
      FeedOne(input[0]);
      Advance();
    }

    method Advance()
      requires InputOk() && input != [] && mode != Idle
      modifies `input, `avail_in_expect
      ensures InputOk() && input == old(input)[1..]
    {
      input := input[1..];
      if mode != Running {
        avail_in_expect := avail_in_expect - 1;
      }
    }

    /** copy_output_until_stop: stops when the caller's buffer is full or everything is written. */
    method CopyOutput() returns (progress_out: bool)
      requires numZ == |zbits| && state_out_pos <= numZ && made == output + zbits[state_out_pos..]
      modifies `avail_out, `output, `state_out_pos
      ensures state_out_pos <= numZ && made == output + zbits[state_out_pos..]
      ensures avail_out == 0 || state_out_pos == numZ
      ensures |output| + avail_out == old(|output| + avail_out)
      ensures |output| >= |old(output)| && progress_out == (|output| > |old(output)|)
    {
      progress_out := false;
      while true
        invariant state_out_pos <= numZ && made == output + zbits[state_out_pos..]
        invariant |output| + avail_out == old(|output| + avail_out) && |output| >= |old(output)|
        invariant progress_out == (|output| > |old(output)|)
        decreases avail_out
      {
        if avail_out == 0 {
          break;
        }
        if state_out_pos >= numZ {
          break;
        }
        progress_out := true;
        assert output + zbits[state_out_pos..] == output + [zbits[state_out_pos]] + zbits[state_out_pos + 1..];
        output := output + [zbits[state_out_pos]];
        state_out_pos := state_out_pos + 1;
        avail_out := avail_out - 1;
      }
    }

    /** A new, empty block; the growing run stays. */
    method PrepareNewBlock()
      requires Shape() && pairs == []
      modifies `nblock, `numZ, `zbits, `state_out_pos, `blockCRC, `blockNo, inUse
      ensures nblock == 0 && numZ == 0 && zbits == [] && state_out_pos == 0 && blockCRC == Crc(crcStep, [])
      ensures blockNo == old(blockNo) + 1
      ensures forall c :: 0 <= c < 256 ==> !inUse[c]
    {
      nblock, numZ, state_out_pos, zbits := 0, 0, 0, [];
      blockCRC := 0xffff_ffff;
      for i := 0 to 256
        modifies inUse
        invariant forall c :: 0 <= c < i ==> !inUse[c]
      {
        inUse[i] := false;
      }
      blockNo := blockNo + 1;
    }

    method BlankBlock()
      requires Shape() && pairs == [] && Steady() && state_out_pos == numZ
      modifies `nblock, `numZ, `zbits, `state_out_pos, `blockCRC, `blockNo, inUse
      ensures Filled() && nblock == 0 && numZ == 0 && zbits == [] && state_out_pos == 0 && blockNo == old(blockNo) + 1
      ensures Steady()
    {
      assert Shown(0) && zbits[numZ..] == [];
      PrepareNewBlock();
      assert block[..0] == [];
    }

    // ----- what has been sent

    /** A decoder of what has been written so far gets the blocks handed to compressBlock. The quantifier keeps this
        closed wherever it is only passed on; it is opened by mentioning About(reader). */
    ghost predicate SentOk()
      reads `blocks, `reader, `made, `trailers, `combinedCRC, `flushes, w
    {
      forall v {:trigger About(v)} :: About(v) && v == reader ==> SentBy(v)
    }

    ghost predicate SentBy(v: Wire.Vars)
      reads `blocks, `made, `trailers, `combinedCRC, `flushes, w
    {
      && Budget(8 * |made| + w.bsLive, |AllPlain(blocks)|, |blocks|, trailers) && (trailers > 0 ==> made != [])
      && MostlyFull(|AllPlain(blocks)|, |blocks|, flushes, trailers)
      && w.Valid() && AllBytes(made) && (trailers > 0 ==> w.bsLive == 0)
      && Sent(ByteBits(made) + TopBits(w.bsBuff, w.bsLive), v, blocks, trailers > 0, combinedCRC, blockSize100k, crcStep)
    }

    ghost predicate Linked()
      reads `state, `blockNo, `blocks, `reader, `made, `trailers, `combinedCRC, `flushes, w
    {
      match state
      case Input => SentOk() && blockNo == |blocks| + 1
      case Emitting => SentOk() && blockNo == |blocks|
    }

    /** Valid and linked. The quantifier keeps this closed wherever it is only passed on; it is opened by Opened(0). */
    ghost predicate Sound()
      reads `mode, `state, `avail_in_expect, `state_in_ch, `state_in_len, `nblock, `blockCRC, `combinedCRC, `zbits, `numZ
      reads `state_out_pos, `output, `eaten, `blocks, `pairs, `made, `trailers, `blockNo, `reader, `flushes, block, inUse, w
    {
      forall x {:trigger Opened(x)} :: Opened(x) ==> Valid() && Linked()
    }

    lemma NothingSent()
      requires blocks == [] && made == [] && trailers == 0 && flushes == 0 && reader == Wire.Start().v && w.Valid() && w.bsLive == 0
      ensures SentOk()
    {
      assert ByteBits(made) + TopBits(w.bsBuff, 0) == [];
    }

    /** Nothing has been read or written yet. */
    method Begin()
      requires Shape() && mode == Running && state == Input && state_in_ch == NO_CH && state_in_len == 0 && blockNo == 0
      requires numZ == state_out_pos == 0 && zbits == output == made == [] && pairs == [] && blocks == [] && eaten == []
      requires trailers == 0 && flushes == 0 && combinedCRC == 0 && reader == Wire.Start().v && w.Valid() && w.bsLive == 0
      modifies `nblock, `numZ, `zbits, `state_out_pos, `blockCRC, `blockNo, inUse
      ensures Sound()
    {
      assert zbits[0..] == [] && output + [] == output;
      BlankBlock();
      NothingSent();
      assert Accounted();
    }

    method WriteAll(is_last_block: bool) returns (combined: Word, ghost reader': Wire.Vars)
      requires Filled() && nblock <= 100000 * blockSize100k - 10 && SentOk() && blockNo == |blocks| + 1 && trailers == 0
      requires combinedCRC == Combined(crcStep, crcCombine, blocks)
      modifies block, w
      ensures w.Valid() && AllBytes(made + w.zbits) && (is_last_block ==> w.bsLive == 0)
      ensures Sent(ByteBits(made + w.zbits) + TopBits(w.bsBuff, w.bsLive), reader', blocks + [pairs], is_last_block, combined, blockSize100k, crcStep)
      ensures combined == Combined(crcStep, crcCombine, blocks + [pairs])
      ensures Budget(8 * |made + w.zbits| + w.bsLive, |AllPlain(blocks + [pairs])|, |blocks| + 1, if is_last_block then 1 else 0)
      ensures is_last_block ==> w.zbits != []
    {
      PlainMore(blocks, pairs);
      CodedSize(pairs);
      assert About(reader) && Kept(0);
      combined, reader' := WriteBlock(w, block, nblock, inUse[..], blockNo, blockSize100k, blockCRC, combinedCRC, workFactor,
                                      is_last_block, crcStep, crcCombine, made, reader, blocks, pairs);
    }

    lemma PlainMore(blocks: seq<seq<Pair>>, pairs: seq<Pair>)
      ensures AllPlain(blocks + [pairs]) == AllPlain(blocks) + Plain(pairs)
    {
      assert (blocks + [pairs])[..|blocks|] == blocks;
    }

    /** What has been written becomes output. */
    method Commit(combined: Word, is_last_block: bool, ghost reader': Wire.Vars, ghost full: bool)
      modifies `combinedCRC, `zbits, `numZ, `blocks, `pairs, `made, `trailers, `reader, `flushes
      ensures combinedCRC == combined && zbits == w.zbits && numZ == |zbits| && made == old(made) + zbits
      ensures blocks == old(blocks) + [old(pairs)] && pairs == [] && trailers == (if is_last_block then 1 else 0)
      ensures reader == reader' && flushes == old(flushes) + (if is_last_block || full then 0 else 1)
    {
      combinedCRC, zbits, numZ, made := combined, w.zbits, |w.zbits|, made + w.zbits;
      blocks, pairs, trailers, reader := blocks + [pairs], [], if is_last_block then 1 else 0, reader';
      flushes := flushes + if is_last_block || full then 0 else 1;
    }

    lemma Filling(full: bool)
      requires SentOk() && trailers == 0 && (full ==> |Plain(pairs)| >= FULL)
      ensures MostlyFull(|AllPlain(blocks)| + |Plain(pairs)|, |blocks| + 1, flushes + if full then 0 else 1, 0)
      ensures MostlyFull(|AllPlain(blocks)| + |Plain(pairs)|, |blocks| + 1, flushes, 1)
    {
      assert About(reader);
    }

    /** BZ2_compressBlock. */
    method CompressBlock(is_last_block: bool, ghost full: bool)
      requires full ==> |Plain(pairs)| >= FULL
      requires Filled() && nblock <= 100000 * blockSize100k - 10 && SentOk() && blockNo == |blocks| + 1 && trailers == 0
      requires combinedCRC == Combined(crcStep, crcCombine, blocks)
      modifies `combinedCRC, `zbits, `numZ, `blocks, `pairs, `made, `trailers, `reader, `flushes, block, w
      ensures SentOk() && blocks == old(blocks) + [old(pairs)] && pairs == []
      ensures flushes == old(flushes) + (if is_last_block || full then 0 else 1)
      ensures combinedCRC == Combined(crcStep, crcCombine, blocks)
      ensures numZ == |zbits| && made == old(made) + zbits && trailers == if is_last_block then 1 else 0
    {
      ghost var reader';
      var combined;
      Filling(full);
      PlainMore(blocks, pairs);
      combined, reader' := WriteAll(is_last_block);
      Commit(combined, is_last_block, reader', full);
    }

    /** A flush or finish has got everything into a block. */
    predicate Drained()
      reads `mode, `avail_in_expect, `state_in_ch, `state_in_len
    {
      mode != Running && avail_in_expect == 0 && IsEmptyRL()
    }

    ghost function Measure(): nat
      reads `mode, `avail_in_expect, `state_in_ch, `state_in_len, `state, `input
    {
      if state == Emitting && Drained() then 0
      else 1 + 4 * |input| + (if IsEmptyRL() then 0 else 2) + if state == Emitting then 1 else 0
    }

    /** Everything is written: a new block begins. */
    method NextBlock()
      requires Sound() && mode != Idle && state == Emitting && state_out_pos == numZ && !Ended()
      modifies `nblock, `numZ, `zbits, `state_out_pos, `blockCRC, `blockNo, `state, inUse
      ensures Sound() && state == Input && numZ == 0 && state_out_pos == 0
    {
      BeforeInput();
      BlankBlock();
      state := Input;
      ReadyForInput();
    }

    lemma BeforeInput()
      requires Sound() && mode != Idle && state == Emitting && !Ended()
      ensures Conserved() && pairs == [] && trailers == 0 && SentOk() && blockNo == |blocks|
    {
      assert Opened(0);
    }

    lemma ReadyForInput()
      requires state == Input && mode != Idle && Taking() && Conserved() && nblock < nblockMAX && numZ == 0 && trailers == 0
      requires SentOk() && blockNo == |blocks| + 1
      ensures Sound()
    {
    }

    /** A finish has got everything into a block, and the trailer behind it. */
    predicate Ended()
      reads `mode, `avail_in_expect, `state_in_ch, `state_in_len
    {
      mode == Finishing && avail_in_expect == 0 && IsEmptyRL()
    }

    method PourOut() returns (progress_out: bool)
      requires Sound() && state == Emitting
      modifies `avail_out, `output, `state_out_pos
      ensures Sound() && state_out_pos <= numZ && (avail_out == 0 || state_out_pos == numZ)
      ensures |output| + avail_out == old(|output| + avail_out)
      ensures |output| >= |old(output)| && progress_out == (|output| > |old(output)|)
    {
      assert Opened(0) && Shown(0);
      progress_out := CopyOutput();
    }

    /** The first half of handle_compress's loop. */
    method DoOutput() returns (progress_out: bool, stop: bool)
      requires Sound() && InputOk() && mode != Idle && state == Emitting
      modifies this, inUse
      ensures Sound() && InputOk() && mode == old(mode) && input == old(input) && eaten == old(eaten)
      ensures !stop ==> state == Input && Measure() < old(Measure())
      ensures stop ==> (avail_out == 0 && state_out_pos < numZ) || (Drained() && state_out_pos == numZ)
      ensures stop && Drained() && state_out_pos == numZ ==> (state == Input <==> mode == Flushing)
      ensures |output| + avail_out == old(|output| + avail_out)
      ensures |output| >= |old(output)| && progress_out == (|output| > |old(output)|)
      ensures avail_in_expect == old(avail_in_expect) && made == old(made) && blocks == old(blocks) && trailers == old(trailers)
      ensures flushes == old(flushes)
    {
      progress_out := PourOut();
      stop := true;
      if state_out_pos < numZ {
        return;
      }
      if mode == Finishing && avail_in_expect == 0 && IsEmptyRL() {
        return;
      }
      NextBlock();
      if mode == Flushing && avail_in_expect == 0 && IsEmptyRL() {
        return;
      }
      stop := false;
    }

    /** What holds between taking input and compressing the block. */
    ghost predicate Ripe()
      reads `state, `avail_in_expect, `state_in_ch, `state_in_len, `nblock, `blockCRC, `combinedCRC, `zbits, `numZ
      reads `state_out_pos, `output, `eaten, `blocks, `pairs, `made, `trailers, block, inUse
    {
      match state
      case Input => Filled() && Conserved() && numZ == 0 && trailers == 0
      case Emitting => false
    }

    /** The runs of a closed block stay accounted for. */
    lemma StillAccounted(done: seq<seq<Pair>>, runs: seq<Pair>, pend: seq<int>)
      ensures AllPlain(done + [runs]) + (Plain([]) + pend) == AllPlain(done) + (Plain(runs) + pend)
    {
      assert (done + [runs])[..|done|] == done;
      assert Plain([]) + pend == pend;
      assert AllPlain(done) + Plain(runs) + pend == AllPlain(done) + (Plain(runs) + pend);
    }

    method PackBlock(is_last_block: bool, ghost full: bool)
      requires full ==> |Plain(pairs)| >= FULL
      requires Filled() && Conserved() && numZ == 0 && trailers == 0 && SentOk() && blockNo == |blocks| + 1
      modifies `combinedCRC, `zbits, `numZ, `blocks, `pairs, `made, `trailers, `reader, `flushes, block, w
      ensures flushes == old(flushes) + (if is_last_block || full then 0 else 1)
      ensures Conserved() && SentOk() && |blocks| == old(|blocks|) + 1 && pairs == [] && trailers == if is_last_block then 1 else 0
    {
      assert Shown(0);
      StillAccounted(blocks, pairs, Pending());
      CompressBlock(is_last_block, full);
      assert zbits[0..] == zbits && output + [] == output;
      assert Accounted();
    }

    /** The block goes to compressBlock, and output begins. */
    method CloseBlock(is_last_block: bool, ghost full: bool)
      requires full ==> |Plain(pairs)| >= FULL
      requires Ripe() && Linked() && mode != Idle && (is_last_block ==> Ended())
      requires !is_last_block ==> !IsEmptyRL() || (mode == Flushing && avail_in_expect == 0)
      modifies `combinedCRC, `zbits, `numZ, `blocks, `pairs, `made, `trailers, `state, `reader, `flushes, block, w
      ensures Sound() && state == Emitting && flushes == old(flushes) + (if is_last_block || full then 0 else 1)
    {
      PackBlock(is_last_block, full);
      state := Emitting;
    }

    /** What holds when input has been taken. */
    ghost predicate Full()
      reads `mode, `state, `avail_in_expect, `state_in_ch, `state_in_len, `nblock, `blockCRC, `combinedCRC, `zbits, `numZ
      reads `state_out_pos, `output, `eaten, `blocks, `pairs, `made, `trailers, `blockNo, `reader, `flushes, block, inUse, w
    {
      forall x {:trigger Opened(x)} :: Opened(x) ==> Ripe() && Linked() && Taking() && nblock <= nblockMAX + 4
    }

    method EndRun()
      requires Full() && mode in {Flushing, Finishing} && avail_in_expect == 0
      modifies `nblock, block, inUse, `blockCRC, `pairs, `state_in_ch, `state_in_len
      ensures Ripe() && Linked() && IsEmptyRL()
    {
      assert Opened(0);
      FlushRL();
    }

    /** Flush or finish: the growing run ends, and so does the block. */
    method EndInput()
      requires Full() && mode in {Flushing, Finishing} && avail_in_expect == 0
      modifies `nblock, block, inUse, `blockCRC, `pairs, `state_in_ch, `state_in_len
      modifies `combinedCRC, `zbits, `numZ, `blocks, `made, `trailers, `state, `reader, `flushes, w
      ensures Sound() && state == Emitting && IsEmptyRL() && (mode == Finishing ==> flushes == old(flushes))
    {
      EndRun();
      CloseBlock(mode == Finishing, false);
    }

    method TakeInput() returns (progress_in: bool)
      requires Sound() && InputOk() && mode != Idle && state == Input
      modifies `nblock, block, inUse, `blockCRC, `pairs, `state_in_ch, `state_in_len, `input, `eaten, `avail_in_expect
      ensures Full() && InputOk() && eaten + input == old(eaten + input)
      ensures (input == [] || nblock >= nblockMAX) && |input| <= |old(input)| && progress_in == (|input| < |old(input)|)
      ensures progress_in ==> !IsEmptyRL()
      ensures !progress_in ==> nblock < nblockMAX
    {
      assert Opened(0);
      progress_in := CopyInput();
    }

    method CloseFull()
      requires Full() && mode != Idle && !IsEmptyRL() && nblock >= nblockMAX
      modifies `combinedCRC, `zbits, `numZ, `blocks, `pairs, `made, `trailers, `state, `reader, `flushes, block, w
      ensures Sound() && state == Emitting && flushes == old(flushes)
    {
      assert Opened(0);
      FullRuns();
      CloseBlock(false, true);
    }

    /** A block with enough bytes of code holds enough bytes of text. */
    lemma FullRuns()
      requires Filled() && nblock >= nblockMAX
      ensures |Plain(pairs)| >= FULL
    {
      assert Kept(0);
      CodedSize(pairs);
    }

    lemma NotYetFull()
      requires Full() && mode != Idle && nblock < nblockMAX
      ensures Sound() && state == Input
    {
      assert Opened(0);
    }

    /** After the input: the block is closed, or there is nothing more to do. */
    method CloseOrStop() returns (stop: bool)
      requires Full() && mode != Idle && (nblock >= nblockMAX ==> !IsEmptyRL())
      requires InputOk() && (input == [] || nblock >= nblockMAX)
      modifies `nblock, block, inUse, `blockCRC, `pairs, `state_in_ch, `state_in_len
      modifies `combinedCRC, `zbits, `numZ, `blocks, `made, `trailers, `state, `reader, `flushes, w
      ensures Sound() && (if stop then mode == Running && input == [] && state == Input else state == Emitting)
      ensures (state == Emitting ==> Drained() || old(nblock) >= nblockMAX) && (mode == Finishing ==> flushes == old(flushes))
    {
      stop := false;
      if mode != Running && avail_in_expect == 0 {
        EndInput();
      } else if nblock >= nblockMAX {
        CloseFull();
      } else if |input| == 0 {
        NotYetFull();
        stop := true;
      }
    }

    /** The second half. */
    method DoInput() returns (progress_in: bool, stop: bool)
      requires Sound() && InputOk() && mode != Idle && state == Input
      modifies `nblock, block, inUse, `blockCRC, `pairs, `state_in_ch, `state_in_len, `input, `eaten, `avail_in_expect
      modifies `combinedCRC, `zbits, `numZ, `blocks, `made, `trailers, `state, `reader, `flushes, w
      ensures Sound() && InputOk() && eaten + input == old(eaten + input)
      ensures if stop then mode == Running && input == [] && state == Input else state == Emitting && (Drained() || progress_in)
      ensures |input| <= |old(input)| && progress_in == (|input| < |old(input)|) && (!progress_in ==> input == [])
      ensures mode == Finishing ==> flushes == old(flushes)
    {
      progress_in := TakeInput();
      stop := CloseOrStop();
    }

    /** Why the loop may be left. */
    ghost predicate Rests()
      reads `mode, `avail_in_expect, `state_in_ch, `state_in_len, `state, `input, `avail_out, `state_out_pos, `numZ
    {
      || (avail_out == 0 && state_out_pos < numZ)
      || (mode == Running && input == [] && state == Input)
      || (Drained() && state_out_pos == numZ && (state == Input <==> mode == Flushing))
    }

    /** One round of the loop. */
    method Round() returns (progress_in: bool, progress_out: bool, stop: bool)
      requires Sound() && InputOk() && mode != Idle
      modifies this, block, inUse, w
      ensures Sound() && InputOk() && mode == old(mode) && eaten + input == old(eaten + input)
      ensures |output| + avail_out == old(|output| + avail_out)
      ensures |input| <= |old(input)| && progress_in == (|input| < |old(input)|)
      ensures |output| >= |old(output)| && progress_out == (|output| > |old(output)|)
      ensures if stop then Rests() else Measure() < old(Measure())
      ensures (mode == Finishing ==> flushes == old(flushes)) && (old(state) == Input && old(input) != [] ==> progress_in)
    {
      progress_in, progress_out, stop := false, false, false;
      if state == Emitting {
        progress_out, stop := DoOutput();
      }
      if !stop && state == Input {
        progress_in, stop := DoInput();
      }
    }

    /** handle_compress: it ends, because every round takes input, empties the growing run or empties the output. */
    method HandleCompress() returns (progress: bool)
      requires Sound() && InputOk() && mode != Idle
      modifies this, block, inUse, w
      ensures Sound() && InputOk() && mode == old(mode) && eaten + input == old(eaten + input)
      ensures |output| + avail_out == old(|output| + avail_out)
      ensures progress == (|input| < |old(input)| || |output| > |old(output)|)
      ensures |input| <= |old(input)| && |output| >= |old(output)|
      ensures Rests() && (mode == Finishing ==> flushes == old(flushes)) && (old(state) == Input && old(input) != [] ==> progress)
    {
      var progress_in, progress_out, stop := false, false, false;
      while !stop
        invariant Sound() && InputOk() && mode == old(mode) && eaten + input == old(eaten + input)
        invariant |output| + avail_out == old(|output| + avail_out)
        invariant |input| <= |old(input)| && progress_in == (|input| < |old(input)|)
        invariant |output| >= |old(output)| && progress_out == (|output| > |old(output)|)
        invariant stop ==> Rests()
        invariant mode == Finishing ==> flushes == old(flushes)
        invariant old(state) == Input && old(input) != [] ==> progress_in || (state == Input && input == old(input) && !stop)
        decreases if stop then 0 else 1 + Measure()
      {
        var p, q;
        p, q, stop := Round();
        progress_in, progress_out := progress_in || p, progress_out || q;
      }
      progress := progress_in || progress_out;
    }

    /** Everything eaten is in blocks, and everything made is written. */
    ghost predicate Complete()
      reads `eaten, `blocks, `output, `made
    {
      eaten == AllPlain(blocks) && output == made
    }

    /** Once everything is drained nothing is left between input and output: a flush or finish is over. */
    method Settle()
      requires Sound() && Drained() && state_out_pos == numZ && mode in {Flushing, Finishing} && (state == Input <==> mode == Flushing)
      modifies `mode
      ensures Sound() && Complete() && mode == (if old(mode) == Flushing then Running else Idle) && (mode == Idle ==> trailers == 1)
    {
      assert Opened(0) && Shown(0);
      assert zbits[numZ..] == [] && output + [] == output;
      assert Fed() == [] && AllPlain(blocks) + [] == AllPlain(blocks);
      mode := if mode == Flushing then Running else Idle;
    }

    /** Input has been taken, or output handed out. */
    ghost predicate Moved(input0: seq<int>, output0: seq<int>)
      reads `input, `output
    {
      |input| < |input0| || |output| > |output0|
    }

    lemma MoreToCome()
      requires Sound() && state_out_pos < numZ
      ensures output != made
    {
      assert Opened(0) && Shown(0);
    }

    /** BZ2_bzCompress while flushing. */
    method OnFlush(action: Action) returns (code: Code)
      requires Sound() && mode == Flushing && forall i :: 0 <= i < |input| ==> 0 <= input[i] < 256
      modifies this, block, inUse, w
      ensures Sound() && eaten + input == old(eaten + input) && |output| + avail_out == old(|output| + avail_out)
      ensures code in {SequenceError, FlushOk, RunOk} && mode == if code == RunOk then Running else Flushing
      ensures code == FlushOk ==> action == Flush && avail_out == 0 && output != made
      ensures code == RunOk ==> action == Flush && input == [] && Complete()
      ensures Answers(Flushing, old(avail_in_expect), action, |old(input)|, Moved(old(input), old(output)), code)
    {
      if action != Flush {
        return SequenceError;
      }
      if avail_in_expect != |input| {
        return SequenceError;
      }
      var progress := HandleCompress();
      if avail_in_expect > 0 || !IsEmptyRL() || state_out_pos < numZ {
        MoreToCome();
        return FlushOk;
      }
      Settle();
      return RunOk;
    }

    /** A finish with the right amount of input reports an error only if it could not move at all: nothing was taken and
        nothing handed out. At the start of a stream this takes an empty input and no room. */
    ghost predicate Advances(state0: State, input0: seq<int>, written: nat, code: Code)
      reads `input, `output, `avail_out
    {
      if code == SequenceError then
        |input| == |input0| && |output| == written && (state0 == Input && written == 0 ==> input0 == [] && avail_out == 0)
      else |input| < |input0| || |output| > written
    }

    /** Once the end is written there is something to hand out. */
    lemma Stuck(state0: State, input0: seq<int>, written: nat)
      requires Sound() && mode == Finishing && InputOk() && Rests() && |input| == |input0| && |output| == written
      requires state0 == Input && input0 != [] ==> |input| < |input0|
      ensures Advances(state0, input0, written, SequenceError)
    {
      if written == 0 && avail_out != 0 {
        assert Opened(0) && Shown(0) && About(reader);
      }
    }

    /** BZ2_bzCompress while finishing. */
    method OnFinish(action: Action) returns (code: Code)
      requires Sound() && mode == Finishing && forall i :: 0 <= i < |input| ==> 0 <= input[i] < 256
      modifies this, block, inUse, w
      ensures Sound() && eaten + input == old(eaten + input) && |output| + avail_out == old(|output| + avail_out)
      ensures code in {SequenceError, FinishOk, StreamEnd} && mode == if code == StreamEnd then Idle else Finishing
      ensures code == FinishOk ==> action == Finish && avail_out == 0 && output != made
      ensures code == StreamEnd ==> action == Finish && input == [] && trailers == 1 && Complete()
      ensures Answers(Finishing, old(avail_in_expect), action, |old(input)|, Moved(old(input), old(output)), code)
      ensures flushes == old(flushes)
      ensures action == Finish && old(avail_in_expect) == |old(input)| ==> Advances(old(state), old(input), |old(output)|, code)
    {
      if action != Finish {
        return SequenceError;
      }
      if avail_in_expect != |input| {
        return SequenceError;
      }
      var progress := HandleCompress();
      if !progress {
        Stuck(old(state), old(input), |old(output)|);
        return SequenceError;
      }
      if avail_in_expect > 0 || !IsEmptyRL() || state_out_pos < numZ {
        MoreToCome();
        return FinishOk;
      }
      Settle();
      code := StreamEnd;
    }

    /** BZ2_bzCompress with the caller's buffers. Input is taken in order and never lost; the end of the stream is
        reported once the trailer has been written, once, and everything has been handed out. */
    method BzCompress(action: Action, next_in: seq<int>, avail: nat) returns (code: Code)
      requires Sound() && forall i :: 0 <= i < |next_in| ==> 0 <= next_in[i] < 256
      modifies this, block, inUse, w
      ensures Sound() && eaten + input == old(eaten) + next_in && |output| + avail_out == |old(output)| + avail
      ensures if old(mode) == Idle then code == SequenceError && mode == Idle else Reports(action, code)
      ensures Answers(old(mode), old(avail_in_expect), action, |next_in|, Moved(next_in, old(output)), code)
      ensures old(mode) == Running && action == Finish ==>
        flushes == old(flushes) && Advances(old(state), next_in, |old(output)|, code)
    {
      input, avail_out := next_in, avail;
      if mode == Idle {
        code := SequenceError;
      } else if mode == Running {
        code := FromRunning(action);
      } else {
        code := GoOn(action);
      }
    }

    /** What a call reports. */
    ghost predicate Reports(action: Action, code: Code)
      reads `mode, `input, `avail_out, `trailers, `eaten, `blocks, `output, `made
    {
      && (code == StreamEnd <==> mode == Idle)
      && (code == StreamEnd ==> action == Finish && input == [] && trailers == 1 && Complete())
      && (code == ParamError ==> action in {Run, Other})
      && (code == FlushOk ==> action == Flush && mode == Flushing && avail_out == 0 && output != made)
      && (code == FinishOk ==> action == Finish && mode == Finishing && avail_out == 0 && output != made)
      && (code == RunOk && action == Run ==> mode == Running && (input == [] || avail_out == 0))
      && (code == RunOk && action != Run ==> action == Flush && mode == Running && input == [] && Complete())
    }

    method GoOn(action: Action) returns (code: Code)
      requires Sound() && mode in {Flushing, Finishing} && forall i :: 0 <= i < |input| ==> 0 <= input[i] < 256
      modifies this, block, inUse, w
      ensures Sound() && eaten + input == old(eaten + input) && |output| + avail_out == old(|output| + avail_out)
      ensures Reports(action, code)
      ensures Answers(old(mode), old(avail_in_expect), action, |old(input)|, Moved(old(input), old(output)), code)
      ensures old(mode) == Finishing ==> flushes == old(flushes)
      ensures old(mode) == Finishing && action == Finish && old(avail_in_expect) == |old(input)| ==>
        Advances(old(state), old(input), |old(output)|, code)
    {
      if mode == Flushing {
        code := OnFlush(action);
      } else {
        code := OnFinish(action);
      }
    }

    method FromRunning(action: Action) returns (code: Code)
      requires Sound() && mode == Running && forall i :: 0 <= i < |input| ==> 0 <= input[i] < 256
      modifies this, block, inUse, w
      ensures Sound() && eaten + input == old(eaten + input) && |output| + avail_out == old(|output| + avail_out)
      ensures Reports(action, code)
      ensures Answers(Running, old(avail_in_expect), action, |old(input)|, Moved(old(input), old(output)), code)
      ensures action == Finish ==> flushes == old(flushes) && Advances(old(state), old(input), |old(output)|, code)
    {
      if action == Run {
        code := OnRun();
      } else if action == Other {
        code := ParamError;
      } else {
        Enter(if action == Flush then Flushing else Finishing);
        code := GoOn(action);
      }
    }

    /** The amount of input seen now is all that the flush or finish will take. */
    method Enter(next: Mode)
      requires Sound() && mode == Running && next in {Flushing, Finishing}
      modifies `avail_in_expect, `mode
      ensures Sound() && mode == next && avail_in_expect == |input|
    {
      assert Opened(0);
      avail_in_expect := |input|;
      mode := next;
    }

    method OnRun() returns (code: Code)
      requires Sound() && mode == Running && forall i :: 0 <= i < |input| ==> 0 <= input[i] < 256
      modifies this, block, inUse, w
      ensures Sound() && eaten + input == old(eaten + input) && |output| + avail_out == old(|output| + avail_out)
      ensures code == (if Moved(old(input), old(output)) then RunOk else ParamError) && mode == Running && (input == [] || avail_out == 0)
    {
      var progress := HandleCompress();
      code := if progress then RunOk else ParamError;
    }

    /** Once the end of the stream has been reported, the output decompresses to all the input. */
    lemma Restored()
      requires Sound() && mode == Idle && Complete()
      ensures AllBytes(output) && Restores(crcStep, crcCombine, output, eaten)
    {
      assert Opened(0) && Shown(0);
      assert About(reader);
      assert TopBits(w.bsBuff, 0) == [] && ByteBits(made) + [] == ByteBits(made);
      forall rNums: int -> int
        ensures Decompressed(crcStep, rNums, crcCombine, output) == Clean(eaten)
      {
        StreamSurvives(crcStep, rNums, crcCombine, made, reader, blocks);
      }
    }

    /** What has been made could be completed, if it is not yet. */
    lemma Completes() returns (more: seq<int>, v: Wire.Vars)
      requires Sound()
      ensures AllBytes(made + more) && Ends(ByteBits(made + more), v) && Matches(crcStep, v.done, NonEmpty(blocks))
      ensures v.head.storedCombinedCRC == Combined(crcStep, crcCombine, blocks)
    {
      assert Opened(0) && Shown(0);
      assert About(reader);
      if trailers > 0 {
        more, v := [], reader;
        assert TopBits(w.bsBuff, 0) == [] && ByteBits(made) + [] == ByteBits(made) && made + [] == made;
      } else {
        more, v := Completion(made, TopBits(w.bsBuff, w.bsLive), reader, blocks, combinedCRC, blockSize100k, crcStep);
      }
    }

    /** At any moment what has been handed out is the beginning of a compressed form of what has been packed, and that is the
        beginning of what has been taken. */
    lemma Continues() returns (rest: seq<int>)
      requires Sound()
      ensures AllBytes(output + rest) && Restores(crcStep, crcCombine, output + rest, AllPlain(blocks)) && AllPlain(blocks) <= eaten
    {
      var more, v := Completes();
      assert Opened(0) && Shown(0);
      rest := zbits[state_out_pos..] + more;
      assert output + rest == made + more;
      forall rNums: int -> int
        ensures Decompressed(crcStep, rNums, crcCombine, output + rest) == Clean(AllPlain(blocks))
      {
        StreamSurvives(crcStep, rNums, crcCombine, output + rest, v, blocks);
      }
    }

    /** After a flush or finish has reported that it is done, all that was taken can be read from what was handed out and the
        bits that are left in the word, at most 32. */
    lemma Flushed(rNums: int -> int)
      requires Sound() && Complete() && trailers == 0
      ensures w.bsLive <= 32 && AllBytes(output) && (blocks == [] ==> output == [])
      ensures blocks != [] ==> Delivers(ByteBits(output) + TopBits(w.bsBuff, w.bsLive), reader, blockSize100k)
      ensures AllTexts(crcStep, rNums, reader.done) == Clean(eaten)
    {
      assert Opened(0) && About(reader);
      MatchesText(crcStep, rNums, crcCombine, reader.done, blocks);
    }

    /** Without a flush, what has been handed out is less than three bytes for a byte of input, and a constant. */
    lemma Small()
      requires Sound() && flushes == 0
      ensures |output| < 3 * |eaten| + 6600
    {
      assert Opened(0) && Shown(0) && About(reader);
      Bytes(8 * |made|, |AllPlain(blocks)|, |blocks|, trailers);
    }

    /** A whole stream in one call, as far as it fits. */
    method CompressOnce(source: seq<int>, avail: nat) returns (code: Code)
      requires Sound() && mode == Running && state == Input && eaten == [] && output == [] && flushes == 0 && AllBytes(source)
      modifies this, block, inUse, w
      ensures |output| <= avail && (code == FinishOk ==> |output| == avail) && code in {SequenceError, FinishOk, StreamEnd}
      ensures code == SequenceError <==> source == [] && avail == 0
      ensures avail >= 3 * |source| + 6600 ==> code == StreamEnd
      ensures code == StreamEnd ==> AllBytes(output) && Restores(crcStep, crcCombine, output, source)
    {
      code := BzCompress(Finish, source, avail);
      assert [] + source == source;
      Small();
      if code == StreamEnd {
        Restored();
        assert eaten + [] == eaten;
      }
    }
  }

  /** The budget in bytes, when only the last block may be short. */
  lemma Bytes(bits: nat, plain: nat, blocks: nat, trailers: nat)
    requires Budget(bits, plain, blocks, trailers) && MostlyFull(plain, blocks, 0, trailers) && trailers <= 1
    ensures bits < 8 * (3 * plain + 6600)
  {
  }

  datatype BuffCode = BuffOk | OutbuffFull | BuffError(code: Code)

  /** BZ2_bzBuffToBuffCompress: if the result fits, it decompresses to the source; with enough room it fits. An empty source
      and no room at all is a sequence error, because nothing can be taken or handed out. */
  method BuffToBuffCompress(source: seq<int>, destLen: nat, blockSize100k: nat, workFactor: int,
                            crcStep: (Word, int) -> Word, crcCombine: (Word, Word) -> Word)
    returns (code: BuffCode, dest: seq<int>)
    requires AllBytes(source)
    ensures |dest| <= destLen && (code == OutbuffFull ==> |dest| == destLen)
    ensures code == BuffOk ==> AllBytes(dest) && Restores(crcStep, crcCombine, dest, source)
    ensures code == BuffError(ParamError) <==> !(1 <= blockSize100k <= 9 && 0 <= workFactor <= 250)
    ensures code == BuffError(SequenceError) <==> 1 <= blockSize100k <= 9 && 0 <= workFactor <= 250 && source == [] && destLen == 0
    ensures 1 <= blockSize100k <= 9 && 0 <= workFactor <= 250 && destLen >= 3 * |source| + 6600 ==> code == BuffOk
  {
    if blockSize100k < 1 || blockSize100k > 9 || workFactor < 0 || workFactor > 250 {
      return BuffError(ParamError), [];
    }
    var s := new EState(blockSize100k, workFactor, crcStep, crcCombine);
    var ret := s.CompressOnce(source, destLen);
    dest := s.output;
    if ret == FinishOk {
      return OutbuffFull, dest;
    }
    if ret != StreamEnd {
      return BuffError(ret), dest;
    }
    code := BuffOk;
  }
}
