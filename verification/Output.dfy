/** The output stage of the decoder: draws bytes along the pointer chain, undoes the run-length code and stops
    wherever the output buffer is full. */
module Output {
  import opened Counting
  import opened Rotations
  import opened InverseBwt
  import opened RunLength
  import opened RandMask

  type Word = x: int | 0 <= x < 0x1_0000_0000

  /** A checksum over a byte string; the step function stands for the table-driven update. */
  function Crc(step: (Word, int) -> Word, s: seq<int>): Word {
    if s == [] then 0xffff_ffff else step(Crc(step, s[..|s| - 1]), s[|s| - 1])
  }

  // ----- drawing bytes

  /** Following the FAST words from x draws d[used..]. */
  ghost predicate DrawsFast(tt: seq<int>, d: seq<int>, x: int, used: nat)
    decreases |d| - used
  {
    used < |d| ==> 0 <= x < |tt| && tt[x] % 256 == d[used] && DrawsFast(tt, d, tt[x] / 256, used + 1)
  }

  /** Row x of the first column shows byte c. */
  ghost predicate Shows(cftab: seq<int>, x: int, c: int) {
    && |cftab| == 257 && cftab[0] <= x < cftab[256]
    && forall b {:trigger InSlot(cftab, x, b)} :: 0 <= b < 256 && InSlot(cftab, x, b) ==> b == c
  }

  ghost predicate InSlot(cftab: seq<int>, x: int, b: int)
    requires |cftab| == 257 && 0 <= b < 256
  {
    cftab[b] <= x < cftab[b + 1]
  }

  /** Following the SMALL pointers from x draws d[used..]. */
  ghost predicate DrawsSmall(ll16: seq<int>, ll4: seq<int>, cftab: seq<int>, d: seq<int>, x: int, used: nat)
    decreases |d| - used
  {
    used < |d| ==>
      && 0 <= x < |ll16| && x / 2 < |ll4| && Shows(cftab, x, d[used])
      && DrawsSmall(ll16, ll4, cftab, d, GetLL(ll16, ll4, x), used + 1)
  }

  /** The first k bytes drawn from a last column. */
  ghost function Drawn(l: seq<Byte>, orig: int, k: nat): (r: seq<int>)
    requires 0 <= orig < |l|
    ensures |r| == k && forall i :: 0 <= i < k ==> r[i] == DrawnByte(l, orig, i)
  {
    seq(k, i requires 0 <= i < k => DrawnByte(l, orig, i) as int)
  }

  lemma Unpack(word: int, c: Byte, p: nat)
    requires word == c + 256 * p
    ensures word % 256 == c && word / 256 == p
  {
  }

  lemma FastWord(tt: seq<int>, l: seq<Byte>, x: int) returns (q: nat)
    requires FastTable(tt, l) && 0 <= x < |l|
    ensures q == Sources(l)[x] && tt[x] == l[x] + 256 * q
  {
    q := Sources(l)[x];
  }

  lemma WalkOn(p: seq<int>, x: int, k: nat)
    requires Endo(p) && 0 <= x < |p|
    ensures Walk(p, x, k + 1) == p[Walk(p, x, k)]
  {
  }

  /** The FAST table draws the transform's bytes, starting behind the start row. */
  lemma {:induction false} FastDraws(tt: seq<int>, l: seq<Byte>, orig: int, n: nat, used: nat)
    requires FastTable(tt, l) && 0 <= orig < |l| && used <= n
    ensures DrawsFast(tt, Drawn(l, orig, n), Walk(Sources(l), orig, used + 1), used)
    decreases n - used
  {
    if used < n {
      var x := Walk(Sources(l), orig, used + 1);
      var q := FastWord(tt, l, x);
      Unpack(tt[x], l[x], q);
      WalkOn(Sources(l), orig, used + 1);
      FastDraws(tt, l, orig, n, used + 1);
    }
  }

  lemma FastStart(tt: seq<int>, l: seq<Byte>, orig: int)
    requires FastTable(tt, l) && 0 <= orig < |l|
    ensures tt[orig] / 256 == Walk(Sources(l), orig, 1)
  {
    var q := FastWord(tt, l, orig);
    Unpack(tt[orig], l[orig], q);
    WalkOn(Sources(l), orig, 0);
  }

  lemma ShowsFirst(cftab: seq<int>, l: seq<Byte>, x: int)
    requires IsCftab(cftab, l) && 0 <= x < |l|
    ensures Shows(cftab, x, l[Sources(l)[x]])
  {
    CountExtremes(l, 256);
    forall b | 0 <= b < 256 && InSlot(cftab, x, b)
      ensures b == l[Sources(l)[x]]
    {
      FirstColumn(l, x, b);
    }
  }

  /** The pointers reversed along the cycle draw the same bytes, starting at the start row. */
  lemma {:induction false} SmallDraws(ll16: seq<int>, ll4: seq<int>, cftab: seq<int>, l: seq<Byte>, orig: int, n: nat, used: nat)
    requires |l| <= |ll16| && (|l| + 1) / 2 <= |ll4| && IsCftab(cftab, l) && 0 <= orig < |l| && used <= n
    requires forall k: nat {:trigger Walk(Sources(l), orig, k)} ::
               GetLL(ll16, ll4, Walk(Sources(l), orig, k)) == Sources(l)[Walk(Sources(l), orig, k)]
    ensures DrawsSmall(ll16, ll4, cftab, Drawn(l, orig, n), Walk(Sources(l), orig, used), used)
    decreases n - used
  {
    if used < n {
      var x := Walk(Sources(l), orig, used);
      WalkOn(Sources(l), orig, used);
      ShowsFirst(cftab, l, x);
      SmallDraws(ll16, ll4, cftab, l, orig, n, used + 1);
    }
  }

  /** A block's worth of bytes, and two more that the decoder may look at. */
  ghost predicate ByteDraws(d: seq<int>, n: nat) {
    |d| == n + 2 && forall i :: 0 <= i < |d| ==> 0 <= d[i] < 256
  }

  /** d holds the raw bytes, with the mask if there is one. */
  ghost predicate Unmasked(rNums: int -> int, randomised: bool, raw: seq<int>, d: seq<int>) {
    && |d| == |raw| && (!randomised ==> d == raw)
    && (randomised ==> forall i: nat {:trigger Masked(rNums, raw[i], i)} :: i < |raw| ==> d[i] == Masked(rNums, raw[i], i))
  }

  lemma UnmaskedBy(rNums: int -> int, randomised: bool, raw: seq<int>)
    ensures Unmasked(rNums, randomised, raw, Derandomised(rNums, randomised, raw))
  {
  }

  ghost predicate Unfolded(x: int) {
    true
  }

  // ----- the decoder's state in this stage

  class DState {
    const tt: seq<int>
    const ll16: seq<int>
    const ll4: seq<int>
    const cftab: seq<int>
    const blockSize100k: nat
    const save_nblock: nat
    const crcStep: (Word, int) -> Word
    /** SMALL or FAST pointers; with or without the mask. */
    const small: bool
    const blockRandomised: bool
    const rNums: int -> int
    /** All bytes that the chain yields, as drawn and as used: the block, and two more. */
    ghost const raw: seq<int>
    ghost const d: seq<int>

    var tPos: int
    var nblock_used: nat
    var k0: int
    var rand: Rand
    var state_out_ch: int
    var state_out_len: nat
    var calculatedBlockCRC: Word
    var avail_out: nat
    /** Everything written for this block. */
    var out: seq<int>

    /** FAST: start is the pointer of the start row; the first byte is drawn at once. */
    constructor Fast(tt: seq<int>, blockSize100k: nat, nblock: nat, start: int, blockRandomised: bool, rNums: int -> int,
                     crcStep: (Word, int) -> Word, ghost raw: seq<int>)
      requires 0 < nblock && ByteDraws(raw, nblock) && |tt| <= 100000 * blockSize100k && DrawsFast(tt, raw, start, 0)
      ensures d == Derandomised(rNums, blockRandomised, raw) && save_nblock == nblock && this.crcStep == crcStep
      ensures Ready() && out == [] && nblock_used == 1 && state_out_len == 0
    {
      this.tt, ll16, ll4, cftab, this.blockSize100k, save_nblock, this.crcStep := tt, [], [], [], blockSize100k, nblock, crcStep;
      small, this.blockRandomised, this.rNums := false, blockRandomised, rNums;
      this.raw, d := raw, Derandomised(rNums, blockRandomised, raw);
      rand := Rand(0, 0);
      nblock_used, state_out_ch, state_out_len := 0, 0, 0;
      calculatedBlockCRC, avail_out, out := 0xffff_ffff, 0, [];
      tPos, k0 := start, 0;
      new;
      DerandomisedBytes(raw, nblock, rNums, blockRandomised);
      UnmaskedBy(rNums, blockRandomised, raw);
      FirstByte();
    }

    /** SMALL: start is the start row itself. */
    constructor Small(ll16: seq<int>, ll4: seq<int>, cftab: seq<int>, blockSize100k: nat, nblock: nat, start: int,
                      blockRandomised: bool, rNums: int -> int, crcStep: (Word, int) -> Word, ghost raw: seq<int>)
      requires 0 < nblock && ByteDraws(raw, nblock) && |ll16| <= 100000 * blockSize100k
      requires DrawsSmall(ll16, ll4, cftab, raw, start, 0)
      ensures d == Derandomised(rNums, blockRandomised, raw) && save_nblock == nblock && this.crcStep == crcStep
      ensures Ready() && out == [] && nblock_used == 1 && state_out_len == 0
    {
      tt, this.ll16, this.ll4, this.cftab := [], ll16, ll4, cftab;
      this.blockSize100k, save_nblock, this.crcStep := blockSize100k, nblock, crcStep;
      small, this.blockRandomised, this.rNums := true, blockRandomised, rNums;
      this.raw, d := raw, Derandomised(rNums, blockRandomised, raw);
      rand := Rand(0, 0);
      nblock_used, state_out_ch, state_out_len := 0, 0, 0;
      calculatedBlockCRC, avail_out, out := 0xffff_ffff, 0, [];
      tPos, k0 := start, 0;
      new;
      DerandomisedBytes(raw, nblock, rNums, blockRandomised);
      UnmaskedBy(rNums, blockRandomised, raw);
      FirstByte();
    }

    ghost predicate Block() {
      0 < save_nblock && ByteDraws(d, save_nblock) && Unmasked(rNums, blockRandomised, raw, d)
    }

    /** Where the pointers stand when `used` bytes have been drawn. */
    ghost predicate RawAt(x: int, used: nat) {
      if small then DrawsSmall(ll16, ll4, cftab, raw, x, used) && |ll16| <= 100000 * blockSize100k
      else DrawsFast(tt, raw, x, used) && |tt| <= 100000 * blockSize100k
    }

    ghost predicate FastAt(x: int, used: nat) {
      DrawsFast(tt, d, x, used) && |tt| <= 100000 * blockSize100k
    }

    /** While the block lasts, k is the byte drawn last. */
    ghost predicate KeyAt(k: int, used: nat) {
      Block() && 1 <= used <= save_nblock + 2 && (used <= save_nblock ==> k == d[used - 1])
    }

    /** All bytes still to be written. */
    ghost function RestOf(ch: int, len: nat, used: nat): seq<int>
      requires Block() && 1 <= used
    {
      Copies(ch, len) + Expand(d, save_nblock, used).0
    }

    ghost predicate BadFrom(used: nat)
      requires Block() && 1 <= used
    {
      Expand(d, save_nblock, used).1
    }

    /** Draws the next byte, FAST form. */
    method GetFast(tPos: int, ghost from: seq<int>, ghost used: nat) returns (corrupt: bool, c: int, tPos': int)
      requires DrawsFast(tt, from, tPos, used) && |tt| <= 100000 * blockSize100k && used < |from|
      ensures !corrupt && c == from[used] && DrawsFast(tt, from, tPos', used + 1)
    {
      c, tPos' := 0, tPos;
      if tPos >= 100000 * blockSize100k {
        return true, c, tPos;
      }
      c := tt[tPos] % 256;
      tPos' := tt[tPos] / 256;
      corrupt := false;
    }

    /** Draws the next byte, SMALL form. */
    method GetSmall() returns (corrupt: bool, c: int)
      requires small && RawAt(tPos, nblock_used) && nblock_used < |raw|
      modifies `tPos
      ensures !corrupt && c == raw[nblock_used] && RawAt(tPos, nblock_used + 1)
    {
      c := 0;
      if tPos >= 100000 * blockSize100k {
        return true, c;
      }
      c := IndexIntoF(tPos, cftab);
      assert InSlot(cftab, tPos, c);
      tPos := GetLL(ll16, ll4, tPos);
      corrupt := false;
    }

    method GetRaw() returns (corrupt: bool, c: int)
      requires RawAt(tPos, nblock_used) && nblock_used < |raw|
      modifies `tPos
      ensures !corrupt && c == raw[nblock_used] && RawAt(tPos, nblock_used + 1)
    {
      if small {
        corrupt, c := GetSmall();
      } else {
        corrupt, c, tPos := GetFast(tPos, raw, nblock_used);
      }
    }

    /** The mask's state when `used` bytes have been drawn. */
    ghost predicate MaskAt(used: nat)
      reads `rand
    {
      blockRandomised ==> rand == RandAt(rNums, used)
    }

    /** Draws the next byte and puts the mask on it. */
    method Draw() returns (corrupt: bool, c: int)
      requires RawAt(tPos, nblock_used) && MaskAt(nblock_used) && Block() && nblock_used < |d|
      modifies `tPos, `rand, `nblock_used
      ensures !corrupt && nblock_used == old(nblock_used) + 1 && c == d[old(nblock_used)]
      ensures RawAt(tPos, nblock_used) && MaskAt(nblock_used)
    {
      corrupt, c := GetRaw();
      if corrupt {
        return;
      }
      if blockRandomised {
        assert d[nblock_used] == Masked(rNums, raw[nblock_used], nblock_used);
        if rand.toGo == 0 {
          rand := Rand(rNums(rand.pos), if rand.pos + 1 == 512 then 0 else rand.pos + 1);
        }
        rand := Rand(rand.toGo - 1, rand.pos);
        if rand.toGo == 1 {
          c := if c % 2 == 0 then c + 1 else c - 1;
        }
      }
      nblock_used := nblock_used + 1;
    }

    method FirstByte()
      requires RawAt(tPos, 0) && rand == Rand(0, 0) && Block() && nblock_used == 0 && calculatedBlockCRC == Crc(crcStep, out)
      modifies `tPos, `rand, `nblock_used, `k0
      ensures Ready() && nblock_used == 1
    {
      var corrupt;
      corrupt, k0 := Draw();
    }

    // ----- the generic loop: everything in the object's fields

    ghost predicate Ready()
      reads `tPos, `nblock_used, `k0, `rand, `calculatedBlockCRC, `out
    {
      RawAt(tPos, nblock_used) && MaskAt(nblock_used) && KeyAt(k0, nblock_used) && calculatedBlockCRC == Crc(crcStep, out)
    }

    /** Writes one byte of the current run. */
    method Emit()
      requires avail_out > 0 && state_out_len > 0 && calculatedBlockCRC == Crc(crcStep, out)
      modifies `out, `avail_out, `state_out_len, `calculatedBlockCRC
      ensures out == old(out) + [state_out_ch] && avail_out == old(avail_out) - 1
      ensures state_out_len == old(state_out_len) - 1 && calculatedBlockCRC == Crc(crcStep, out)
    {
      assert (out + [state_out_ch])[..|out|] == out;
      out := out + [state_out_ch];
      calculatedBlockCRC := crcStep(calculatedBlockCRC, state_out_ch);
      state_out_len := state_out_len - 1;
      avail_out := avail_out - 1;
    }

    /** Draws one more byte; unless the block ends or the byte differs the run goes on. */
    method More(len: nat) returns (corrupt: bool, ended: bool)
      requires Ready() && nblock_used <= save_nblock
      modifies `tPos, `rand, `nblock_used, `k0, `state_out_len
      ensures !corrupt && Ready() && nblock_used == old(nblock_used) + 1 && state_out_len == len
      ensures ended <==> nblock_used == save_nblock + 1 || d[old(nblock_used)] != old(k0)
      ensures !ended ==> k0 == old(k0)
    {
      var k1;
      state_out_len := len;
      corrupt, k1 := Draw();
      if corrupt {
        return true, true;
      }
      if nblock_used == save_nblock + 1 {
        return false, true;
      }
      if k1 != k0 {
        k0 := k1;
        return false, true;
      }
      ended := false;
    }

    /** The count behind four equal bytes, and the first byte of the next run. */
    method CountByte() returns (corrupt: bool)
      requires Ready() && nblock_used < save_nblock + 1
      modifies `tPos, `rand, `nblock_used, `k0, `state_out_len
      ensures !corrupt && Ready() && nblock_used == old(nblock_used) + 2
      ensures state_out_len == d[old(nblock_used)] + 4
    {
      var k1;
      corrupt, k1 := Draw();
      if corrupt {
        return;
      }
      state_out_len := k1 + 4;
      corrupt, k0 := Draw();
    }

    /** Draws the bytes of the next run. */
    method StartRun() returns (corrupt: bool)
      requires Ready() && nblock_used <= save_nblock
      modifies `tPos, `rand, `nblock_used, `k0, `state_out_ch, `state_out_len
      ensures !corrupt && Ready() && state_out_ch == old(k0)
      ensures (state_out_len as int, nblock_used) == Run(d, save_nblock, old(nblock_used))
    {
      var ended;
      state_out_ch := k0;
      corrupt, ended := More(1);
      if corrupt || ended {
        return;
      }
      corrupt := RunOn(nblock_used - 1);
    }

    /** Two bytes of a run are equal. */
    method RunOn(ghost from: nat) returns (corrupt: bool)
      requires Ready() && 1 <= from && nblock_used == from + 1 <= save_nblock && d[from] == d[from - 1] == k0
      modifies `tPos, `rand, `nblock_used, `k0, `state_out_len
      ensures !corrupt && Ready() && (state_out_len as int, nblock_used) == Run(d, save_nblock, from)
    {
      var ended;
      corrupt, ended := More(2);
      if corrupt || ended {
        return;
      }
      corrupt, ended := More(3);
      if corrupt || ended {
        return;
      }
      corrupt := CountByte();
    }

    /** Everything written and everything left. */
    ghost function All(): seq<int>
      requires Block() && 1 <= nblock_used
      reads `out, `state_out_ch, `state_out_len, `nblock_used
    {
      out + RestOf(state_out_ch, state_out_len, nblock_used)
    }

    /** Nothing of the current run is left and the block is used up. */
    ghost predicate Finished()
      reads `nblock_used, `state_out_len
    {
      nblock_used == save_nblock + 1 && state_out_len == 0
    }

    /** Writes as much of the current run as fits. */
    method FinishRun() returns (full: bool)
      requires Ready()
      modifies `out, `avail_out, `state_out_len, `calculatedBlockCRC
      ensures Ready() && (full ==> avail_out == 0) && (!full ==> state_out_len == 0)
      ensures All() == old(All()) && |out| + avail_out == old(|out| + avail_out) && |out| >= old(|out|)
    {
      while true
        invariant |out| >= old(|out|) && Ready() && |out| + avail_out == old(|out| + avail_out) && All() == old(All())
        decreases state_out_len
      {
        if avail_out == 0 {
          return true;
        }
        if state_out_len == 0 {
          break;
        }
        OneWritten(out, state_out_ch, state_out_len, Expand(d, save_nblock, nblock_used).0);
        Emit();
      }
      full := false;
    }

    /** Starting a run writes nothing and forgets nothing. */
    method BeginRun() returns (corrupt: bool)
      requires Ready() && nblock_used <= save_nblock && state_out_len == 0
      modifies `tPos, `rand, `nblock_used, `k0, `state_out_ch, `state_out_len
      ensures !corrupt && Ready() && nblock_used > old(nblock_used)
      ensures All() == old(All()) && BadFrom(nblock_used) == old(BadFrom(nblock_used))
    {
      ghost var was := nblock_used;
      corrupt := StartRun();
      RunUnfolds(d, save_nblock, was);
      assert All() == old(All()) by {
        assert Copies(old(state_out_ch), 0) == [];
        assert old(RestOf(state_out_ch, state_out_len, nblock_used)) == RestOf(state_out_ch, state_out_len, nblock_used);
      }
    }

    /** unRLE_obuf_to_output_SMALL, and the form of unRLE_obuf_to_output_FAST for randomised blocks: writes until the buffer is full or the block is used up. What has been written
        and what is left always make up the same bytes. */
    method UnRleGeneric() returns (corrupt: bool)
      requires Ready()
      modifies `out, `avail_out, `state_out_len, `calculatedBlockCRC, `tPos, `rand, `nblock_used, `k0, `state_out_ch
      ensures Ready() && |out| + avail_out == old(|out| + avail_out) && |out| >= old(|out|) && All() == old(All())
      ensures corrupt ==> old(BadFrom(nblock_used)) && All() == out
      ensures !corrupt ==> BadFrom(nblock_used) == old(BadFrom(nblock_used)) && (avail_out == 0 || Finished())
    {
      while true
        invariant Ready() && |out| + avail_out == old(|out| + avail_out) && |out| >= old(|out|)
        invariant All() == old(All()) && BadFrom(nblock_used) == old(BadFrom(nblock_used))
        decreases save_nblock + 3 - nblock_used
      {
        var full := FinishRun();
        if full {
          return false;
        }
        if nblock_used == save_nblock + 1 {
          return false;
        }
        if nblock_used > save_nblock + 1 {
          return true;
        }
        corrupt := BeginRun();
        if corrupt {
          return;
        }
      }
    }

    // ----- FAST: the same with everything in local variables

    ghost predicate ReadyFast(tPos: int, used: nat, k: int) {
      FastAt(tPos, used) && KeyAt(k, used)
    }

    ghost function AllOf(o: seq<int>, ch: int, len: nat, used: nat): seq<int>
      requires Block() && 1 <= used
    {
      o + RestOf(ch, len, used)
    }

    /** Writes what is left of a run, with the jump to the label for its last byte. */
    method FinishRunFast(c_state_out_ch: int, len0: nat, eqOne: bool, crc0: int, avail0: nat, out0: seq<int>, ghost tail: seq<int>)
      returns (full: bool, c_state_out_len: nat, crc: int, avail: nat, o: seq<int>)
      requires len0 > 0 || eqOne
      requires crc0 == Crc(crcStep, out0)
      ensures crc == Crc(crcStep, o) && |o| + avail == |out0| + avail0 && |o| >= |out0| && (full ==> avail == 0)
      ensures o + (Copies(c_state_out_ch, if full then c_state_out_len else 0) + tail)
           == out0 + (Copies(c_state_out_ch, if eqOne then 1 else len0) + tail)
    {
      c_state_out_len, crc, avail, o := len0, crc0, avail0, out0;
      if !eqOne {
        while true
          invariant 1 <= c_state_out_len && crc == Crc(crcStep, o) && |o| + avail == |out0| + avail0 && |o| >= |out0|
          invariant o + (Copies(c_state_out_ch, c_state_out_len) + tail) == out0 + (Copies(c_state_out_ch, len0) + tail)
          decreases c_state_out_len
        {
          if avail == 0 {
            return true, c_state_out_len, crc, avail, o;
          }
          if c_state_out_len == 1 {
            break;
          }
          OneWritten(o, c_state_out_ch, c_state_out_len, tail);
          assert (o + [c_state_out_ch])[..|o|] == o;
          o := o + [c_state_out_ch];
          crc := crcStep(crc, c_state_out_ch);
          c_state_out_len := c_state_out_len - 1;
          avail := avail - 1;
        }
      }
      if avail == 0 {
        return true, 1, crc, avail, o;
      }
      OneWritten(o, c_state_out_ch, 1, tail);
      assert (o + [c_state_out_ch])[..|o|] == o;
      o := o + [c_state_out_ch];
      crc := crcStep(crc, c_state_out_ch);
      avail := avail - 1;
      full := false;
    }

    method MoreFast(tPos: int, used0: nat, k: int) returns (corrupt: bool, ended: bool, tPos': int, used: nat, k': int)
      requires ReadyFast(tPos, used0, k) && used0 <= save_nblock
      ensures !corrupt && ReadyFast(tPos', used, k') && used == used0 + 1
      ensures ended <==> used == save_nblock + 1 || d[used0] != k
      ensures !ended ==> k' == k
    {
      var k1;
      used, k' := used0, k;
      corrupt, k1, tPos' := GetFast(tPos, d, used);
      if corrupt {
        return true, true, tPos', used, k;
      }
      used := used + 1;
      if used == save_nblock + 1 {
        return false, true, tPos', used, k;
      }
      if k1 != k {
        return false, true, tPos', used, k1;
      }
      ended := false;
    }

    /** Draws the bytes of the next run; a run of one is handed on by the flag instead of the length. */
    method StartRunFast(tPos0: int, used0: nat, k: int, stale: nat)
      returns (corrupt: bool, tPos: int, used: nat, k': int, len: nat, eqOne: bool)
      requires ReadyFast(tPos0, used0, k) && used0 <= save_nblock
      ensures !corrupt && ReadyFast(tPos, used, k')
      ensures ((if eqOne then 1 else len) as int, used) == Run(d, save_nblock, used0)
    {
      var ended, k1;
      len, eqOne := stale, false;
      corrupt, ended, tPos, used, k' := MoreFast(tPos0, used0, k);
      if corrupt || ended {
        eqOne := true;
        return;
      }
      len := 2;
      corrupt, ended, tPos, used, k' := MoreFast(tPos, used, k');
      if corrupt || ended {
        return;
      }
      len := 3;
      corrupt, ended, tPos, used, k' := MoreFast(tPos, used, k');
      if corrupt || ended {
        return;
      }
      corrupt, k1, tPos := GetFast(tPos, d, used);
      if corrupt {
        return;
      }
      used := used + 1;
      len := k1 + 4;
      corrupt, k', tPos := GetFast(tPos, d, used);
      if corrupt {
        return;
      }
      used := used + 1;
    }

    /** Everything written and everything left make up e.0. The quantifier keeps this closed where it is only passed on; it is
        opened by Unfolded(0). */
    ghost predicate OnCourse(o: seq<int>, ch: int, len: nat, used: nat, e: (seq<int>, bool))
      requires Block() && 1 <= used
    {
      forall x {:trigger Unfolded(x)} :: Unfolded(x) ==> AllOf(o, ch, len, used) == e.0 && BadFrom(used) == e.1
    }

    method BeginRunFast(tPos0: int, used0: nat, k: int, stale: nat, ghost o: seq<int>, ghost ch: int, ghost e: (seq<int>, bool))
      returns (corrupt: bool, tPos: int, used: nat, k': int, len: nat, eqOne: bool)
      requires ReadyFast(tPos0, used0, k) && used0 <= save_nblock && OnCourse(o, ch, 0, used0, e)
      ensures !corrupt && ReadyFast(tPos, used, k') && used > used0 && OnCourse(o, k, if eqOne then 1 else len, used, e)
    {
      corrupt, tPos, used, k', len, eqOne := StartRunFast(tPos0, used0, k, stale);
      RunBegun(o, ch, k, used0, if eqOne then 1 else len, used, e);
    }

    lemma RunBegun(o: seq<int>, ch: int, k: int, used0: nat, len: nat, used: nat, e: (seq<int>, bool))
      requires KeyAt(k, used0) && used0 <= save_nblock && 1 <= used && OnCourse(o, ch, 0, used0, e)
      requires (len as int, used) == Run(d, save_nblock, used0)
      ensures OnCourse(o, k, len, used, e)
    {
      assert Unfolded(0);
      RunUnfolds(d, save_nblock, used0);
      assert Copies(ch, 0) + Expand(d, save_nblock, used0).0 == Expand(d, save_nblock, used0).0;
    }

    /** The rest of the current run, as far as there is room. */
    method FinishFast(ch: int, len0: nat, eqOne: bool, crc0: int, avail0: nat, out0: seq<int>, ghost used: nat, ghost e: (seq<int>, bool))
      returns (full: bool, len: nat, crc: int, avail: nat, o: seq<int>)
      requires Block() && 1 <= used && (len0 > 0 || eqOne) && crc0 == Crc(crcStep, out0) && OnCourse(out0, ch, if eqOne then 1 else len0, used, e)
      ensures crc == Crc(crcStep, o) && |o| + avail == |out0| + avail0 && |o| >= |out0| && (full ==> avail == 0)
      ensures OnCourse(o, ch, if full then len else 0, used, e)
    {
      assert Unfolded(0);
      full, len, crc, avail, o := FinishRunFast(ch, len0, eqOne, crc0, avail0, out0, Expand(d, save_nblock, used).0);
    }

    /** The loop of unRLE_obuf_to_output_FAST. */
    method RunFast(ghost e: (seq<int>, bool)) returns (corrupt: bool)
      requires ReadyFast(tPos, nblock_used, k0) && calculatedBlockCRC == Crc(crcStep, out)
      requires OnCourse(out, state_out_ch, state_out_len, nblock_used, e)
      modifies `out, `avail_out, `state_out_len, `calculatedBlockCRC, `tPos, `nblock_used, `k0, `state_out_ch
      ensures Block() && nblock_used >= 1 && |out| + avail_out == old(|out| + avail_out) && |out| >= old(|out|)
      ensures OnCourse(out, state_out_ch, state_out_len, nblock_used, e) && (corrupt ==> e.1)
      ensures !corrupt ==> ReadyFast(tPos, nblock_used, k0) && calculatedBlockCRC == Crc(crcStep, out) && (avail_out == 0 || Finished())
    {
      var c_crc, c_ch, c_len, c_used := calculatedBlockCRC, state_out_ch, state_out_len, nblock_used;
      var c_k0, c_tPos, c_avail, c_out := k0, tPos, avail_out, out;
      var eqOne, full := false, false;
      while true
        invariant ReadyFast(c_tPos, c_used, c_k0) && c_crc == Crc(crcStep, c_out)
        invariant |c_out| + c_avail == |out| + avail_out && |c_out| >= |out|
        invariant OnCourse(c_out, c_ch, if eqOne then 1 else c_len, c_used, e)
        modifies {}
        decreases save_nblock + 3 - c_used
      {
        if c_len > 0 || eqOne {
          full, c_len, c_crc, c_avail, c_out := FinishFast(c_ch, c_len, eqOne, c_crc, c_avail, c_out, c_used, e);
          eqOne := false;
          if full {
            break;
          }
        }
        if c_used > save_nblock + 1 {
          Overrun(c_out, c_ch, c_used, e);
          return true;
        }
        if c_used == save_nblock + 1 {
          c_len := 0;
          break;
        }
        ghost var ch := c_ch;
        c_ch := c_k0;
        corrupt, c_tPos, c_used, c_k0, c_len, eqOne := BeginRunFast(c_tPos, c_used, c_k0, c_len, c_out, ch, e);
        if corrupt {
          return;
        }
      }
      corrupt := false;
      calculatedBlockCRC, state_out_ch, state_out_len, nblock_used := c_crc, c_ch, c_len, c_used;
      k0, tPos, avail_out, out := c_k0, c_tPos, c_avail, c_out;
    }

    lemma Overrun(o: seq<int>, ch: int, used: nat, e: (seq<int>, bool))
      requires Block() && used > save_nblock + 1 && exists len: nat :: OnCourse(o, ch, len, used, e)
      ensures e.1
    {
      assert Unfolded(0);
    }

    /** unRLE_obuf_to_output_FAST: the same bytes, kept in local variables until the buffer is full. */
    method UnRleFast() returns (corrupt: bool)
      requires ReadyFast(tPos, nblock_used, k0) && calculatedBlockCRC == Crc(crcStep, out)
      modifies `out, `avail_out, `state_out_len, `calculatedBlockCRC, `tPos, `nblock_used, `k0, `state_out_ch
      ensures Block() && nblock_used >= 1 && |out| + avail_out == old(|out| + avail_out) && |out| >= old(|out|) && All() == old(All())
      ensures corrupt ==> old(BadFrom(nblock_used))
      ensures !corrupt ==> ReadyFast(tPos, nblock_used, k0) && calculatedBlockCRC == Crc(crcStep, out)
      ensures !corrupt ==> BadFrom(nblock_used) == old(BadFrom(nblock_used)) && (avail_out == 0 || Finished())
    {
      ghost var e := (All(), BadFrom(nblock_used));
      corrupt := RunFast(e);
      assert Unfolded(0);
    }

    /** The loop that suits the block. */
    method UnRle() returns (corrupt: bool)
      requires Ready()
      modifies `out, `avail_out, `state_out_len, `calculatedBlockCRC, `tPos, `rand, `nblock_used, `k0, `state_out_ch
      ensures corrupt ==> old(BadFrom(nblock_used))
      ensures !corrupt ==> Ready() && |out| + avail_out == old(|out| + avail_out) && |out| >= old(|out|) && All() == old(All())
      ensures !corrupt ==> BadFrom(nblock_used) == old(BadFrom(nblock_used)) && (avail_out == 0 || Finished())
    {
      if small || blockRandomised {
        corrupt := UnRleGeneric();
      } else {
        corrupt := UnRleFast();
      }
    }
  }

  lemma RunUnfolds(d: seq<int>, n: nat, used: nat)
    requires 1 <= used <= n && |d| == n + 2
    ensures var r := Run(d, n, used);
      Expand(d, n, used) == ((if r.0 >= 0 then Copies(d[used - 1], r.0) else []) + Expand(d, n, r.1).0, Expand(d, n, r.1).1)
  {
  }

  lemma OneWritten(out: seq<int>, c: int, k: nat, tail: seq<int>)
    requires k > 0
    ensures out + (Copies(c, k) + tail) == out + [c] + (Copies(c, k - 1) + tail)
  {
    CopiesHead(c, k);
  }

  lemma {:induction false} CopiesHead(c: int, k: nat)
    requires k > 0
    ensures Copies(c, k) == [c] + Copies(c, k - 1)
  {
    if k > 1 {
      CopiesHead(c, k - 1);
    }
  }

  // ----- whole blocks

  lemma AllAtStart(plain: seq<int>, ch: int)
    ensures [] + (Copies(ch, 0) + plain) == plain
  {
  }

  lemma DerandomisedBytes(raw: seq<int>, n: nat, rNums: int -> int, randomised: bool)
    requires ByteDraws(raw, n)
    ensures ByteDraws(Derandomised(rNums, randomised, raw), n)
  {
    var d := Derandomised(rNums, randomised, raw);
    forall i | 0 <= i < |d|
      ensures 0 <= d[i] < 256
    {
      FlipByte(raw[i], MaskOf(RandAt(rNums, i + 1)));
    }
  }

  /** All four loops, for every sequence of buffer sizes: a prefix of the bytes comes out, all of them once the block is finished,
      the checksum is that of exactly these bytes, and corruption is found only where there is some. */
  method DrainSizes(s: DState, sizes: seq<nat>) returns (out: seq<int>, crc: Word, finished: bool, corrupt: bool)
    requires s.Ready() && s.nblock_used == 1 && s.state_out_len == 0 && s.out == []
    modifies s
    ensures Drained(s.crcStep, Expand(s.d, s.save_nblock, 1), out, crc, finished, corrupt)
    ensures !corrupt && |sizes| > 0 && sizes[|sizes| - 1] > |Expand(s.d, s.save_nblock, 1).0| ==> finished
  {
    ghost var e := Expand(s.d, s.save_nblock, 1);
    AllAtStart(e.0, s.state_out_ch);
    finished := false;
    for i := 0 to |sizes|
      invariant s.Ready() && s.All() == e.0 && s.BadFrom(s.nblock_used) == e.1 && (finished ==> s.Finished())
      invariant i > 0 && sizes[i - 1] > |e.0| ==> finished
    {
      corrupt, finished := FillBuffer(s, sizes[i], e);
      if corrupt {
        return s.out, 0, false, true;
      }
    }
    out, crc, corrupt := s.out, s.calculatedBlockCRC, false;
    if finished {
      NothingLeft(s.out, s.state_out_ch);
    }
  }

  ghost predicate Drained(step: (Word, int) -> Word, e: (seq<int>, bool), out: seq<int>, crc: Word, finished: bool, corrupt: bool) {
    if corrupt then e.1 else out <= e.0 && crc == Crc(step, out) && (finished ==> e == (out, false))
  }

  /** One more buffer. */
  method FillBuffer(s: DState, size: nat, ghost e: (seq<int>, bool)) returns (corrupt: bool, finished: bool)
    requires s.Ready() && s.All() == e.0 && s.BadFrom(s.nblock_used) == e.1
    modifies s
    ensures corrupt ==> e.1
    ensures !corrupt ==> s.Ready() && s.All() == e.0 && s.BadFrom(s.nblock_used) == e.1 && (finished ==> s.Finished())
    ensures !corrupt && size > |e.0| ==> finished
  {
    s.avail_out := size;
    corrupt := s.UnRle();
    finished := s.nblock_used == s.save_nblock + 1 && s.state_out_len == 0;
  }

  lemma NothingLeft(out: seq<int>, ch: int)
    ensures out + (Copies(ch, 0) + []) == out
  {
  }

  lemma DrawnBytes(l: seq<Byte>, orig: int, n: nat)
    requires 0 <= orig < |l|
    ensures ByteDraws(Drawn(l, orig, n + 2), n)
  {
  }

  lemma DrawnIsBlock(b: seq<Byte>, ptr: seq<int>, orig: int, n: nat)
    requires SortsRotations(ptr, b) && 0 <= orig < |b| && ptr[orig] == 0 && |b| <= n
    ensures Drawn(LastColumn(b, ptr), orig, n)[..|b|] == b
  {
    DrawsBlock(b, ptr, orig);
  }

  lemma FastReady(tt: seq<int>, l: seq<Byte>, orig: nat)
    requires FastTable(tt, l) && orig < |l|
    ensures DrawsFast(tt, Drawn(l, orig, |l| + 2), tt[orig] / 256, 0) && ByteDraws(Drawn(l, orig, |l| + 2), |l|)
  {
    FastStart(tt, l, orig);
    FastDraws(tt, l, orig, |l| + 2, 0);
    DrawnBytes(l, orig, |l|);
  }

  /** FAST: the packed words of a sorted block's last column draw the block, and then two more bytes. */
  lemma FastGivesBlock(tt: seq<int>, b: seq<Byte>, ptr: seq<int>, l: seq<Byte>, orig: nat, start: int)
    requires SortsRotations(ptr, b) && orig < |b| && ptr[orig] == 0 && l == LastColumn(b, ptr)
    requires FastTable(tt, l) && start == tt[orig] / 256
    ensures var d := Drawn(l, orig, |b| + 2); d[..|b|] == b && DrawsFast(tt, d, start, 0)
  {
    FastReady(tt, l, orig);
    DrawnPrefix(b, ptr, l, orig);
  }

  lemma DrawnPrefix(b: seq<Byte>, ptr: seq<int>, l: seq<Byte>, orig: nat)
    requires SortsRotations(ptr, b) && orig < |b| && ptr[orig] == 0 && l == LastColumn(b, ptr)
    ensures |l| == |b| && Drawn(l, orig, |b| + 2)[..|b|] == b
  {
    DrawnIsBlock(b, ptr, orig, |b| + 2);
  }

  /** SMALL: so do the 20-bit pointers once they are turned round along the cycle through origPtr. */
  lemma SmallGivesBlock(ll16: seq<int>, ll4: seq<int>, cftab: seq<int>, b: seq<Byte>, ptr: seq<int>, orig: nat)
    requires SortsRotations(ptr, b) && orig < |b| && ptr[orig] == 0 && IsCftab(cftab, LastColumn(b, ptr))
    requires |b| <= |ll16| && (|b| + 1) / 2 <= |ll4|
    requires forall k: nat {:trigger Walk(Sources(LastColumn(b, ptr)), orig, k)} ::
               GetLL(ll16, ll4, Walk(Sources(LastColumn(b, ptr)), orig, k)) == Sources(LastColumn(b, ptr))[Walk(Sources(LastColumn(b, ptr)), orig, k)]
    ensures var d := Drawn(LastColumn(b, ptr), orig, |b| + 2); d[..|b|] == b && DrawsSmall(ll16, ll4, cftab, d, orig, 0)
  {
    SmallDraws(ll16, ll4, cftab, LastColumn(b, ptr), orig, |b| + 2, 0);
    DrawnIsBlock(b, ptr, orig, |b| + 2);
  }

  /** What is drawn behind a sorted, run-length coded block expands to the bytes of its runs. */
  lemma BlockExpands(b: seq<Byte>, ptr: seq<int>, orig: int, pairs: seq<Pair>)
    requires SortsRotations(ptr, b) && 0 <= orig < |b| && ptr[orig] == 0 && Proper(pairs) && Coded(pairs) == b
    ensures ByteDraws(Drawn(LastColumn(b, ptr), orig, |b| + 2), |b|)
    ensures Expand(Drawn(LastColumn(b, ptr), orig, |b| + 2), |b|, 1) == (Plain(pairs), false)
  {
    var n := |b|;
    var d := Drawn(LastColumn(b, ptr), orig, n + 2);
    DrawnBytes(LastColumn(b, ptr), orig, n);
    DrawnIsBlock(b, ptr, orig, n + 2);
    assert d[1 - 1..n] == d[..n];
    ExpandCoded(pairs, d, n, 1);
  }
}
