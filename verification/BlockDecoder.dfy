/** From the symbols of a block to its bytes: the stages of the decoder behind the bit stream, one after the other. */
module BlockDecoder {
  import opened Permutations
  import opened Counting
  import opened Rotations
  import opened InverseBwt
  import opened Bits
  import opened Mtf
  import opened MtfStage
  import opened MtfDecode
  import opened RunLength
  import opened Output
  import opened RandMask
  import Wire
  import opened BlockText

  /** What reading a block guarantees. */
  ghost predicate Readable(k: Wire.Block) {
    && 1 <= k.head.blockSize100k <= 9 && |k.inUse| == 256 && |UsedList(k.inUse)| >= 1
    && forall i :: 0 <= i < |k.syms| ==> 0 <= k.syms[i] <= |UsedList(k.inUse)| + 1
  }

  ghost predicate InBytes(s: seq<int>) {
    forall i :: 0 <= i < |s| ==> 0 <= s[i] < 256
  }

  lemma {:induction false} CopiesBytes(c: int, k: nat)
    requires 0 <= c < 256
    ensures InBytes(Copies(c, k))
  {
    if k != 0 {
      CopiesBytes(c, k - 1);
    }
  }

  /** Only bytes come out. */
  lemma {:induction false} DecBytes(syms: seq<int>, l: seq<int>, eob: int, max: nat, unseq: seq<int>, out: seq<int>, run: nat, weight: nat)
    requires |l| == 256 && Bytes(unseq) && InBytes(out)
    ensures var o := Dec(syms, l, eob, max, unseq, out, run, weight); o.Done? ==> InBytes(o.out)
    decreases |syms|
  {
    if syms != [] {
      var s := syms[0];
      if s == RUNA || s == RUNB {
        if weight < RUN_GUARD {
          DecBytes(syms[1..], l, eob, max, unseq, out, run + (s + 1) * weight, 2 * weight);
        }
      } else {
        CopiesBytes(Byteful(unseq, l[0]), run);
        var out' := out + Copies(Byteful(unseq, l[0]), run);
        if |out'| < max && s != eob && 2 <= s <= 256 {
          DecBytes(syms[1..], ToFront(l, s - 1), eob, max, unseq, out' + [Byteful(unseq, l[s - 1])], 0, 1);
        }
      }
    }
  }

  // ----- the two forms of the inverse transform

  ghost predicate GoodColumn(l: seq<Byte>, origPtr: int, level: nat) {
    0 <= origPtr < |l| <= 100000 * level <= 900000
  }

  /** What the header of a block and the caller say about the way back to its bytes. */
  datatype Settings = Settings(origPtr: nat, level: nat, randomised: bool, rNums: int -> int, step: (Word, int) -> Word)

  ghost function Yield(h: Settings, l: seq<Byte>): seq<int>
    requires h.origPtr < |l|
  {
    Derandomised(h.rNums, h.randomised, Drawn(l, h.origPtr, |l| + 2))
  }

  /** Nothing of the block has been put out yet. */
  ghost predicate Fresh(s: DState, h: Settings, l: seq<Byte>)
    requires h.origPtr < |l|
    reads s
  {
    && s.Ready() && s.nblock_used == 1 && s.state_out_len == 0 && s.out == []
    && s.d == Yield(h, l) && s.save_nblock == |l| && s.crcStep == h.step
  }

  /** The column gets its pointers. */
  method LinkFast(tt: array<int>, unzftab: array<int>, n: nat, ghost l: seq<Byte>)
    requires tt != unzftab && n == |l| <= tt.Length && n <= 900000 && tt[..n] == l && unzftab.Length == 256 && Tallied(unzftab[..], l)
    modifies tt
    ensures FastTable(tt[..], l)
  {
    var cftab := new int[257];
    MakeCftab(unzftab, cftab, l);
    assert forall p :: 0 <= p < n ==> tt[p] == tt[..n][p];
    BuildFast(tt, cftab, l, n);
  }

  method UnsortFast(tt: array<int>, unzftab: array<int>, n: nat, h: Settings, ghost l: seq<Byte>) returns (s: DState)
    requires tt != unzftab && n == |l| && GoodColumn(l, h.origPtr, h.level) && tt.Length == 100000 * h.level
    requires tt[..n] == l && unzftab.Length == 256 && Tallied(unzftab[..], l)
    modifies tt
    ensures fresh(s) && Fresh(s, h, l)
  {
    LinkFast(tt, unzftab, n, l);
    ghost var raw := Drawn(l, h.origPtr, n + 2);
    FastReady(tt[..], l, h.origPtr);
    s := new DState.Fast(tt[..], h.level, n, tt[h.origPtr] / 256, h.randomised, h.rNums, h.step, raw);
  }

  method UnsortSmall(ll16: array<int>, unzftab: array<int>, n: nat, h: Settings, ghost l: seq<Byte>) returns (s: DState)
    requires ll16 != unzftab && n == |l| && GoodColumn(l, h.origPtr, h.level) && ll16.Length == 100000 * h.level
    requires ll16[..n] == l && unzftab.Length == 256 && Tallied(unzftab[..], l)
    modifies ll16
    ensures fresh(s) && Fresh(s, h, l)
  {
    var cftab, cftabCopy := new int[257], new int[257];
    MakeCftab(unzftab, cftab, l);
    ghost var cf := cftab[..];
    var ll4 := new int[(1 + 100000 * h.level) / 2](_ => 0);
    assert forall p :: 0 <= p < n ==> ll16[p] == ll16[..n][p];
    BuildSmallT(ll16, ll4, cftab, cftabCopy, l, n);
    ReverseCycle(ll16, ll4, l, n, h.origPtr);
    ghost var raw := Drawn(l, h.origPtr, n + 2);
    assert cftab[..] == cf;
    SmallDraws(ll16[..], ll4[..], cftab[..], l, h.origPtr, n + 2, 0);
    DrawnBytes(l, h.origPtr, n);
    s := new DState.Small(ll16[..], ll4[..], cftab[..], h.level, n, h.origPtr, h.randomised, h.rNums, h.step, raw);
  }

  /** The output stage that is left to do stands for the block. */
  ghost predicate StandsFor(s: DState, step: (Word, int) -> Word, rNums: int -> int, k: Wire.Block) {
    s.crcStep == step && BlockText.BlockText(step, rNums, k) == Checked(step, s.d, s.save_nblock, k.head.storedBlockCRC)
  }

  /** Everything between the bit stream and the output stage, FAST or SMALL: for every block that can be read, corrupt or not,
      randomised or not. */
  method OpenBlock(k: Wire.Block, small: bool, step: (Word, int) -> Word, rNums: int -> int) returns (s: DState?)
    requires Readable(k)
    ensures s == null ==> BlockText.BlockText(step, rNums, k) == Corrupt
    ensures s != null ==> fresh(s) && s.Ready() && s.nblock_used == 1 && s.state_out_len == 0 && s.out == [] && StandsFor(s, step, rNums, k)
  {
    var code, nblock, tt, unzftab := ReadColumn(k);
    if code != Ok {
      return null;
    }
    if k.head.origPtr >= nblock {
      return null;
    }
    ghost var l: seq<Byte> := tt[..nblock];
    var h := Settings(k.head.origPtr, k.head.blockSize100k, k.head.blockRandomised, rNums, step);
    if small {
      s := UnsortSmall(tt, unzftab, nblock, h, l);
    } else {
      s := UnsortFast(tt, unzftab, nblock, h, l);
    }
  }

  /** The MTF stage: the last column, tallied, as far as there is one. */
  method ReadColumn(k: Wire.Block) returns (code: Status, nblock: nat, tt: array<int>, unzftab: array<int>)
    requires Readable(k)
    ensures tt.Length == 100000 * k.head.blockSize100k && unzftab.Length == 256 && tt != unzftab && fresh(tt) && fresh(unzftab)
    ensures code == Ok <==> ColumnOf(k).Done?
    ensures code == Ok ==> nblock <= tt.Length && ColumnOf(k) == Done(tt[..nblock]) && Tallied(unzftab[..], tt[..nblock]) && InBytes(tt[..nblock])
  {
    var seqToUnseq := new int[256](_ => 0);
    var nInUse := MakeMapsD(k.inUse, seqToUnseq);
    UnseqTable(seqToUnseq[..], k.inUse);
    tt, unzftab := new int[100000 * k.head.blockSize100k], new int[256];
    code, nblock := DecodeValues(k.syms, nInUse + 1, 100000 * k.head.blockSize100k, seqToUnseq[..], tt, unzftab);
    DecBytes(k.syms, Upto(256), nInUse + 1, 100000 * k.head.blockSize100k, seqToUnseq[..], [], 0, 1);
  }

  lemma UnseqTable(s: seq<int>, inUse: seq<bool>)
    requires |s| == |inUse| == 256 && s[..|UsedList(inUse)|] == UsedList(inUse) && forall i :: |UsedList(inUse)| <= i < 256 ==> s[i] == 0
    ensures s == SeqToUnseq(inUse) && Bytes(s)
  {
    var u := UsedList(inUse);
    forall i | 0 <= i < 256
      ensures s[i] == SeqToUnseq(inUse)[i] && 0 <= s[i] < 256
    {
      if i < |u| {
        assert s[..|u|][i] == u[i];
      }
    }
  }
}
