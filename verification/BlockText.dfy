/** What a block that has been read stands for: the bytes that the later stages of the decoder make of it. */
module BlockText {
  import opened Permutations
  import opened Counting
  import opened Rotations
  import opened InverseBwt
  import opened Bits
  import opened HuffmanCodes
  import opened Mtf
  import opened MtfStage
  import opened MtfDecode
  import opened RunLength
  import opened Output
  import opened RandMask
  import opened Wire
  import opened WholeBlock

  datatype Text = Clean(bytes: seq<int>) | Corrupt

  function Finalise(c: Word): Word {
    0xffff_ffff - c
  }

  /** The table from indices to bytes, filled up with zeros. */
  function SeqToUnseq(inUse: seq<bool>): (r: seq<int>)
    ensures |r| == 256
  {
    var u := UsedList(inUse);
    seq(256, i requires 0 <= i < 256 => if i < |u| then u[i] else 0)
  }

  /** The last column of a block. */
  function ColumnOf(k: Wire.Block): Outcome {
    Dec(k.syms, Upto(256), |UsedList(k.inUse)| + 1, 100000 * (if k.head.blockSize100k > 0 then k.head.blockSize100k else 0),
        SeqToUnseq(k.inUse), [], 0, 1)
  }

  ghost predicate IsColumn(l: seq<int>, origPtr: int) {
    0 <= origPtr < |l| && forall i :: 0 <= i < |l| ==> 0 <= l[i] < 256
  }

  /** The bytes that come out of a run-length coded block of n bytes, if they have the right checksum. */
  ghost function Checked(step: (Word, int) -> Word, d: seq<int>, n: nat, crc: int): Text {
    if |d| != n + 2 then Corrupt
    else
      var e := Expand(d, n, 1);
      if e.1 || Finalise(Crc(step, e.0)) != crc then Corrupt else Clean(e.0)
  }

  ghost function Unsorted(step: (Word, int) -> Word, rNums: int -> int, randomised: bool, l: seq<int>, origPtr: int, crc: int): Text {
    if !IsColumn(l, origPtr) then Corrupt
    else Checked(step, Derandomised(rNums, randomised, Drawn(l, origPtr, |l| + 2)), |l|, crc)
  }

  ghost function BlockText(step: (Word, int) -> Word, rNums: int -> int, k: Wire.Block): Text {
    match ColumnOf(k)
    case Done(l) => Unsorted(step, rNums, k.head.blockRandomised, l, k.head.origPtr, k.head.storedBlockCRC)
    case _ => Corrupt
  }

  /** The block stands for these bytes, whatever the table of counts for randomised blocks may be. */
  ghost predicate Says(step: (Word, int) -> Word, k: Wire.Block, text: seq<int>) {
    forall rNums: int -> int {:trigger BlockText(step, rNums, k)} :: BlockText(step, rNums, k) == Clean(text)
  }

  /** A payload made from a run-length coded block: its sorted rotations give the symbols. */
  ghost predicate Carries(p: Payload, pairs: seq<Pair>, b: seq<Byte>, ptr: seq<int>, step: (Word, int) -> Word) {
    && b != [] && Proper(pairs) && Coded(pairs) == b && SortsRotations(ptr, b) && 0 <= p.origPtr < |b| && ptr[p.origPtr] == 0
    && AllUsed(p.inUse, b) && p.crc == Finalise(Crc(step, Plain(pairs)))
    && p.syms == Enc(Indices(p.inUse, LastColumn(b, ptr)), Upto(|UsedList(p.inUse)|), 0) + [|UsedList(p.inUse)| + 1]
  }

  lemma ColumnUsed(inUse: seq<bool>, b: seq<Byte>, ptr: seq<int>)
    requires AllUsed(inUse, b) && SortsRotations(ptr, b)
    ensures AllUsed(inUse, LastColumn(b, ptr)) && |LastColumn(b, ptr)| == |b|
  {
  }

  lemma SeqToUnseqUsed(inUse: seq<bool>)
    requires |inUse| == 256
    ensures SeqToUnseq(inUse)[..|UsedList(inUse)|] == UsedList(inUse)
  {
  }

  lemma ColumnSurvives(p: Payload, pairs: seq<Pair>, b: seq<Byte>, ptr: seq<int>, step: (Word, int) -> Word, level: nat)
    requires Carries(p, pairs, b, ptr, step) && |b| <= 100000 * level <= 900000
    ensures ColumnOf(BlockOf(p, level)) == Done(LastColumn(b, ptr))
  {
    ColumnUsed(p.inUse, b, ptr);
    SeqToUnseqUsed(p.inUse);
    StageRoundTrip(p.inUse, LastColumn(b, ptr), SeqToUnseq(p.inUse), 100000 * level);
  }

  lemma UnsortedSurvives(step: (Word, int) -> Word, rNums: int -> int, pairs: seq<Pair>, b: seq<Byte>, ptr: seq<int>, origPtr: int, crc: int)
    requires b != [] && Proper(pairs) && Coded(pairs) == b && SortsRotations(ptr, b) && 0 <= origPtr < |b| && ptr[origPtr] == 0
    requires crc == Finalise(Crc(step, Plain(pairs)))
    ensures Unsorted(step, rNums, false, LastColumn(b, ptr), origPtr, crc) == Clean(Plain(pairs))
  {
    var l := LastColumn(b, ptr);
    assert IsColumn(l, origPtr);
    BlockExpands(b, ptr, origPtr, pairs);
  }

  /** All stages together: a block comes out as the bytes of its runs. */
  lemma BlockSurvives(p: Payload, pairs: seq<Pair>, b: seq<Byte>, ptr: seq<int>, step: (Word, int) -> Word, level: nat)
    requires Carries(p, pairs, b, ptr, step) && |b| <= 100000 * level <= 900000
    ensures Says(step, BlockOf(p, level), Plain(pairs))
  {
    ColumnSurvives(p, pairs, b, ptr, step, level);
    forall rNums: int -> int
      ensures BlockText(step, rNums, BlockOf(p, level)) == Clean(Plain(pairs))
    {
      UnsortedSurvives(step, rNums, pairs, b, ptr, p.origPtr, p.crc);
    }
  }

  lemma MaskedPrefix(rNums: int -> int, raw: seq<int>, b: seq<int>)
    requires |b| <= |raw| && raw[..|b|] == b
    ensures Unmask(rNums, raw)[..|b|] == Unmask(rNums, b)
  {
    forall i | 0 <= i < |b|
      ensures Unmask(rNums, raw)[i] == Unmask(rNums, b)[i]
    {
      assert raw[..|b|][i] == b[i];
    }
  }

  lemma CheckedSays(step: (Word, int) -> Word, d: seq<int>, n: nat, pairs: seq<Pair>)
    requires |d| == n + 2 && n > 0 && Proper(pairs) && d[..n] == Coded(pairs)
    ensures Checked(step, d, n, Finalise(Crc(step, Plain(pairs)))) == Clean(Plain(pairs))
  {
    assert d[1 - 1..n] == d[..n];
    ExpandCoded(pairs, d, n, 1);
  }

  lemma MaskedDraws(rNums: int -> int, b: seq<Byte>, ptr: seq<int>, origPtr: int)
    requires b != [] && SortsRotations(ptr, b) && 0 <= origPtr < |b| && ptr[origPtr] == 0
    ensures Unmask(rNums, Drawn(LastColumn(b, ptr), origPtr, |b| + 2))[..|b|] == Unmask(rNums, b)
  {
    DrawnIsBlock(b, ptr, origPtr, |b| + 2);
    MaskedPrefix(rNums, Drawn(LastColumn(b, ptr), origPtr, |b| + 2), b);
  }

  lemma UnsortedMasked(step: (Word, int) -> Word, rNums: int -> int, l: seq<Byte>, origPtr: int, crc: int)
    requires 0 <= origPtr < |l|
    ensures Unsorted(step, rNums, true, l, origPtr, crc) == Checked(step, Unmask(rNums, Drawn(l, origPtr, |l| + 2)), |l|, crc)
  {
    assert IsColumn(l, origPtr);
  }

  /** A block whose bytes were masked before sorting comes back unmasked. */
  lemma RandomisedSurvives(step: (Word, int) -> Word, rNums: int -> int, pairs: seq<Pair>, b: seq<Byte>, ptr: seq<int>, origPtr: int, crc: int)
    requires b != [] && Proper(pairs) && Coded(pairs) == Unmask(rNums, b) && SortsRotations(ptr, b) && 0 <= origPtr < |b| && ptr[origPtr] == 0
    requires crc == Finalise(Crc(step, Plain(pairs)))
    ensures Unsorted(step, rNums, true, LastColumn(b, ptr), origPtr, crc) == Clean(Plain(pairs))
  {
    MaskedDraws(rNums, b, ptr, origPtr);
    CheckedSays(step, Unmask(rNums, Drawn(LastColumn(b, ptr), origPtr, |b| + 2)), |b|, pairs);
    UnsortedMasked(step, rNums, LastColumn(b, ptr), origPtr, crc);
  }
}
