/** From the last column to MTF symbols and back. */
module MtfStage {
  import opened Permutations
  import opened Counting
  import opened Rotations
  import opened Bits
  import opened Mtf
  import opened MtfWindows

  // ----- the bytes in use

  function UsedBytes(inUse: seq<bool>, k: nat): (r: seq<int>)
    requires k <= |inUse|
    ensures |r| <= k && forall i :: 0 <= i < |r| ==> 0 <= r[i] < k
  {
    if k == 0 then [] else UsedBytes(inUse, k - 1) + if inUse[k - 1] then [k - 1] else []
  }

  /** All bytes in use, in order: the decoder's table from indices to bytes. */
  function UsedList(inUse: seq<bool>): (r: seq<int>)
    ensures |r| <= |inUse| && forall i :: 0 <= i < |r| ==> 0 <= r[i] < |inUse|
  {
    UsedBytes(inUse, |inUse|)
  }

  function SeqIndex(inUse: seq<bool>, c: nat): nat
    requires c <= |inUse|
  {
    |UsedBytes(inUse, c)|
  }

  /** Indices and bytes in use correspond. */
  lemma {:induction false} UsedAt(inUse: seq<bool>, c: nat, k: nat)
    requires c < k <= |inUse| && inUse[c]
    ensures SeqIndex(inUse, c) < |UsedBytes(inUse, k)| && UsedBytes(inUse, k)[SeqIndex(inUse, c)] == c
    decreases k
  {
    if c < k - 1 {
      UsedAt(inUse, c, k - 1);
    }
  }

  method MakeMapsE(inUse: seq<bool>, unseqToSeq: array<int>) returns (nInUse: nat)
    requires |inUse| == 256 == unseqToSeq.Length
    modifies unseqToSeq
    ensures nInUse == |UsedList(inUse)| && forall c: nat :: c < 256 && inUse[c] ==> unseqToSeq[c] == SeqIndex(inUse, c)
  {
    nInUse := 0;
    for i := 0 to 256
      invariant nInUse == |UsedBytes(inUse, i)|
      invariant forall c: nat :: c < i && inUse[c] ==> unseqToSeq[c] == SeqIndex(inUse, c)
    {
      if inUse[i] {
        unseqToSeq[i] := nInUse;
        nInUse := nInUse + 1;
      }
    }
  }

  method MakeMapsD(inUse: seq<bool>, seqToUnseq: array<int>) returns (nInUse: nat)
    requires |inUse| == 256 == seqToUnseq.Length
    modifies seqToUnseq
    ensures nInUse == |UsedList(inUse)| <= 256 && seqToUnseq[..nInUse] == UsedList(inUse)
    ensures seqToUnseq[nInUse..] == old(seqToUnseq[nInUse..])
  {
    nInUse := 0;
    for i := 0 to 256
      invariant nInUse == |UsedBytes(inUse, i)| && seqToUnseq[..nInUse] == UsedBytes(inUse, i)
      invariant forall j :: nInUse <= j < 256 ==> seqToUnseq[j] == old(seqToUnseq[j])
    {
      if inUse[i] {
        seqToUnseq[nInUse] := i;
        nInUse := nInUse + 1;
      }
    }
  }

  // ----- encoding

  function Upto(m: nat): (r: seq<int>)
    ensures |r| == m && forall i :: 0 <= i < m ==> r[i] == i
  {
    seq(m, i => i)
  }

  /** The symbols for indices u with list yy, z zeros already pending. */
  function Enc(u: seq<int>, yy: seq<int>, z: nat): seq<int> {
    if u == [] then RunDigits(z)
    else if yy == [] || u[0] !in yy then []
    else if u[0] == yy[0] then Enc(u[1..], yy, z + 1)
    else RunDigits(z) + [Find(yy, u[0]) + 1] + Enc(u[1..], ToFront(yy, Find(yy, u[0])), 0)
  }

  /** The indices of the last column's bytes. */
  function Indices(inUse: seq<bool>, l: seq<Byte>): (u: seq<int>)
    requires |inUse| == 256
    ensures |u| == |l| && forall i :: 0 <= i < |l| ==> u[i] == SeqIndex(inUse, l[i])
  {
    seq(|l|, i requires 0 <= i < |l| => SeqIndex(inUse, l[i]))
  }

  ghost predicate AllUsed(inUse: seq<bool>, l: seq<Byte>) {
    |inUse| == 256 && forall i :: 0 <= i < |l| ==> inUse[l[i]]
  }

  /** What generateMTFValues keeps. */
  ghost predicate Encoding(u: seq<int>, i: nat, yy: seq<int>, zPend: nat, out: seq<int>, m: nat) {
    && i <= |u| && Listing(yy, m) && (forall k :: 0 <= k < |u| ==> 0 <= u[k] < m)
    && out + Enc(u[i..], yy, zPend) == Enc(u, Upto(m), 0) && |out| + zPend <= i
  }

  lemma EncodingZero(u: seq<int>, i: nat, yy: seq<int>, zPend: nat, out: seq<int>, m: nat)
    requires Encoding(u, i, yy, zPend, out, m) && i < |u| && m > 0 && u[i] == yy[0]
    ensures Encoding(u, i + 1, yy, zPend + 1, out, m)
  {
    assert u[i..][1..] == u[i + 1..];
    assert u[i] in yy;
  }

  lemma EncodingMove(u: seq<int>, i: nat, yy: seq<int>, zPend: nat, out: seq<int>, m: nat)
    requires Encoding(u, i, yy, zPend, out, m) && i < |u| && m > 0 && u[i] != yy[0]
    ensures u[i] in yy && m >= 2
    ensures Encoding(u, i + 1, ToFront(yy, Find(yy, u[i])), 0, out + RunDigits(zPend) + [Find(yy, u[i]) + 1], m)
  {
    assert u[i..][1..] == u[i + 1..];
    assert u[i] in yy;
    var f := Find(yy, u[i]);
    ToFrontKeeps(yy, m, f);
    RunDigitCount(zPend);
    MovedRest(out, RunDigits(zPend), f + 1, Enc(u[i + 1..], ToFront(yy, f), 0));
  }

  lemma MovedRest(out: seq<int>, run: seq<int>, x: int, rest: seq<int>)
    ensures out + (run + [x] + rest) == out + run + [x] + rest
  {
  }

  ghost predicate Counts(freq: seq<int>, out: seq<int>, eob: int) {
    |freq| > eob && forall c :: 0 <= c <= eob ==> freq[c] == CountOf(out, c)
  }

  lemma {:induction false} CountAppend(s: seq<int>, t: seq<int>, c: int)
    ensures CountOf(s + t, c) == CountOf(s, c) + CountOf(t, c)
  {
    if t == [] {
      assert s + t == s;
    } else {
      CountAppend(s, t[..|t| - 1], c);
      assert (s + t)[..|s + t| - 1] == s + t[..|t| - 1];
    }
  }

  /** A pending run, counted. */
  method PutCounted(mtfv: array<int>, mtfFreq: array<int>, wr0: nat, zPend: nat, ghost eob: int) returns (wr: nat)
    requires mtfv != mtfFreq && wr0 + zPend <= mtfv.Length && eob >= 2 && Counts(mtfFreq[..], mtfv[..wr0], eob)
    modifies mtfv, mtfFreq
    ensures wr <= wr0 + zPend <= mtfv.Length && mtfv[..wr] == old(mtfv[..wr0]) + RunDigits(zPend)
    ensures Counts(mtfFreq[..], mtfv[..wr], eob)
  {
    RunDigitCount(zPend);
    ghost var was, out, freq := mtfv[..], mtfv[..wr0], mtfFreq[..];
    wr := PutRun(mtfv, mtfFreq, wr0, zPend);
    assert mtfv[..wr] == out + RunDigits(zPend);
    forall c | 0 <= c <= eob
      ensures mtfFreq[..][c] == CountOf(mtfv[..wr], c)
    {
      assert freq[c] == CountOf(out, c);
      CountAppend(out, RunDigits(zPend), c);
    }
  }

  method PutSymbol(mtfv: array<int>, mtfFreq: array<int>, wr0: nat, sym: nat, ghost eob: int) returns (wr: nat)
    requires mtfv != mtfFreq && wr0 < mtfv.Length && sym <= eob && Counts(mtfFreq[..], mtfv[..wr0], eob)
    modifies mtfv, mtfFreq
    ensures wr == wr0 + 1 && mtfv[..wr] == old(mtfv[..wr0]) + [sym]
    ensures Counts(mtfFreq[..], mtfv[..wr], eob)
  {
    ghost var out, freq := mtfv[..wr0], mtfFreq[..];
    mtfv[wr0] := sym;
    mtfFreq[sym] := mtfFreq[sym] + 1;
    wr := wr0 + 1;
    assert mtfv[..wr] == out + [sym] && (out + [sym])[..|out|] == out;
    assert mtfFreq[..] == freq[sym := freq[sym] + 1];
  }

  lemma EncodingStarts(u: seq<int>, m: nat)
    requires forall k :: 0 <= k < |u| ==> 0 <= u[k] < m
    ensures Encoding(u, 0, Upto(m), 0, [], m)
  {
    forall v | 0 <= v < m
      ensures v in Upto(m)
    {
      assert Upto(m)[v] == v;
    }
    assert u[0..] == u;
  }

  lemma {:induction false} NothingCounted(eob: nat, freq: seq<int>)
    requires |freq| > eob && forall c :: 0 <= c <= eob ==> freq[c] == 0
    ensures Counts(freq, [], eob)
  {
  }

  method InitLists(yy: array<int>, mtfFreq: array<int>, nInUse: nat)
    requires yy != mtfFreq && nInUse <= yy.Length && mtfFreq.Length > nInUse + 1
    modifies yy, mtfFreq
    ensures yy[..nInUse] == Upto(nInUse) && Counts(mtfFreq[..], [], nInUse + 1)
  {
    for i := 0 to nInUse + 2
      invariant forall c :: 0 <= c < i ==> mtfFreq[c] == 0
    {
      mtfFreq[i] := 0;
    }
    for i := 0 to nInUse
      modifies yy
      invariant forall k :: 0 <= k < i ==> yy[k] == k
    {
      yy[i] := i;
    }
    NothingCounted(nInUse + 1, mtfFreq[..]);
  }

  /** Codes one index: another zero, or the pending run and then a position. */
  method EncodeOne(yy: array<int>, mtfv: array<int>, mtfFreq: array<int>, nInUse: nat, ll: int, wr0: nat, zPend0: nat,
                   ghost u: seq<int>, ghost i: nat)
    returns (wr: nat, zPend: nat)
    requires yy != mtfv && yy != mtfFreq && mtfv != mtfFreq && 0 < nInUse <= yy.Length && i < |u| && ll == u[i]
    requires wr0 + zPend0 <= i < mtfv.Length
    requires Encoding(u, i, yy[..nInUse], zPend0, mtfv[..wr0], nInUse) && Counts(mtfFreq[..], mtfv[..wr0], nInUse + 1)
    modifies yy, mtfv, mtfFreq
    ensures wr + zPend <= i + 1 <= mtfv.Length
    ensures Encoding(u, i + 1, yy[..nInUse], zPend, mtfv[..wr], nInUse) && Counts(mtfFreq[..], mtfv[..wr], nInUse + 1)
  {
    wr, zPend := wr0, zPend0;
    ghost var out, list := mtfv[..wr], yy[..nInUse];
    if yy[0] == ll {
      EncodingZero(u, i, list, zPend, out, nInUse);
      zPend := zPend + 1;
    } else {
      EncodingMove(u, i, list, zPend, out, nInUse);
      if zPend > 0 {
        wr := PutCounted(mtfv, mtfFreq, wr, zPend, nInUse + 1);
        zPend := 0;
      } else {
        assert out + RunDigits(0) == out;
      }
      var pos := MoveUp(yy, nInUse, ll);
      wr := PutSymbol(mtfv, mtfFreq, wr, pos + 1, nInUse + 1);
    }
  }

  /** The byte in front of the i-th sorted rotation, as an index. */
  method ReadIndex(ptr: array<int>, block: array<int>, n: nat, unseqToSeq: array<int>, i: nat,
                   ghost inUse: seq<bool>, ghost b: seq<Byte>)
    returns (ll: int)
    requires i < n == |b| <= ptr.Length && n <= block.Length && block[..n] == b && IsPerm(ptr[..n])
    requires |inUse| == 256 == unseqToSeq.Length && AllUsed(inUse, b)
    requires forall c: nat :: c < 256 && inUse[c] ==> unseqToSeq[c] == SeqIndex(inUse, c)
    ensures ll == Indices(inUse, LastColumn(b, ptr[..n]))[i]
  {
    assert ptr[i] == ptr[..n][i];
    var j := ptr[i] - 1;
    if j < 0 {
      j := j + n;
    }
    assert j == Pred(n, ptr[i]) && block[j] == b[j];
    ll := unseqToSeq[block[j]];
  }

  /** The last pending run and the end mark. */
  method FinishMtf(mtfv: array<int>, mtfFreq: array<int>, nInUse: nat, wr0: nat, zPend: nat, ghost yy: seq<int>, ghost u: seq<int>)
    returns (nMTF: nat)
    requires mtfv != mtfFreq && nInUse > 0 && wr0 + zPend <= |u| < mtfv.Length
    requires Encoding(u, |u|, yy, zPend, mtfv[..wr0], nInUse) && Counts(mtfFreq[..], mtfv[..wr0], nInUse + 1)
    modifies mtfv, mtfFreq
    ensures nMTF <= |u| + 1 && mtfv[..nMTF] == Enc(u, Upto(nInUse), 0) + [nInUse + 1]
    ensures Counts(mtfFreq[..], mtfv[..nMTF], nInUse + 1)
  {
    var wr := wr0;
    assert u[|u|..] == [];
    if zPend > 0 {
      wr := PutCounted(mtfv, mtfFreq, wr, zPend, nInUse + 1);
    } else {
      assert mtfv[..wr] + RunDigits(0) == mtfv[..wr];
    }
    nMTF := PutSymbol(mtfv, mtfFreq, wr, nInUse + 1, nInUse + 1);
  }

  /** Reads the last column through the sorted pointers; wr never overtakes the read position. */
  method GenerateMtfValues(ptr: array<int>, block: array<int>, n: nat, unseqToSeq: array<int>, nInUse: nat,
                           mtfv: array<int>, mtfFreq: array<int>, ghost inUse: seq<bool>, ghost b: seq<Byte>)
    returns (nMTF: nat)
    requires mtfv !in {ptr, block, unseqToSeq, mtfFreq} && mtfFreq !in {ptr, block, unseqToSeq}
    requires |b| == n <= ptr.Length && n <= block.Length && block[..n] == b && IsPerm(ptr[..n])
    requires |inUse| == 256 == unseqToSeq.Length && nInUse == |UsedList(inUse)| && nInUse > 0
    requires AllUsed(inUse, b) && forall c: nat :: c < 256 && inUse[c] ==> unseqToSeq[c] == SeqIndex(inUse, c)
    requires mtfv.Length >= n + 1 && mtfFreq.Length == 258
    modifies mtfv, mtfFreq
    ensures nMTF <= n + 1 <= mtfv.Length
    ensures mtfv[..nMTF] == Enc(Indices(inUse, LastColumn(b, ptr[..n])), Upto(nInUse), 0) + [nInUse + 1]
    ensures Counts(mtfFreq[..], mtfv[..nMTF], nInUse + 1)
  {
    ghost var s := ptr[..n];
    ghost var l := LastColumn(b, s);
    ghost var u := Indices(inUse, l);
    IndicesInRange(inUse, l);
    EncodingStarts(u, nInUse);
    var yy := new int[256];
    InitLists(yy, mtfFreq, nInUse);
    assert mtfv[..0] == [];
    var wr: nat, zPend: nat, i: nat := 0, 0, 0;
    while i < n
      invariant i <= n && wr + zPend <= i
      invariant Encoding(u, i, yy[..nInUse], zPend, mtfv[..wr], nInUse) && Counts(mtfFreq[..], mtfv[..wr], nInUse + 1)
      modifies mtfv, mtfFreq, yy
    {
      assert wr <= i; // generateMTFValues(1)
      var ll := ReadIndex(ptr, block, n, unseqToSeq, i, inUse, b);
      assert ll < nInUse; // generateMTFValues(2a)
      wr, zPend := EncodeOne(yy, mtfv, mtfFreq, nInUse, ll, wr, zPend, u, i);
      i := i + 1;
    }
    nMTF := FinishMtf(mtfv, mtfFreq, nInUse, wr, zPend, yy[..nInUse], u);
  }

  lemma IndicesInRange(inUse: seq<bool>, l: seq<Byte>)
    requires AllUsed(inUse, l)
    ensures forall i :: 0 <= i < |l| ==> 0 <= Indices(inUse, l)[i] < |UsedList(inUse)|
  {
    forall i | 0 <= i < |l|
      ensures Indices(inUse, l)[i] < |UsedList(inUse)|
    {
      UsedAt(inUse, l[i], |inUse|);
    }
  }
}
