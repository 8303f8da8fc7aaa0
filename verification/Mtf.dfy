/** Move-to-front and the bijective base-2 code of zero runs: the encoder's list and digits. */
module Mtf {
  import opened Bits
  import opened Counting

  function ToFront(l: seq<int>, k: nat): (r: seq<int>)
    requires k < |l|
    ensures |r| == |l|
  {
    [l[k]] + l[..k] + l[k + 1..]
  }

  /** yy[..m] is a list of the numbers below m, each once. */
  ghost predicate Listing(l: seq<int>, m: nat) {
    && |l| == m && (forall i :: 0 <= i < m ==> 0 <= l[i] < m)
    && (forall v :: 0 <= v < m ==> v in l)
  }

  lemma ToFrontKeeps(l: seq<int>, m: nat, k: nat)
    requires Listing(l, m) && k < m
    ensures Listing(ToFront(l, k), m)
  {
    var r := ToFront(l, k);
    forall v | 0 <= v < m
      ensures v in r
    {
      assert v in l;
      var i :| 0 <= i < m && l[i] == v;
      assert r[if i == k then 0 else if i < k then i + 1 else i] == v;
    }
  }

  /** The first position of v. */
  function Find(l: seq<int>, v: int): (k: nat)
    requires v in l
    ensures k < |l| && l[k] == v && v !in l[..k]
  {
    if l[0] == v then 0
    else
      var k := Find(l[1..], v) + 1;
      assert l[..k] == [l[0]] + l[1..][..k - 1];
      k
  }

  /** Shifts the list along while looking for ll, which then goes to the front. */
  method MoveUp(yy: array<int>, m: nat, ll: int) returns (j: nat)
    requires 2 <= m <= yy.Length && ll in yy[..m] && yy[0] != ll
    modifies yy
    ensures j == Find(old(yy[..m]), ll) && 0 < j < m
    ensures yy[..m] == ToFront(old(yy[..m]), j) && yy[m..] == old(yy[m..])
  {
    ghost var was := yy[..];
    var f: nat := Find(yy[..m], ll);
    var rtmp := yy[1];
    yy[1] := yy[0];
    j := 1;
    while ll != rtmp
      invariant 1 <= j <= f && rtmp == was[j]
      invariant forall i {:trigger yy[i]} :: 1 <= i <= j ==> yy[i] == was[i - 1]
      invariant yy[0] == was[0] && forall i {:trigger yy[i]} :: j < i < yy.Length ==> yy[i] == was[i]
      decreases f - j
    {
      assert was[..m][f] == ll;
      j := j + 1;
      var rtmp2 := rtmp;
      rtmp := yy[j];
      yy[j] := rtmp2;
    }
    yy[0] := rtmp;
    assert was[..m][j] == ll;
    assert yy[..m] == ToFront(was[..m], j);
    assert yy[m..] == was[m..];
  }

  // ----- zero runs

  const RUNA := 0
  const RUNB := 1

  function RunDigits(z: nat): (r: seq<int>)
    ensures forall i :: 0 <= i < |r| ==> r[i] in {RUNA, RUNB}
  {
    if z == 0 then [] else [(z - 1) % 2] + RunDigits((z - 1) / 2)
  }

  function RunLength(d: seq<int>): int {
    if d == [] then 0 else d[0] + 1 + 2 * RunLength(d[1..])
  }

  lemma {:induction false} RunRoundTrip(z: nat)
    ensures RunLength(RunDigits(z)) == z
  {
    if z != 0 {
      RunRoundTrip((z - 1) / 2);
    }
  }

  /** A run of z zeros takes k digits exactly if 2^k - 1 <= z < 2^(k+1) - 1, so never more than z. */
  lemma {:induction false} RunDigitCount(z: nat)
    ensures Pow2(|RunDigits(z)|) <= z + 1 < 2 * Pow2(|RunDigits(z)|)
    ensures |RunDigits(z)| <= z
  {
    if z != 0 {
      RunDigitCount((z - 1) / 2);
    }
  }

  /** The frequencies with the given symbols counted in. */
  ghost predicate CountedIn(freq: seq<int>, was: seq<int>, symbols: seq<int>) {
    |freq| == |was| && forall c {:trigger freq[c]} :: 0 <= c < |freq| ==> freq[c] == was[c] + CountOf(symbols, c)
  }

  lemma CountOneMore(freq: seq<int>, was: seq<int>, symbols: seq<int>, c: int)
    requires CountedIn(freq, was, symbols) && 0 <= c < |freq|
    ensures CountedIn(freq[c := freq[c] + 1], was, symbols + [c])
  {
    assert (symbols + [c])[..|symbols|] == symbols;
  }

  /** Behind wr0 the digits have been written. */
  ghost predicate WrittenAt(m: seq<int>, was: seq<int>, wr0: nat, digits: seq<int>) {
    wr0 + |digits| <= |was| && m == was[..wr0] + digits + was[wr0 + |digits|..]
  }

  lemma WriteOneMore(m: seq<int>, was: seq<int>, wr0: nat, digits: seq<int>, x: int)
    requires WrittenAt(m, was, wr0, digits) && wr0 + |digits| < |was|
    ensures wr0 + |digits| < |m| && WrittenAt(m[wr0 + |digits| := x], was, wr0, digits + [x])
  {
  }

  method PutDigit(mtfv: array<int>, mtfFreq: array<int>, wr: nat, digit: int, ghost wr0: nat, ghost digits: seq<int>,
                  ghost was: seq<int>, ghost freq: seq<int>)
    requires mtfv != mtfFreq && wr == wr0 + |digits| < |was| && 0 <= digit < mtfFreq.Length
    requires WrittenAt(mtfv[..], was, wr0, digits) && CountedIn(mtfFreq[..], freq, digits)
    modifies mtfv, mtfFreq
    ensures WrittenAt(mtfv[..], was, wr0, digits + [digit]) && CountedIn(mtfFreq[..], freq, digits + [digit])
  {
    ghost var m, f := mtfv[..], mtfFreq[..];
    WriteOneMore(m, was, wr0, digits, digit);
    CountOneMore(f, freq, digits, digit);
    mtfv[wr] := digit;
    mtfFreq[digit] := mtfFreq[digit] + 1;
    assert mtfv[..] == m[wr := digit] && mtfFreq[..] == f[digit := f[digit] + 1];
  }

  /** The lowest digit, and what is left. */
  lemma DigitFirst(zPend: nat, done: seq<int>)
    ensures RunDigits(zPend + 1) == [if zPend % 2 == 1 then RUNB else RUNA] + RunDigits(if zPend < 2 then 0 else (zPend - 2) / 2 + 1)
    ensures done + RunDigits(zPend + 1)
         == done + [if zPend % 2 == 1 then RUNB else RUNA] + RunDigits(if zPend < 2 then 0 else (zPend - 2) / 2 + 1)
  {
    var x, rest := if zPend % 2 == 1 then RUNB else RUNA, if zPend < 2 then 0 else (zPend - 2) / 2 + 1;
    assert rest == zPend / 2;
    DigitThen(done, x, RunDigits(rest));
  }

  lemma DigitThen(done: seq<int>, x: int, rest: seq<int>)
    ensures done + ([x] + rest) == done + [x] + rest
  {
  }

  /** Writes the digits of a pending run, lowest first. */
  method PutRun(mtfv: array<int>, mtfFreq: array<int>, wr0: nat, zPend0: nat) returns (wr: nat)
    requires mtfv != mtfFreq && wr0 + |RunDigits(zPend0)| <= mtfv.Length && mtfFreq.Length >= 2
    modifies mtfv, mtfFreq
    ensures wr == wr0 + |RunDigits(zPend0)| && WrittenAt(mtfv[..], old(mtfv[..]), wr0, RunDigits(zPend0))
    ensures CountedIn(mtfFreq[..], old(mtfFreq[..]), RunDigits(zPend0))
  {
    wr := wr0;
    ghost var was, freq := mtfv[..], mtfFreq[..];
    ghost var digits: seq<int> := [];
    if zPend0 > 0 {
      var zPend: nat := zPend0 - 1;
      while true
        invariant wr == wr0 + |digits| && digits + RunDigits(zPend + 1) == RunDigits(zPend0)
        invariant WrittenAt(mtfv[..], was, wr0, digits) && CountedIn(mtfFreq[..], freq, digits)
        decreases zPend
      {
        var digit := if zPend % 2 == 1 then RUNB else RUNA;
        DigitFirst(zPend, digits);
        PutDigit(mtfv, mtfFreq, wr, digit, wr0, digits, was, freq);
        wr := wr + 1;
        digits := digits + [digit];
        if zPend < 2 {
          break;
        }
        zPend := (zPend - 2) / 2;
      }
    }
    assert digits + RunDigits(0) == digits;
  }
}
