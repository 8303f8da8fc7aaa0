/** The decoder's symbol loop: zero runs, moves to the front, and the way back to the last column. */
module MtfDecode {
  import opened Counting
  import opened Rotations
  import opened Bits
  import opened Mtf
  import opened MtfWindows
  import opened MtfStage

  const RUN_GUARD := 2 * 1024 * 1024

  datatype Outcome = Done(out: seq<int>) | DataError | MoreSymbols

  /** The byte with a given index. */
  function Byteful(unseq: seq<int>, k: int): int
    requires |unseq| == 256
  {
    if 0 <= k < 256 then unseq[k] else 0
  }

  /** What the symbols mean to a plain list: `run` zeros are pending and the next run digit weighs `weight`. */
  function Dec(syms: seq<int>, l: seq<int>, eob: int, max: nat, unseq: seq<int>, out: seq<int>, run: nat, weight: nat): Outcome
    requires |l| == 256 && |unseq| == 256
    decreases |syms|
  {
    if syms == [] then MoreSymbols
    else
      var s := syms[0];
      if s == RUNA || s == RUNB then
        if weight >= RUN_GUARD then DataError
        else Dec(syms[1..], l, eob, max, unseq, out, run + (s + 1) * weight, 2 * weight)
      else
        var out' := out + Copies(Byteful(unseq, l[0]), run);
        if |out'| > max then DataError
        else if s == eob then Done(out')
        else if s < 2 || s > 256 || |out'| >= max then DataError
        else Dec(syms[1..], ToFront(l, s - 1), eob, max, unseq, out' + [Byteful(unseq, l[s - 1])], 0, 1)
  }

  function Mapped(unseq: seq<int>, u: seq<int>): (r: seq<int>)
    requires |unseq| == 256
  {
    if u == [] then [] else [Byteful(unseq, u[0])] + Mapped(unseq, u[1..])
  }

  ghost predicate ByteList(l: seq<int>) {
    |l| == 256 && forall i :: 0 <= i < 256 ==> 0 <= l[i] < 256
  }

  lemma ToFrontBytes(l: seq<int>, k: nat)
    requires ByteList(l) && k < 256
    ensures ByteList(ToFront(l, k))
  {
  }

  /** The value of run digits, the first of which weighs `weight`. */
  function RunValue(d: seq<int>, weight: nat): int {
    if d == [] then 0 else (d[0] + 1) * weight + RunValue(d[1..], 2 * weight)
  }

  function WeightBehind(d: seq<int>, weight: nat): nat {
    if d == [] then weight else WeightBehind(d[1..], 2 * weight)
  }

  predicate GuardPasses(d: seq<int>, weight: nat) {
    d == [] || (weight < RUN_GUARD && GuardPasses(d[1..], 2 * weight))
  }

  predicate Digits(d: seq<int>) {
    forall i :: 0 <= i < |d| ==> d[i] in {RUNA, RUNB}
  }

  /** Reading run digits adds their value. */
  lemma {:induction false} DecDigits(d: seq<int>, rest: seq<int>, l: seq<int>, eob: int, max: nat, unseq: seq<int>,
                                     out: seq<int>, run: nat, weight: nat)
    requires ByteList(l) && |unseq| == 256 && Digits(d) && GuardPasses(d, weight)
    ensures run + RunValue(d, weight) >= 0
    ensures Dec(d + rest, l, eob, max, unseq, out, run, weight)
         == Dec(rest, l, eob, max, unseq, out, run + RunValue(d, weight), WeightBehind(d, weight))
    decreases |d|
  {
    if d == [] {
      assert d + rest == rest;
    } else {
      assert (d + rest)[1..] == d[1..] + rest && (d + rest)[0] == d[0];
      DecDigits(d[1..], rest, l, eob, max, unseq, out, run + (d[0] + 1) * weight, 2 * weight);
    }
  }

  lemma {:induction false} RunValueOf(z: nat, weight: nat)
    ensures RunValue(RunDigits(z), weight) == z * weight
    decreases z
  {
    if z != 0 {
      var d, z' := (z - 1) % 2, (z - 1) / 2;
      RunValueOf(z', 2 * weight);
      assert RunDigits(z)[1..] == RunDigits(z');
      assert z == d + 1 + 2 * z';
      assert z * weight == (d + 1) * weight + z' * (2 * weight);
    }
  }

  lemma {:induction false} GuardAt(d: seq<int>, e: nat)
    ensures GuardPasses(d, Pow2(e)) <==> d == [] || e + |d| <= 21
    decreases |d|
  {
    Pow2Is21();
    if d != [] {
      GuardAt(d[1..], e + 1);
      if e <= 20 {
        Pow2Grows(e, 20);
        assert Pow2(21) == 2 * Pow2(20);
      } else {
        Pow2Grows(21, e);
      }
    }
  }

  /** The guard lets every run below 2^22 - 1 pass, and no longer one. */
  lemma GuardExact(z: nat)
    ensures GuardPasses(RunDigits(z), 1) <==> z < 2 * RUN_GUARD - 1
  {
    RunDigitCount(z);
    var d := |RunDigits(z)|;
    GuardAt(RunDigits(z), 0);
    Pow2Is21();
    if d <= 21 {
      Pow2Grows(d, 21);
    } else {
      Pow2Grows(22, d);
      assert Pow2(22) == 2 * Pow2(21);
    }
  }

  lemma Pow2Is21()
    ensures Pow2(21) == RUN_GUARD
  {
    assert Pow2(7) == 128;
    Pow2Sum(7, 7);
    Pow2Sum(14, 7);
  }

  /** A whole run is read as its length. */
  lemma DecRun(z: nat, rest: seq<int>, l: seq<int>, eob: int, max: nat, unseq: seq<int>, out: seq<int>) returns (weight: nat)
    requires ByteList(l) && |unseq| == 256 && z < 2 * RUN_GUARD - 1
    ensures Dec(RunDigits(z) + rest, l, eob, max, unseq, out, 0, 1) == Dec(rest, l, eob, max, unseq, out, z, weight)
  {
    weight := WeightBehind(RunDigits(z), 1);
    GuardExact(z);
    RunValueOf(z, 1);
    DecDigits(RunDigits(z), rest, l, eob, max, unseq, out, 0, 1);
  }

  /** A position writes the pending zeros and its byte. */
  lemma DecPosition(s: int, rest: seq<int>, l: seq<int>, eob: int, max: nat, unseq: seq<int>, out: seq<int>, run: nat, weight: nat)
    requires ByteList(l) && |unseq| == 256 && 2 <= s <= 256 && s != eob && |out| + run < max
    ensures Dec([s] + rest, l, eob, max, unseq, out, run, weight)
         == Dec(rest, ToFront(l, s - 1), eob, max, unseq, out + Copies(Byteful(unseq, l[0]), run) + [Byteful(unseq, l[s - 1])], 0, 1)
  {
    assert ([s] + rest)[1..] == rest;
  }

  /** The decoder's list starts with the encoder's list. */
  ghost predicate Extends(l: seq<int>, yy: seq<int>, m: nat) {
    ByteList(l) && 0 < m <= 256 && Listing(yy, m) && l[..m] == yy
  }

  lemma ExtendsMoves(l: seq<int>, yy: seq<int>, m: nat, k: nat)
    requires Extends(l, yy, m) && k < m
    ensures Extends(ToFront(l, k), ToFront(yy, k), m) && l[k] == yy[k]
  {
    assert l[k] == l[..m][k];
    ToFrontKeeps(yy, m, k);
    ToFrontBytes(l, k);
    forall i | 0 <= i < m
      ensures ToFront(l, k)[..m][i] == ToFront(yy, k)[i]
    {
      assert forall x :: 0 <= x < m ==> l[x] == l[..m][x];
    }
  }

  lemma ExtendsIn(l: seq<int>, yy: seq<int>, m: nat, v: int)
    requires Extends(l, yy, m) && 0 <= v < m
    ensures v in yy && l[0] == yy[0] && l[Find(yy, v)] == v && Find(yy, v) < m && (v != yy[0] ==> Find(yy, v) >= 1)
  {
    assert l[..m][0] == l[0];
    assert v in yy;
    assert l[..m][Find(yy, v)] == l[Find(yy, v)];
  }

  lemma DecLast(z: nat, l: seq<int>, eob: int, max: nat, unseq: seq<int>, out: seq<int>)
    requires ByteList(l) && |unseq| == 256 && eob >= 2 && |out| + z <= max && z < 2 * RUN_GUARD - 1
    ensures Dec(RunDigits(z) + [eob], l, eob, max, unseq, out, 0, 1)
         == Done(out + Copies(Byteful(unseq, l[0]), z) + Mapped(unseq, []))
  {
    var weight := DecRun(z, [eob], l, eob, max, unseq, out);
    assert out + Copies(Byteful(unseq, l[0]), z) + [] == out + Copies(Byteful(unseq, l[0]), z);
  }

  /** What decoding gives when z zeros are pending in front of the indices u. */
  ghost predicate Decodes(u: seq<int>, yy: seq<int>, z: nat, l: seq<int>, m: nat, max: nat, unseq: seq<int>, out: seq<int>)
    requires |l| == 256 && |unseq| == 256
  {
    Dec(Enc(u, yy, z) + [m + 1], l, m + 1, max, unseq, out, 0, 1)
    == Done(out + Copies(Byteful(unseq, l[0]), z) + Mapped(unseq, u))
  }

  lemma DecodesZero(u: seq<int>, yy: seq<int>, z: nat, l: seq<int>, m: nat, max: nat, unseq: seq<int>, out: seq<int>)
    requires ByteList(l) && |unseq| == 256 && u != [] && yy != [] && u[0] == yy[0] == l[0] && u[0] in yy
    requires Decodes(u[1..], yy, z + 1, l, m, max, unseq, out)
    ensures Decodes(u, yy, z, l, m, max, unseq, out)
  {
    OneMoreZero(unseq, u, l[0], z, out);
    assert Enc(u, yy, z) == Enc(u[1..], yy, z + 1);
  }

  lemma DecodesMove(u: seq<int>, yy: seq<int>, z: nat, l: seq<int>, m: nat, max: nat, unseq: seq<int>, out: seq<int>, f: nat)
    requires ByteList(l) && |unseq| == 256 && u != [] && u[0] in yy && u[0] != yy[0] && f == Find(yy, u[0])
    requires 1 <= f < 256 && l[f] == u[0] && f != m && |out| + z < max && z < 2 * RUN_GUARD - 1
    requires Decodes(u[1..], ToFront(yy, f), 0, ToFront(l, f), m, max, unseq,
                     out + Copies(Byteful(unseq, l[0]), z) + [Byteful(unseq, l[f])])
    ensures Decodes(u, yy, z, l, m, max, unseq, out)
  {
    EncMoves(u, yy, z, m + 1);
    DecMoveJoin(z, f, Enc(u[1..], ToFront(yy, f), 0) + [m + 1], l, m + 1, max, unseq, out, Mapped(unseq, u[1..]),
                Byteful(unseq, ToFront(l, f)[0]));
  }

  /** Decoding what was encoded, z zeros of which were pending, gives the bytes. */
  lemma {:induction false} DecEnc(u: seq<int>, yy: seq<int>, z: nat, l: seq<int>, m: nat, max: nat, unseq: seq<int>, out: seq<int>)
    requires Extends(l, yy, m) && |unseq| == 256 && forall k :: 0 <= k < |u| ==> 0 <= u[k] < m
    requires |out| + z + |u| <= max && z + |u| < 2 * RUN_GUARD - 1
    ensures Decodes(u, yy, z, l, m, max, unseq, out)
    decreases |u|
  {
    if u == [] {
      DecLast(z, l, m + 1, max, unseq, out);
    } else {
      ExtendsIn(l, yy, m, u[0]);
      if u[0] == yy[0] {
        DecEnc(u[1..], yy, z + 1, l, m, max, unseq, out);
        DecodesZero(u, yy, z, l, m, max, unseq, out);
      } else {
        var f := Find(yy, u[0]);
        ExtendsMoves(l, yy, m, f);
        DecEnc(u[1..], ToFront(yy, f), 0, ToFront(l, f), m, max, unseq,
               out + Copies(Byteful(unseq, l[0]), z) + [Byteful(unseq, l[f])]);
        DecodesMove(u, yy, z, l, m, max, unseq, out, f);
      }
    }
  }

  lemma OneMoreZero(unseq: seq<int>, u: seq<int>, c: int, z: nat, out: seq<int>)
    requires |unseq| == 256 && u != [] && u[0] == c && 0 <= c < 256
    ensures out + Copies(Byteful(unseq, c), z + 1) + Mapped(unseq, u[1..]) == out + Copies(Byteful(unseq, c), z) + Mapped(unseq, u)
  {
    ZeroJoins(unseq, u, c, z);
    Assoc(out, Copies(Byteful(unseq, c), z + 1), Mapped(unseq, u[1..]));
    Assoc(out, Copies(Byteful(unseq, c), z), Mapped(unseq, u));
  }

  lemma Assoc(a: seq<int>, b: seq<int>, c: seq<int>)
    ensures (a + b) + c == a + (b + c)
  {
  }

  lemma ZeroJoins(unseq: seq<int>, u: seq<int>, c: int, z: nat)
    requires |unseq| == 256 && u != [] && u[0] == c && 0 <= c < 256
    ensures Copies(Byteful(unseq, c), z + 1) + Mapped(unseq, u[1..]) == Copies(Byteful(unseq, c), z) + Mapped(unseq, u)
  {
    assert Copies(Byteful(unseq, c), z) + [Byteful(unseq, c)] + Mapped(unseq, u[1..]) == Copies(Byteful(unseq, c), z) + ([Byteful(unseq, c)] + Mapped(unseq, u[1..]));
  }

  /** The pending run and then a position. */
  lemma DecRunMove(z: nat, f: nat, rest: seq<int>, l: seq<int>, eob: int, max: nat, unseq: seq<int>, out: seq<int>)
    requires ByteList(l) && |unseq| == 256 && 1 <= f < 256 && f + 1 != eob && |out| + z < max && z < 2 * RUN_GUARD - 1
    ensures Dec(RunDigits(z) + [f + 1] + rest, l, eob, max, unseq, out, 0, 1)
         == Dec(rest, ToFront(l, f), eob, max, unseq, out + Copies(Byteful(unseq, l[0]), z) + [Byteful(unseq, l[f])], 0, 1)
  {
    assert RunDigits(z) + [f + 1] + rest == RunDigits(z) + ([f + 1] + rest);
    var weight := DecRun(z, [f + 1] + rest, l, eob, max, unseq, out);
    DecPosition(f + 1, rest, l, eob, max, unseq, out, z, weight);
  }

  lemma EncMoves(u: seq<int>, yy: seq<int>, z: nat, eob: int)
    requires u != [] && u[0] in yy && u[0] != yy[0]
    ensures var f := Find(yy, u[0]);
      Enc(u, yy, z) + [eob] == RunDigits(z) + [f + 1] + (Enc(u[1..], ToFront(yy, f), 0) + [eob])
  {
    var f := Find(yy, u[0]);
    assert yy != [];
    assert Enc(u, yy, z) == RunDigits(z) + [f + 1] + Enc(u[1..], ToFront(yy, f), 0);
    Assoc(RunDigits(z) + [f + 1], Enc(u[1..], ToFront(yy, f), 0), [eob]);
  }

  /** The pending run and a position in front of symbols that are understood already. */
  lemma DecMoveJoin(z: nat, f: nat, syms: seq<int>, l: seq<int>, eob: int, max: nat, unseq: seq<int>, out: seq<int>,
                    rest: seq<int>, x: int)
    requires ByteList(l) && |unseq| == 256 && 1 <= f < 256 && f + 1 != eob && |out| + z < max && z < 2 * RUN_GUARD - 1
    requires var out' := out + Copies(Byteful(unseq, l[0]), z) + [Byteful(unseq, l[f])];
      Dec(syms, ToFront(l, f), eob, max, unseq, out', 0, 1) == Done(out' + Copies(x, 0) + rest)
    ensures Dec(RunDigits(z) + [f + 1] + syms, l, eob, max, unseq, out, 0, 1)
         == Done(out + Copies(Byteful(unseq, l[0]), z) + ([Byteful(unseq, l[f])] + rest))
  {
    DecRunMove(z, f, syms, l, eob, max, unseq, out);
    JoinOut(out + Copies(Byteful(unseq, l[0]), z), Byteful(unseq, l[f]), rest, x);
  }

  lemma JoinOut(out: seq<int>, c: int, rest: seq<int>, z: int)
    ensures out + [c] + Copies(z, 0) + rest == out + ([c] + rest)
  {
  }

  // ----- the decoder's loop

  /** What the loop has established: the symbols left mean from here what all symbols meant at the start. */
  ghost predicate Decoding(syms: seq<int>, p: nat, mtfa: seq<int>, mtfbase: seq<int>, eob: int, max: nat, unseq: seq<int>,
                           out: seq<int>, run: int, weight: nat)
  {
    && |unseq| == 256 && |mtfa| == MTFA_SIZE && Windows(mtfbase) && Fits(mtfa, mtfbase) && ByteList(List(mtfa, mtfbase))
    && p <= |syms| && run >= 0 && |out| <= max
    && Dec(syms, Upto(256), eob, max, unseq, [], 0, 1)
       == Dec(syms[p..], List(mtfa, mtfbase), eob, max, unseq, out, run, weight)
  }

  ghost predicate Tallied(unzftab: seq<int>, out: seq<int>) {
    |unzftab| == 256 && forall c :: 0 <= c < 256 ==> unzftab[c] == CountOf(out, c)
  }

  ghost predicate Bytes(unseq: seq<int>) {
    |unseq| == 256 && forall i :: 0 <= i < 256 ==> 0 <= unseq[i] < 256
  }

  /** Appends es copies of a byte unless the block would grow too long. */
  method PutCopies(tt: array<int>, nblock0: nat, uc: int, es0: nat, max: nat) returns (ok: bool, nblock: nat)
    requires nblock0 <= max <= tt.Length
    modifies tt
    ensures ok <==> nblock0 + es0 <= max
    ensures ok ==> nblock == nblock0 + es0 && tt[..nblock] == old(tt[..nblock0]) + Copies(uc, es0)
  {
    nblock, ok := nblock0, true;
    var es := es0;
    while es > 0
      invariant 0 <= es <= es0 && nblock == nblock0 + (es0 - es) <= max
      invariant tt[..nblock] == old(tt[..nblock0]) + Copies(uc, es0 - es)
    {
      if nblock >= max {
        return false, nblock;
      }
      tt[nblock] := uc;
      nblock := nblock + 1;
      es := es - 1;
      assert tt[..nblock] == tt[..nblock - 1] + [uc];
    }
  }

  lemma {:induction false} CountCopies(c: int, k: nat, d: int)
    ensures CountOf(Copies(c, k), d) == if d == c then k else 0
  {
    if k != 0 {
      CountCopies(c, k - 1, d);
      assert Copies(c, k)[..k - 1] == Copies(c, k - 1);
    }
  }

  lemma TallyCopies(unzftab: seq<int>, out: seq<int>, uc: int, es: nat)
    requires Tallied(unzftab, out) && 0 <= uc < 256
    ensures Tallied(unzftab[uc := unzftab[uc] + es], out + Copies(uc, es))
  {
    forall c | 0 <= c < 256
      ensures unzftab[uc := unzftab[uc] + es][c] == CountOf(out + Copies(uc, es), c)
    {
      CountAppend(out, Copies(uc, es), c);
      CountCopies(uc, es, c);
    }
  }

  /** How the loop goes on or ends: BZ_OK while waiting for symbols, BZ_DATA_ERROR, or all read. */
  datatype Status = Ok | Bad | Waiting

  ghost predicate Agrees(code: Status, o: Outcome) {
    match code
    case Ok => true
    case Bad => o == DataError
    case Waiting => o == MoreSymbols
  }

  /** One run digit. */
  lemma DecDigit(syms: seq<int>, p: nat, l: seq<int>, eob: int, max: nat, unseq: seq<int>, out: seq<int>, run: nat, weight: nat)
    requires ByteList(l) && |unseq| == 256 && p < |syms| && syms[p] in {RUNA, RUNB}
    ensures run + (syms[p] + 1) * weight >= 0
    ensures Dec(syms[p..], l, eob, max, unseq, out, run, weight)
         == if weight >= RUN_GUARD then DataError
            else if p + 1 == |syms| then MoreSymbols
            else Dec(syms[p + 1..], l, eob, max, unseq, out, run + (syms[p] + 1) * weight, 2 * weight)
  {
    assert syms[p..][1..] == syms[p + 1..] && syms[p..][0] == syms[p];
    assert p + 1 == |syms| ==> syms[p + 1..] == [];
  }

  /** The inner loop: reads run digits until another symbol comes. */
  method ReadRun(syms: seq<int>, p0: nat, ghost mtfa: seq<int>, ghost mtfbase: seq<int>, ghost eob: int, ghost max: nat,
                 ghost unseq: seq<int>, ghost out: seq<int>)
    returns (code: Status, p: nat, es: int, ghost weight: nat)
    requires Decoding(syms, p0, mtfa, mtfbase, eob, max, unseq, out, 0, 1) && p0 < |syms| && syms[p0] in {RUNA, RUNB}
    ensures code == Ok ==> Decoding(syms, p, mtfa, mtfbase, eob, max, unseq, out, es, weight) && p0 < p < |syms|
    ensures code == Ok ==> syms[p] !in {RUNA, RUNB}
    ensures Agrees(code, Dec(syms, Upto(256), eob, max, unseq, [], 0, 1))
  {
    p, es, weight := p0, -1, 1;
    var N: nat := 1;
    while true
      invariant p0 <= p < |syms| && syms[p] in {RUNA, RUNB} && weight == N && (p0 < p || es == -1)
      invariant Decoding(syms, p, mtfa, mtfbase, eob, max, unseq, out, es + 1, weight)
      decreases |syms| - p
    {
      DecDigit(syms, p, List(mtfa, mtfbase), eob, max, unseq, out, es + 1, weight);
      if N >= RUN_GUARD {
        return Bad, p, es, weight;
      }
      es := es + (syms[p] + 1) * N;
      N, weight := N * 2, 2 * weight;
      p := p + 1;
      if p == |syms| {
        return Waiting, p, es, weight;
      }
      if !(syms[p] == RUNA || syms[p] == RUNB) {
        break;
      }
    }
    es := es + 1;
    code := Ok;
  }

  /** Writing out the pending zeros changes nothing about what the rest means. */
  lemma DecFlush(syms: seq<int>, l: seq<int>, eob: int, max: nat, unseq: seq<int>, out: seq<int>, run: nat, weight: nat)
    requires ByteList(l) && |unseq| == 256 && syms != [] && syms[0] !in {RUNA, RUNB}
    ensures |out| + run <= max ==>
              Dec(syms, l, eob, max, unseq, out, run, weight) == Dec(syms, l, eob, max, unseq, out + Copies(unseq[l[0]], run), 0, 1)
    ensures |out| + run > max ==> Dec(syms, l, eob, max, unseq, out, run, weight) == DataError
  {
    var out' := out + Copies(unseq[l[0]], run);
    assert out' + Copies(unseq[l[0]], 0) == out';
  }

  /** A zero run: its length is read, and the byte at the front of the list is repeated. */
  method DoRun(syms: seq<int>, p0: nat, nblock0: nat, eob: int, max: nat, seqToUnseq: seq<int>,
               mtfa: array<int>, mtfbase: array<int>, tt: array<int>, unzftab: array<int>)
    returns (code: Status, p: nat, nblock: nat)
    requires tt !in {mtfa, mtfbase, unzftab} && unzftab !in {mtfa, mtfbase} && nblock0 <= max <= tt.Length && Bytes(seqToUnseq)
    requires Decoding(syms, p0, mtfa[..], mtfbase[..], eob, max, seqToUnseq, tt[..nblock0], 0, 1)
    requires p0 < |syms| && syms[p0] in {RUNA, RUNB} && Tallied(unzftab[..], tt[..nblock0])
    modifies tt, unzftab
    ensures code == Ok ==> nblock <= max && p0 < p < |syms| && Tallied(unzftab[..], tt[..nblock])
    ensures code == Ok ==> Decoding(syms, p, mtfa[..], mtfbase[..], eob, max, seqToUnseq, tt[..nblock], 0, 1)
    ensures Agrees(code, Dec(syms, Upto(256), eob, max, seqToUnseq, [], 0, 1))
  {
    ghost var out, l, tally := tt[..nblock0], List(mtfa[..], mtfbase[..]), unzftab[..];
    ghost var weight;
    var es;
    nblock := nblock0;
    code, p, es, weight := ReadRun(syms, p0, mtfa[..], mtfbase[..], eob, max, seqToUnseq, out);
    if code != Ok {
      return;
    }
    DecFlush(syms[p..], l, eob, max, seqToUnseq, out, es, weight);
    assert l[0] == mtfa[mtfbase[0]];
    var uc := seqToUnseq[mtfa[mtfbase[0]]];
    TallyCopies(tally, out, uc, es);
    unzftab[uc] := unzftab[uc] + es;
    assert unzftab[..] == tally[uc := tally[uc] + es];
    var ok;
    ok, nblock := PutCopies(tt, nblock0, uc, es, max);
    if !ok {
      code := Bad;
    }
  }

  /** A position: the byte is found in the list, moved to its front and written. */
  method DoPosition(syms: seq<int>, p: nat, nblock: nat, eob: int, max: nat, seqToUnseq: seq<int>,
                    mtfa: array<int>, mtfbase: array<int>, tt: array<int>, unzftab: array<int>)
    requires tt !in {mtfa, mtfbase, unzftab} && unzftab !in {mtfa, mtfbase} && mtfa != mtfbase
    requires nblock < max <= tt.Length && Bytes(seqToUnseq) && p < |syms| && 2 <= syms[p] <= 256 && syms[p] != eob
    requires Decoding(syms, p, mtfa[..], mtfbase[..], eob, max, seqToUnseq, tt[..nblock], 0, 1)
    requires Tallied(unzftab[..], tt[..nblock])
    modifies mtfa, mtfbase, tt, unzftab
    ensures Decoding(syms, p + 1, mtfa[..], mtfbase[..], eob, max, seqToUnseq, tt[..nblock + 1], 0, 1)
    ensures Tallied(unzftab[..], tt[..nblock + 1])
  {
    ghost var out, l, tally := tt[..nblock], List(mtfa[..], mtfbase[..]), unzftab[..];
    var nn := syms[p] - 1;
    DecPosition(syms[p], syms[p + 1..], l, eob, max, seqToUnseq, out, 0, 1);
    assert [syms[p]] + syms[p + 1..] == syms[p..];
    assert out + Copies(seqToUnseq[l[0]], 0) == out;
    ToFrontBytes(l, nn);
    var uc := Move(mtfa, mtfbase, nn);
    var c := seqToUnseq[uc];
    unzftab[c] := unzftab[c] + 1;
    tt[nblock] := c;
    TallyOne(tally, out, c);
    assert unzftab[..] == tally[c := tally[c] + 1];
    assert tt[..nblock + 1] == out + [c];
  }

  lemma TallyOne(unzftab: seq<int>, out: seq<int>, c: int)
    requires Tallied(unzftab, out) && 0 <= c < 256
    ensures Tallied(unzftab[c := unzftab[c] + 1], out + [c])
  {
    assert (out + [c])[..|out|] == out;
  }

  lemma DecEnds(syms: seq<int>, l: seq<int>, eob: int, max: nat, unseq: seq<int>, out: seq<int>)
    requires ByteList(l) && |unseq| == 256 && |out| <= max && eob >= 2
    ensures syms == [] ==> Dec(syms, l, eob, max, unseq, out, 0, 1) == MoreSymbols
    ensures syms != [] && syms[0] == eob ==> Dec(syms, l, eob, max, unseq, out, 0, 1) == Done(out)
    ensures syms != [] && 2 <= syms[0] != eob && |out| == max ==> Dec(syms, l, eob, max, unseq, out, 0, 1) == DataError
  {
    assert out + Copies(unseq[l[0]], 0) == out;
  }

  /** Reads symbols up to the end mark: for every sequence of symbols the outcome is that of the plain list,
      and the bytes are counted as they are written. */
  method DecodeValues(syms: seq<int>, eob: int, max: nat, seqToUnseq: seq<int>, tt: array<int>, unzftab: array<int>)
    returns (code: Status, nblock: nat)
    requires tt != unzftab && max <= tt.Length && unzftab.Length == 256 && Bytes(seqToUnseq)
    requires 2 <= eob <= 257 && forall i :: 0 <= i < |syms| ==> 0 <= syms[i] <= eob
    modifies tt, unzftab
    ensures code == Ok ==> nblock <= max && Tallied(unzftab[..], tt[..nblock])
    ensures code == Ok ==> Dec(syms, Upto(256), eob, max, seqToUnseq, [], 0, 1) == Done(tt[..nblock])
    ensures Agrees(code, Dec(syms, Upto(256), eob, max, seqToUnseq, [], 0, 1))
  {
    for i := 0 to 256
      invariant forall c :: 0 <= c < i ==> unzftab[c] == 0
    {
      unzftab[i] := 0;
    }
    var mtfa, mtfbase := new int[MTFA_SIZE], new int[ROWS];
    Init(mtfa, mtfbase);
    assert List(mtfa[..], mtfbase[..]) == Upto(256);
    var p: nat;
    nblock, p := 0, 0;
    assert syms[0..] == syms && tt[..0] == [];
    while true
      invariant p <= |syms| && nblock <= max && Tallied(unzftab[..], tt[..nblock])
      invariant Decoding(syms, p, mtfa[..], mtfbase[..], eob, max, seqToUnseq, tt[..nblock], 0, 1)
      decreases |syms| - p
    {
      DecEnds(syms[p..], List(mtfa[..], mtfbase[..]), eob, max, seqToUnseq, tt[..nblock]);
      if p == |syms| {
        return Waiting, nblock;
      }
      var nextSym := syms[p];
      assert nextSym == syms[p..][0];
      if nextSym == eob {
        break;
      }
      if nextSym == RUNA || nextSym == RUNB {
        code, p, nblock := DoRun(syms, p, nblock, eob, max, seqToUnseq, mtfa, mtfbase, tt, unzftab);
        if code != Ok {
          return;
        }
      } else {
        if nblock >= max {
          return Bad, nblock;
        }
        DoPosition(syms, p, nblock, eob, max, seqToUnseq, mtfa, mtfbase, tt, unzftab);
        nblock, p := nblock + 1, p + 1;
      }
    }
    code := Ok;
  }

  // ----- there and back

  lemma {:induction false} UnmapsIndices(inUse: seq<bool>, l: seq<Byte>, unseq: seq<int>)
    requires AllUsed(inUse, l) && |unseq| == 256
    requires forall i :: 0 <= i < |UsedList(inUse)| ==> unseq[i] == UsedList(inUse)[i]
    ensures Mapped(unseq, Indices(inUse, l)) == l
  {
    if l != [] {
      UnmapsIndices(inUse, l[1..], unseq);
      assert Indices(inUse, l)[1..] == Indices(inUse, l[1..]);
      UsedAt(inUse, l[0], |inUse|);
    }
  }

  lemma Unmaps(inUse: seq<bool>, l: seq<Byte>, unseq: seq<int>)
    requires AllUsed(inUse, l) && |unseq| == 256
    requires unseq[..|UsedList(inUse)|] == UsedList(inUse)
    ensures Mapped(unseq, Indices(inUse, l)) == l
  {
    var m := |UsedList(inUse)|;
    assert forall i :: 0 <= i < m ==> unseq[i] == unseq[..m][i];
    UnmapsIndices(inUse, l, unseq);
  }

  lemma UptoExtends(m: nat)
    requires 0 < m <= 256
    ensures Extends(Upto(256), Upto(m), m)
  {
    EncodingStarts([], m);
    assert Upto(256)[..m] == Upto(m);
  }

  /** What generateMTFValues writes for a last column is decoded to that last column. */
  lemma StageRoundTrip(inUse: seq<bool>, l: seq<Byte>, unseq: seq<int>, max: nat)
    requires AllUsed(inUse, l) && |l| <= max && |l| < 2 * RUN_GUARD - 1 && |unseq| == 256 && l != []
    requires unseq[..|UsedList(inUse)|] == UsedList(inUse)
    ensures var m := |UsedList(inUse)|;
      Dec(Enc(Indices(inUse, l), Upto(m), 0) + [m + 1], Upto(256), m + 1, max, unseq, [], 0, 1) == Done(l)
  {
    var m, u := |UsedList(inUse)|, Indices(inUse, l);
    IndicesInRange(inUse, l);
    assert 0 <= u[0] < m <= 256;
    UptoExtends(m);
    Unmaps(inUse, l, unseq);
    DecEnc(u, Upto(m), 0, Upto(256), m, max, unseq, []);
    NoneInFront(Byteful(unseq, Upto(256)[0]), Mapped(unseq, u));
  }

  lemma NoneInFront(c: int, s: seq<int>)
    ensures [] + Copies(c, 0) + s == s
  {
  }
}
