/** The 7z range coder of PPMd7: a carry-propagating encoder and its decoder, both against one arithmetic of intervals. */
module RangeCoder {
  import opened Counting

  const TOP := 0x100_0000
  const WORD := 0x1_0000_0000
  const BIN_SCALE := 0x4000

  // ----- numbers in base 256

  function Pow256(k: nat): (p: nat)
    ensures p >= 1
  {
    if k == 0 then 1 else 256 * Pow256(k - 1)
  }

  ghost predicate AllBytes(s: seq<int>) {
    forall i :: 0 <= i < |s| ==> 0 <= s[i] < 256
  }

  function Num(s: seq<int>): int {
    if s == [] then 0 else 256 * Num(s[..|s| - 1]) + s[|s| - 1]
  }

  lemma {:induction false} NumBound(s: seq<int>)
    requires AllBytes(s)
    ensures 0 <= Num(s) < Pow256(|s|)
  {
    if s != [] {
      NumBound(s[..|s| - 1]);
    }
  }

  lemma {:induction false} NumAppend(s: seq<int>, t: seq<int>)
    ensures Num(s + t) == Num(s) * Pow256(|t|) + Num(t)
  {
    if t == [] {
      assert s + t == s;
    } else {
      var k := |t| - 1;
      NumAppend(s, t[..k]);
      assert (s + t)[..|s + t| - 1] == s + t[..k];
      assert 256 * (Num(s) * Pow256(k)) == Num(s) * (256 * Pow256(k));
    }
  }

  lemma {:induction false} PowSum(j: nat, k: nat)
    ensures Pow256(j + k) == Pow256(j) * Pow256(k)
    decreases k
  {
    if k != 0 {
      PowSum(j, k - 1);
      assert 256 * (Pow256(j) * Pow256(k - 1)) == Pow256(j) * (256 * Pow256(k - 1));
    }
  }

  // ----- intervals

  /** The interval [low, low + range) in units of the digit reached after `digits` digits and four more bytes. */
  datatype Interval = Interval(low: int, range: int, digits: nat)

  datatype Step = Symbol(start: int, size: int, total: int) | Bit(size0: int, one: bool)

  ghost predicate Legal(s: Step) {
    match s
    case Symbol(start, size, total) => 0 <= start && 0 < size && start + size <= total <= TOP
    case Bit(size0, _) => 0 < size0 < BIN_SCALE
  }

  ghost predicate Normal(e: Interval) {
    e.low >= 0 && TOP <= e.range < WORD
  }

  /** The part of the interval that a step chooses. */
  function Part(e: Interval, s: Step): Interval {
    match s
    case Symbol(start, size, total) =>
      var r := if total > 0 then e.range / total else 0;
      Interval(e.low + start * r, r * size, e.digits)
    case Bit(size0, one) =>
      var bound := e.range / BIN_SCALE * size0;
      if one then Interval(e.low + bound, e.range - bound, e.digits) else Interval(e.low, bound, e.digits)
  }

  /** Digits are shifted out until the range is large enough again. */
  function Normalize(e: Interval): Interval
    decreases TOP - e.range
  {
    if 0 < e.range < TOP then Normalize(Interval(256 * e.low, 256 * e.range, e.digits + 1)) else e
  }

  function Apply(e: Interval, s: Step): Interval {
    Normalize(Part(e, s))
  }

  function ApplyAll(e: Interval, steps: seq<Step>): Interval
    decreases |steps|
  {
    if steps == [] then e else ApplyAll(Apply(e, steps[0]), steps[1..])
  }

  ghost predicate AllLegal(steps: seq<Step>) {
    forall i :: 0 <= i < |steps| ==> Legal(steps[i])
  }

  lemma Division(a: int, b: int)
    requires a >= 0 && b > 0
    ensures a / b * b <= a < a / b * b + b
  {
  }

  lemma MulMono(a: int, b: int, c: int)
    requires a <= b && c >= 0
    ensures a * c <= b * c
  {
  }

  lemma SymbolInside(range: int, start: int, size: int, total: int)
    requires TOP <= range < WORD && 0 <= start && 0 < size && start + size <= total <= TOP
    ensures var r := range / total; r >= 1 && start * r >= 0 && r * size > 0 && start * r + r * size <= range
  {
    var r := range / total;
    Division(range, total);
    if r <= 0 {
      MulMono(r, 0, total);
    }
    MulMono(start + size, total, r);
    assert (start + size) * r == start * r + r * size;
    MulMono(1, size, r);
    MulMono(0, start, r);
  }

  lemma BitInside(range: int, size0: int)
    requires TOP <= range < WORD && 0 < size0 < BIN_SCALE
    ensures 0 < range / BIN_SCALE * size0 < range
  {
    var q := range / BIN_SCALE;
    Division(range, BIN_SCALE);
    MulMono(size0 + 1, BIN_SCALE, q);
    MulMono(1, size0, q);
    assert (size0 + 1) * q == q * size0 + q;
  }

  /** A step chooses a non-empty part of the interval. */
  lemma PartInside(e: Interval, s: Step)
    requires Normal(e) && Legal(s)
    ensures e.low <= Part(e, s).low && 0 < Part(e, s).range && Part(e, s).low + Part(e, s).range <= e.low + e.range
    ensures Part(e, s).digits == e.digits
  {
    match s
    case Symbol(start, size, total) => SymbolInside(e.range, start, size, total);
    case Bit(size0, _) => BitInside(e.range, size0);
  }

  /** Interval d lies within e, once e is brought to the same number of digits. */
  ghost predicate Within(d: Interval, e: Interval) {
    && d.digits >= e.digits
    && e.low * Pow256(d.digits - e.digits) <= d.low
    && d.low + d.range <= (e.low + e.range) * Pow256(d.digits - e.digits)
  }

  lemma ScaleLow(a: int, b: int, c: int, q: int, p: int)
    requires a * q <= b && b * p <= c && p >= 0
    ensures a * (q * p) <= c
  {
    MulMono(a * q, b, p);
    assert a * q * p == a * (q * p);
  }

  lemma ScaleHigh(a: int, b: int, c: int, q: int, p: int)
    requires b <= a * q && c <= b * p && p >= 0
    ensures c <= a * (q * p)
  {
    MulMono(b, a * q, p);
    assert a * q * p == a * (q * p);
  }

  lemma WithinTrans(c: Interval, d: Interval, e: Interval)
    requires Within(c, d) && Within(d, e)
    ensures Within(c, e)
  {
    var p, q := Pow256(c.digits - d.digits), Pow256(d.digits - e.digits);
    PowSum(d.digits - e.digits, c.digits - d.digits);
    ScaleLow(e.low, d.low, c.low, q, p);
    ScaleHigh(e.low + e.range, d.low + d.range, c.low + c.range, q, p);
  }

  lemma {:induction false} NormalizeWithin(e: Interval)
    requires e.low >= 0 && 0 < e.range < WORD
    ensures Normal(Normalize(e)) && Within(Normalize(e), e)
    decreases TOP - e.range
  {
    if e.range < TOP {
      var f := Interval(256 * e.low, 256 * e.range, e.digits + 1);
      NormalizeWithin(f);
      assert Pow256(0) == 1 && Pow256(1) == 256;
      WithinTrans(Normalize(e), f, e);
    } else {
      assert Pow256(0) == 1;
    }
  }

  lemma ApplyWithin(e: Interval, s: Step)
    requires Normal(e) && Legal(s)
    ensures Normal(Apply(e, s)) && Within(Apply(e, s), Part(e, s)) && Within(Part(e, s), e) && Within(Apply(e, s), e)
  {
    PartInside(e, s);
    NormalizeWithin(Part(e, s));
    assert Pow256(0) == 1;
    WithinTrans(Apply(e, s), Part(e, s), e);
  }

  lemma {:induction false} AllWithin(e: Interval, steps: seq<Step>)
    requires Normal(e) && AllLegal(steps)
    ensures Normal(ApplyAll(e, steps)) && Within(ApplyAll(e, steps), e)
    decreases |steps|
  {
    if steps == [] {
      assert Pow256(0) == 1;
    } else {
      ApplyWithin(e, steps[0]);
      AllWithin(Apply(e, steps[0]), steps[1..]);
      WithinTrans(ApplyAll(e, steps), Apply(e, steps[0]), e);
    }
  }

  const FIRST := Interval(0, 0xFFFF_FFFF, 1)

  // ----- the encoder

  lemma {:induction false} CarryNum(s: seq<int>, c: int, k: nat)
    ensures Num(s + [c] + Copies(255, k)) + 1 == Num(s + [c + 1] + Copies(0, k))
  {
    var u, v := s + [c] + Copies(255, k), s + [c + 1] + Copies(0, k);
    if k == 0 {
      assert u[..|u| - 1] == s == v[..|v| - 1];
    } else {
      CarryNum(s, c, k - 1);
      assert u[..|u| - 1] == s + [c] + Copies(255, k - 1) && v[..|v| - 1] == s + [c + 1] + Copies(0, k - 1);
    }
  }

  /** Low may carry at most once into the digits that are held back, and not at all when they are all 255. */
  ghost predicate Room(low: int, span: int, cache: int) {
    0 <= low && 0 < span && low + span <= 2 * WORD && (cache == 255 ==> low + span <= WORD)
  }

  /** The digits held back after Low has been shifted, and that nothing is lost. */
  lemma ShiftRoom(low: int, span: int, cache: int)
    requires Room(low, span, cache) && span < TOP
    ensures var c, l := low % WORD / TOP, low % TOP * 256;
      && 0 <= c < 256 && (low >= WORD ==> cache != 255) && low < 2 * WORD
      && (low >= WORD || c < 255 ==> Room(l, 256 * span, c))
      && (low < WORD && c == 255 ==> Room(l, 256 * span, cache))
      && 256 * low == 256 * (low / WORD) * WORD + c * WORD + l
  {
    Division(low, WORD);
    var m := low % WORD;
    assert m == m / TOP * TOP + m % TOP && m % TOP == low % TOP;
  }

  /** The first i digits held back, with the carry. */
  function Settled(s: seq<int>, c: int, carry: int, i: nat): seq<int> {
    if i == 0 then s else Settled(s, c, carry, i - 1) + [((if i == 1 then c else 0xFF) + carry) % 256]
  }

  lemma {:induction false} SettledIs(s: seq<int>, c: int, carry: int, k: nat)
    requires 0 <= c < 256 && 0 <= carry < 2 && (carry == 1 ==> c != 255)
    ensures Settled(s, c, carry, k + 1) == s + [c + carry] + Copies((0xFF + carry) % 256, k)
  {
    if k == 0 {
      assert Settled(s, c, carry, 1) == Settled(s, c, carry, 0) + [c + carry];
      assert s + [c + carry] + [] == s + [c + carry];
    } else {
      SettledIs(s, c, carry, k - 1);
      var x := (0xFF + carry) % 256;
      assert s + [c + carry] + Copies(x, k - 1) + [x] == s + [c + carry] + (Copies(x, k - 1) + [x]);
    }
  }

  /** With the carry, the digits held back spell a number one higher. */
  lemma SettledNum(s: seq<int>, c: int, carry: int, k: nat)
    requires 0 <= c < 256 && 0 <= carry < 2 && (carry == 1 ==> c != 255)
    ensures var u := Settled(s, c, carry, k + 1);
      Num(u) == Num(s + [c] + Copies(255, k)) + carry && |u| == |s + [c] + Copies(255, k)|
  {
    SettledIs(s, c, carry, k);
    if carry == 1 {
      Carried(Settled(s, c, carry, k + 1), s, c, k);
    }
  }

  lemma Carried(u: seq<int>, s: seq<int>, c: int, k: nat)
    requires u == s + [c + 1] + Copies(0, k)
    ensures Num(u) == Num(s + [c] + Copies(255, k)) + 1 && |u| == |s + [c] + Copies(255, k)|
  {
    CarryNum(s, c, k);
  }

  class RangeEnc {
    var Low: nat
    var Range: nat
    var Cache: nat
    var CacheSize: nat
    /** The bytes written to the stream. */
    var out: seq<int>

    /** All digits decided so far, up to one carry: those written and those held back. */
    ghost function Digits(): seq<int>
      reads `out, `Cache, `CacheSize
    {
      out + [Cache] + Copies(255, if CacheSize > 0 then CacheSize - 1 else 0)
    }

    ghost function Value(): int
      reads `out, `Cache, `CacheSize, `Low
    {
      Num(Digits()) * WORD + Low
    }

    ghost function Abs(): Interval
      reads `out, `Cache, `CacheSize, `Low, `Range
    {
      Interval(Value(), Range, |Digits()|)
    }

    ghost predicate Held()
      reads `out, `Cache, `CacheSize
    {
      AllBytes(out) && Cache < 256 && CacheSize >= 1
    }

    ghost predicate Valid()
      reads this
    {
      Held() && Room(Low, Range, Cache) && Normal(Abs())
    }

    constructor ()
      ensures Valid() && Abs() == FIRST && out == []
    {
      Low, Range, Cache, CacheSize, out := 0, 0xFFFF_FFFF, 0, 1, [];
      new;
      assert Digits() == [0] && [0][..0] == [];
    }

    method Write(c: nat)
      requires c < 256 && AllBytes(out)
      modifies `out
      ensures out == old(out) + [c] && AllBytes(out)
    {
      out := out + [c];
    }

    /** Writes the digits held back, plus the carry. */
    method WriteHeld(carry: nat)
      requires Held() && carry < 2 && (carry == 1 ==> Cache != 255)
      modifies `out, `CacheSize
      ensures AllBytes(out) && CacheSize == 0 && Num(out) == Num(old(Digits())) + carry && |out| == |old(Digits())|
    {
      SettledNum(out, Cache, carry, CacheSize - 1);
      WriteDigits(carry);
    }

    method WriteDigits(carry: nat)
      requires Held() && carry < 2
      modifies `out, `CacheSize
      ensures AllBytes(out) && CacheSize == 0 && out == Settled(old(out), Cache, carry, old(CacheSize))
    {
      var temp := Cache;
      ghost var i: nat := 0;
      while true
        invariant CacheSize == old(CacheSize) - i && i < old(CacheSize) && AllBytes(out)
        invariant temp == (if i == 0 then Cache else 0xFF) && out == Settled(old(out), Cache, carry, i)
        decreases CacheSize
      {
        Write((temp + carry) % 256);
        temp := 0xFF;
        CacheSize := CacheSize - 1;
        i := i + 1;
        if CacheSize == 0 {
          break;
        }
      }
    }

    /** RangeEnc_ShiftLow: one more digit is decided, or held back because a carry may still run through it. */
    method ShiftLow(ghost span: nat)
      requires Held() && Room(Low, span, Cache) && span < TOP
      modifies `Low, `Cache, `CacheSize, `out
      ensures Held() && Room(Low, 256 * span, Cache) && Value() == 256 * old(Value()) && |Digits()| == |old(Digits())| + 1
      ensures Low == old(Low) % TOP * 256 && (old(Low) == 0 ==> CacheSize == 1 && Cache == 0)
    {
      ghost var digits, low := Digits(), Low;
      ShiftRoom(Low, span, Cache);
      if Low % WORD < 0xFF00_0000 || Low / WORD != 0 {
        WriteHeld(Low / WORD);
        ghost var written := out;
        Cache := Low % WORD / TOP;
        CacheSize := CacheSize + 1;
        Low := Low % TOP * 256;
        assert Digits() == written + [Cache] && Digits()[..|Digits()| - 1] == written;
      } else {
        assert Low < WORD && Low % WORD / TOP == 255;
        CacheSize := CacheSize + 1;
        Low := Low % TOP * 256;
        assert Digits() == digits + [255] && Digits()[..|Digits()| - 1] == digits;
      }
    }

    method Normalise(ghost e: Interval)
      requires Held() && Room(Low, Range, Cache) && 0 < Range < WORD && Abs() == e && e.low >= 0
      modifies this
      ensures Valid() && Abs() == Normalize(e)
    {
      while Range < TOP
        invariant Held() && Room(Low, Range, Cache) && 0 < Range < WORD && Normalize(Abs()) == Normalize(e) && Abs().low >= 0
        decreases TOP - Range
      {
        ghost var span := Range;
        Range := Range * 256;
        ShiftLow(span);
      }
    }

    /** RangeEnc_Encode. */
    method Encode(start: nat, size: nat, total: nat)
      requires Valid() && Legal(Symbol(start, size, total))
      modifies this
      ensures Valid() && Abs() == Apply(old(Abs()), Symbol(start, size, total))
    {
      ghost var e := Abs();
      PartInside(e, Symbol(start, size, total));
      Range := Range / total;
      Low := Low + start * Range;
      Range := Range * size;
      Normalise(Part(e, Symbol(start, size, total)));
    }

    /** RangeEnc_EncodeBit_0 and RangeEnc_EncodeBit_1. */
    method EncodeBit(size0: nat, one: bool)
      requires Valid() && Legal(Bit(size0, one))
      modifies this
      ensures Valid() && Abs() == Apply(old(Abs()), Bit(size0, one))
    {
      ghost var e := Abs();
      PartInside(e, Bit(size0, one));
      BitInside(Range, size0);
      var newBound := Range / BIN_SCALE * size0;
      if one {
        Low := Low + newBound;
        Range := Range - newBound;
      } else {
        Range := newBound;
      }
      Normalise(Part(e, Bit(size0, one)));
    }

    /** After i of the five digits: Low has so many zero bytes at its end. */
    ghost predicate Flushed(i: nat, v: nat, n: nat)
      reads this
    {
      && Held() && Room(Low, 1, Cache) && |Digits()| == n + i && Value() == v * Pow256(i)
      && (i >= 1 ==> Low % 0x100 == 0) && (i >= 2 ==> Low % 0x1_0000 == 0) && (i >= 3 ==> Low % TOP == 0) && (i >= 4 ==> Low == 0)
      && (i >= 5 ==> CacheSize == 1 && Cache == 0)
    }

    method FlushDigit(ghost i: nat, ghost v: nat, ghost n: nat)
      requires Flushed(i, v, n)
      modifies this
      ensures Flushed(i + 1, v, n)
    {
      LowBits(Low);
      ShiftLow(1);
      assert 256 * (v * Pow256(i)) == v * (256 * Pow256(i));
    }

    /** Ppmd7z_RangeEnc_FlushData: all digits are written, and they spell the lower end of the interval. */
    method FlushData()
      requires Valid()
      modifies this
      ensures AllBytes(out) && Num(out) == old(Value()) && |out| == |old(Digits())| + 4
    {
      ghost var v, n := Value(), |Digits()|;
      for i := 0 to 5
        invariant Flushed(i, v, n)
      {
        FlushDigit(i, v, n);
      }
      assert Digits() == out + [0] && (out + [0])[..|out|] == out;
      assert Pow256(5) == 256 * WORD;
    }
  }

  lemma LowByte(low: nat)
    ensures low % 0x100_0000 * 256 % 0x100 == 0
  {
  }

  lemma LowTwo(low: nat)
    requires low % 0x100 == 0
    ensures low % 0x100_0000 * 256 % 0x1_0000 == 0
  {
    var m := low % 0x100_0000;
    assert m % 0x100 == 0;
    assert m * 256 == m / 0x100 * 0x1_0000;
  }

  lemma LowThree(low: nat)
    requires low % 0x1_0000 == 0
    ensures low % 0x100_0000 * 256 % 0x100_0000 == 0
  {
    var m := low % 0x100_0000;
    assert m % 0x1_0000 == 0;
    assert m * 256 == m / 0x1_0000 * 0x100_0000;
  }

  /** Zeros move up through the low bits. */
  lemma LowBits(low: nat)
    ensures low % TOP * 256 % 0x100 == 0
    ensures low % 0x100 == 0 ==> low % TOP * 256 % 0x1_0000 == 0
    ensures low % 0x1_0000 == 0 ==> low % TOP * 256 % TOP == 0
  {
    LowByte(low);
    if low % 0x100 == 0 {
      LowTwo(low);
    }
    if low % 0x1_0000 == 0 {
      LowThree(low);
    }
  }

  // ----- the decoder

  /** A number within an interval, cut off at the interval's digits. */
  lemma Nested(input: seq<int>, e: Interval, f: Interval)
    requires AllBytes(input) && Within(f, e) && Num(input) == f.low && |input| == f.digits + 4 && f.range > 0
    ensures e.low <= Num(input[..e.digits + 4]) < e.low + e.range
  {
    var k, j := e.digits + 4, f.digits - e.digits;
    var a, b := input[..k], input[k..];
    assert input == a + b;
    NumAppend(a, b);
    NumBound(b);
    Cut(e.low, e.low + e.range, Num(a), Num(b), Pow256(j));
  }

  lemma Cut(low: int, high: int, a: int, b: int, p: int)
    requires p >= 1 && 0 <= b < p && low * p <= a * p + b < high * p
    ensures low <= a < high
  {
    assert (a + 1) * p == a * p + p;
    if a + 1 <= low {
      MulMono(a + 1, low, p);
    }
    if high <= a {
      MulMono(high, a, p);
    }
  }

  lemma {:induction false} NormalizeDigits(e: Interval)
    requires 0 < e.range
    ensures Normalize(e).digits >= e.digits + (if e.range < TOP then 1 else 0)
    decreases TOP - e.range
  {
    if e.range < TOP {
      NormalizeDigits(Interval(256 * e.low, 256 * e.range, e.digits + 1));
    }
  }

  class RangeDec {
    var Range: nat
    var Code: nat
    /** The stream, and how much of it has been read. */
    const input: seq<int>
    var pos: nat

    /** The decoder is where the encoder was with interval e. */
    ghost predicate Tracks(e: Interval)
      reads this
    {
      AllBytes(input) && pos == e.digits + 4 <= |input| && Code == Num(input[..pos]) - e.low && Range == e.range
    }

    /** The stream spells the lower end of the encoder's last interval, f. */
    ghost predicate Spells(f: Interval) {
      AllBytes(input) && Num(input) == f.low && |input| == f.digits + 4 && Normal(f)
    }

    constructor (input: seq<int>)
      requires AllBytes(input)
      ensures this.input == input && pos == 0
    {
      this.input, pos, Range, Code := input, 0, 0, 0;
    }

    method Read() returns (b: nat)
      requires pos < |input| && AllBytes(input)
      modifies `pos
      ensures pos == old(pos) + 1 && b == input[old(pos)] && b < 256
      ensures Num(input[..pos]) == 256 * Num(input[..old(pos)]) + b
    {
      b := input[pos];
      pos := pos + 1;
      assert input[..pos][..pos - 1] == input[..pos - 1];
    }

    /** Ppmd7z_RangeDec_Init: the first byte is zero, and four more fill Code. */
    method Init(ghost f: Interval) returns (ok: bool)
      requires pos == 0 && Spells(f) && Within(f, FIRST)
      modifies this
      ensures ok && Tracks(FIRST) && input[0] == 0
    {
      Nested(input, FIRST, f);
      NumAppend(input[..1], input[1..5]);
      assert input[..1] + input[1..5] == input[..5] && input[..1] == [input[0]] && [input[0]][..0] == [];
      NumBound(input[1..5]);
      assert Pow256(4) == WORD;
      assert input[..0] == [];
      var first := Read();
      if first != 0 {
        return false;
      }
      Range, Code := 0xFFFF_FFFF, 0;
      for i := 0 to 4
        invariant pos == 1 + i && Code == Num(input[..pos]) && Range == 0xFFFF_FFFF
      {
        var b := Read();
        Code := Code * 256 + b;
      }
      ok := Code < 0xFFFF_FFFF;
    }

    method Normalise(ghost e: Interval, ghost f: Interval)
      requires Tracks(e) && 0 < e.range < WORD && e.low >= 0 && Spells(f) && Within(f, Normalize(e))
      modifies this
      ensures Tracks(Normalize(e))
    {
      ghost var c := e;
      while Range < TOP
        invariant Tracks(c) && 0 < c.range < WORD && Normalize(c) == Normalize(e)
        decreases TOP - Range
      {
        NormalizeDigits(c);
        var b := Read();
        Code := Code * 256 + b;
        Range := Range * 256;
        c := Interval(256 * c.low, 256 * c.range, c.digits + 1);
      }
    }

    /** Range_GetThreshold: the threshold falls on the symbol that was encoded. */
    method GetThreshold(total: nat, ghost e: Interval, ghost start: nat, ghost size: nat, ghost f: Interval) returns (t: int)
      requires Tracks(e) && Normal(e) && Legal(Symbol(start, size, total)) && Spells(f) && Within(f, Part(e, Symbol(start, size, total)))
      modifies `Range
      ensures start <= t < start + size && Range == e.range / total > 0
      ensures start * Range <= Code
    {
      SymbolInside(e.range, start, size, total);
      Nested(input, Part(e, Symbol(start, size, total)), f);
      Range := Range / total;
      t := Code / Range;
      Division(Code, Range);
      assert (start + size) * Range == start * Range + Range * size;
      Cut(start, start + size, t, Code - t * Range, Range);
    }

    /** Range_Decode_7z. */
    method Decode(start: nat, size: nat, ghost total: nat, ghost e: Interval, ghost f: Interval)
      requires Legal(Symbol(start, size, total)) && Normal(e) && Spells(f) && Within(f, Apply(e, Symbol(start, size, total)))
      requires AllBytes(input) && pos == e.digits + 4 <= |input| && Code == Num(input[..pos]) - e.low
      requires Range == e.range / total > 0 && start * Range <= Code
      modifies this
      ensures Tracks(Apply(e, Symbol(start, size, total)))
    {
      PartInside(e, Symbol(start, size, total));
      Code := Code - start * Range;
      Range := Range * size;
      Normalise(Part(e, Symbol(start, size, total)), f);
    }

    /** Range_DecodeBit_7z. */
    method DecodeBit(size0: nat, ghost one: bool, ghost e: Interval, ghost f: Interval) returns (symbol: int)
      requires Tracks(e) && Normal(e) && Legal(Bit(size0, one)) && Spells(f)
      requires Within(f, Apply(e, Bit(size0, one))) && Within(f, Part(e, Bit(size0, one)))
      modifies this
      ensures Tracks(Apply(e, Bit(size0, one))) && symbol == if one then 1 else 0
    {
      PartInside(e, Bit(size0, one));
      BitInside(Range, size0);
      Nested(input, Part(e, Bit(size0, one)), f);
      var newBound := Range / BIN_SCALE * size0;
      if Code < newBound {
        symbol := 0;
        Range := newBound;
      } else {
        symbol := 1;
        Code := Code - newBound;
        Range := Range - newBound;
      }
      Normalise(Part(e, Bit(size0, one)), f);
    }
  }

  // ----- whole runs

  /** What the decoder sees at a step: a threshold on the right symbol, or the bit. */
  ghost predicate Sees(s: Step, x: int) {
    match s
    case Symbol(start, size, _) => start <= x < start + size
    case Bit(_, one) => x == if one then 1 else 0
  }

  method EncodeAll(steps: seq<Step>) returns (bytes: seq<int>)
    requires AllLegal(steps)
    ensures AllBytes(bytes) && Num(bytes) == ApplyAll(FIRST, steps).low && |bytes| == ApplyAll(FIRST, steps).digits + 4
  {
    var p := new RangeEnc();
    assert steps[0..] == steps;
    for i := 0 to |steps|
      invariant p.Valid() && fresh(p) && ApplyAll(p.Abs(), steps[i..]) == ApplyAll(FIRST, steps)
    {
      assert steps[i..][1..] == steps[i + 1..];
      assert Legal(steps[i]);
      match steps[i] {
        case Symbol(start, size, total) => p.Encode(start, size, total);
        case Bit(size0, one) => p.EncodeBit(size0, one);
      }
    }
    assert steps[|steps|..] == [];
    p.FlushData();
    bytes := p.out;
  }

  lemma StepWithin(e: Interval, steps: seq<Step>)
    requires Normal(e) && AllLegal(steps) && steps != []
    ensures var f := ApplyAll(e, steps);
      Legal(steps[0]) && Within(f, Apply(e, steps[0])) && Within(f, Part(e, steps[0])) && Normal(Apply(e, steps[0]))
  {
    ApplyWithin(e, steps[0]);
    AllWithin(Apply(e, steps[0]), steps[1..]);
    WithinTrans(ApplyAll(e, steps), Apply(e, steps[0]), Part(e, steps[0]));
  }

  /** One step decoded. */
  method DecodeOne(p: RangeDec, s: Step, ghost e: Interval, ghost f: Interval) returns (x: int)
    requires p.Tracks(e) && Normal(e) && Legal(s) && p.Spells(f) && Within(f, Apply(e, s)) && Within(f, Part(e, s))
    modifies p
    ensures p.Tracks(Apply(e, s)) && Sees(s, x)
  {
    match s {
      case Symbol(start, size, total) =>
        x := p.GetThreshold(total, e, start, size, f);
        p.Decode(start, size, total, e, f);
      case Bit(size0, one) =>
        x := p.DecodeBit(size0, one, e, f);
    }
  }

  /** Every run of the encoder is followed by the decoder, over the bytes that spell the lower end of the last interval: thresholds fall on the symbols, bits come back, the first
      byte is zero, all bytes are used, and the decoder ends with Code zero. */
  method RoundTrip(steps: seq<Step>) returns (bytes: seq<int>, seen: seq<int>, code: nat)
    requires AllLegal(steps)
    ensures AllBytes(bytes) && Num(bytes) == ApplyAll(FIRST, steps).low && |bytes| == ApplyAll(FIRST, steps).digits + 4
    ensures |bytes| >= 5 && bytes[0] == 0 && code == 0
    ensures |seen| == |steps| && forall i :: 0 <= i < |steps| ==> Sees(steps[i], seen[i])
  {
    bytes := EncodeAll(steps);
    ghost var f := ApplyAll(FIRST, steps);
    AllWithin(FIRST, steps);
    var p := new RangeDec(bytes);
    var ok := p.Init(f);
    ghost var e := FIRST;
    seen := [];
    assert steps[0..] == steps;
    for i := 0 to |steps|
      invariant fresh(p) && p.Tracks(e) && Normal(e) && p.Spells(f) && ApplyAll(e, steps[i..]) == f
      invariant |seen| == i && forall k :: 0 <= k < i ==> Sees(steps[k], seen[k])
    {
      StepWithin(e, steps[i..]);
      assert steps[i..][1..] == steps[i + 1..];
      var x := DecodeOne(p, steps[i], e, f);
      seen := seen + [x];
      e := Apply(e, steps[i]);
    }
    assert steps[|steps|..] == [];
    assert p.input[..p.pos] == p.input;
    code := p.Code;
  }
}
