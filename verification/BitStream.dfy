/** The 32-bit buffers between bytes and bits: bsW on the way out, GET_BITS on the way in. */
module BitStream {
  import opened Bits

  const WORD := 0x1_0000_0000

  ghost predicate AllBytes(s: seq<int>) {
    forall i :: 0 <= i < |s| ==> 0 <= s[i] < 256
  }

  /** The bits of a byte string. */
  function ByteBits(s: seq<int>): (r: seq<Bit>)
    requires forall i :: 0 <= i < |s| ==> 0 <= s[i] < 256
    ensures |r| == 8 * |s|
  {
    if s == [] then [] else ByteBits(s[..|s| - 1]) + Spell(s[|s| - 1], BYTE_LEN)
  }

  lemma {:induction false} ByteBitsAppend(s: seq<int>, t: seq<int>)
    requires forall i :: 0 <= i < |s| ==> 0 <= s[i] < 256
    requires forall i :: 0 <= i < |t| ==> 0 <= t[i] < 256
    ensures ByteBits(s + t) == ByteBits(s) + ByteBits(t)
  {
    if t == [] {
      assert s + t == s;
    } else {
      var k := |t| - 1;
      ByteBitsAppend(s, t[..k]);
      assert (s + t)[..|s + t| - 1] == s + t[..k];
      assert (ByteBits(s) + ByteBits(t[..k])) + Spell(t[k], BYTE_LEN) == ByteBits(s) + (ByteBits(t[..k]) + Spell(t[k], BYTE_LEN));
    }
  }

  lemma ByteBitsOne(c: int)
    requires 0 <= c < 256
    ensures ByteBits([c]) == Spell(c, BYTE_LEN)
  {
    assert [c][..0] == [];
  }

  /** Whole bytes of any bits. */
  lemma {:induction false} PackBits(bits: seq<Bit>) returns (bytes: seq<int>)
    requires |bits| % 8 == 0
    ensures AllBytes(bytes) && ByteBits(bytes) == bits
    decreases |bits|
  {
    bytes := [];
    if bits != [] {
      var k := |bits| - 8;
      var front := PackBits(bits[..k]);
      SpellOfValue(bits[k..]);
      assert Pow2(8) == 256;
      bytes := front + [Value(bits[k..])];
      assert bytes[..|front|] == front;
      assert bits == bits[..k] + bits[k..];
    }
  }

  lemma Assoc(a: seq<Bit>, b: seq<Bit>, c: seq<Bit>)
    ensures (a + b) + c == a + (b + c)
  {
  }

  // ----- writing

  /** The live bits stand at the top of the word. */
  function TopBits(buff: nat, live: nat): (r: seq<Bit>)
    requires live <= 32
    ensures |r| == live
  {
    Spell(buff, WORD_LEN)[..live]
  }

  /** Below the live bits the word is zero. */
  ghost predicate WordOk(buff: nat, live: nat) {
    live <= 32 && buff < WORD && Spell(buff, WORD_LEN)[live..] == Zeros(32 - live)
  }

  lemma Pow2Is32()
    ensures Pow2(WORD_LEN) == WORD && Pow2(REST_LEN) == 0x100_0000 && Pow2(BYTE_LEN) == 256
  {
    assert Pow2(8) == 256;
    Pow2Sum(8, 8);
    Pow2Sum(16, 8);
    Pow2Sum(16, 16);
  }

  /** The top byte of a word, and the word without it. */
  lemma WordSplits(buff: nat)
    requires buff < WORD
    ensures High(buff, REST_LEN) < 256
    ensures Spell(buff, WORD_LEN) == Spell(High(buff, REST_LEN), BYTE_LEN) + Spell(buff, REST_LEN)
    ensures Spell(Shl(buff, BYTE_LEN) % WORD, WORD_LEN) == Spell(buff, REST_LEN) + Zeros(BYTE_LEN)
  {
    Pow2Is32();
    HighBound(buff, BYTE_LEN, REST_LEN);
    SpellSplit(buff, BYTE_LEN, REST_LEN);
    SpellShl(buff, REST_LEN, BYTE_LEN);
    SpellMod(Shl(buff, BYTE_LEN), WORD_LEN);
  }

  /** Taking the top byte out of a word with at least eight live bits. */
  lemma TopByte(buff: nat, live: nat)
    requires 8 <= live && WordOk(buff, live)
    ensures High(buff, REST_LEN) < 256 && WordOk(Shl(buff, BYTE_LEN) % WORD, live - 8)
    ensures TopBits(buff, live) == Spell(High(buff, REST_LEN), BYTE_LEN) + TopBits(Shl(buff, BYTE_LEN) % WORD, live - 8)
  {
    WordSplits(buff);
    ZerosSplit(32 - live, BYTE_LEN);
    CutByte(Spell(High(buff, REST_LEN), BYTE_LEN), Spell(buff, REST_LEN), live);
  }

  lemma CutByte(a: seq<Bit>, b: seq<Bit>, live: nat)
    requires |a| == 8 && |b| == 24 && 8 <= live <= 32
    ensures (a + b)[..live] == a + b[..live - 8] && (a + b)[live..] == b[live - 8..]
    ensures (b + Zeros(BYTE_LEN))[..live - 8] == b[..live - 8]
    ensures (b + Zeros(BYTE_LEN))[live - 8..] == b[live - 8..] + Zeros(BYTE_LEN)
  {
  }

  lemma WordParts(buff: nat, live: nat, m: nat)
    requires live + m == 32
    ensures Spell(buff, WORD_LEN)[..live] == Spell(High(buff, m), live) && Spell(buff, WORD_LEN)[live..] == Spell(buff, m)
  {
    SpellSplit(buff, live, m);
  }

  /** Placing n more bits right below the live ones. */
  lemma MoreBits(buff: nat, live: nat, n: nat, v: nat)
    requires WordOk(buff, live) && live + n <= 32 && v < Pow2(n)
    ensures buff + Shl(v, 32 - live - n) < WORD && WordOk(buff + Shl(v, 32 - live - n), live + n)
    ensures TopBits(buff + Shl(v, 32 - live - n), live + n) == TopBits(buff, live) + Spell(v, n)
  {
    PutBelow(buff, live, n, v, 32 - live - n);
    ThreeParts(TopBits(buff, live), Spell(v, n), Zeros(32 - live - n));
    SumFits(buff, v, live, n);
  }

  lemma PutBelow(buff: nat, live: nat, n: nat, v: nat, k: nat)
    requires WordOk(buff, live) && live + n + k == 32 && v < Pow2(n)
    ensures Spell(buff + Shl(v, k), WORD_LEN) == TopBits(buff, live) + Spell(v, n) + Zeros(k)
  {
    WordParts(buff, live, n + k);
    SpellAddShl(buff, v, live, n, k);
  }

  lemma ThreeParts(x: seq<Bit>, y: seq<Bit>, z: seq<Bit>)
    ensures (x + y + z)[..|x| + |y|] == x + y && (x + y + z)[|x| + |y|..] == z
  {
  }

  lemma SumFits(buff: nat, v: nat, live: nat, n: nat)
    requires WordOk(buff, live) && live + n <= 32 && v < Pow2(n)
    ensures buff + Shl(v, 32 - live - n) < WORD
  {
    var k := 32 - live - n;
    WordParts(buff, live, n + k);
    HighAddShl(buff, v, n, k);
    HighHigh(buff, live, n + k);
    HighHigh(buff + Shl(v, k), live, n + k);
    Pow2Is32();
    HighZero(buff, WORD_LEN);
    HighZero(buff + Shl(v, k), WORD_LEN);
  }

  class BitWriter {
    var bsBuff: nat
    var bsLive: nat
    /** The bytes written; numZ is their number. */
    var zbits: seq<int>

    ghost predicate Valid()
      reads this
    {
      WordOk(bsBuff, bsLive) && forall i :: 0 <= i < |zbits| ==> 0 <= zbits[i] < 256
    }

    /** All bits written so far. */
    ghost function Written(): seq<Bit>
      requires Valid()
      reads this
    {
      ByteBits(zbits) + TopBits(bsBuff, bsLive)
    }

    constructor ()
      ensures Valid() && Written() == [] && zbits == [] && bsLive == 0
    {
      bsBuff, bsLive, zbits := 0, 0, [];
      new;
      SpellShl(0, 0, WORD_LEN);
      ShlIsProduct(0, WORD_LEN);
    }

    /** The bytes written so far have been handed on; the live bits stay. */
    method Restart()
      requires Valid()
      modifies `zbits
      ensures Valid() && zbits == [] && Written() == TopBits(bsBuff, bsLive)
    {
      zbits := [];
      assert Written() == [] + TopBits(bsBuff, bsLive);
    }

    /** One full byte leaves the buffer. */
    method PutByte()
      requires Valid() && bsLive >= 8
      modifies this
      ensures Valid() && bsLive == old(bsLive) - 8 && Written() == old(Written())
    {
      TopByte(bsBuff, bsLive);
      var c := High(bsBuff, REST_LEN);
      ByteMoved(zbits, c, TopBits(Shl(bsBuff, BYTE_LEN) % WORD, bsLive - 8));
      zbits := zbits + [c];
      bsBuff := Shl(bsBuff, BYTE_LEN) % WORD;
      bsLive := bsLive - 8;
    }

    lemma ByteMoved(s: seq<int>, c: int, rest: seq<Bit>)
      requires 0 <= c < 256 && forall i :: 0 <= i < |s| ==> 0 <= s[i] < 256
      ensures ByteBits(s + [c]) + rest == ByteBits(s) + (Spell(c, BYTE_LEN) + rest)
    {
      ByteBitsAppend(s, [c]);
      ByteBitsOne(c);
    }

    /** The last byte, filled up with zeros. */
    lemma LastByte(buff: nat, live: nat, s: seq<int>)
      requires WordOk(buff, live) && live <= 8 && forall i :: 0 <= i < |s| ==> 0 <= s[i] < 256
      ensures var c, rest := High(buff, REST_LEN), Shl(buff, BYTE_LEN) % WORD;
        0 <= c < 256 && WordOk(rest, 0) && ByteBits(s + [c]) + TopBits(rest, 0) == ByteBits(s) + TopBits(buff, live) + Zeros(8 - live)
    {
      Padded(buff, live);
      TopByte(buff, 8);
      ByteMoved(s, High(buff, REST_LEN), TopBits(Shl(buff, BYTE_LEN) % WORD, 0));
      Assoc(ByteBits(s), TopBits(buff, live), Zeros(8 - live));
    }

    /** bsNEEDW: full bytes leave the buffer. */
    method BsNeedW()
      requires Valid()
      modifies this
      ensures Valid() && Written() == old(Written()) && bsLive < 8
    {
      while bsLive >= 8
        invariant Valid() && Written() == old(Written())
        decreases bsLive
      {
        PutByte();
      }
    }

    /** bsW: no live bit is lost, because fewer than eight are left before up to 25 are added. */
    method BsW(n: nat, v: nat)
      requires Valid() && n <= 25 && v < Pow2(n)
      modifies this
      ensures Valid() && Written() == old(Written()) + Spell(v, n)
    {
      BsNeedW();
      MoreBits(bsBuff, bsLive, n, v);
      Assoc(ByteBits(zbits), TopBits(bsBuff, bsLive), Spell(v, n));
      bsBuff := bsBuff + Shl(v, 32 - bsLive - n);
      bsLive := bsLive + n;
    }

    /** bsFinishWrite: the rest is padded with zero bits to whole bytes. */
    method BsFinishWrite() returns (ghost pad: nat)
      requires Valid()
      modifies this
      ensures Valid() && bsLive == 0 && pad < 8 && ByteBits(zbits) == old(Written()) + Zeros(pad)
    {
      pad := 0;
      ghost var all := Written();
      assert all + Zeros(0) == all;
      while bsLive > 0
        invariant Valid() && pad < 8 && (pad > 0 ==> bsLive == 0) && Written() == all + Zeros(pad)
        decreases bsLive
      {
        if bsLive >= 8 {
          PutByte();
        } else {
          pad := 8 - bsLive;
          PutLast();
        }
      }
      assert ByteBits(zbits) + [] == ByteBits(zbits);
    }

    /** The last, incomplete byte. The source lets bsLive go below zero here and never looks at it again. */
    method PutLast()
      requires Valid() && 0 < bsLive < 8
      modifies this
      ensures Valid() && bsLive == 0 && Written() == old(Written() + Zeros(8 - bsLive))
    {
      LastByte(bsBuff, bsLive, zbits);
      var c := High(bsBuff, REST_LEN);
      zbits := zbits + [c];
      bsBuff := Shl(bsBuff, BYTE_LEN) % WORD;
      bsLive := 0;
    }
  }

  lemma Padded(buff: nat, live: nat)
    requires WordOk(buff, live) && live <= 8
    ensures WordOk(buff, 8) && TopBits(buff, 8) == TopBits(buff, live) + Zeros(8 - live)
  {
    ZerosSplit(8 - live, REST_LEN);
    var w := Spell(buff, WORD_LEN);
    assert w[..8] == w[..live] + w[live..][..8 - live];
    assert w[8..] == w[live..][8 - live..];
  }

  // ----- reading

  /** The live bits stand at the bottom of the word. */
  function LowBits(buff: nat, live: nat): (r: seq<Bit>)
    ensures |r| == live
  {
    Spell(buff, live)
  }

  lemma ByteBelow(buff: nat, live: nat, c: nat)
    requires c < 256
    ensures LowBits(Shl(buff, BYTE_LEN) + c, live + 8) == LowBits(buff, live) + Spell(c, BYTE_LEN)
  {
    Pow2Is32();
    SpellShl(buff, 0, BYTE_LEN);
    ShlIsProduct(buff, BYTE_LEN);
    HighIsQuotient(Shl(buff, BYTE_LEN), BYTE_LEN);
    SpellAdd(Shl(buff, BYTE_LEN), c, live, BYTE_LEN);
  }

  /** One more byte at the bottom; up to 24 live bits survive the shift. */
  lemma ByteIn(buff: nat, live: nat, c: nat)
    requires live <= 24 && c < 256
    ensures LowBits((Shl(buff, BYTE_LEN) + c) % WORD, live + 8) == LowBits(buff, live) + Spell(c, BYTE_LEN)
  {
    ByteBelow(buff, live, c);
    LowOfMod(Shl(buff, BYTE_LEN) + c, live + 8);
  }

  /** The first byte of the input goes into the buffer. */
  lemma ByteMoves(buff: nat, live: nat, input: seq<int>)
    requires live <= 24 && input != [] && AllBytes(input)
    ensures LowBits((Shl(buff, BYTE_LEN) + input[0]) % WORD, live + 8) + ByteBits(input[1..]) == LowBits(buff, live) + ByteBits(input)
  {
    ByteIn(buff, live, input[0]);
    assert input == [input[0]] + input[1..];
    ByteBitsAppend([input[0]], input[1..]);
    ByteBitsOne(input[0]);
    Assoc(LowBits(buff, live), Spell(input[0], BYTE_LEN), ByteBits(input[1..]));
  }

  /** Reducing a word to 32 bits keeps its low bits. */
  lemma LowOfMod(w: nat, n: nat)
    requires n <= 32
    ensures Spell(w % WORD, n) == Spell(w, n)
  {
    Pow2Is32();
    SpellMod(w, WORD_LEN);
    SpellSplit(w, 32 - n, n);
    SpellSplit(w % WORD, 32 - n, n);
    assert Spell(w, WORD_LEN)[32 - n..] == Spell(w, n);
    assert Spell(w % WORD, WORD_LEN)[32 - n..] == Spell(w % WORD, n);
  }

  class BitReader {
    var bsBuff: nat
    var bsLive: nat
    /** What is left of the caller's input buffer. */
    var input: seq<int>

    ghost predicate Valid()
      reads this
    {
      bsBuff < WORD && bsLive <= 32 && forall i :: 0 <= i < |input| ==> 0 <= input[i] < 256
    }

    /** The bits still to come: those in the buffer, and those of the input. */
    ghost function Pending(): seq<Bit>
      requires Valid()
      reads this
    {
      LowBits(bsBuff, bsLive) + ByteBits(input)
    }

    constructor ()
      ensures Valid() && Pending() == [] && input == []
    {
      bsBuff, bsLive, input := 0, 0, [];
    }

    /** The caller supplies more input. */
    method Supply(s: seq<int>)
      requires Valid() && forall i :: 0 <= i < |s| ==> 0 <= s[i] < 256
      modifies this
      ensures Valid() && Pending() == old(Pending()) + ByteBits(s)
    {
      ByteBitsAppend(input, s);
      Assoc(LowBits(bsBuff, bsLive), ByteBits(input), ByteBits(s));
      input := input + s;
    }

    /** One input byte enters the buffer. */
    method NeedByte()
      requires Valid() && bsLive < 24 && input != []
      modifies this
      ensures Valid() && Pending() == old(Pending()) && bsLive == old(bsLive) + 8 && |input| == old(|input|) - 1
    {
      ByteMoves(bsBuff, bsLive, input);
      bsBuff := (Shl(bsBuff, BYTE_LEN) + input[0]) % WORD;
      bsLive := bsLive + 8;
      input := input[1..];
    }

    /** GET_BITS: either n bits are taken, or all input is in the buffer and nothing else has changed, so that the
        same request can be made again later. */
    method GetBits(n: nat) returns (ok: bool, v: nat)
      requires Valid() && 1 <= n <= 24
      modifies this
      ensures Valid() && v < Pow2(n)
      ensures ok ==> old(Pending()) == Spell(v, n) + Pending()
      ensures !ok ==> Pending() == old(Pending()) && |Pending()| < n && input == []
    {
      while true
        invariant Valid() && Pending() == old(Pending())
        decreases |input|
      {
        if bsLive >= n {
          v := High(bsBuff, bsLive - n) % Pow2(n);
          TakeBits(bsBuff, bsLive, n);
          bsLive := bsLive - n;
          Assoc(Spell(v, n), LowBits(bsBuff, bsLive), ByteBits(input));
          return true, v;
        }
        if |input| == 0 {
          return false, 0;
        }
        NeedByte();
      }
    }
  }

  lemma TakeBits(buff: nat, live: nat, n: nat)
    requires n <= live
    ensures LowBits(buff, live) == Spell(High(buff, live - n) % Pow2(n), n) + LowBits(buff, live - n)
  {
    SpellSplit(buff, n, live - n);
    SpellMod(High(buff, live - n), n);
  }
}
