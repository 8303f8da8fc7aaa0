/** Streaming BLAKE2s (RFC 7693, section 3.3) with the compression function as a parameter. */
module Blake2s {
  import opened Pieces

  const BLOCK := 64
  const OUTBYTES := 32
  const WORD := 0x1_0000_0000
  const ONES := 0xFFFF_FFFF

  /** Chaining value, message block, both counter words and both finalisation words. */
  type Compress = (seq<int>, seq<int>, int, int, int, int) -> seq<int>

  // ----- what is computed

  /** Blocks that have been compressed when n bytes have been seen: the last byte is always held back. */
  function Blocks(n: nat): nat {
    if n == 0 then 0 else (n - 1) / BLOCK
  }

  /** The chaining value after k blocks. */
  function Chain(c: Compress, h0: seq<int>, m: seq<int>, k: nat): seq<int>
    requires BLOCK * k <= |m|
  {
    if k == 0 then h0
    else
      var n := BLOCK * k;
      c(Chain(c, h0, m, k - 1), m[n - BLOCK..n], n % WORD, n / WORD % WORD, 0, 0)
  }

  lemma {:induction false} ChainPrefix(c: Compress, h0: seq<int>, m: seq<int>, more: seq<int>, k: nat)
    requires BLOCK * k <= |m|
    ensures Chain(c, h0, m + more, k) == Chain(c, h0, m, k)
    decreases k
  {
    if k > 0 {
      ChainPrefix(c, h0, m, more, k - 1);
      assert (m + more)[BLOCK * k - BLOCK..BLOCK * k] == m[BLOCK * k - BLOCK..BLOCK * k];
    }
  }

  function Zeros(n: nat): (r: seq<int>)
    ensures |r| == n && forall i :: 0 <= i < n ==> r[i] == 0
  {
    seq(n, _ => 0)
  }

  /** The hash of a message: the last block is padded with zeros and marked. */
  function Hash(c: Compress, h0: seq<int>, m: seq<int>, lastNode: bool): seq<int> {
    var k := Blocks(|m|);
    var n := |m|;
    c(Chain(c, h0, m, k), m[BLOCK * k..] + Zeros(BLOCK - (n - BLOCK * k)), n % WORD, n / WORD % WORD, ONES, if lastNode then ONES else 0)
  }

  // ----- how it is computed

  class State {
    const compress: Compress
    const lastNode: bool
    /** The digest's length in bytes. */
    const outlen: nat
    var h: seq<int>
    var t0: int
    var t1: int
    var f0: int
    var f1: int
    const buf: array<int>
    var buflen: nat
    ghost const h0: seq<int>
    /** Everything seen so far. */
    ghost var msg: seq<int>

    ghost predicate Counter(n: int)
      reads `t0, `t1
    {
      t0 == n % WORD && t1 == n / WORD % WORD
    }

    /** A whole number of blocks has been compressed, and the rest is in the buffer. */
    ghost predicate At(k: nat)
      reads this, buf
    {
      && buf.Length == BLOCK && buflen <= BLOCK && f0 == 0 && f1 == 0 && |msg| == BLOCK * k + buflen
      && h == Chain(compress, h0, msg, k) && buf[..buflen] == msg[BLOCK * k..] && Counter(BLOCK * k)
    }

    ghost predicate Valid()
      reads this, buf
    {
      At(Blocks(|msg|)) && (msg != [] ==> buflen >= 1)
    }

    constructor (compress: Compress, h0: seq<int>, lastNode: bool, outlen: nat)
      ensures this.outlen == outlen && Valid() && msg == [] && this.compress == compress && this.h0 == h0 && this.lastNode == lastNode && fresh(buf)
    {
      this.compress, this.h0, this.lastNode, this.outlen := compress, h0, lastNode, outlen;
      h, t0, t1, f0, f1, buflen := h0, 0, 0, 0, 0, 0;
      buf := new int[BLOCK];
      msg := [];
    }

    /** blake2s_increment_counter: 64 bits in two words. */
    method IncrementCounter(inc: nat, ghost n: nat)
      requires inc <= BLOCK && Counter(n)
      modifies `t0, `t1
      ensures Counter(n + inc)
    {
      CounterStep(n, inc);
      t0 := (t0 + inc) % 0x1_0000_0000;
      t1 := (t1 + if t0 < inc then 1 else 0) % 0x1_0000_0000;
    }

    /** blake2s_compress on one block of the message. */
    method CompressBlock(block: seq<int>)
      modifies `h
      ensures h == compress(old(h), block, t0, t1, f0, f1)
    {
      h := compress(h, block, t0, t1, f0, f1);
    }

    /** Bytes go to the free part of the buffer. */
    method Fill(piece: seq<int>)
      requires buf.Length == BLOCK && buflen + |piece| <= BLOCK
      modifies buf, `buflen
      ensures buflen == old(buflen) + |piece| && buf[..buflen] == old(buf[..buflen]) + piece
    {
      forall i | 0 <= i < |piece| {
        buf[buflen + i] := piece[i];
      }
      buflen := buflen + |piece|;
    }

    /** A full block of the message, in the buffer or not, is compressed. */
    method Absorb(block: seq<int>, ghost k: nat)
      requires BLOCK * (k + 1) <= |msg| && block == msg[BLOCK * k..BLOCK * (k + 1)] && f0 == 0 && f1 == 0
      requires h == Chain(compress, h0, msg, k) && Counter(BLOCK * k)
      modifies `h, `t0, `t1
      ensures h == Chain(compress, h0, msg, k + 1) && Counter(BLOCK * (k + 1))
    {
      IncrementCounter(BLOCK, BLOCK * k);
      CompressBlock(block);
    }

    /** blake2s_update: after any piece of input the state is that of all input so far. */
    method Update(pin: seq<int>)
      requires Valid()
      modifies this, buf
      ensures Valid() && msg == old(msg) + pin
    {
      if |pin| > 0 {
        ghost var k := Blocks(|msg|);
        var fill := BLOCK - buflen;
        if |pin| > fill {
          Long(pin, k);
        } else {
          ChainPrefix(compress, h0, msg, pin, k);
          BlocksOf(|msg| + |pin|, k);
          assert (msg + pin)[BLOCK * k..] == msg[BLOCK * k..] + pin;
          msg := msg + pin;
          Fill(pin);
        }
      }
    }

    /** More than the buffer can take. */
    method Long(pin: seq<int>, ghost k0: nat)
      requires Valid() && k0 == Blocks(|msg|) && |pin| > BLOCK - buflen
      modifies this, buf
      ensures Valid() && msg == old(msg) + pin
    {
      ghost var m, k := msg + pin, k0;
      ghost var left := msg[BLOCK * k..];
      var fill := BLOCK - buflen;
      ChainPrefix(compress, h0, msg, pin, k);
      FirstBlock(msg, pin, BLOCK * k, fill);
      msg := m;
      Fill(pin[..fill]);
      buflen := 0;
      assert buf[..] == buf[..BLOCK];
      Absorb(buf[..], k);
      var i;
      i, k := Blocks64(pin, fill, k + 1);
      Fill(pin[i..]);
      BlocksOf(|m|, k);
    }

    /** The input from position i on is what follows the first k blocks. */
    ghost predicate Follows(pin: seq<int>, i: nat, k: nat)
      reads `msg, `h, `t0, `t1, `f0, `f1
    {
      && i < |pin| && BLOCK * k <= |msg| && |msg| - BLOCK * k == |pin| - i && msg[BLOCK * k..] == pin[i..] && f0 == 0 && f1 == 0
      && h == Chain(compress, h0, msg, k) && Counter(BLOCK * k)
    }

    /** Blocks straight from the input, as long as more than one block is left. */
    method Blocks64(pin: seq<int>, i0: nat, ghost k0: nat) returns (i: nat, ghost k: nat)
      requires Follows(pin, i0, k0)
      modifies `h, `t0, `t1
      ensures Follows(pin, i, k) && |pin| - i <= BLOCK
    {
      i, k := i0, k0;
      while |pin| - i > BLOCK
        invariant Follows(pin, i, k)
      {
        assert pin[i..i + BLOCK] == pin[i..][..BLOCK] && msg[BLOCK * k..BLOCK * (k + 1)] == msg[BLOCK * k..][..BLOCK];
        Absorb(pin[i..i + BLOCK], k);
        assert msg[BLOCK * k..][BLOCK..] == msg[BLOCK * (k + 1)..] && pin[i..][BLOCK..] == pin[i + BLOCK..];
        i := i + BLOCK;
        k := k + 1;
      }
    }

    /** What is held back goes in as the last block, with the bytes counted and the flags set. */
    method LastBlock()
      requires Valid() && f0 == 0
      modifies this, buf
      ensures h == Hash(compress, h0, old(msg), lastNode) && f0 != 0
    {
      ghost var k := Blocks(|msg|);
      IncrementCounter(buflen, BLOCK * k);
      if lastNode {
        f1 := 0xFFFF_FFFF;
      }
      f0 := 0xFFFF_FFFF;
      Fill(Zeros(BLOCK - buflen));
      assert buf[..] == buf[..BLOCK];
      CompressBlock(buf[..]);
    }

    /** blake2s_final: the hash of everything seen, if there is room for the digest. A second call is refused. */
    method Final(room: nat) returns (ok: bool)
      requires (f0 == 0 ==> Valid())
      modifies this, buf
      ensures ok == (room >= outlen && old(f0) == 0)
      ensures ok ==> h == Hash(compress, h0, old(msg), lastNode) && f0 != 0
      ensures !ok ==> h == old(h) && f0 == old(f0) && (f0 == 0 ==> Valid())
    {
      if room < outlen {
        return false;
      }
      if f0 != 0 {
        return false;
      }
      LastBlock();
      ok := true;
    }
  }

  lemma FirstBlock(s: seq<int>, pin: seq<int>, from: nat, fill: nat)
    requires from <= |s| && fill <= |pin|
    ensures (s + pin)[from..|s| + fill] == s[from..] + pin[..fill]
    ensures (s + pin)[|s| + fill..] == pin[fill..]
  {
  }

  lemma CounterStep(n: nat, inc: nat)
    requires inc <= BLOCK
    ensures (n % WORD + inc) % WORD == (n + inc) % WORD
    ensures (n / WORD % WORD + if (n % WORD + inc) % WORD < inc then 1 else 0) % WORD == (n + inc) / WORD % WORD
  {
    var q, r := n / WORD, n % WORD;
    if r + inc < WORD {
      assert n + inc == WORD * q + (r + inc);
      assert (n + inc) / WORD == q && (n + inc) % WORD == r + inc;
    } else {
      assert n + inc == WORD * (q + 1) + (r + inc - WORD);
      assert (n + inc) / WORD == q + 1 && (n + inc) % WORD == r + inc - WORD;
    }
  }

  lemma BlocksOf(n: nat, k: nat)
    requires BLOCK * k < n <= BLOCK * (k + 1)
    ensures Blocks(n) == k
  {
  }

  /** However a message is cut into updates, the hash is that of the message. */
  method HashPieces(compress: Compress, h0: seq<int>, lastNode: bool, pieces: seq<seq<int>>) returns (h: seq<int>)
    ensures h == Hash(compress, h0, Flat(pieces), lastNode)
  {
    var s := new State(compress, h0, lastNode, OUTBYTES);
    assert pieces[0..] == pieces && [] + Flat(pieces) == Flat(pieces);
    for i := 0 to |pieces|
      invariant s.Valid() && fresh(s) && fresh(s.buf) && s.msg + Flat(pieces[i..]) == Flat(pieces)
    {
      assert pieces[i..][1..] == pieces[i + 1..];
      assert s.msg + (pieces[i] + Flat(pieces[i + 1..])) == s.msg + pieces[i] + Flat(pieces[i + 1..]);
      s.Update(pieces[i]);
    }
    assert pieces[|pieces|..] == [] && s.msg + [] == s.msg;
    var ok := s.Final(OUTBYTES);
    h := s.h;
  }
}
