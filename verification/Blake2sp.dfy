/** BLAKE2sp: eight leaves hash stripes of the message, a root hashes their results. Streaming and one-shot agree. */
module Blake2sp {
  import opened Pieces
  import opened Blake2s

  const DEGREE := 8
  const SUPER := 512

  /** What the initialisation of leaves and root leaves in h, and how h is stored as bytes. */
  datatype Params = Params(compress: Compress, leafH: int -> seq<int>, rootH: seq<int>, store: seq<int> -> seq<int>, key: seq<int>)

  // ----- what is computed

  /** Of the first q superblocks, the bytes of leaf i. */
  function Stripe(m: seq<int>, i: nat, q: nat): seq<int>
    requires SUPER * q <= |m| && i < DEGREE
  {
    if q == 0 then []
    else
      var p := SUPER * (q - 1) + BLOCK * i;
      Stripe(m, i, q - 1) + m[p..p + BLOCK]
  }

  function Min(a: int, b: int): int {
    if a < b then a else b
  }

  /** Of an incomplete superblock, the bytes of leaf i. */
  function Tail(r: seq<int>, i: nat): seq<int> {
    if |r| > BLOCK * i then r[BLOCK * i..Min(|r|, BLOCK * (i + 1))] else []
  }

  /** The message of leaf i: the key block if there is a key, its stripe, and its part of the rest. */
  function LeafMessage(p: Params, m: seq<int>, i: nat): seq<int>
    requires i < DEGREE
  {
    var q := |m| / 512;
    p.key + Stripe(m, i, q) + Tail(m[SUPER * q..], i)
  }

  function LeafHash(p: Params, m: seq<int>, i: nat): seq<int>
    requires i < DEGREE
  {
    p.store(Hash(p.compress, p.leafH(i), LeafMessage(p, m, i), i == DEGREE - 1))
  }

  function LeafHashes(p: Params, m: seq<int>, n: nat): seq<int>
    requires n <= DEGREE
  {
    if n == 0 then [] else LeafHashes(p, m, n - 1) + LeafHash(p, m, n - 1)
  }

  function TreeHash(p: Params, m: seq<int>): seq<int> {
    p.store(Hash(p.compress, p.rootH, LeafHashes(p, m, DEGREE), true))
  }

  lemma {:induction false} StripePrefix(m: seq<int>, more: seq<int>, i: nat, q: nat)
    requires SUPER * q <= |m| && i < DEGREE
    ensures Stripe(m + more, i, q) == Stripe(m, i, q)
    decreases q
  {
    if q > 0 {
      StripePrefix(m, more, i, q - 1);
      var p := SUPER * (q - 1) + BLOCK * i;
      assert (m + more)[p..p + BLOCK] == m[p..p + BLOCK];
    }
  }

  // ----- one leaf

  ghost predicate IsLeaf(s: State, p: Params, i: nat) {
    s.compress == p.compress && s.h0 == p.leafH(i) && s.lastNode == (i == DEGREE - 1)
  }

  /** The leaf has its part of the first q superblocks of m. */
  ghost predicate LeafAt(s: State, p: Params, m: seq<int>, i: nat, q: nat)
    requires i < DEGREE && SUPER * q <= |m|
    reads s, s.buf
  {
    IsLeaf(s, p, i) && s.Valid() && s.msg == p.key + Stripe(m, i, q)
  }

  method NewLeaf(p: Params, i: nat, ghost m: seq<int>) returns (s: State)
    requires i < DEGREE
    ensures fresh(s) && fresh(s.buf) && LeafAt(s, p, m, i, 0)
  {
    s := new State(p.compress, p.leafH(i), i == DEGREE - 1, OUTBYTES);
    if |p.key| > 0 {
      s.Update(p.key);
    }
    assert p.key + [] == p.key == [] + p.key;
  }

  /** Superblock q is added. */
  method FeedLeaf(s: State, block: seq<int>, ghost p: Params, ghost m: seq<int>, ghost i: nat, ghost q: nat)
    requires i < DEGREE && SUPER * (q + 1) <= |m| && LeafAt(s, p, m, i, q)
    requires block == m[SUPER * q + BLOCK * i..SUPER * q + BLOCK * (i + 1)]
    modifies s, s.buf
    ensures LeafAt(s, p, m, i, q + 1)
  {
    s.Update(block);
    assert p.key + (Stripe(m, i, q) + block) == p.key + Stripe(m, i, q) + block;
  }

  /** The loop over the n whole superblocks of the input from position c on, for one leaf. */
  method LeafLoop(s: State, pin: seq<int>, c: nat, i: nat, ghost p: Params, ghost m: seq<int>, ghost q: nat, ghost n: nat)
    requires i < DEGREE && c <= |pin| && SUPER * n <= |pin| - c < SUPER * (n + 1) && SUPER * (q + n) <= |m| && LeafAt(s, p, m, i, q)
    requires n > 0 ==> m[SUPER * q..] == pin[c..]
    modifies s, s.buf
    ensures LeafAt(s, p, m, i, q + n)
  {
    var at, len := c, |pin| - c;
    ghost var t: nat := 0;
    while len >= SUPER
      invariant t <= n && len == |pin| - at == |pin| - c - SUPER * t && LeafAt(s, p, m, i, q + t)
      decreases len
    {
      FeedFrom(s, pin, c, at, i, p, m, q, t);
      at, len := at + SUPER, len - SUPER;
      t := t + 1;
    }
    assert t == n;
  }

  /** The superblock at position at. */
  method FeedFrom(s: State, pin: seq<int>, ghost c: nat, at: nat, i: nat, ghost p: Params, ghost m: seq<int>, ghost q: nat, ghost t: nat)
    requires i < DEGREE && c <= |pin| && at == c + SUPER * t && at + SUPER <= |pin|
    requires SUPER * q <= |m| && m[SUPER * q..] == pin[c..] && SUPER * (q + t) <= |m| && LeafAt(s, p, m, i, q + t)
    modifies s, s.buf
    ensures SUPER * (q + t + 1) <= |m| && LeafAt(s, p, m, i, q + t + 1)
  {
    var from := at + BLOCK * i;
    SameBlock(m, pin, c, q, t, i);
    FeedLeaf(s, pin[from..from + BLOCK], p, m, i, q + t);
  }

  lemma SameBlock(m: seq<int>, pin: seq<int>, c: nat, q: nat, t: nat, i: nat)
    requires i < DEGREE && c <= |pin| && SUPER * q <= |m| && m[SUPER * q..] == pin[c..] && SUPER * (t + 1) <= |pin| - c
    ensures SUPER * (q + t + 1) <= |m|
    ensures pin[c + SUPER * t + BLOCK * i..c + SUPER * t + BLOCK * i + BLOCK] == m[SUPER * (q + t) + BLOCK * i..SUPER * (q + t) + BLOCK * (i + 1)]
  {
    var x := SUPER * t + BLOCK * i;
    assert pin[c..][x..x + BLOCK] == pin[c + x..c + x + BLOCK];
    assert m[SUPER * q..][x..x + BLOCK] == m[SUPER * q + x..SUPER * q + x + BLOCK];
  }

  lemma Quotient(m: seq<int>, q: nat)
    requires SUPER * q <= |m| < SUPER * (q + 1)
    ensures |m| / 512 == q
  {
  }

  /** The rest, if it reaches this leaf, and the hash. */
  method FinishLeaf(s: State, rest: seq<int>, i: nat, p: Params, ghost m: seq<int>, ghost q: nat) returns (hash: seq<int>)
    requires i < DEGREE && SUPER * q <= |m| < SUPER * (q + 1) && LeafAt(s, p, m, i, q) && rest == m[SUPER * q..]
    modifies s, s.buf
    ensures hash == LeafHash(p, m, i)
  {
    Quotient(m, q);
    if |rest| > BLOCK * i {
      var left := |rest| - BLOCK * i;
      if left > BLOCK {
        left := BLOCK;
      }
      assert rest[BLOCK * i..BLOCK * i + left] == Tail(rest, i);
      s.Update(rest[BLOCK * i..BLOCK * i + left]);
    } else {
      assert s.msg + [] == s.msg;
    }
    var ok := s.Final(s.outlen);
    hash := p.store(s.h);
  }

  ghost predicate HashAt(hash: seq<seq<int>>, p: Params, m: seq<int>, i: int) {
    0 <= i < DEGREE && i < |hash| && hash[i] == LeafHash(p, m, i)
  }

  /** The results of the first n leaves. */
  ghost predicate Hashes(hash: seq<seq<int>>, p: Params, m: seq<int>, n: nat) {
    |hash| == n && forall i {:trigger HashAt(hash, p, m, i)} :: 0 <= i < n ==> HashAt(hash, p, m, i)
  }

  lemma OneMoreHash(hash: seq<seq<int>>, p: Params, m: seq<int>, n: nat, h: seq<int>)
    requires n < DEGREE && Hashes(hash, p, m, n) && h == LeafHash(p, m, n)
    ensures Hashes(hash + [h], p, m, n + 1)
  {
    var more := hash + [h];
    forall i | 0 <= i < n + 1
      ensures HashAt(more, p, m, i)
    {
      assert i < n ==> HashAt(hash, p, m, i);
    }
  }

  /** The root hashes the results of the leaves, one after the other. */
  method FeedRoot(fs: State, hash: seq<seq<int>>, p: Params, ghost m: seq<int>) returns (out: seq<int>)
    requires Hashes(hash, p, m, DEGREE)
    requires fs.Valid() && fs.msg == [] && fs.compress == p.compress && fs.h0 == p.rootH && fs.lastNode
    modifies fs, fs.buf
    ensures out == TreeHash(p, m)
  {
    for i := 0 to DEGREE
      invariant fs.Valid() && fs.msg == LeafHashes(p, m, i)
    {
      assert HashAt(hash, p, m, i);
      fs.Update(hash[i]);
    }
    var ok := fs.Final(fs.outlen);
    out := p.store(fs.h);
  }

  // ----- one-shot

  method Remainder(x: nat) returns (rest: nat, ghost n: nat)
    ensures x == SUPER * n + rest && rest < SUPER && (x < SUPER ==> n == 0)
  {
    rest := x % 512;
    n := x / 512;
  }

  method OneLeaf(p: Params, m: seq<int>, i: nat) returns (hash: seq<int>)
    requires i < DEGREE
    ensures hash == LeafHash(p, m, i)
  {
    var s := NewLeaf(p, i, m);
    var rest;
    ghost var n;
    rest, n := Remainder(|m|);
    assert m[SUPER * 0..] == m == m[0..];
    LeafLoop(s, m, 0, i, p, m, 0, n);
    hash := FinishLeaf(s, m[|m| - rest..], i, p, m, n);
  }

  /** blake2sp: every leaf runs over the whole input. */
  method OneShot(p: Params, m: seq<int>) returns (out: seq<int>)
    ensures out == TreeHash(p, m)
  {
    var hash: seq<seq<int>> := [];
    for i := 0 to DEGREE
      invariant Hashes(hash, p, m, i)
    {
      var h := OneLeaf(p, m, i);
      OneMoreHash(hash, p, m, i, h);
      hash := hash + [h];
    }
    var fs := new State(p.compress, p.rootH, true, OUTBYTES);
    out := FeedRoot(fs, hash, p, m);
  }

  // ----- streaming

  ghost function Frame(leaves: seq<State>): set<object> {
    (set i | 0 <= i < |leaves| :: leaves[i] as object) + (set i | 0 <= i < |leaves| :: leaves[i].buf as object)
  }

  ghost predicate Leaf(i: int) {
    0 <= i < DEGREE
  }

  ghost predicate Opened(x: int) {
    true
  }

  /** Eight leaves that share nothing. */
  ghost predicate Apart(leaves: seq<State>, buf: array<int>) {
    && |leaves| == DEGREE
    && (forall i, j {:trigger Leaf(i), Leaf(j)} :: Leaf(i) && Leaf(j) && i != j ==> leaves[i] != leaves[j] && leaves[i].buf != leaves[j].buf)
    && (forall i {:trigger Leaf(i)} :: Leaf(i) ==> leaves[i].buf != buf) && buf !in Frame(leaves)
  }

  /** Every leaf has its part of the first q superblocks. */
  ghost predicate LeavesAt(leaves: seq<State>, p: Params, m: seq<int>, q: nat)
    requires |leaves| == DEGREE && SUPER * q <= |m|
    reads Frame(leaves)
  {
    forall i {:trigger Leaf(i)} :: Leaf(i) ==> LeafAt(leaves[i], p, m, i, q)
  }

  lemma InSuper(m: seq<int>, sb: seq<int>, q: nat, i: nat)
    requires i < DEGREE && SUPER * (q + 1) <= |m| && sb == m[SUPER * q..SUPER * (q + 1)]
    ensures sb[BLOCK * i..BLOCK * (i + 1)] == m[SUPER * q + BLOCK * i..SUPER * q + BLOCK * (i + 1)]
  {
    forall k | 0 <= k < SUPER
      ensures sb[k] == m[SUPER * q + k]
    {
    }
  }

  /** The superblock in the buffer goes to the leaves. */
  method Flush(leaves: seq<State>, buf: array<int>, ghost p: Params, ghost m: seq<int>, ghost q: nat)
    requires Apart(leaves, buf) && SUPER * (q + 1) <= |m| && LeavesAt(leaves, p, m, q)
    requires buf.Length == SUPER && buf[..] == m[SUPER * q..SUPER * (q + 1)]
    modifies Frame(leaves)
    ensures LeavesAt(leaves, p, m, q + 1)
  {
    for i := 0 to DEGREE
      invariant buf[..] == m[SUPER * q..SUPER * (q + 1)]
      invariant forall j {:trigger Leaf(j)} :: Leaf(j) ==> LeafAt(leaves[j], p, m, j, if j < i then q + 1 else q)
    {
      assert Leaf(i);
      InSuper(m, buf[..], q, i);
      assert buf[BLOCK * i..BLOCK * (i + 1)] == buf[..][BLOCK * i..BLOCK * (i + 1)];
      FeedLeaf(leaves[i], buf[BLOCK * i..BLOCK * (i + 1)], p, m, i, q);
    }
  }

  /** Whole superblocks straight from the input. */
  method Direct(leaves: seq<State>, buf: array<int>, pin: seq<int>, c: nat, ghost p: Params, ghost m: seq<int>, ghost q: nat, ghost n: nat)
    requires Apart(leaves, buf) && c <= |pin| && SUPER * n <= |pin| - c < SUPER * (n + 1) && SUPER * (q + n) <= |m| && LeavesAt(leaves, p, m, q)
    requires n > 0 ==> m[SUPER * q..] == pin[c..]
    modifies Frame(leaves)
    ensures LeavesAt(leaves, p, m, q + n)
  {
    for i := 0 to DEGREE
      invariant forall j {:trigger Leaf(j)} :: Leaf(j) ==> LeafAt(leaves[j], p, m, j, if j < i then q + n else q)
    {
      assert Leaf(i);
      LeafLoop(leaves[i], pin, c, i, p, m, q, n);
    }
  }

  method NewLeaves(p: Params) returns (ls: seq<State>)
    ensures |ls| == DEGREE && (forall j {:trigger Leaf(j)} :: Leaf(j) ==> fresh(ls[j]) && fresh(ls[j].buf) && LeafAt(ls[j], p, [], j, 0))
    ensures forall j, k {:trigger Leaf(j), Leaf(k)} :: Leaf(j) && Leaf(k) && j != k ==> ls[j] != ls[k] && ls[j].buf != ls[k].buf
    ensures fresh(Frame(ls))
  {
    ls := [];
    for i := 0 to DEGREE
      invariant |ls| == i && forall j :: 0 <= j < i ==> fresh(ls[j]) && fresh(ls[j].buf)
      invariant forall j, k :: 0 <= j < k < i ==> ls[j] != ls[k] && ls[j].buf != ls[k].buf
      invariant forall j :: 0 <= j < i ==> LeafAt(ls[j], p, [], j, 0)
    {
      var s := NewLeaf(p, i, []);
      ls := ls + [s];
    }
  }

  class Tree {
    const p: Params
    const leaves: seq<State>
    const buf: array<int>
    var buflen: nat
    /** Everything seen so far, and its whole superblocks. */
    ghost var msg: seq<int>
    ghost var q: nat

    /** The leaves have k superblocks of m, and the buffer holds what follows, up to position at. */
    ghost predicate Between(m: seq<int>, k: nat, at: nat)
      reads `buflen, buf, Frame(leaves)
    {
      && Apart(leaves, buf) && buf.Length == SUPER && buflen < SUPER && SUPER * k + buflen == at <= |m|
      && buf[..buflen] == m[SUPER * k..at] && LeavesAt(leaves, p, m, k)
    }

    /** The same, closed where it is only passed on; opened by Opened(0). */
    ghost predicate Standing(m: seq<int>, k: nat, at: nat)
      reads `buflen, buf, Frame(leaves)
    {
      forall x {:trigger Opened(x)} :: Opened(x) ==> Between(m, k, at)
    }

    ghost predicate Valid()
      reads `msg, `q, `buflen, buf, Frame(leaves)
    {
      Standing(msg, q, |msg|)
    }

    constructor (p: Params)
      ensures Valid() && msg == [] && this.p == p && fresh(buf) && fresh(Frame(leaves))
    {
      this.p := p;
      var ls := NewLeaves(p);
      leaves := ls;
      buf, buflen, msg, q := new int[SUPER], 0, [], 0;
    }

    method Store(piece: seq<int>)
      requires buf.Length == SUPER && buflen + |piece| <= SUPER
      modifies buf, `buflen
      ensures buflen == old(buflen) + |piece| && buf[..buflen] == old(buf[..buflen]) + piece
    {
      forall i | 0 <= i < |piece| {
        buf[buflen + i] := piece[i];
      }
      buflen := buflen + |piece|;
    }

    lemma StripesKept(m: seq<int>)
      requires |leaves| == DEGREE && SUPER * q <= |msg| && msg <= m && LeavesAt(leaves, p, msg, q)
      ensures LeavesAt(leaves, p, m, q)
    {
      forall i | Leaf(i)
        ensures LeafAt(leaves[i], p, m, i, q)
      {
        StripePrefix(msg, m[|msg|..], i, q);
        assert msg + m[|msg|..] == m;
      }
    }

    /** A started superblock that the input completes. */
    method Complete(pin: seq<int>, ghost m: seq<int>, ghost k: nat) returns (c: nat)
      requires Standing(m, k, |msg|) && m == msg + pin && buflen > 0 && |pin| >= SUPER - buflen
      modifies buf, `buflen, Frame(leaves)
      ensures c == SUPER - old(buflen) && buflen == 0 && Standing(m, k + 1, |msg| + c)
    {
      assert Opened(0);
      c := SUPER - buflen;
      Joined(msg, pin, SUPER * k, c);
      Store(pin[..c]);
      assert buf[..] == buf[..buflen];
      buflen := 0;
      Flush(leaves, buf, p, m, k);
      assert m[SUPER * (k + 1)..SUPER * (k + 1)] == [];
    }

    lemma Joined(before: seq<int>, pin: seq<int>, from: nat, c: nat)
      requires from <= |before| && c <= |pin|
      ensures (before + pin)[from..|before| + c] == (before + pin)[from..|before|] + pin[..c]
      ensures (before + pin)[|before|..] == pin && (before + pin)[from..|before|] == before[from..]
    {
    }

    /** What is known stays known when more input is seen. */
    lemma MoreInput(pin: seq<int>)
      requires Valid()
      ensures Standing(msg + pin, q, |msg|) && (msg + pin)[|msg + pin| - |pin|..] == pin
    {
      assert Opened(0);
      StripesKept(msg + pin);
      Joined(msg, pin, SUPER * q, 0);
      assert msg[SUPER * q..] == msg[SUPER * q..|msg|];
    }

    method Begin(pin: seq<int>, ghost m: seq<int>, ghost k0: nat) returns (c: nat, ghost k: nat)
      requires Standing(m, k0, |msg|) && m == msg + pin
      modifies buf, `buflen, Frame(leaves)
      ensures c <= |pin| && Standing(m, k, |msg| + c) && (buflen > 0 ==> |pin| - c < SUPER - buflen)
    {
      c, k := 0, k0;
      if buflen > 0 && |pin| >= SUPER - buflen {
        c := Complete(pin, m, k);
        k := k + 1;
      }
    }

    /** blake2sp_update. */
    method Update(pin: seq<int>)
      requires Valid()
      modifies this, buf, Frame(leaves)
      ensures Valid() && msg == old(msg) + pin
    {
      ghost var m, k := msg + pin, q;
      MoreInput(pin);
      var c;
      c, k := Begin(pin, m, q);
      Rest(pin, c, m, k);
    }

    /** Whole superblocks go straight to the leaves, and what is left goes to the buffer. */
    method Rest(pin: seq<int>, c: nat, ghost m: seq<int>, ghost k: nat)
      requires c <= |pin| <= |m| && m[|m| - |pin|..] == pin && Standing(m, k, |m| - |pin| + c)
      requires buflen > 0 ==> |pin| - c < SUPER - buflen
      modifies this, buf, Frame(leaves)
      ensures Valid() && msg == m
    {
      var rest;
      ghost var n;
      rest, n := Remainder(|pin| - c);
      Whole(pin, c, rest, m, k, n);
      Last(pin, rest, m, k + n);
    }

    method Last(pin: seq<int>, rest: nat, ghost m: seq<int>, ghost k: nat)
      requires rest <= |pin| <= |m| && m[|m| - |pin|..] == pin && Standing(m, k, |m| - rest) && buflen + rest < SUPER
      modifies this, buf
      ensures Valid() && msg == m
    {
      TailOf(m, pin, rest);
      End(pin[|pin| - rest..], rest, m, k);
    }

    method Whole(pin: seq<int>, c: nat, rest: nat, ghost m: seq<int>, ghost k: nat, ghost n: nat)
      requires c <= |pin| <= |m| && m[|m| - |pin|..] == pin && Standing(m, k, |m| - |pin| + c) && |pin| - c == SUPER * n + rest && rest < SUPER
      requires buflen > 0 ==> n == 0
      modifies Frame(leaves)
      ensures Standing(m, k + n, |m| - rest)
    {
      assert Opened(0);
      SuffixOf(m, pin, c);
      Direct(leaves, buf, pin, c, p, m, k, n);
      if buflen == 0 {
        assert m[SUPER * (k + n)..|m| - rest] == [];
      }
    }

    lemma TailOf(m: seq<int>, pin: seq<int>, rest: nat)
      requires rest <= |pin| <= |m| && m[|m| - |pin|..] == pin
      ensures m[|m| - rest..] == pin[|pin| - rest..]
    {
      SuffixOf(m, pin, |pin| - rest);
    }

    lemma SuffixOf(m: seq<int>, pin: seq<int>, c: nat)
      requires c <= |pin| <= |m| && m[|m| - |pin|..] == pin
      ensures m[|m| - |pin| + c..] == pin[c..]
    {
    }

    method End(tail: seq<int>, rest: nat, ghost m: seq<int>, ghost k: nat)
      requires |tail| == rest <= |m| && tail == m[|m| - rest..] && Standing(m, k, |m| - rest) && buflen + rest < SUPER
      modifies this, buf
      ensures Valid() && msg == m
    {
      assert Opened(0);
      assert m[SUPER * k..|m|] == m[SUPER * k..|m| - rest] + tail;
      msg, q := m, k;
      Store(tail);
    }

    /** blake2sp_final. */
    method Final() returns (out: seq<int>)
      requires Valid()
      modifies buf, Frame(leaves)
      ensures out == TreeHash(p, msg)
    {
      assert Opened(0);
      assert msg[SUPER * q..] == msg[SUPER * q..|msg|];
      var hash := FinishAll(leaves, buf, buf[..buflen], p, msg, q);
      var fs := new State(p.compress, p.rootH, true, OUTBYTES);
      out := FeedRoot(fs, hash, p, msg);
    }
  }

  method FinishAll(leaves: seq<State>, ghost buf: array<int>, rest: seq<int>, p: Params, ghost m: seq<int>, ghost q: nat) returns (hash: seq<seq<int>>)
    requires Apart(leaves, buf) && SUPER * q <= |m| < SUPER * (q + 1) && LeavesAt(leaves, p, m, q) && rest == m[SUPER * q..]
    modifies Frame(leaves)
    ensures Hashes(hash, p, m, DEGREE)
  {
    hash := [];
    for i := 0 to DEGREE
      invariant Hashes(hash, p, m, i)
      invariant forall j {:trigger Leaf(j)} :: Leaf(j) && i <= j ==> LeafAt(leaves[j], p, m, j, q)
    {
      assert Leaf(i);
      var h := FinishLeaf(leaves[i], rest, i, p, m, q);
      OneMoreHash(hash, p, m, i, h);
      hash := hash + [h];
    }
  }

  /** All pieces, streamed. */
  method Stream(p: Params, pieces: seq<seq<int>>) returns (out: seq<int>)
    ensures out == TreeHash(p, Flat(pieces))
  {
    var t := new Tree(p);
    assert pieces[0..] == pieces && [] + Flat(pieces) == Flat(pieces);
    for i := 0 to |pieces|
      invariant t.Valid() && fresh(t) && fresh(t.buf) && fresh(Frame(t.leaves)) && t.p == p
      invariant t.msg + Flat(pieces[i..]) == Flat(pieces)
    {
      NextPiece(t.msg, pieces, i);
      t.Update(pieces[i]);
    }
    assert pieces[|pieces|..] == [] && t.msg + [] == t.msg;
    out := t.Final();
  }

  lemma NextPiece(before: seq<int>, pieces: seq<seq<int>>, i: nat)
    requires i < |pieces|
    ensures before + Flat(pieces[i..]) == before + pieces[i] + Flat(pieces[i + 1..])
  {
    assert pieces[i..][1..] == pieces[i + 1..];
  }

  /** However a message is cut into updates, the result is that of the one-shot function on the whole message: its tree hash. */
  method StreamAgrees(p: Params, pieces: seq<seq<int>>, whole: seq<int>) returns (streamed: seq<int>, oneShot: seq<int>)
    requires whole == Flat(pieces)
    ensures streamed == oneShot == TreeHash(p, whole)
  {
    streamed := Stream(p, pieces);
    oneShot := OneShot(p, whole);
  }
}
