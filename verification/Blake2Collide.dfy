/** What the hashes tell apart: two messages with the same hash give two inputs on which the compression function agrees. */
module Blake2Collide {
  import opened Blake2s
  import opened Blake2sp

  /** All that goes into one compression. */
  datatype Input = Input(h: seq<int>, block: seq<int>, t0: int, t1: int, f0: int, f1: int)

  function Compressed(c: Compress, x: Input): seq<int> {
    c(x.h, x.block, x.t0, x.t1, x.f0, x.f1)
  }

  ghost predicate Collide(c: Compress, x: Input, y: Input) {
    x != y && Compressed(c, x) == Compressed(c, y)
  }

  /** The k-th full block of a message on its way. */
  function Link(c: Compress, h0: seq<int>, m: seq<int>, k: nat): Input
    requires k > 0 && BLOCK * k <= |m|
  {
    Input(Chain(c, h0, m, k - 1), m[BLOCK * k - BLOCK..BLOCK * k], BLOCK * k % WORD, BLOCK * k / WORD % WORD, 0, 0)
  }

  /** The last block: what is left, filled up with zeros, the length of the whole message, and the mark of the end. */
  function Last(c: Compress, h0: seq<int>, m: seq<int>, lastNode: bool): Input {
    var k := Blocks(|m|);
    Input(Chain(c, h0, m, k), m[BLOCK * k..] + seq(BLOCK * (k + 1) - |m|, _ => 0), |m| % WORD, |m| / WORD % WORD, ONES, if lastNode then ONES else 0)
  }

  lemma LastIsHash(c: Compress, h0: seq<int>, m: seq<int>, lastNode: bool)
    ensures Compressed(c, Last(c, h0, m, lastNode)) == Hash(c, h0, m, lastNode)
  {
    var k := Blocks(|m|);
    assert seq(BLOCK * (k + 1) - |m|, _ => 0) == Zeros(BLOCK - (|m| - BLOCK * k));
  }

  /** Equal chaining values after equally many blocks: equal blocks, or a collision. */
  lemma {:induction false} ChainCollides(c: Compress, h0: seq<int>, m: seq<int>, n: seq<int>, k: nat) returns (x: Input, y: Input)
    requires BLOCK * k <= |m| && BLOCK * k <= |n| && Chain(c, h0, m, k) == Chain(c, h0, n, k)
    ensures m[..BLOCK * k] != n[..BLOCK * k] ==> Collide(c, x, y)
  {
    if k == 0 {
      x, y := Input(h0, [], 0, 0, 0, 0), Input(h0, [], 0, 0, 0, 0);
    } else {
      x, y := Link(c, h0, m, k), Link(c, h0, n, k);
      if x == y {
        x, y := ChainCollides(c, h0, m, n, k - 1);
        assert m[..BLOCK * k] == m[..BLOCK * (k - 1)] + m[BLOCK * k - BLOCK..BLOCK * k];
        assert n[..BLOCK * k] == n[..BLOCK * (k - 1)] + n[BLOCK * k - BLOCK..BLOCK * k];
      }
    }
  }

  /** Below 2^64 the two counter words tell lengths apart. */
  lemma CountersTell(m: nat, n: nat)
    requires m < WORD * WORD && n < WORD * WORD && m % WORD == n % WORD && m / WORD % WORD == n / WORD % WORD
    ensures m == n
  {
    assert m / 0x1_0000_0000 < 0x1_0000_0000 && n / 0x1_0000_0000 < 0x1_0000_0000;
  }

  /** BLAKE2s: messages below 2^64 bytes, or the same one as last node and not, that hash alike collide somewhere on their way. */
  lemma HashCollides(c: Compress, h0: seq<int>, m: seq<int>, n: seq<int>, lastM: bool, lastN: bool) returns (x: Input, y: Input)
    requires |m| < WORD * WORD && |n| < WORD * WORD && Hash(c, h0, m, lastM) == Hash(c, h0, n, lastN)
    ensures m != n || lastM != lastN ==> Collide(c, x, y)
  {
    LastIsHash(c, h0, m, lastM);
    LastIsHash(c, h0, n, lastN);
    x, y := Last(c, h0, m, lastM), Last(c, h0, n, lastN);
    if x == y {
      CountersTell(|m|, |n|);
      var k := Blocks(|m|);
      SameRest(x, m, n, BLOCK * k, BLOCK * (k + 1) - |m|);
      x, y := ChainCollides(c, h0, m, n, k);
      assert m == m[..BLOCK * k] + m[BLOCK * k..] && n == n[..BLOCK * k] + n[BLOCK * k..];
    }
  }

  lemma SameRest(x: Input, m: seq<int>, n: seq<int>, k: nat, z: nat)
    requires |m| == |n| >= k && x.block == m[k..] + seq(z, _ => 0) == n[k..] + seq(z, _ => 0)
    ensures m[k..] == n[k..]
  {
    assert m[k..] == x.block[..|m| - k] && n[k..] == x.block[..|m| - k];
  }

  /** A hash that is also a chaining value gives a collision: the last block is marked as such. */
  lemma HashIsNoChain(c: Compress, h0: seq<int>, m: seq<int>, lastNode: bool, g0: seq<int>, n: seq<int>, k: nat) returns (x: Input, y: Input)
    requires k > 0 && BLOCK * k <= |n| && Hash(c, h0, m, lastNode) == Chain(c, g0, n, k)
    ensures Collide(c, x, y)
  {
    LastIsHash(c, h0, m, lastNode);
    x, y := Last(c, h0, m, lastNode), Link(c, g0, n, k);
    assert x.f0 == ONES && y.f0 == 0;
  }

  // ----- the tree

  /** A place in the superblock behind q others. */
  lemma InSuper(x: nat, q: nat)
    requires 512 * q <= x < 512 * q + 512
    ensures x / 512 == q && x == 512 * q + 64 * (x % 512 / 64) + x % 64 && x % 512 / 64 < 8
  {
    var i, z := (x - 512 * q) / 64, (x - 512 * q) % 64;
    assert x % 512 == x - 512 * q;
    assert x == 64 * (8 * q + i) + z;
  }

  lemma {:induction false} StripeAt(m: seq<int>, i: nat, q: nat, y: nat, z: nat)
    requires SUPER * q <= |m| && i < DEGREE && y < q && z < 64
    ensures |Stripe(m, i, q)| == BLOCK * q && Stripe(m, i, q)[64 * y + z] == m[512 * y + 64 * i + z]
    decreases q
  {
    StripeSize(m, i, q - 1);
    if y < q - 1 {
      StripeAt(m, i, q - 1, y, z);
    }
  }

  /** Where byte x of a message stands in the message of its leaf, the one that its block of 64 falls to. */
  lemma StripeByte(m: seq<int>, i: nat, q: nat, x: nat)
    requires SUPER * q <= |m| && x < SUPER * q && x % 512 / 64 == i
    ensures |Stripe(m, i, q)| == BLOCK * q && Stripe(m, i, q)[64 * (x / 512) + x % 64] == m[x]
  {
    InSuper(x, x / 512);
    StripeAt(m, i, q, x / 512, x % 64);
  }

  lemma {:induction false} StripeSize(m: seq<int>, i: nat, q: nat)
    requires SUPER * q <= |m| && i < DEGREE
    ensures |Stripe(m, i, q)| == BLOCK * q
    decreases q
  {
    if q > 0 {
      StripeSize(m, i, q - 1);
    }
  }

  lemma LeafByte(p: Params, m: seq<int>, x: nat)
    requires x < |m|
    ensures var leaf, at := x % 512 / 64, |p.key| + 64 * (x / 512) + x % 64;
      leaf < DEGREE && at < |LeafMessage(p, m, leaf)| && LeafMessage(p, m, leaf)[at] == m[x]
  {
    var i, q := x % 512 / 64, |m| / 512;
    StripeSize(m, i, q);
    InSuper(|m|, q);
    if x < SUPER * q {
      StripeByte(m, i, q, x);
    } else {
      InSuper(x, q);
      assert m[SUPER * q..][x - SUPER * q] == m[x];
    }
  }

  function Clamped(r: nat, i: nat): nat {
    if r <= 64 * i then 0 else if r >= 64 * i + 64 then 64 else r - 64 * i
  }

  lemma LeafSize(p: Params, m: seq<int>, i: nat)
    requires i < DEGREE
    ensures |LeafMessage(p, m, i)| == |p.key| + 64 * (|m| / 512) + Clamped(|m| % 512, i)
  {
    StripeSize(m, i, |m| / 512);
  }

  /** The messages of the leaves tell the message. */
  lemma LeavesTell(p: Params, m: seq<int>, n: seq<int>)
    requires forall i :: 0 <= i < DEGREE ==> LeafMessage(p, m, i) == LeafMessage(p, n, i)
    ensures m == n
  {
    for i := 0 to DEGREE
      invariant forall j :: 0 <= j < i ==> 64 * (|m| / 512) + Clamped(|m| % 512, j) == 64 * (|n| / 512) + Clamped(|n| % 512, j)
    {
      LeafSize(p, m, i);
      LeafSize(p, n, i);
    }
    SizesTell(|m|, |n|);
    forall x | 0 <= x < |m|
      ensures m[x] == n[x]
    {
      LeafByte(p, m, x);
      LeafByte(p, n, x);
    }
  }

  lemma SizesTell(a: nat, b: nat)
    requires forall j :: 0 <= j < DEGREE ==> 64 * (a / 512) + Clamped(a % 512, j) == 64 * (b / 512) + Clamped(b % 512, j)
    ensures a == b
  {
    var q, r, s, t := a / 512, a % 512, b / 512, b % 512;
    assert Clamped(r, 0) + Clamped(r, 1) + Clamped(r, 2) + Clamped(r, 3) + Clamped(r, 4) + Clamped(r, 5) + Clamped(r, 6) + Clamped(r, 7) == r;
    assert Clamped(t, 0) + Clamped(t, 1) + Clamped(t, 2) + Clamped(t, 3) + Clamped(t, 4) + Clamped(t, 5) + Clamped(t, 6) + Clamped(t, 7) == t;
    assert forall j :: 0 <= j < 8 ==> 64 * q + Clamped(r, j) == 64 * s + Clamped(t, j);
  }

  ghost predicate Both(h: seq<int>, g: seq<int>) {
    true
  }

  /** Storing keeps different values apart and gives them all the same size. */
  ghost predicate Stores(p: Params) {
    forall h, g {:trigger Both(h, g)} :: Both(h, g) ==> |p.store(h)| == |p.store(g)| && (p.store(h) == p.store(g) ==> h == g)
  }

  function LeafResult(p: Params, m: seq<int>, i: nat): seq<int>
    requires i < DEGREE
  {
    Hash(p.compress, p.leafH(i), LeafMessage(p, m, i), i == DEGREE - 1)
  }

  lemma OneResult(p: Params, m: seq<int>, n: seq<int>, i: nat)
    requires Stores(p) && i < DEGREE
    ensures |LeafHash(p, m, i)| == |LeafHash(p, n, i)| && (LeafHash(p, m, i) == LeafHash(p, n, i) ==> LeafResult(p, m, i) == LeafResult(p, n, i))
  {
    assert Both(LeafResult(p, m, i), LeafResult(p, n, i));
  }

  /** Sequences one behind the other. */
  function Cat(a: seq<seq<int>>): seq<int> {
    if a == [] then [] else Cat(a[..|a| - 1]) + a[|a| - 1]
  }

  lemma {:induction false} CatTells(a: seq<seq<int>>, b: seq<seq<int>>)
    requires |a| == |b| && forall i :: 0 <= i < |a| ==> |a[i]| == |b[i]|
    ensures |Cat(a)| == |Cat(b)| && (Cat(a) == Cat(b) ==> a == b)
  {
    if a != [] {
      var k := |a| - 1;
      CatTells(a[..k], b[..k]);
      if Cat(a) == Cat(b) {
        Halves(Cat(a[..k]), Cat(b[..k]), a[k], b[k]);
        assert a == a[..k] + [a[k]] && b == b[..k] + [b[k]];
      }
    }
  }

  lemma Halves(a: seq<int>, b: seq<int>, x: seq<int>, y: seq<int>)
    requires |a| == |b| && a + x == b + y
    ensures a == b && x == y
  {
    assert a == (a + x)[..|a|] && b == (b + y)[..|b|] && x == (a + x)[|a|..] && y == (b + y)[|b|..];
  }

  lemma CatMore(a: seq<seq<int>>, x: seq<int>)
    ensures Cat(a + [x]) == Cat(a) + x
  {
    assert (a + [x])[..|a|] == a;
  }

  lemma {:induction false} AllResults(p: Params, m: seq<int>, k: nat) returns (a: seq<seq<int>>)
    requires k <= DEGREE
    ensures |a| == k && (forall i :: 0 <= i < k ==> a[i] == LeafHash(p, m, i)) && Cat(a) == LeafHashes(p, m, k)
  {
    a := [];
    if k > 0 {
      var front := AllResults(p, m, k - 1);
      a := front + [LeafHash(p, m, k - 1)];
      CatMore(front, LeafHash(p, m, k - 1));
    }
  }

  /** Equal concatenations of the leaves' results are equal results. */
  lemma ResultsTell(p: Params, m: seq<int>, n: seq<int>, i: nat)
    requires Stores(p) && i < DEGREE && LeafHashes(p, m, DEGREE) == LeafHashes(p, n, DEGREE)
    ensures LeafHash(p, m, i) == LeafHash(p, n, i)
  {
    var a := AllResults(p, m, DEGREE);
    var b := AllResults(p, n, DEGREE);
    forall j | 0 <= j < DEGREE
      ensures |a[j]| == |b[j]|
    {
      OneResult(p, m, n, j);
    }
    CatTells(a, b);
  }

  /** Some leaf got different messages. */
  lemma LeafDiffers(p: Params, m: seq<int>, n: seq<int>) returns (i: nat)
    requires m != n
    ensures i < DEGREE && LeafMessage(p, m, i) != LeafMessage(p, n, i)
  {
    if forall i :: 0 <= i < DEGREE ==> LeafMessage(p, m, i) == LeafMessage(p, n, i) {
      LeavesTell(p, m, n);
      assert false;
    }
    i :| 0 <= i < DEGREE && LeafMessage(p, m, i) != LeafMessage(p, n, i);
  }

  /** All that is hashed for a message stays below 2^64 bytes. */
  ghost predicate Short(p: Params, m: seq<int>) {
    |LeafHashes(p, m, DEGREE)| < WORD * WORD && forall i :: 0 <= i < DEGREE ==> |LeafMessage(p, m, i)| < WORD * WORD
  }

  /** BLAKE2sp: two messages with the same tree hash give a collision of the compression function, in a leaf or in the root. */
  lemma TreeCollides(p: Params, m: seq<int>, n: seq<int>) returns (x: Input, y: Input)
    requires Stores(p) && Short(p, m) && Short(p, n) && TreeHash(p, m) == TreeHash(p, n) && m != n
    ensures Collide(p.compress, x, y)
  {
    var a, b := LeafHashes(p, m, DEGREE), LeafHashes(p, n, DEGREE);
    assert Both(Hash(p.compress, p.rootH, a, true), Hash(p.compress, p.rootH, b, true));
    if a != b {
      x, y := HashCollides(p.compress, p.rootH, a, b, true, true);
    } else {
      var i := LeafDiffers(p, m, n);
      ResultsTell(p, m, n, i);
      OneResult(p, m, n, i);
      x, y := HashCollides(p.compress, p.leafH(i), LeafMessage(p, m, i), LeafMessage(p, n, i), i == DEGREE - 1, i == DEGREE - 1);
    }
  }
}
