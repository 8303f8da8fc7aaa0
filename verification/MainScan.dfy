/** Why scanning one finished big bucket from both ends yields the sorted order of every small bucket
    in front of it: the scan is a queue that feeds itself through the bucket [ss, ss]. */
module MainScan {
  import opened Permutations
  import opened Rotations
  import opened MainCompare

  // ----- which side of ss a rotation leans to

  /** Sign of the first symbol among k that differs from ss, 0 if there is none. */
  function Kind(b: seq<Byte>, ss: Byte, u: nat, k: nat): (r: int)
    requires u < |b|
    ensures -1 <= r <= 1
    decreases k
  {
    if k == 0 then 0
    else if b[u] < ss then -1
    else if b[u] > ss then 1
    else Kind(b, ss, Succ(|b|, u), k - 1)
  }

  lemma {:induction false} KindMore(b: seq<Byte>, ss: Byte, u: nat, k: nat, k': nat)
    requires u < |b| && k <= k' && Kind(b, ss, u, k) != 0
    ensures Kind(b, ss, u, k') == Kind(b, ss, u, k)
    decreases k
  {
    if b[u] == ss {
      KindMore(b, ss, Succ(|b|, u), k - 1, k' - 1);
    }
  }

  lemma {:induction false} KindZero(b: seq<Byte>, ss: Byte, u: nat, k: nat)
    requires u < |b| && Kind(b, ss, u, k) == 0
    ensures Kind(b, ss, u, k + 1) == 0 <==> b[Adv(|b|, u, k)] == ss
    decreases k
  {
    if k != 0 {
      KindZero(b, ss, Succ(|b|, u), k - 1);
    }
  }

  lemma {:induction false} KindZeroAll(b: seq<Byte>, ss: Byte, u: nat, k: nat, t: nat)
    requires u < |b| && Kind(b, ss, u, k) == 0 && t < k
    ensures b[Adv(|b|, u, t)] == ss
    decreases k
  {
    if t != 0 {
      KindZeroAll(b, ss, Succ(|b|, u), k - 1, t - 1);
    }
  }

  function Lean(b: seq<Byte>, ss: Byte, u: nat): int
    requires u < |b|
  {
    Kind(b, ss, u, |b|)
  }

  lemma LeanPred(b: seq<Byte>, ss: Byte, u: nat)
    requires u < |b| && b[Pred(|b|, u)] == ss && Lean(b, ss, u) != 0
    ensures Lean(b, ss, Pred(|b|, u)) == Lean(b, ss, u)
  {
    var n, p := |b|, Pred(|b|, u);
    if Kind(b, ss, u, n - 1) == 0 {
      KindZero(b, ss, u, n - 1);
      AdvWraps(n, u, n - 1);
    } else {
      KindMore(b, ss, u, n - 1, n);
    }
  }

  /** Only a block made of ss alone has rotations that lean nowhere. */
  lemma LeansSomewhere(b: seq<Byte>, ss: Byte, u: nat, x: nat)
    requires u < |b| && x < |b| && b[x] != ss
    ensures Lean(b, ss, u) != 0
  {
    if Lean(b, ss, u) == 0 {
      var t := if u <= x then x - u else x - u + |b|;
      AdvWraps(|b|, u, t);
      KindZeroAll(b, ss, u, |b|, t);
    }
  }

  lemma {:induction false} KindOrders(b: seq<Byte>, ss: Byte, u: nat, v: nat, k: nat)
    requires u < |b| && v < |b| && Kind(b, ss, u, k) < Kind(b, ss, v, k)
    ensures Cmp(b, u, v, k) < 0
    decreases k
  {
    if b[u] == b[v] {
      KindOrders(b, ss, Succ(|b|, u), Succ(|b|, v), k - 1);
    }
  }

  // ----- the queue

  /** x comes no later than y when the scan runs upwards (side < 0) or downwards (side > 0). */
  ghost predicate Before(b: seq<Byte>, side: int, x: int, y: int)
    requires 0 <= x < |b| && 0 <= y < |b|
  {
    if side < 0 then Cmp(b, x, y, |b|) <= 0 else Cmp(b, y, x, |b|) <= 0
  }

  ghost predicate InOrder(b: seq<Byte>, side: int, q: seq<int>) {
    && (forall i :: 0 <= i < |q| ==> 0 <= q[i] < |b|)
    && (forall i, j :: 0 <= i < j < |q| ==> q[i] != q[j] && Before(b, side, q[i], q[j]))
  }

  /** The predecessors with first byte c of the scanned rotations, in scanning order. */
  function Preds(b: seq<Byte>, sc: seq<int>, c: int): seq<int> {
    if sc == [] then []
    else
      var k, r := |sc| - 1, Preds(b, sc[..|sc| - 1], c);
      if 0 <= sc[k] < |b| && b[Pred(|b|, sc[k])] == c then r + [Pred(|b|, sc[k])] else r
  }

  lemma {:induction false} PredsFrom(b: seq<Byte>, sc: seq<int>, c: int, i: int) returns (j: int)
    requires 0 <= i < |Preds(b, sc, c)|
    ensures 0 <= Preds(b, sc, c)[i] < |b| && b[Preds(b, sc, c)[i]] == c
    ensures i <= j < |sc| && Succ(|b|, Preds(b, sc, c)[i]) == sc[j]
  {
    var k := |sc| - 1;
    if i < |Preds(b, sc[..k], c)| {
      j := PredsFrom(b, sc[..k], c, i);
    } else {
      PredsFewer(b, sc[..k], c);
      j := k;
    }
  }

  lemma {:induction false} PredsFewer(b: seq<Byte>, sc: seq<int>, c: int)
    ensures |Preds(b, sc, c)| <= |sc|
  {
    if sc != [] {
      PredsFewer(b, sc[..|sc| - 1], c);
    }
  }

  lemma {:induction false} PredsHas(b: seq<Byte>, sc: seq<int>, c: int, w: nat)
    requires w < |b| && b[w] == c && Succ(|b|, w) in sc
    ensures w in Preds(b, sc, c)
  {
    var k := |sc| - 1;
    if sc[k] == Succ(|b|, w) {
      assert Pred(|b|, sc[k]) == w;
    } else {
      assert sc == sc[..k] + [sc[k]];
      PredsHas(b, sc[..k], c, w);
    }
  }

  /** Before holds for predecessors with equal first byte as it holds for what follows them. */
  lemma BeforeBehind(b: seq<Byte>, side: int, x: nat, y: nat)
    requires x < |b| && y < |b| && b[x] == b[y]
    ensures Before(b, side, x, y) <==> Before(b, side, Succ(|b|, x), Succ(|b|, y))
  {
    CmpShift(b, x, y);
    CmpShift(b, y, x);
  }

  lemma PredsNewest(b: seq<Byte>, side: int, sc: seq<int>, c: int, i: int)
    requires sc != [] && InOrder(b, side, sc) && b[Pred(|b|, sc[|sc| - 1])] == c
    requires 0 <= i < |Preds(b, sc[..|sc| - 1], c)|
    ensures 0 <= Preds(b, sc[..|sc| - 1], c)[i] < |b|
    ensures Preds(b, sc[..|sc| - 1], c)[i] != Pred(|b|, sc[|sc| - 1])
    ensures Before(b, side, Preds(b, sc[..|sc| - 1], c)[i], Pred(|b|, sc[|sc| - 1]))
  {
    var k := |sc| - 1;
    var j := PredsFrom(b, sc[..k], c, i);
    assert sc[..k][j] == sc[j];
    BeforeBehind(b, side, Preds(b, sc[..k], c)[i], Pred(|b|, sc[k]));
  }

  /** The predecessors of a list in order are in order. */
  lemma {:induction false} PredsInOrder(b: seq<Byte>, side: int, sc: seq<int>, c: int)
    requires InOrder(b, side, sc)
    ensures InOrder(b, side, Preds(b, sc, c))
  {
    if sc != [] {
      var k := |sc| - 1;
      var r := Preds(b, sc[..k], c);
      PredsInOrder(b, side, sc[..k], c);
      var w := Pred(|b|, sc[k]);
      if b[w] == c {
        forall i | 0 <= i < |r|
          ensures r[i] != w && Before(b, side, r[i], w)
        {
          PredsNewest(b, side, sc, c, i);
        }
      }
    }
  }

  /** The rotations that start with ss and continue below (side < 0) or above (side > 0) ss. */
  ghost predicate IsStatic(b: seq<Byte>, ss: Byte, side: int, x: int) {
    && 0 <= x < |b| && b[x] == ss
    && if side < 0 then b[Succ(|b|, x)] < ss else b[Succ(|b|, x)] > ss
  }

  ghost predicate Static(b: seq<Byte>, ss: Byte, side: int, s0: seq<int>) {
    && InOrder(b, side, s0)
    && (forall i :: 0 <= i < |s0| ==> IsStatic(b, ss, side, s0[i]))
    && (forall x :: IsStatic(b, ss, side, x) ==> x in s0)
  }

  function Queue(b: seq<Byte>, ss: Byte, s0: seq<int>, sc: seq<int>): seq<int> {
    s0 + Preds(b, sc, ss)
  }

  /** The scan reads its own queue, element by element. */
  ghost predicate Scanned(b: seq<Byte>, ss: Byte, side: int, s0: seq<int>, sc: seq<int>)
    decreases |sc|
  {
    if sc == [] then side in {-1, 1} && Static(b, ss, side, s0)
    else
      var k := |sc| - 1;
      && Scanned(b, ss, side, s0, sc[..k])
      && k < |Queue(b, ss, s0, sc[..k])| && sc[k] == Queue(b, ss, s0, sc[..k])[k]
  }

  /** What has been scanned is a prefix of the queue, which is in order and leans to one side. */
  ghost predicate Regular(b: seq<Byte>, ss: Byte, side: int, s0: seq<int>, sc: seq<int>) {
    && side in {-1, 1} && Static(b, ss, side, s0)
    && (forall i :: 0 <= i < |sc| ==> 0 <= sc[i] < |b|)
    && |sc| <= |Queue(b, ss, s0, sc)| && sc == Queue(b, ss, s0, sc)[..|sc|]
    && InOrder(b, side, Queue(b, ss, s0, sc))
    && (forall x :: x in Queue(b, ss, s0, sc) ==> 0 <= x < |b| && b[x] == ss && Lean(b, ss, x) == side)
  }

  lemma StaticLeans(b: seq<Byte>, ss: Byte, side: int, x: int)
    requires side in {-1, 1} && IsStatic(b, ss, side, x)
    ensures Lean(b, ss, x) == side
  {
    if |b| >= 2 {
      assert Kind(b, ss, x, |b|) == Kind(b, ss, Succ(|b|, x), |b| - 1);
    }
  }

  lemma RegularStarts(b: seq<Byte>, ss: Byte, side: int, s0: seq<int>)
    requires side in {-1, 1} && Static(b, ss, side, s0)
    ensures Regular(b, ss, side, s0, [])
  {
    assert Queue(b, ss, s0, []) == s0;
    forall x | x in s0
      ensures 0 <= x < |b| && b[x] == ss && Lean(b, ss, x) == side
    {
      StaticLeans(b, ss, side, x);
    }
  }

  lemma PredsStep(b: seq<Byte>, sc: seq<int>, x: int, c: int)
    requires 0 <= x < |b|
    ensures Preds(b, sc + [x], c)
         == Preds(b, sc, c) + if b[Pred(|b|, x)] == c then [Pred(|b|, x)] else []
  {
    assert (sc + [x])[..|sc|] == sc;
  }

  /** A rotation that starts with ss twice comes after the static ones. */
  lemma StaticFirst(b: seq<Byte>, ss: Byte, side: int, x: int, w: nat)
    requires side in {-1, 1} && IsStatic(b, ss, side, x) && w < |b| && b[w] == ss && b[Succ(|b|, w)] == ss
    ensures x != w && Before(b, side, x, w)
  {
    BeforeBehind(b, side, x, w);
    var x', w' := Succ(|b|, x), Succ(|b|, w);
    assert b[x'] != b[w'];
    assert side < 0 ==> Cmp(b, x', w', |b|) < 0;
    assert side > 0 ==> Cmp(b, w', x', |b|) < 0;
  }

  /** What the queue gains keeps it in order. */
  lemma QueueGrows(b: seq<Byte>, ss: Byte, side: int, s0: seq<int>, sc: seq<int>, x: int)
    requires Regular(b, ss, side, s0, sc) && |sc| < |Queue(b, ss, s0, sc)|
    requires x == Queue(b, ss, s0, sc)[|sc|] && b[Pred(|b|, x)] == ss
    ensures InOrder(b, side, Queue(b, ss, s0, sc) + [Pred(|b|, x)])
  {
    var q, w := Queue(b, ss, s0, sc), Pred(|b|, x);
    forall i | 0 <= i < |q|
      ensures q[i] != w && Before(b, side, q[i], w)
    {
      QueueBefore(b, ss, side, s0, sc, x, i);
    }
  }

  lemma QueueBefore(b: seq<Byte>, ss: Byte, side: int, s0: seq<int>, sc: seq<int>, x: int, i: int)
    requires Regular(b, ss, side, s0, sc) && |sc| < |Queue(b, ss, s0, sc)|
    requires x == Queue(b, ss, s0, sc)[|sc|] && b[Pred(|b|, x)] == ss
    requires 0 <= i < |Queue(b, ss, s0, sc)|
    ensures Queue(b, ss, s0, sc)[i] != Pred(|b|, x)
    ensures Before(b, side, Queue(b, ss, s0, sc)[i], Pred(|b|, x))
  {
    var q, w := Queue(b, ss, s0, sc), Pred(|b|, x);
    assert x in q;
    if i < |s0| {
      StaticFirst(b, ss, side, q[i], w);
    } else {
      var j := PredsFrom(b, sc, ss, i - |s0|);
      assert q[i] == Preds(b, sc, ss)[i - |s0|] && sc[j] == q[j];
      BeforeBehind(b, side, q[i], w);
    }
  }

  lemma RegularStep(b: seq<Byte>, ss: Byte, side: int, s0: seq<int>, sc: seq<int>)
    requires Regular(b, ss, side, s0, sc) && |sc| < |Queue(b, ss, s0, sc)|
    ensures Regular(b, ss, side, s0, sc + [Queue(b, ss, s0, sc)[|sc|]])
  {
    var q := Queue(b, ss, s0, sc);
    var x := q[|sc|];
    var sc' := sc + [x];
    assert x in q;
    PredsStep(b, sc, x, ss);
    var w := Pred(|b|, x);
    if b[w] == ss {
      QueueGrows(b, ss, side, s0, sc, x);
      LeanPred(b, ss, x);
      assert Queue(b, ss, s0, sc') == q + [w];
    } else {
      assert Queue(b, ss, s0, sc') == q;
    }
    assert sc' == q[..|sc'|];
  }

  lemma {:induction false} ScannedRegular(b: seq<Byte>, ss: Byte, side: int, s0: seq<int>, sc: seq<int>)
    requires Scanned(b, ss, side, s0, sc)
    ensures Regular(b, ss, side, s0, sc)
    decreases |sc|
  {
    if sc == [] {
      RegularStarts(b, ss, side, s0);
    } else {
      var k := |sc| - 1;
      ScannedRegular(b, ss, side, s0, sc[..k]);
      RegularStep(b, ss, side, s0, sc[..k]);
      assert sc == sc[..k] + [sc[k]];
    }
  }

  /** The next element of the queue may be scanned. */
  lemma ScanStep(b: seq<Byte>, ss: Byte, side: int, s0: seq<int>, sc: seq<int>, x: int)
    requires Scanned(b, ss, side, s0, sc) && |sc| < |Queue(b, ss, s0, sc)| && x == Queue(b, ss, s0, sc)[|sc|]
    ensures 0 <= x < |b| && Scanned(b, ss, side, s0, sc + [x])
  {
    assert x in Queue(b, ss, s0, sc);
    assert 0 <= x < |b| by { ScannedRegular(b, ss, side, s0, sc); }
    assert (sc + [x])[..|sc|] == sc;
  }

  /** When the queue has run empty, every rotation that leans to this side has been scanned. */
  lemma {:induction false} ScanComplete(b: seq<Byte>, ss: Byte, side: int, s0: seq<int>, sc: seq<int>, u: nat, k: nat)
    requires Regular(b, ss, side, s0, sc) && |sc| == |Queue(b, ss, s0, sc)|
    requires u < |b| && b[u] == ss && Kind(b, ss, u, k) == side
    ensures u in sc
    decreases k
  {
    assert sc == Queue(b, ss, s0, sc);
    var v := Succ(|b|, u);
    if b[v] == ss {
      ScanComplete(b, ss, side, s0, sc, v, k - 1);
      PredsHas(b, sc, ss, u);
    } else {
      assert k >= 2;
      assert IsStatic(b, ss, side, u);
    }
  }
}
