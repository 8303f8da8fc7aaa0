/** How often symbols occur in a sequence, and where a stable sort by symbol sends each position. */
module Counting {
  import opened Permutations

  function CountBelow(l: seq<int>, c: int): nat {
    if l == [] then 0
    else CountBelow(l[..|l| - 1], c) + if l[|l| - 1] < c then 1 else 0
  }

  function CountOf(l: seq<int>, c: int): nat {
    if l == [] then 0
    else CountOf(l[..|l| - 1], c) + if l[|l| - 1] == c then 1 else 0
  }

  lemma {:induction false} CountSteps(l: seq<int>, c: int)
    ensures CountBelow(l, c) + CountOf(l, c) == CountBelow(l, c + 1) <= |l|
  {
    if l != [] {
      CountSteps(l[..|l| - 1], c);
    }
  }

  lemma {:induction false} CountExtremes(l: seq<int>, m: int)
    requires forall x :: 0 <= x < |l| ==> 0 <= l[x] < m
    ensures CountBelow(l, 0) == 0 && CountBelow(l, m) == |l|
  {
    if l != [] {
      CountExtremes(l[..|l| - 1], m);
    }
  }

  lemma {:induction false} CountMonotone(l: seq<int>, c: int, d: int)
    requires c <= d
    ensures CountBelow(l, c) <= CountBelow(l, d)
    decreases d - c
  {
    if c < d {
      CountSteps(l, c);
      CountMonotone(l, c + 1, d);
    }
  }

  /** Positions i < j: the prefix count at j has also seen position i. */
  lemma {:induction false} CountPrefix(l: seq<int>, c: int, i: nat, j: nat)
    requires i < j <= |l|
    ensures CountOf(l[..i], c) + (if l[i] == c then 1 else 0) <= CountOf(l[..j], c)
    decreases j
  {
    assert l[..j][..j - 1] == l[..j - 1];
    if i + 1 < j {
      CountPrefix(l, c, i, j - 1);
    }
  }

  /** Where a stable sort by symbol puts position i. */
  function Place(l: seq<int>, i: nat): (p: nat)
    requires i < |l|
  {
    CountBelow(l, l[i]) + CountOf(l[..i], l[i])
  }

  lemma PlaceInRange(l: seq<int>, i: nat)
    requires i < |l|
    ensures CountBelow(l, l[i]) <= Place(l, i) < CountBelow(l, l[i] + 1) <= |l|
  {
    CountPrefix(l, l[i], i, |l|);
    assert l[..|l|] == l;
    CountSteps(l, l[i]);
  }

  lemma PlaceOrders(l: seq<int>, i: nat, j: nat)
    requires i < |l| && j < |l|
    requires l[i] < l[j] || (l[i] == l[j] && i < j)
    ensures Place(l, i) < Place(l, j)
  {
    PlaceInRange(l, i);
    if l[i] < l[j] {
      CountMonotone(l, l[i] + 1, l[j]);
    } else {
      CountPrefix(l, l[i], i, j);
    }
  }

  /** All those places together: a permutation. */
  ghost function Places(l: seq<int>): (t: seq<int>)
    ensures |t| == |l| && forall i :: 0 <= i < |l| ==> t[i] == Place(l, i)
    ensures IsPerm(t)
  {
    var t := seq(|l|, i requires 0 <= i < |l| => Place(l, i));
    assert forall i :: 0 <= i < |l| ==> 0 <= t[i] < |l| by {
      forall i | 0 <= i < |l| ensures t[i] < |l| { PlaceInRange(l, i); }
    }
    assert forall i, j :: 0 <= i < j < |l| ==> t[i] != t[j] by {
      forall i, j | 0 <= i < j < |l| ensures t[i] != t[j] {
        if l[i] <= l[j] { PlaceOrders(l, i, j); } else { PlaceOrders(l, j, i); }
      }
    }
    t
  }

  /** k times the same value. */
  function Copies(c: int, k: nat): (r: seq<int>)
    ensures |r| == k
  {
    if k == 0 then [] else Copies(c, k - 1) + [c]
  }
}
