/** Rearranging a stretch of a sequence by exchanges, and what that cannot change. */
module Slices {
  import opened Permutations

  function Swapped(s: seq<int>, i: int, j: int): (t: seq<int>)
    requires 0 <= i < |s| && 0 <= j < |s|
    ensures |t| == |s|
  {
    s[i := s[j]][j := s[i]]
  }

  ghost predicate SwapsIn(w: seq<(int, int)>, lo: int, hi: int) {
    forall k :: 0 <= k < |w| ==> lo <= w[k].0 < hi && lo <= w[k].1 < hi
  }

  ghost function Apply(s: seq<int>, w: seq<(int, int)>): (t: seq<int>)
    requires SwapsIn(w, 0, |s|)
    ensures |t| == |s|
  {
    if w == [] then s
    else Swapped(Apply(s, w[..|w| - 1]), w[|w| - 1].0, w[|w| - 1].1)
  }

  ghost predicate Via(s: seq<int>, t: seq<int>, w: seq<(int, int)>, lo: int, hi: int) {
    0 <= lo <= hi <= |s| && SwapsIn(w, lo, hi) && Apply(s, w) == t
  }

  /** t is s with the elements of [lo, hi) rearranged among themselves. */
  ghost predicate PermOn(s: seq<int>, t: seq<int>, lo: int, hi: int) {
    exists w :: Via(s, t, w, lo, hi)
  }

  lemma PermSame(s: seq<int>, lo: int, hi: int)
    requires 0 <= lo <= hi <= |s|
    ensures PermOn(s, s, lo, hi)
  {
    assert Via(s, s, [], lo, hi);
  }

  lemma {:induction false} ApplyBoth(s: seq<int>, v: seq<(int, int)>, w: seq<(int, int)>)
    requires SwapsIn(v, 0, |s|) && SwapsIn(w, 0, |s|)
    ensures SwapsIn(v + w, 0, |s|) && Apply(s, v + w) == Apply(Apply(s, v), w)
  {
    if w == [] {
      assert v + w == v;
    } else {
      var k := |w| - 1;
      ApplyBoth(s, v, w[..k]);
      assert (v + w)[..|v + w| - 1] == v + w[..k];
    }
  }

  lemma PermTrans(s: seq<int>, t: seq<int>, u: seq<int>, lo: int, hi: int)
    requires PermOn(s, t, lo, hi) && PermOn(t, u, lo, hi)
    ensures PermOn(s, u, lo, hi)
  {
    var v :| Via(s, t, v, lo, hi);
    var w :| Via(t, u, w, lo, hi);
    ApplyBoth(s, v, w);
    assert Via(s, u, v + w, lo, hi);
  }

  lemma PermSwap(s: seq<int>, i: int, j: int, lo: int, hi: int)
    requires 0 <= lo <= i < hi <= |s| && lo <= j < hi
    ensures PermOn(s, Swapped(s, i, j), lo, hi)
  {
    var w := [(i, j)];
    assert Apply(s, w[..0]) == s;
    assert Via(s, Swapped(s, i, j), w, lo, hi);
  }

  /** One more exchange. */
  lemma PermThen(s: seq<int>, t: seq<int>, i: int, j: int, lo: int, hi: int)
    requires PermOn(s, t, lo, hi) && lo <= i < hi && lo <= j < hi
    ensures |t| == |s| && 0 <= lo && hi <= |s| && PermOn(s, Swapped(t, i, j), lo, hi)
  {
    var w :| Via(s, t, w, lo, hi);
    PermSwap(t, i, j, lo, hi);
    PermTrans(s, t, Swapped(t, i, j), lo, hi);
  }

  lemma PermWiden(s: seq<int>, t: seq<int>, lo: int, hi: int, lo': int, hi': int)
    requires PermOn(s, t, lo, hi) && 0 <= lo' <= lo && hi <= hi' <= |s|
    ensures PermOn(s, t, lo', hi')
  {
    var w :| Via(s, t, w, lo, hi);
    assert Via(s, t, w, lo', hi');
  }

  lemma {:induction false} ApplyMoves(s: seq<int>, w: seq<(int, int)>, lo: int, hi: int, y: int)
    returns (x: int, z: int)
    requires 0 <= lo <= hi <= |s| && SwapsIn(w, lo, hi) && 0 <= y < |s|
    ensures 0 <= x < |s| && 0 <= z < |s|
    ensures s[x] == Apply(s, w)[y] && s[y] == Apply(s, w)[z]
    ensures if lo <= y < hi then lo <= x < hi && lo <= z < hi else x == z == y
  {
    if w == [] {
      return y, y;
    }
    var k := |w| - 1;
    var i, j := w[k].0, w[k].1;
    var y' := if y == j then i else if y == i then j else y;
    var _, z' := ApplyMoves(s, w[..k], lo, hi, y);
    var x', _ := ApplyMoves(s, w[..k], lo, hi, y');
    x := x';
    z := if z' == j then i else if z' == i then j else z';
  }

  /** Outside the stretch nothing moves; inside, every element was there before. */
  lemma PermSource(s: seq<int>, t: seq<int>, lo: int, hi: int, y: int) returns (x: int)
    requires PermOn(s, t, lo, hi) && 0 <= y < |t|
    ensures |s| == |t| && 0 <= lo <= hi <= |s|
    ensures 0 <= x < |s| && s[x] == t[y]
    ensures if lo <= y < hi then lo <= x < hi else x == y
  {
    var w :| Via(s, t, w, lo, hi);
    var x', _ := ApplyMoves(s, w, lo, hi, y);
    x := x';
  }

  /** ... and every element is still there. */
  lemma PermTarget(s: seq<int>, t: seq<int>, lo: int, hi: int, x: int) returns (y: int)
    requires PermOn(s, t, lo, hi) && 0 <= x < |s|
    ensures |s| == |t| && 0 <= lo <= hi <= |s|
    ensures 0 <= y < |t| && s[x] == t[y]
    ensures if lo <= x < hi then lo <= y < hi else x == y
  {
    var w :| Via(s, t, w, lo, hi);
    var _, y' := ApplyMoves(s, w, lo, hi, x);
    y := y';
  }

  lemma PermOutside(s: seq<int>, t: seq<int>, lo: int, hi: int)
    requires PermOn(s, t, lo, hi)
    ensures |s| == |t| && 0 <= lo <= hi <= |s|
    ensures s[..lo] == t[..lo] && s[hi..] == t[hi..]
  {
    var w :| Via(s, t, w, lo, hi);
    forall x | 0 <= x < |s| && !(lo <= x < hi)
      ensures s[x] == t[x]
    {
      var y := PermSource(s, t, lo, hi, x);
    }
  }

  lemma {:induction false} ApplyStays(s: seq<int>, w: seq<(int, int)>)
    requires SwapsIn(w, 0, |s|) && IsPerm(s)
    ensures IsPerm(Apply(s, w))
  {
    if w != [] {
      ApplyStays(s, w[..|w| - 1]);
    }
  }

  /** Rearranging keeps a permutation a permutation. */
  lemma PermStays(s: seq<int>, t: seq<int>, lo: int, hi: int)
    requires PermOn(s, t, lo, hi) && IsPerm(s)
    ensures IsPerm(t)
  {
    var w :| Via(s, t, w, lo, hi);
    ApplyStays(s, w);
  }

  lemma {:induction false} ApplyPrefix(s: seq<int>, w: seq<(int, int)>, n: int)
    requires 0 <= n <= |s| && SwapsIn(w, 0, n)
    ensures Apply(s, w)[..n] == Apply(s[..n], w)
  {
    if w != [] {
      ApplyPrefix(s, w[..|w| - 1], n);
    }
  }

  lemma PermPrefix(s: seq<int>, t: seq<int>, lo: int, hi: int, n: int)
    requires PermOn(s, t, lo, hi) && hi <= n <= |s|
    ensures |t| == |s| && PermOn(s[..n], t[..n], lo, hi)
  {
    var w :| Via(s, t, w, lo, hi);
    ApplyPrefix(s, w, n);
    assert Via(s[..n], t[..n], w, lo, hi);
  }

  /** Keeps every element inside the key's domain. */
  ghost predicate InKey(s: seq<int>, key: seq<int>, lo: int, hi: int)
    requires 0 <= lo && hi <= |s|
  {
    forall x :: lo <= x < hi ==> 0 <= s[x] < |key|
  }

  lemma InKeyStays(s: seq<int>, t: seq<int>, key: seq<int>, lo: int, hi: int, a: int, b: int)
    requires PermOn(s, t, lo, hi) && 0 <= a <= lo && hi <= b <= |s| && InKey(s, key, a, b)
    ensures |t| == |s| && InKey(t, key, a, b)
  {
    var w :| Via(s, t, w, lo, hi);
    forall y | a <= y < b
      ensures 0 <= t[y] < |key|
    {
      var x := PermSource(s, t, lo, hi, y);
    }
  }
}
