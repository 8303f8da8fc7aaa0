/** fallbackQSort3 and fallbackSimpleSort: sorting a stretch of fmap by equivalence class. */
module FallbackQSort {
  import opened Permutations
  import opened Slices
  import opened QuickStack
  import opened ThreeWay

  // ----- fallbackSimpleSort

  /** [lo, hi) is in key order. */
  ghost predicate KeySorted(s: seq<int>, key: seq<int>, lo: int, hi: int)
    requires lo + 1 < hi ==> 0 <= lo && hi <= |s|
  {
    forall x, y :: lo <= x < y < hi ==> Ordered(s, key, x, y)
  }

  /** s with the lifted element `tmp` put back into the hole at h. */
  function Filled(s: seq<int>, h: int, tmp: int): (t: seq<int>)
    requires 0 <= h < |s|
    ensures |t| == |s|
  {
    s[h := tmp]
  }

  /** Moving the hole from h to j copies the element at j down. */
  lemma MoveHole(orig: seq<int>, s: seq<int>, h: int, j: int, tmp: int, lo: int, hi: int)
    requires 0 <= lo <= h < j < hi <= |s|
    requires PermOn(orig, Filled(s, h, tmp), lo, hi)
    ensures |s| == |orig|
    ensures PermOn(orig, Filled(s[h := s[j]], j, tmp), lo, hi)
  {
    var u := Filled(s, h, tmp);
    PermThen(orig, u, h, j, lo, hi);
    assert Swapped(u, h, j) == Filled(s[h := s[j]], j, tmp);
  }

  /** With stride 1: [i, j-1) was copied down from [i+1, j) and is below ec; from j on nothing moved. */
  ghost predicate Shifted(was: seq<int>, s: seq<int>, key: seq<int>, i: int, j: int, hi: int, ec: int)
    requires 0 <= i < j <= hi + 1 <= |was| == |s|
  {
    && (forall x {:trigger s[x]} :: j <= x <= hi ==> s[x] == was[x])
    && (forall x {:trigger s[x]} :: i <= x < j - 1 ==> s[x] == was[x + 1])
    && (forall x :: i <= x < j - 1 ==> 0 <= s[x] < |key| && key[s[x]] < ec)
  }

  lemma ShiftStep(was: seq<int>, s: seq<int>, key: seq<int>, i: int, j: int, hi: int, ec: int)
    requires 0 <= i < j <= hi < |was| == |s|
    requires Shifted(was, s, key, i, j, hi, ec)
    requires 0 <= s[j] < |key| && key[s[j]] < ec
    ensures Shifted(was, s[j - 1 := s[j]], key, i, j + 1, hi, ec)
  {
  }

  lemma ShiftDone(was: seq<int>, s: seq<int>, key: seq<int>, i: int, j: int, hi: int, tmp: int)
    requires 0 <= i < j <= hi + 1 <= |was| == |s|
    requires 0 <= tmp < |key| && Shifted(was, s, key, i, j, hi, key[tmp])
    requires j <= hi ==> 0 <= s[j] < |key| && key[tmp] <= key[s[j]]
    requires KeySorted(was, key, i + 1, hi + 1)
    ensures KeySorted(Filled(s, j - 1, tmp), key, i, hi + 1)
  {
    var t := Filled(s, j - 1, tmp);
    forall x, y | i <= x < y < hi + 1
      ensures Ordered(t, key, x, y)
    {
      if y < j - 1 {
        assert Ordered(was, key, x + 1, y + 1);
      } else if x < j - 1 < y {
        assert Ordered(was, key, x + 1, y);
      } else if j - 1 < x {
        assert Ordered(was, key, x, y);
      } else if j < y {
        assert Ordered(was, key, j, y);
      }
    }
  }

  /** One insertion with stride g, from position i up to position hi. */
  method InsertUp(fmap: array<int>, eclass: array<int>, lo: int, hi: int, i: int, g: int)
    requires fmap != eclass && 0 <= lo <= i <= hi < fmap.Length && g >= 1
    requires InKey(fmap[..], eclass[..], lo, hi + 1)
    modifies fmap
    ensures PermOn(old(fmap[..]), fmap[..], lo, hi + 1)
    ensures InKey(fmap[..], eclass[..], lo, hi + 1)
    ensures g == 1 && KeySorted(old(fmap[..]), eclass[..], i + 1, hi + 1) ==>
              KeySorted(fmap[..], eclass[..], i, hi + 1)
  {
    var tmp := fmap[i];
    var ecTmp := eclass[tmp];
    var j := i + g;
    ghost var was, key := fmap[..], eclass[..];
    PermSame(was, lo, hi + 1);
    assert Filled(was, i, tmp) == was;
    while j <= hi && ecTmp > eclass[fmap[j]]
      invariant i + g <= j <= hi + g
      invariant InKey(fmap[..], key, lo, hi + 1)
      invariant PermOn(was, Filled(fmap[..], j - g, tmp), lo, hi + 1)
      invariant g == 1 ==> Shifted(was, fmap[..], key, i, j, hi, ecTmp)
    {
      MoveHole(was, fmap[..], j - g, j, tmp, lo, hi + 1);
      if g == 1 {
        ShiftStep(was, fmap[..], key, i, j, hi, ecTmp);
      }
      ghost var before := fmap[..];
      fmap[j - g] := fmap[j];
      assert fmap[..] == before[j - g := before[j]];
      j := j + g;
    }
    if g == 1 && KeySorted(was, key, i + 1, hi + 1) {
      ShiftDone(was, fmap[..], key, i, j, hi, tmp);
    }
    ghost var before := fmap[..];
    fmap[j - g] := tmp;
    assert fmap[..] == Filled(before, j - g, tmp);
  }

  method FallbackSimpleSort(fmap: array<int>, eclass: array<int>, lo: int, hi: int)
    requires fmap != eclass && 0 <= lo <= hi + 1 <= fmap.Length
    requires InKey(fmap[..], eclass[..], lo, hi + 1)
    modifies fmap
    ensures PermOn(old(fmap[..]), fmap[..], lo, hi + 1)
    ensures PartSorted(fmap[..], eclass[..], [], lo, hi)
  {
    PermSame(fmap[..], lo, hi + 1);
    if lo == hi {
      return;
    }
    if hi - lo > 3 {
      var i := hi - 4;
      while i >= lo
        invariant i <= hi - 4
        invariant InKey(fmap[..], eclass[..], lo, hi + 1)
        invariant PermOn(old(fmap[..]), fmap[..], lo, hi + 1)
      {
        ghost var mid := fmap[..];
        InsertUp(fmap, eclass, lo, hi, i, 4);
        PermTrans(old(fmap[..]), mid, fmap[..], lo, hi + 1);
        i := i - 1;
      }
    }
    var i := hi - 1;
    while i >= lo
      invariant i == hi - 1 || lo - 1 <= i < hi
      invariant InKey(fmap[..], eclass[..], lo, hi + 1)
      invariant PermOn(old(fmap[..]), fmap[..], lo, hi + 1)
      invariant KeySorted(fmap[..], eclass[..], i + 1, hi + 1)
    {
      ghost var mid := fmap[..];
      InsertUp(fmap, eclass, lo, hi, i, 1);
      PermTrans(old(fmap[..]), mid, fmap[..], lo, hi + 1);
      i := i - 1;
    }
  }

  // ----- fallbackQSort3

  lemma PartedIsPartSorted(s: seq<int>, key: seq<int>, lo: int, n: int, m: int, hi: int, med: int)
    requires Parted(s, key, lo, n, m, hi, med)
    ensures PartSorted(s, key, [Seg(lo, n), Seg(m, hi)], lo, hi)
    ensures PartSorted(s, key, [Seg(m, hi), Seg(lo, n)], lo, hi)
  {
    forall x, y | lo <= x < y <= hi
      ensures Ordered(s, key, x, y) || Covers([Seg(lo, n), Seg(m, hi)], x, y)
      ensures Ordered(s, key, x, y) || Covers([Seg(m, hi), Seg(lo, n)], x, y)
    {
      if y <= n {
        assert [Seg(lo, n), Seg(m, hi)][0].hi == n && [Seg(m, hi), Seg(lo, n)][1].hi == n;
      } else if m <= x {
        assert [Seg(lo, n), Seg(m, hi)][1].lo == m && [Seg(m, hi), Seg(lo, n)][0].lo == m;
      }
    }
  }

  lemma BandIsSorted(s: seq<int>, key: seq<int>, lo: int, hi: int, med: int)
    requires Band(s, key, lo, hi + 1, 0, med)
    ensures PartSorted(s, key, [], lo, hi)
  {
  }

  ghost function Work(st: seq<Seg>): nat {
    if st == [] then 0 else Work(st[..|st| - 1]) + Cost(st[|st| - 1])
  }

  ghost function Cost(seg: Seg): nat {
    if Size(seg) < 0 then 1 else 2 * Size(seg) + 1
  }

  lemma WorkPush(st: seq<Seg>, p: Seg, q: Seg)
    ensures Work(st + [p]) == Work(st) + Cost(p)
    ensures Work(st + [p, q]) == Work(st) + Cost(p) + Cost(q)
  {
    assert (st + [p])[..|st|] == st;
    assert (st + [p, q])[..|st| + 1] == st + [p];
  }

  lemma PushOk(st: seq<Seg>, seg: Seg, p: Seg, q: Seg, a: int, b: int)
    requires StackOk(st + [seg], a, b) && seg.lo <= seg.hi
    requires Disjoint([p, q]) && Within([p, q], seg.lo, seg.hi)
    requires Size(q) <= Size(p) && Size(p) + Size(q) < Size(seg)
    ensures StackOk(st + [p, q], a, b)
    ensures Work(st + [p, q]) < Work(st + [seg])
  {
    assert [p, q][0] == p && [p, q][1] == q;
    PushDisjoint(st, seg, [p, q], a, b);
    PushTwoShallow(st, seg, p, q, b - a + 1);
    WorkPush(st, p, q);
    WorkPush(st, seg, q);
  }

  lemma SegmentDone(was: seq<int>, s: seq<int>, t: seq<int>, key: seq<int>, rest: seq<Seg>, seg: Seg, a: int, b: int)
    requires SortState(was, s, key, rest + [seg], a, b)
    requires PermOn(s, t, seg.lo, seg.hi + 1) && PartSorted(t, key, [], seg.lo, seg.hi)
    ensures SortState(was, t, key, rest, a, b)
    ensures Work(rest) < Work(rest + [seg])
  {
    SegmentSorted(was, s, t, key, rest, seg, a, b);
    WorkPush(rest, seg, seg);
  }

  lemma SegmentSplit(was: seq<int>, s: seq<int>, t: seq<int>, key: seq<int>, rest: seq<Seg>, seg: Seg,
                     p: Seg, q: Seg, a: int, b: int)
    requires SortState(was, s, key, rest + [seg], a, b) && b - a + 1 < 0x8000_0000
    requires PermOn(s, t, seg.lo, seg.hi + 1) && PartSorted(t, key, [p, q], seg.lo, seg.hi)
    requires Disjoint([p, q]) && Within([p, q], seg.lo, seg.hi)
    requires Size(q) <= Size(p) && Size(p) + Size(q) < Size(seg) && Size(seg) > 10
    ensures SortState(was, t, key, rest + [p, q], a, b)
    ensures Work(rest + [p, q]) < Work(rest + [seg]) && |rest| <= 39
  {
    SortStep(was, s, t, key, rest, seg, a, b);
    DepthBound(rest + [seg], b - a + 1);
    PopOk(rest, seg, a, b);
    PushOk(rest, seg, p, q, a, b);
    PopPush(s, t, key, rest, seg, [p, q], a, b);
  }

  function Pending(done: bool, big: Seg, small: Seg): seq<Seg> {
    if done then [] else [big, small]
  }

  /** Sorts the popped segment [lo, hi], or splits it; a split leaves the larger part to be pushed first. */
  method Refine(fmap: array<int>, eclass: array<int>, lo: int, hi: int, r: int,
                ghost was: seq<int>, ghost rest: seq<Seg>, ghost a: int, ghost b: int)
    returns (r': int, done: bool, big: Seg, small: Seg)
    requires fmap != eclass && 0 <= a <= b < fmap.Length == |was| && fmap.Length < 0x8000_0000
    requires 0 <= r < 32768
    requires InKey(was, eclass[..], a, b + 1)
    requires SortState(was, fmap[..], eclass[..], rest + [Seg(lo, hi)], a, b)
    modifies fmap
    ensures 0 <= r' < 32768
    ensures !done ==> |rest| <= 39
    ensures SortState(was, fmap[..], eclass[..], rest + Pending(done, big, small), a, b)
    ensures Work(rest + Pending(done, big, small)) < Work(rest + [Seg(lo, hi)])
  {
    ghost var s, key, seg := fmap[..], eclass[..], Seg(lo, hi);
    PopOk(rest, seg, a, b);
    InKeyStays(was, s, key, a, b + 1, a, b + 1);
    done, r', big, small := true, r, Seg(lo, hi), Seg(lo, hi);
    assert rest + [] == rest;
    if hi - lo < 10 {
      FallbackSimpleSort(fmap, eclass, lo, hi);
      SegmentDone(was, s, fmap[..], key, rest, seg, a, b);
      return;
    }
    r' := (r * 7621 + 1) % 32768;
    var pivot := if r' % 3 == 0 then lo else if r' % 3 == 1 then (lo + hi) / 2 else hi;
    var med := eclass[fmap[pivot]];
    var n, m;
    done, n, m := Split(fmap, eclass, 0, eclass[..], lo, hi, med, pivot);
    assert eclass[0..] == key;
    if done {
      BandIsSorted(fmap[..], key, lo, hi, med);
      SegmentDone(was, s, fmap[..], key, rest, seg, a, b);
    } else {
      PartedIsPartSorted(fmap[..], key, lo, n, m, hi, med);
      if n - lo > hi - m {
        big, small := Seg(lo, n), Seg(m, hi);
      } else {
        big, small := Seg(m, hi), Seg(lo, n);
      }
      SegmentSplit(was, s, fmap[..], key, rest, seg, big, small, a, b);
    }
  }

  method Push(stackLo: array<int>, stackHi: array<int>, sp: int, lo: int, hi: int, ghost st: seq<Seg>)
    requires stackLo != stackHi && stackLo.Length == stackHi.Length
    requires 0 <= sp == |st| < stackLo.Length && Holds(stackLo[..], stackHi[..], st)
    modifies stackLo, stackHi
    ensures Holds(stackLo[..], stackHi[..], st + [Seg(lo, hi)])
  {
    stackLo[sp] := lo;
    stackHi[sp] := hi;
  }

  method Pop(stackLo: array<int>, stackHi: array<int>, sp: int, ghost st: seq<Seg>)
    returns (lo: int, hi: int, ghost rest: seq<Seg>)
    requires 0 < sp == |st| && Holds(stackLo[..], stackHi[..], st)
    ensures st == rest + [Seg(lo, hi)] && Holds(stackLo[..], stackHi[..], rest)
  {
    lo, hi, rest := stackLo[sp - 1], stackHi[sp - 1], st[..sp - 1];
    assert stackLo[sp - 1] == stackLo[..][sp - 1] && stackHi[sp - 1] == stackHi[..][sp - 1];
  }

  method PushPending(stackLo: array<int>, stackHi: array<int>, sp: int, done: bool, big: Seg, small: Seg,
                     ghost st: seq<Seg>)
    returns (sp': int)
    requires stackLo != stackHi && stackLo.Length == stackHi.Length
    requires 0 <= sp == |st| && Holds(stackLo[..], stackHi[..], st)
    requires !done ==> sp + 1 < stackLo.Length
    modifies stackLo, stackHi
    ensures Holds(stackLo[..], stackHi[..], st + Pending(done, big, small))
    ensures sp' == |st + Pending(done, big, small)|
  {
    assert st + [] == st;
    sp' := sp;
    if !done {
      Push(stackLo, stackHi, sp, big.lo, big.hi, st);
      Push(stackLo, stackHi, sp + 1, small.lo, small.hi, st + [big]);
      assert st + [big] + [small] == st + [big, small];
      sp' := sp + 2;
    }
  }

  method FallbackQSort3(fmap: array<int>, eclass: array<int>, loSt: int, hiSt: int)
    requires fmap != eclass && 0 <= loSt <= hiSt < fmap.Length < 0x8000_0000
    requires InKey(fmap[..], eclass[..], loSt, hiSt + 1)
    modifies fmap
    ensures PermOn(old(fmap[..]), fmap[..], loSt, hiSt + 1)
    ensures PartSorted(fmap[..], eclass[..], [], loSt, hiSt)
  {
    var stackLo, stackHi := new int[100], new int[100];
    var r, sp := 0, 1;
    ghost var st: seq<Seg> := [];
    ghost var was, key := fmap[..], eclass[..];
    Push(stackLo, stackHi, 0, loSt, hiSt, st);
    st := [Seg(loSt, hiSt)];
    assert [] + st == st;
    StackStarts(was, key, loSt, hiSt);
    while sp > 0
      invariant 0 <= r < 32768
      invariant sp == |st| <= 42 && Holds(stackLo[..], stackHi[..], st)
      invariant SortState(was, fmap[..], key, st, loSt, hiSt) && eclass[..] == key
      decreases Work(st)
    {
      assert sp < 100 - 1; // 1004
      ghost var rest;
      var lo, hi, done, big, small;
      lo, hi, rest := Pop(stackLo, stackHi, sp, st);
      r, done, big, small := Refine(fmap, eclass, lo, hi, r, was, rest, loSt, hiSt);
      sp := PushPending(stackLo, stackHi, sp - 1, done, big, small, rest);
      st := rest + Pending(done, big, small);
      assert eclass[..] == key;
    }
    assert st == [];
  }
}
