/** mainSort's order of work: big buckets, the least full ones first. */
module MainOrder {
  import opened Permutations
  import opened Slices
  import opened QuickStack
  import opened MainQSort

  /** The number of rotations in each big bucket. */
  function Sizes(ftab: seq<int>): (r: seq<int>)
    requires |ftab| == 65537
    ensures |r| == 256
  {
    seq(256, c requires 0 <= c < 256 => ftab[256 * (c + 1)] - ftab[256 * c])
  }

  lemma HoleDown(orig: seq<int>, s: seq<int>, j: int, h: int, v: int)
    requires 0 <= j - h < j < |s| == 256 && IsPerm(orig) && PermOn(orig, Filled(s, j, v), 0, 256)
    ensures PermOn(orig, Filled(s[j := s[j - h]], j - h, v), 0, 256)
  {
    var u := Filled(s, j, v);
    PermThen(orig, u, j, j - h, 0, 256);
    assert Swapped(u, j, j - h) == Filled(s[j := s[j - h]], j - h, v);
  }

  lemma HoleInRange(orig: seq<int>, s: seq<int>, j: int, h: int, v: int)
    requires 0 <= j - h < j < |s| == 256 && IsPerm(orig) && PermOn(orig, Filled(s, j, v), 0, 256)
    ensures 0 <= s[j - h] < 256 && 0 <= v < 256
  {
    PermStays(orig, Filled(s, j, v), 0, 256);
    assert Filled(s, j, v)[j - h] == s[j - h] && Filled(s, j, v)[j] == v;
    PermOutside(orig, Filled(s, j, v), 0, 256);
  }

  /** One insertion with stride h, from position i downwards. */
  method InsertBig(order: array<int>, ftab: array<int>, i: int, h: int)
    requires order != ftab && order.Length == 256 && ftab.Length == 65537 && IsPerm(order[..])
    requires 1 <= h <= i <= 255
    modifies order
    ensures PermOn(old(order[..]), order[..], 0, 256)
    ensures h == 1 && PartSorted(old(order[..]), Sizes(ftab[..]), [], 0, i - 1) ==>
              PartSorted(order[..], Sizes(ftab[..]), [], 0, i)
  {
    ghost var was, sizes := order[..], Sizes(ftab[..]);
    var vv, j := order[i], i;
    PermSame(was, 0, 256);
    assert Filled(was, i, vv) == was;
    while true
      invariant h <= j <= i && ftab[..] == old(ftab[..])
      invariant PermOn(was, Filled(order[..], j, vv), 0, 256)
      invariant h == 1 ==> Raised(was, order[..], sizes, 0, j, i, vv)
      decreases j
    {
      ghost var s := order[..];
      HoleInRange(was, s, j, h, vv);
      var u := order[j - h];
      if ftab[256 * (u + 1)] - ftab[256 * u] <= ftab[256 * (vv + 1)] - ftab[256 * vv] {
        break;
      }
      HoleDown(was, s, j, h, vv);
      if h == 1 {
        RaiseStep(was, s, sizes, 0, j, i, vv);
      }
      order[j] := order[j - h];
      assert order[..] == s[j := s[j - h]];
      j := j - h;
      if j <= h - 1 {
        break;
      }
    }
    ghost var s := order[..];
    if h == 1 && PartSorted(was, sizes, [], 0, i - 1) {
      RaiseDone(was, s, sizes, 0, j, i, vv);
    }
    order[j] := vv;
    assert order[..] == Filled(s, j, vv);
  }

  /** One pass of the shell sort. */
  method OrderPass(order: array<int>, ftab: array<int>, h: int)
    requires order != ftab && order.Length == 256 && ftab.Length == 65537 && IsPerm(order[..])
    requires 1 <= h
    modifies order
    ensures IsPerm(order[..])
    ensures h == 1 ==> PartSorted(order[..], Sizes(ftab[..]), [], 0, 255)
  {
    ghost var sizes := Sizes(ftab[..]);
    var i := h;
    while i <= 255
      invariant h <= i && IsPerm(order[..]) && ftab[..] == old(ftab[..])
      invariant h == 1 ==> i <= 256 && PartSorted(order[..], sizes, [], 0, i - 1)
    {
      ghost var s := order[..];
      InsertBig(order, ftab, i, h);
      PermStays(s, order[..], 0, 256);
      i := i + 1;
    }
  }

  /** All 256 big buckets, by size. */
  method RunningOrder(order: array<int>, ftab: array<int>)
    requires order != ftab && order.Length == 256 && ftab.Length == 65537
    modifies order
    ensures IsPerm(order[..]) && SortedBy(order[..], Sizes(ftab[..]))
  {
    for i := 0 to 256
      invariant forall c :: 0 <= c < i ==> order[c] == c
    {
      order[i] := i;
    }
    var h := 1;
    h := 3 * h + 1;
    while h <= 256
      invariant h in {4, 13, 40, 121, 364}
      decreases 364 - h
    {
      h := 3 * h + 1;
    }
    while h != 1
      invariant h in {364, 121, 40, 13, 4, 1} && IsPerm(order[..])
      invariant h == 1 ==> PartSorted(order[..], Sizes(ftab[..]), [], 0, 255)
      decreases h
    {
      h := h / 3;
      OrderPass(order, ftab, h);
    }
    forall x, y | 0 <= x < y < 256
      ensures Sizes(ftab[..])[order[x]] <= Sizes(ftab[..])[order[y]]
    {
      assert Ordered(order[..], Sizes(ftab[..]), x, y) || Covers([], x, y);
    }
  }
}
