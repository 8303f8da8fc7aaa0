/** The decoder's move-to-front list: sixteen windows of sixteen entries that slide down a 4096-byte array. */
module MtfWindows {
  import opened Mtf

  const MTFA_SIZE := 4096
  const MTFL_SIZE := 16
  const ROWS := 16

  /** The windows lie in order, without overlap, inside the array, and leave room below. */
  ghost predicate Windows(base: seq<int>) {
    && |base| == ROWS && 1 <= base[0] && base[15] + MTFL_SIZE <= MTFA_SIZE
    && forall j {:trigger Apart(base, j)} :: 0 <= j < 15 ==> Apart(base, j)
  }

  ghost predicate Apart(base: seq<int>, j: int)
    requires |base| == ROWS && 0 <= j < 15
  {
    base[j] + MTFL_SIZE <= base[j + 1]
  }

  lemma {:induction false} WindowsOrdered(base: seq<int>, i: int, j: int)
    requires Windows(base) && 0 <= i <= j < ROWS
    ensures base[i] + MTFL_SIZE * (j - i) <= base[j]
    decreases j - i
  {
    if i < j {
      WindowsOrdered(base, i, j - 1);
      assert Apart(base, j - 1);
    }
  }

  lemma InArray(base: seq<int>, j: int)
    requires Windows(base) && 0 <= j < ROWS
    ensures 1 + MTFL_SIZE * j <= base[j] <= MTFA_SIZE - MTFL_SIZE * (ROWS - j)
  {
    WindowsOrdered(base, 0, j);
    WindowsOrdered(base, j, 15);
  }

  ghost predicate Fits(m: seq<int>, base: seq<int>) {
    |m| == MTFA_SIZE && |base| == ROWS && forall j :: 0 <= j < ROWS ==> 0 <= base[j] <= MTFA_SIZE - MTFL_SIZE
  }

  /** Entry r of window j. */
  function Entry(m: seq<int>, base: seq<int>, j: int, r: int): int
    requires |m| == MTFA_SIZE && |base| == ROWS && 0 <= j < ROWS && 0 <= r < MTFL_SIZE
    requires 0 <= base[j] <= MTFA_SIZE - MTFL_SIZE
  {
    m[base[j] + r]
  }

  /** The abstract list: the windows one after the other. */
  ghost function List(m: seq<int>, base: seq<int>): (l: seq<int>)
    requires Fits(m, base)
    ensures |l| == 256
  {
    seq(256, k requires 0 <= k < 256 => Entry(m, base, k / MTFL_SIZE, k % MTFL_SIZE))
  }

  // ----- initialisation and rebuilding

  /** Windows j.. stand at the top of the array. */
  ghost predicate AtTop(base: seq<int>, j: int) {
    |base| == ROWS && forall i :: j <= i < ROWS && 0 <= i ==> base[i] == MTFA_SIZE - 256 + MTFL_SIZE * i
  }

  method Init(mtfa: array<int>, mtfbase: array<int>)
    requires mtfa != mtfbase && mtfa.Length == MTFA_SIZE && mtfbase.Length == ROWS
    modifies mtfa, mtfbase
    ensures Windows(mtfbase[..]) && Fits(mtfa[..], mtfbase[..])
    ensures List(mtfa[..], mtfbase[..]) == seq(256, k => k)
  {
    var kk, ii := MTFA_SIZE - 1, ROWS - 1;
    while ii >= 0
      invariant -1 <= ii < ROWS && kk == MTFA_SIZE - 256 + MTFL_SIZE * (ii + 1) - 1
      invariant AtTop(mtfbase[..], ii + 1)
      invariant forall x :: kk < x < MTFA_SIZE ==> mtfa[x] == x - (MTFA_SIZE - 256)
    {
      var jj := MTFL_SIZE - 1;
      while jj >= 0
        invariant -1 <= jj < MTFL_SIZE && kk == MTFA_SIZE - 256 + MTFL_SIZE * ii + jj
        invariant forall x :: kk < x < MTFA_SIZE ==> mtfa[x] == x - (MTFA_SIZE - 256)
        modifies mtfa
      {
        mtfa[kk] := ii * MTFL_SIZE + jj;
        kk := kk - 1;
        jj := jj - 1;
      }
      mtfbase[ii] := kk + 1;
      ii := ii - 1;
    }
    assert forall i :: 0 <= i < ROWS ==> mtfbase[i] == mtfbase[..][i] == MTFA_SIZE - 256 + MTFL_SIZE * i;
  }

  /** Windows j.. have been copied to the top, the others are untouched. */
  ghost predicate Rebuilt(m0: seq<int>, base0: seq<int>, m: seq<int>, base: seq<int>, kk: int, ii: int)
    requires Fits(m0, base0)
  {
    && Fits(m, base) && -1 <= ii < ROWS && AtTop(base, ii + 1)
    && (forall j :: 0 <= j <= ii ==> base[j] == base0[j])
    && (forall x :: 0 <= x <= kk && x < MTFA_SIZE ==> m[x] == m0[x])
    && (forall k :: 0 <= k < 256 && kk < MTFA_SIZE - 256 + k ==> m[MTFA_SIZE - 256 + k] == List(m0, base0)[k])
  }

  /** Copies all windows to the top of the array. Source and target overlap, but a target is never below its source. */
  method Rebuild(mtfa: array<int>, mtfbase: array<int>)
    requires mtfa != mtfbase && Fits(mtfa[..], mtfbase[..])
    requires forall j :: 0 <= j < ROWS ==> mtfbase[j] <= MTFA_SIZE - 256 + MTFL_SIZE * j
    modifies mtfa, mtfbase
    ensures Windows(mtfbase[..]) && Fits(mtfa[..], mtfbase[..])
    ensures List(mtfa[..], mtfbase[..]) == old(List(mtfa[..], mtfbase[..]))
  {
    ghost var m0, base0 := mtfa[..], mtfbase[..];
    var kk, ii := MTFA_SIZE - 1, ROWS - 1;
    while ii >= 0
      invariant kk == MTFA_SIZE - 256 + MTFL_SIZE * (ii + 1) - 1
      invariant Rebuilt(m0, base0, mtfa[..], mtfbase[..], kk, ii)
    {
      var jj := MTFL_SIZE - 1;
      while jj >= 0
        invariant -1 <= jj < MTFL_SIZE && kk == MTFA_SIZE - 256 + MTFL_SIZE * ii + jj
        invariant Rebuilt(m0, base0, mtfa[..], mtfbase[..], kk, ii)
        modifies mtfa
      {
        assert List(m0, base0)[MTFL_SIZE * ii + jj] == m0[base0[ii] + jj];
        assert mtfbase[ii] == mtfbase[..][ii] == base0[ii];
        assert mtfa[base0[ii] + jj] == mtfa[..][base0[ii] + jj] == m0[base0[ii] + jj];
        mtfa[kk] := mtfa[mtfbase[ii] + jj];
        kk := kk - 1;
        jj := jj - 1;
      }
      mtfbase[ii] := kk + 1;
      ii := ii - 1;
    }
    assert forall i :: 0 <= i < ROWS ==> mtfbase[i] == mtfbase[..][i] == MTFA_SIZE - 256 + MTFL_SIZE * i;
    forall k | 0 <= k < 256
      ensures List(mtfa[..], mtfbase[..])[k] == List(m0, base0)[k]
    {
      assert MTFL_SIZE * (k / MTFL_SIZE) + k % MTFL_SIZE == k;
      assert mtfa[..][MTFA_SIZE - 256 + k] == List(m0, base0)[k];
    }
  }

  // ----- moving an entry of the first window to the front

  /** Entries pp+lo+1 .. pp+hi hold what stood one place before. */
  ghost predicate Shifted(m0: seq<int>, m: seq<int>, pp: int, lo: int, hi: int) {
    && |m| == |m0| && 0 <= pp && 0 <= lo <= hi && pp + hi < |m|
    && (forall x {:trigger m[x]} :: pp + lo < x <= pp + hi ==> m[x] == m0[x - 1])
    && (forall x {:trigger m[x]} :: 0 <= x < |m| && !(pp + lo < x <= pp + hi) ==> m[x] == m0[x])
  }

  method PullUp(mtfa: array<int>, pp: int, nn: int, ghost hi: int, ghost m0: seq<int>)
    requires 0 < nn && Shifted(m0, mtfa[..], pp, nn, hi)
    modifies mtfa
    ensures Shifted(m0, mtfa[..], pp, nn - 1, hi)
  {
    mtfa[pp + nn] := mtfa[pp + nn - 1];
  }

  method MoveNear(mtfa: array<int>, mtfbase: array<int>, nn0: nat) returns (uc: int)
    requires mtfa != mtfbase && mtfa.Length == MTFA_SIZE && Windows(mtfbase[..]) && nn0 < MTFL_SIZE
    requires Fits(mtfa[..], mtfbase[..])
    modifies mtfa
    ensures Windows(mtfbase[..]) && Fits(mtfa[..], mtfbase[..])
    ensures uc == old(List(mtfa[..], mtfbase[..]))[nn0]
    ensures List(mtfa[..], mtfbase[..]) == ToFront(old(List(mtfa[..], mtfbase[..])), nn0)
  {
    ghost var m0 := mtfa[..];
    var pp, nn := mtfbase[0], nn0;
    uc := mtfa[pp + nn];
    while nn > 3
      invariant 0 <= nn <= nn0 && Shifted(m0, mtfa[..], pp, nn, nn0)
    {
      PullUp(mtfa, pp, nn, nn0, m0);
      PullUp(mtfa, pp, nn - 1, nn0, m0);
      PullUp(mtfa, pp, nn - 2, nn0, m0);
      PullUp(mtfa, pp, nn - 3, nn0, m0);
      nn := nn - 4;
    }
    while nn > 0
      invariant 0 <= nn <= nn0 && Shifted(m0, mtfa[..], pp, nn, nn0)
    {
      PullUp(mtfa, pp, nn, nn0, m0);
      nn := nn - 1;
    }
    ghost var m := mtfa[..];
    mtfa[pp] := uc;
    NearList(m0, m, mtfbase[..], nn0);
    assert mtfa[..] == m[pp := uc];
  }

  lemma NearList(m0: seq<int>, m: seq<int>, base: seq<int>, nn: nat)
    requires |m0| == MTFA_SIZE && Windows(base) && Fits(m0, base) && nn < MTFL_SIZE && Shifted(m0, m, base[0], 0, nn)
    ensures Fits(m[base[0] := m0[base[0] + nn]], base)
    ensures List(m[base[0] := m0[base[0] + nn]], base) == ToFront(List(m0, base), nn)
  {
    var m' := m[base[0] := m0[base[0] + nn]];
    var l, t := List(m0, base), ToFront(List(m0, base), nn);
    forall k | 0 <= k < 256
      ensures List(m', base)[k] == t[k]
    {
      var j, r := k / MTFL_SIZE, k % MTFL_SIZE;
      WindowsOrdered(base, 0, j);
      if 0 < k <= nn {
        assert (k - 1) / MTFL_SIZE == 0 && (k - 1) % MTFL_SIZE == k - 1;
        assert l[k - 1] == m0[base[0] + k - 1];
      }
    }
  }

  // ----- moving an entry of a later window to the front

  /** Where window j starts in the end: the windows before lno move down by one. */
  function Target(base0: seq<int>, lno: int, j: int): int
    requires 0 <= j < |base0|
  {
    if j < lno then base0[j] - 1 else base0[j]
  }

  ghost predicate Bases(base0: seq<int>, base: seq<int>, lno: int, l: int) {
    && |base| == |base0| == ROWS
    && forall j :: 0 <= j < ROWS ==> base[j] == Target(base0, lno, j) + if j <= l then 1 else 0
  }

  /** What window j holds at t while only the tail of window lno has been shifted. */
  function Before(m0: seq<int>, base0: seq<int>, lno: int, off: int, j: int, t: int): int
    requires Fits(m0, base0) && 0 <= j < ROWS && 0 <= t < MTFL_SIZE
  {
    if j == lno && 1 <= t <= off then Entry(m0, base0, j, t - 1) else Entry(m0, base0, j, t)
  }

  /** The windows above l have received the last entry of their neighbour below. */
  ghost predicate Slid(m0: seq<int>, base0: seq<int>, m: seq<int>, lno: int, off: int, l: int) {
    && |m| == |m0| == MTFA_SIZE && Windows(base0) && Fits(m0, base0) && 0 <= l <= lno < ROWS && 0 <= off < MTFL_SIZE
    && (forall j :: l < j <= lno ==> 0 < base0[j] && m[Target(base0, lno, j)] == Entry(m0, base0, j - 1, 15))
    && (forall j, t {:trigger Entry(m, base0, j, t)} :: 0 <= j < ROWS && 0 <= t < MTFL_SIZE && !(j == lno && t == 0) ==>
          Entry(m, base0, j, t) == Before(m0, base0, lno, off, j, t))
  }

  /** Where the next entry goes, no window below has anything else. */
  lemma SlideApart(base0: seq<int>, lno: int, l: int, j: int, t: int)
    requires Windows(base0) && 0 < l <= lno < ROWS && 0 <= j < ROWS && 0 <= t < MTFL_SIZE && !(j == lno && t == 0)
    ensures base0[j] + t == Target(base0, lno, l) ==> j == l - 1 && t == 15
    ensures 0 <= Target(base0, lno, l) < MTFA_SIZE
  {
    InArray(base0, l);
    if j < l {
      WindowsOrdered(base0, j, l);
    } else {
      WindowsOrdered(base0, l, j);
    }
    if j < l - 1 {
      WindowsOrdered(base0, j, l - 1);
      WindowsOrdered(base0, l - 1, l);
    }
  }

  lemma SlideEntry(m0: seq<int>, base0: seq<int>, m: seq<int>, lno: int, off: int, l: int, j: int, t: int)
    requires Slid(m0, base0, m, lno, off, l) && l > 0
    requires 0 <= j < ROWS && 0 <= t < MTFL_SIZE && !(j == lno && t == 0) && 0 <= Target(base0, lno, l) < MTFA_SIZE
    ensures Entry(m[Target(base0, lno, l) := Entry(m0, base0, l - 1, 15)], base0, j, t) == Before(m0, base0, lno, off, j, t)
  {
    SlideApart(base0, lno, l, j, t);
    assert Entry(m, base0, j, t) == Before(m0, base0, lno, off, j, t);
  }

  lemma SlideReads(m0: seq<int>, base0: seq<int>, m: seq<int>, lno: int, off: int, l: int)
    requires Slid(m0, base0, m, lno, off, l) && l > 0
    ensures 0 <= Target(base0, lno, l) < MTFA_SIZE && Entry(m, base0, l - 1, 15) == Entry(m0, base0, l - 1, 15)
  {
    InArray(base0, l);
    assert Entry(m, base0, l - 1, 15) == Before(m0, base0, lno, off, l - 1, 15);
  }

  lemma SlideFirst(m0: seq<int>, base0: seq<int>, m: seq<int>, lno: int, off: int, l: int, j: int)
    requires Slid(m0, base0, m, lno, off, l) && l > 0 && l - 1 < j <= lno && 0 <= Target(base0, lno, l) < MTFA_SIZE
    ensures 0 < base0[j]
    ensures m[Target(base0, lno, l) := Entry(m0, base0, l - 1, 15)][Target(base0, lno, j)] == Entry(m0, base0, j - 1, 15)
  {
    InArray(base0, j);
    WindowsOrdered(base0, l, j);
  }

  lemma SlideStep(m0: seq<int>, base0: seq<int>, m: seq<int>, lno: int, off: int, l: int)
    requires Slid(m0, base0, m, lno, off, l) && l > 0 && 0 <= Target(base0, lno, l) < MTFA_SIZE
    ensures Slid(m0, base0, m[Target(base0, lno, l) := Entry(m0, base0, l - 1, 15)], lno, off, l - 1)
  {
    var m' := m[Target(base0, lno, l) := Entry(m0, base0, l - 1, 15)];
    forall j, t | 0 <= j < ROWS && 0 <= t < MTFL_SIZE && !(j == lno && t == 0)
      ensures Entry(m', base0, j, t) == Before(m0, base0, lno, off, j, t)
    {
      SlideEntry(m0, base0, m, lno, off, l, j, t);
    }
    forall j | l - 1 < j <= lno
      ensures 0 < base0[j] && m'[Target(base0, lno, j)] == Entry(m0, base0, j - 1, 15)
    {
      SlideFirst(m0, base0, m, lno, off, l, j);
    }
  }

  /** The entry before entry k of the list. */
  lemma ListBefore(m0: seq<int>, base0: seq<int>, k: int)
    requires Fits(m0, base0) && 0 < k < 256
    ensures var j, r := k / MTFL_SIZE, k % MTFL_SIZE;
      List(m0, base0)[k - 1] == if r > 0 then Entry(m0, base0, j, r - 1) else Entry(m0, base0, j - 1, 15)
  {
    var j, r := k / MTFL_SIZE, k % MTFL_SIZE;
    var j', r' := (k - 1) / MTFL_SIZE, (k - 1) % MTFL_SIZE;
    assert if r > 0 then j' == j && r' == r - 1 else j' == j - 1 && r' == 15;
  }

  lemma FarEntry(m0: seq<int>, base0: seq<int>, m: seq<int>, base: seq<int>, lno: int, off: int, j: int, r: int)
    requires Slid(m0, base0, m, lno, off, 0) && Bases(base0, base, lno, -1) && lno > 0 && Fits(m, base)
    requires 0 <= j < ROWS && 0 <= r < MTFL_SIZE && !(j == 0 && r == 0)
    ensures base[j] + r != base0[0] - 1
    ensures Entry(m, base, j, r)
         == if MTFL_SIZE * j + r > MTFL_SIZE * lno + off then Entry(m0, base0, j, r)
            else if r > 0 then Entry(m0, base0, j, r - 1) else Entry(m0, base0, j - 1, 15)
  {
    WindowsOrdered(base0, 0, j);
    InArray(base0, j);
    if j < lno {
      if r > 0 {
        assert Entry(m, base, j, r) == Entry(m, base0, j, r - 1) == Before(m0, base0, lno, off, j, r - 1);
      }
    } else if !(j == lno && r == 0) {
      assert Entry(m, base, j, r) == Entry(m, base0, j, r) == Before(m0, base0, lno, off, j, r);
    }
  }

  lemma FarFits(m: seq<int>, base0: seq<int>, base: seq<int>, lno: int)
    requires |m| == MTFA_SIZE && Windows(base0) && Bases(base0, base, lno, -1) && 0 < lno < ROWS
    ensures Fits(m, base) && 0 <= base0[0] - 1 < MTFA_SIZE && base[0] == base0[0] - 1
  {
    InArray(base0, 0);
    forall j | 0 <= j < ROWS
      ensures 0 <= base[j] <= MTFA_SIZE - MTFL_SIZE
    {
      InArray(base0, j);
    }
  }

  lemma FarAt(m0: seq<int>, base0: seq<int>, m: seq<int>, base: seq<int>, lno: int, off: int, uc: int, j: int, r: int)
    requires Slid(m0, base0, m, lno, off, 0) && Bases(base0, base, lno, -1) && lno > 0 && Fits(m, base)
    requires 0 <= j < ROWS && 0 <= r < MTFL_SIZE && !(j == 0 && r == 0) && 0 <= base0[0] - 1 < MTFA_SIZE
    ensures var k, nn := MTFL_SIZE * j + r, MTFL_SIZE * lno + off;
      Entry(m[base0[0] - 1 := uc], base, j, r) == if k <= nn then List(m0, base0)[k - 1] else Entry(m0, base0, j, r)
  {
    var k := MTFL_SIZE * j + r;
    assert k / MTFL_SIZE == j && k % MTFL_SIZE == r;
    FarEntry(m0, base0, m, base, lno, off, j, r);
    ListBefore(m0, base0, k);
  }

  lemma FarList(m0: seq<int>, base0: seq<int>, m: seq<int>, base: seq<int>, lno: int, off: int, uc: int)
    requires Slid(m0, base0, m, lno, off, 0) && Bases(base0, base, lno, -1) && lno > 0 && Fits(m, base)
    requires uc == Entry(m0, base0, lno, off) && 0 <= base0[0] - 1 < MTFA_SIZE
    ensures List(m[base0[0] - 1 := uc], base) == ToFront(List(m0, base0), MTFL_SIZE * lno + off)
  {
    var l, nn := List(m0, base0), MTFL_SIZE * lno + off;
    assert l[nn] == uc && base[0] == base0[0] - 1;
    forall k | 0 <= k < 256
      ensures List(m[base0[0] - 1 := uc], base)[k] == ToFront(l, nn)[k]
    {
      if k > 0 {
        FarAt(m0, base0, m, base, lno, off, uc, k / MTFL_SIZE, k % MTFL_SIZE);
      }
      ToFrontAt(l, nn, k);
    }
  }

  lemma ToFrontAt(l: seq<int>, nn: nat, k: nat)
    requires nn < |l| && k < |l|
    ensures ToFront(l, nn)[k] == if k == 0 then l[nn] else if k <= nn then l[k - 1] else l[k]
  {
  }

  /** The part of window lno in front of the entry moves up by one. */
  method ShiftWindow(mtfa: array<int>, mtfbase: array<int>, lno: int, off: int) returns (uc: int)
    requires mtfa != mtfbase && mtfa.Length == MTFA_SIZE && Windows(mtfbase[..]) && Fits(mtfa[..], mtfbase[..])
    requires 0 < lno < ROWS && 0 <= off < MTFL_SIZE
    modifies mtfa
    ensures uc == old(mtfa[mtfbase[lno] + off])
    ensures Slid(old(mtfa[..]), mtfbase[..], mtfa[..], lno, off, lno)
  {
    ghost var m0, base := mtfa[..], mtfbase[..];
    InArray(base, lno);
    var pp := mtfbase[lno] + off;
    uc := mtfa[pp];
    while pp > mtfbase[lno]
      invariant base[lno] <= pp <= base[lno] + off && mtfbase[..] == base
      invariant Shifted(m0, mtfa[..], base[lno], pp - base[lno], off)
    {
      mtfa[pp] := mtfa[pp - 1];
      pp := pp - 1;
    }
    ghost var m := mtfa[..];
    forall j, t | 0 <= j < ROWS && 0 <= t < MTFL_SIZE && !(j == lno && t == 0)
      ensures Entry(m, base, j, t) == Before(m0, base, lno, off, j, t)
    {
      if j < lno {
        WindowsOrdered(base, j, lno);
      } else {
        WindowsOrdered(base, lno, j);
      }
    }
  }

  /** The windows in front of lno hand on their last entries and move down. */
  method SlideDown(mtfa: array<int>, mtfbase: array<int>, lno: int, ghost off: int, ghost m0: seq<int>, ghost base0: seq<int>)
    requires mtfa != mtfbase && mtfa.Length == MTFA_SIZE && mtfbase.Length == ROWS && 0 < lno < ROWS
    requires Bases(base0, mtfbase[..], lno, lno) && Slid(m0, base0, mtfa[..], lno, off, lno)
    modifies mtfa, mtfbase
    ensures Bases(base0, mtfbase[..], lno, 0) && Slid(m0, base0, mtfa[..], lno, off, 0)
  {
    var l := lno;
    while l > 0
      invariant 0 <= l <= lno && Bases(base0, mtfbase[..], lno, l) && Slid(m0, base0, mtfa[..], lno, off, l)
    {
      ghost var m, base := mtfa[..], mtfbase[..];
      SlideReads(m0, base0, m, lno, off, l);
      SlideStep(m0, base0, m, lno, off, l);
      mtfbase[l] := mtfbase[l] - 1;
      assert mtfbase[..] == base[l := base[l] - 1] && mtfbase[l - 1] == base[l - 1] == base0[l - 1];
      mtfa[mtfbase[l]] := mtfa[mtfbase[l - 1] + MTFL_SIZE - 1];
      assert mtfa[..] == m[Target(base0, lno, l) := Entry(m0, base0, l - 1, 15)];
      l := l - 1;
    }
  }

  method MoveFar(mtfa: array<int>, mtfbase: array<int>, nn: nat) returns (uc: int)
    requires mtfa != mtfbase && mtfa.Length == MTFA_SIZE && Windows(mtfbase[..]) && MTFL_SIZE <= nn < 256
    requires Fits(mtfa[..], mtfbase[..])
    modifies mtfa, mtfbase
    ensures Windows(mtfbase[..]) && Fits(mtfa[..], mtfbase[..])
    ensures uc == old(List(mtfa[..], mtfbase[..]))[nn]
    ensures List(mtfa[..], mtfbase[..]) == ToFront(old(List(mtfa[..], mtfbase[..])), nn)
  {
    ghost var m0, base0 := mtfa[..], mtfbase[..];
    var lno, off := nn / MTFL_SIZE, nn % MTFL_SIZE;
    uc := ShiftWindow(mtfa, mtfbase, lno, off);
    mtfbase[lno] := mtfbase[lno] + 1;
    SlideDown(mtfa, mtfbase, lno, off, m0, base0);
    PutFront(mtfa, mtfbase, lno, off, uc, m0, base0);
    RebuildIfLow(mtfa, mtfbase);
  }

  /** The first window moves down and takes the entry. */
  method PutFront(mtfa: array<int>, mtfbase: array<int>, lno: int, ghost off: int, uc: int, ghost m0: seq<int>, ghost base0: seq<int>)
    requires mtfa != mtfbase && mtfa.Length == MTFA_SIZE && mtfbase.Length == ROWS && 0 < lno < ROWS
    requires Bases(base0, mtfbase[..], lno, 0) && Slid(m0, base0, mtfa[..], lno, off, 0) && uc == Entry(m0, base0, lno, off)
    modifies mtfa, mtfbase
    ensures Fits(mtfa[..], mtfbase[..]) && (mtfbase[0] > 0 ==> Windows(mtfbase[..]))
    ensures forall j :: 0 <= j < ROWS ==> mtfbase[j] <= MTFA_SIZE - 256 + MTFL_SIZE * j
    ensures List(mtfa[..], mtfbase[..]) == ToFront(List(m0, base0), MTFL_SIZE * lno + off)
  {
    ghost var was := mtfbase[..];
    mtfbase[0] := mtfbase[0] - 1;
    assert mtfbase[..] == was[0 := was[0] - 1];
    ghost var m, base := mtfa[..], mtfbase[..];
    FarFits(m, base0, base, lno);
    FarList(m0, base0, m, base, lno, off, uc);
    LowRoom(base0, base, lno);
    mtfa[mtfbase[0]] := uc;
    assert mtfa[..] == m[base0[0] - 1 := uc] && mtfbase[..] == base;
  }

  method RebuildIfLow(mtfa: array<int>, mtfbase: array<int>)
    requires mtfa != mtfbase && Fits(mtfa[..], mtfbase[..]) && (mtfbase[0] > 0 ==> Windows(mtfbase[..]))
    requires forall j :: 0 <= j < ROWS ==> mtfbase[j] <= MTFA_SIZE - 256 + MTFL_SIZE * j
    modifies mtfa, mtfbase
    ensures Windows(mtfbase[..]) && Fits(mtfa[..], mtfbase[..])
    ensures List(mtfa[..], mtfbase[..]) == old(List(mtfa[..], mtfbase[..]))
  {
    if mtfbase[0] == 0 {
      Rebuild(mtfa, mtfbase);
    }
  }

  /** Sliding keeps the windows apart; only the room below can have run out. */
  lemma LowRoom(base0: seq<int>, base: seq<int>, lno: int)
    requires Windows(base0) && Bases(base0, base, lno, -1) && 0 < lno < ROWS
    ensures base[0] >= 0 && (base[0] > 0 ==> Windows(base))
    ensures forall j :: 0 <= j < ROWS ==> base[j] <= MTFA_SIZE - 256 + MTFL_SIZE * j
  {
    forall j | 0 <= j < ROWS
      ensures base[j] <= MTFA_SIZE - 256 + MTFL_SIZE * j
    {
      InArray(base0, j);
    }
    forall j | 0 <= j < 15
      ensures Apart(base, j)
    {
      assert Apart(base0, j);
    }
  }

  /** One move to the front, as the plain list would do it. */
  method Move(mtfa: array<int>, mtfbase: array<int>, nn: nat) returns (uc: int)
    requires mtfa != mtfbase && mtfa.Length == MTFA_SIZE && Windows(mtfbase[..]) && nn < 256
    requires Fits(mtfa[..], mtfbase[..])
    modifies mtfa, mtfbase
    ensures Windows(mtfbase[..]) && Fits(mtfa[..], mtfbase[..])
    ensures uc == old(List(mtfa[..], mtfbase[..]))[nn]
    ensures List(mtfa[..], mtfbase[..]) == ToFront(old(List(mtfa[..], mtfbase[..])), nn)
  {
    if nn < MTFL_SIZE {
      uc := MoveNear(mtfa, mtfbase, nn);
    } else {
      uc := MoveFar(mtfa, mtfbase, nn);
    }
  }
}
