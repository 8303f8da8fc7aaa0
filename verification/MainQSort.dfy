/** mainSimpleSort and mainQSort3: sorting one small bucket of rotations. */
module MainQSort {
  import opened Permutations
  import opened Rotations
  import opened Slices
  import opened QuickStack
  import opened ThreeWay
  import opened MainCompare

  /** The rotations listed in [lo, hi] agree on their first d symbols. */
  ghost predicate Agree(s: seq<int>, b: seq<Byte>, lo: int, hi: int, d: nat) {
    && 0 <= lo && hi < |s|
    && (forall x :: lo <= x <= hi ==> 0 <= s[x] < |b|)
    && forall x, y :: lo <= x <= hi && lo <= y <= hi ==> Cmp(b, s[x], s[y], d) == 0
  }

  lemma AgreeStays(s: seq<int>, t: seq<int>, b: seq<Byte>, lo: int, hi: int, d: nat)
    requires Agree(s, b, lo, hi, d) && PermOn(s, t, lo, hi + 1)
    ensures Agree(t, b, lo, hi, d)
  {
    forall x, y | lo <= x <= hi && lo <= y <= hi
      ensures 0 <= t[x] < |b| && 0 <= t[y] < |b| && Cmp(b, t[x], t[y], d) == 0
    {
      var x' := PermSource(s, t, lo, hi + 1, x);
      var y' := PermSource(s, t, lo, hi + 1, y);
    }
    PermOutside(s, t, lo, hi + 1);
  }

  /** What both sorters read besides the pointers. */
  ghost predicate Inputs(block: array<int>, quadrant: array<int>, b: seq<Byte>)
    reads block, quadrant
  {
    Overshot(block[..], quadrant[..], b) && QuadrantsOrder(quadrant[..], b)
  }

  function Filled(s: seq<int>, h: int, v: int): (t: seq<int>)
    requires 0 <= h < |s|
    ensures |t| == |s|
  {
    s[h := v]
  }

  lemma MoveHoleDown(orig: seq<int>, s: seq<int>, b: seq<Byte>, j: int, h: int, v: int, lo: int, hi: int, d: nat)
    requires 0 <= lo <= j - h < j <= hi < |s| && Agree(orig, b, lo, hi, d)
    requires PermOn(orig, Filled(s, j, v), lo, hi + 1)
    ensures PermOn(orig, Filled(s[j := s[j - h]], j - h, v), lo, hi + 1)
    ensures Agree(Filled(s[j := s[j - h]], j - h, v), b, lo, hi, d)
  {
    var u := Filled(s, j, v);
    PermThen(orig, u, j, j - h, lo, hi + 1);
    assert Swapped(u, j, j - h) == Filled(s[j := s[j - h]], j - h, v);
    AgreeStays(orig, Swapped(u, j, j - h), b, lo, hi, d);
  }

  /** Stride 1: [lo, j) still as before, (j, i] copied up from [j, i) and not below v. */
  ghost predicate Raised(was: seq<int>, s: seq<int>, rank: seq<int>, lo: int, j: int, i: int, v: int)
    requires 0 <= lo <= j <= i < |was| == |s| && 0 <= v < |rank|
  {
    && (forall x {:trigger s[x]} :: lo <= x < j ==> s[x] == was[x])
    && (forall x {:trigger s[x]} :: j < x <= i ==> s[x] == was[x - 1])
    && (forall x :: j < x <= i ==> 0 <= s[x] < |rank| && rank[s[x]] >= rank[v])
    && (forall x {:trigger s[x]} :: i < x < |s| ==> s[x] == was[x])
  }

  lemma RaiseStep(was: seq<int>, s: seq<int>, rank: seq<int>, lo: int, j: int, i: int, v: int)
    requires 0 <= lo < j <= i < |was| == |s| && 0 <= v < |rank| && Raised(was, s, rank, lo, j, i, v)
    requires 0 <= s[j - 1] < |rank| && rank[s[j - 1]] >= rank[v]
    ensures Raised(was, s[j := s[j - 1]], rank, lo, j - 1, i, v)
  {
  }

  lemma RaiseDone(was: seq<int>, s: seq<int>, rank: seq<int>, lo: int, j: int, i: int, v: int)
    requires 0 <= lo <= j <= i < |was| == |s| && 0 <= v < |rank| && Raised(was, s, rank, lo, j, i, v)
    requires j > lo ==> 0 <= s[j - 1] < |rank| && rank[s[j - 1]] <= rank[v]
    requires PartSorted(was, rank, [], lo, i - 1)
    ensures PartSorted(Filled(s, j, v), rank, [], lo, i)
  {
    var t := Filled(s, j, v);
    forall x, y | lo <= x < y <= i
      ensures Ordered(t, rank, x, y)
    {
      if y < j {
        assert Ordered(was, rank, x, y);
      } else if y == j {
        assert x < j - 1 ==> Ordered(was, rank, x, j - 1);
      } else if x < j {
        assert x < y - 1 ==> Ordered(was, rank, x, y - 1);
      } else if j < x {
        assert Ordered(was, rank, x - 1, y - 1);
      }
    }
  }

  /** Whether the rotation h places below the hole goes behind v. */
  method Above(ptr: array<int>, block: array<int>, quadrant: array<int>, n: nat, j: int, h: int, v: int, budget: int, d: nat,
               ghost b: seq<Byte>, ghost lo: int, ghost hi: int)
    returns (greater: bool, budget': int)
    requires n == |b| && Inputs(block, quadrant, b) && d <= 15
    requires 0 <= lo && 1 <= h && lo + h <= j <= hi < ptr.Length && Agree(Filled(ptr[..], j, v), b, lo, hi, d)
    ensures budget' <= budget && 0 <= ptr[j - h] < n && 0 <= v < n
    ensures if greater then Rank(b)[ptr[j - h]] >= Rank(b)[v] else Rank(b)[ptr[j - h]] <= Rank(b)[v]
  {
    ghost var s := ptr[..];
    assert Filled(s, j, v)[j - h] == s[j - h] && Filled(s, j, v)[j] == v;
    greater, budget' := MainGtU(ptr[j - h] + d, v + d, block, quadrant, n, budget, b, ptr[j - h], v, d);
    RankOrders(b, ptr[j - h], v);
  }

  /** The hole moves down by h. */
  method MoveUp(ptr: array<int>, j: int, h: int, ghost b: seq<Byte>, ghost was: seq<int>, ghost rank: seq<int>, ghost i: int,
                ghost v: int, ghost lo: int, ghost hi: int, ghost d: nat)
    requires 0 <= lo && 1 <= h && lo + h <= j <= i <= hi && i < |was| == ptr.Length && 0 <= v < |rank|
    requires PermOn(was, Filled(ptr[..], j, v), lo, hi + 1) && Agree(Filled(ptr[..], j, v), b, lo, hi, d) && Agree(was, b, lo, hi, d)
    requires h == 1 ==> Raised(was, ptr[..], rank, lo, j, i, v) && 0 <= ptr[j - 1] < |rank| && rank[ptr[j - 1]] >= rank[v]
    modifies ptr
    ensures PermOn(was, Filled(ptr[..], j - h, v), lo, hi + 1) && Agree(Filled(ptr[..], j - h, v), b, lo, hi, d)
    ensures h == 1 ==> Raised(was, ptr[..], rank, lo, j - h, i, v)
  {
    ghost var s := ptr[..];
    MoveHoleDown(was, s, b, j, h, v, lo, hi, d);
    if h == 1 {
      RaiseStep(was, s, rank, lo, j, i, v);
    }
    ptr[j] := ptr[j - h];
    assert ptr[..] == s[j := s[j - h]];
  }

  /** One insertion with stride h, from position i down towards lo. */
  method InsertDown(ptr: array<int>, block: array<int>, quadrant: array<int>, n: nat, lo: int, hi: int,
                    i: int, h: int, d: nat, budget: int, ghost b: seq<Byte>)
    returns (budget': int)
    requires ptr != block && ptr != quadrant && n == |b| && Inputs(block, quadrant, b) && d <= 15
    requires 0 <= lo && 1 <= h && lo + h <= i <= hi && Agree(ptr[..], b, lo, hi, d)
    modifies ptr
    ensures PermOn(old(ptr[..]), ptr[..], lo, hi + 1)
    ensures h == 1 && PartSorted(old(ptr[..]), Rank(b), [], lo, i - 1) ==>
              PartSorted(ptr[..], Rank(b), [], lo, i)
    ensures budget' <= budget
  {
    budget' := budget;
    var v, j := ptr[i], i;
    ghost var was, rank := ptr[..], Rank(b);
    PermSame(was, lo, hi + 1);
    assert Filled(was, i, v) == was;
    var greater := true;
    while true
      invariant lo + h <= j <= i && budget' <= budget
      invariant PermOn(was, Filled(ptr[..], j, v), lo, hi + 1)
      invariant Agree(Filled(ptr[..], j, v), b, lo, hi, d)
      invariant h == 1 ==> Raised(was, ptr[..], rank, lo, j, i, v)
      decreases j
    {
      greater, budget' := Above(ptr, block, quadrant, n, j, h, v, budget', d, b, lo, hi);
      if !greater {
        break;
      }
      MoveUp(ptr, j, h, b, was, rank, i, v, lo, hi, d);
      j := j - h;
      if j <= lo + h - 1 {
        break;
      }
    }
    ghost var s := ptr[..];
    if h == 1 && PartSorted(was, rank, [], lo, i - 1) {
      RaiseDone(was, s, rank, lo, j, i, v);
    }
    ptr[j] := v;
    assert ptr[..] == Filled(s, j, v);
  }

  const INCS: seq<int> := [1, 4, 13, 40, 121, 364, 1093, 3280, 9841, 29524, 88573, 265720, 797161, 2391484]

  /** One pass with stride h; after every third insertion the budget is looked at. */
  method StridePass(ptr: array<int>, block: array<int>, quadrant: array<int>, n: nat, lo: int, hi: int,
                    h: int, d: nat, budget: int, ghost b: seq<Byte>)
    returns (budget': int, stopped: bool)
    requires ptr != block && ptr != quadrant && n == |b| && Inputs(block, quadrant, b) && d <= 15
    requires 0 <= lo && 1 <= h && lo + h <= hi < ptr.Length && Agree(ptr[..], b, lo, hi, d)
    modifies ptr
    ensures PermOn(old(ptr[..]), ptr[..], lo, hi + 1)
    ensures h == 1 && !stopped ==> PartSorted(ptr[..], Rank(b), [], lo, hi)
    ensures budget' <= budget && (stopped ==> budget' < 0)
  {
    budget', stopped := budget, false;
    ghost var was, rank := ptr[..], Rank(b);
    PermSame(was, lo, hi + 1);
    var i, copies := lo + h, 0;
    while i <= hi
      invariant lo + h <= i <= hi + 1 && budget' <= budget
      invariant PermOn(was, ptr[..], lo, hi + 1) && Inputs(block, quadrant, b)
      invariant h == 1 ==> PartSorted(ptr[..], rank, [], lo, i - 1)
    {
      ghost var s := ptr[..];
      AgreeStays(was, s, b, lo, hi, d);
      budget' := InsertDown(ptr, block, quadrant, n, lo, hi, i, h, d, budget', b);
      PermTrans(was, s, ptr[..], lo, hi + 1);
      i, copies := i + 1, copies + 1;
      if copies == 3 {
        copies := 0;
        if budget' < 0 {
          stopped := true;
          return;
        }
      }
    }
  }

  /** Shell sort. It may stop early once the budget is spent; otherwise the stretch ends up sorted. */
  method MainSimpleSort(ptr: array<int>, block: array<int>, quadrant: array<int>, n: nat, lo: int, hi: int,
                        d: nat, budget: int, ghost b: seq<Byte>)
    returns (budget': int)
    requires ptr != block && ptr != quadrant && n == |b| && Inputs(block, quadrant, b) && d <= 15
    requires 0 <= lo <= hi + 1 && hi < ptr.Length && Agree(ptr[..], b, lo, hi, d)
    requires hi - lo + 1 <= 2391484
    modifies ptr
    ensures PermOn(old(ptr[..]), ptr[..], lo, hi + 1)
    ensures budget' >= 0 ==> PartSorted(ptr[..], Rank(b), [], lo, hi)
    ensures budget' <= budget
  {
    budget' := budget;
    ghost var was, rank := ptr[..], Rank(b);
    PermSame(was, lo, hi + 1);
    var bigN := hi - lo + 1;
    if bigN < 2 {
      return;
    }
    var hp := 0;
    while INCS[hp] < bigN
      invariant 0 <= hp < 14 && (hp > 0 ==> INCS[hp - 1] < bigN)
      decreases 14 - hp
    {
      hp := hp + 1;
    }
    hp := hp - 1;
    while hp >= 0
      invariant -1 <= hp < 13 && (hp >= 0 ==> 1 <= INCS[hp] < bigN)
      invariant PermOn(was, ptr[..], lo, hi + 1) && budget' <= budget
      invariant Inputs(block, quadrant, b)
      invariant hp < 0 ==> PartSorted(ptr[..], rank, [], lo, hi)
    {
      ghost var s := ptr[..];
      AgreeStays(was, s, b, lo, hi, d);
      var stopped;
      budget', stopped := StridePass(ptr, block, quadrant, n, lo, hi, INCS[hp], d, budget', b);
      PermTrans(was, s, ptr[..], lo, hi + 1);
      if stopped {
        return;
      }
      hp := hp - 1;
    }
  }

  /** The median of three bytes. */
  function Mmed3(a: int, b: int, c: int): (m: int)
    ensures m in {a, b, c}
    ensures (a <= m && b <= m) || (a <= m && c <= m) || (b <= m && c <= m)
    ensures (m <= a && m <= b) || (m <= a && m <= c) || (m <= b && m <= c)
  {
    var lo, hi := if a > b then b else a, if a > b then a else b;
    if hi > c then (if lo > c then lo else c) else hi
  }

  // ----- the stack of mainQSort3

  /** Every pending segment agrees on the depth stacked with it. */
  ghost predicate Depths(s: seq<int>, b: seq<Byte>, st: seq<Seg>, ds: seq<int>) {
    && |ds| == |st|
    && forall k :: 0 <= k < |st| ==> 2 <= ds[k] <= 15 && Agree(s, b, st[k].lo, st[k].hi, ds[k])
  }

  lemma DepthsPop(s: seq<int>, t: seq<int>, b: seq<Byte>, st: seq<Seg>, ds: seq<int>, seg: Seg, d: nat)
    requires Depths(s, b, st + [seg], ds + [d]) && |st| == |ds| && Disjoint(st + [seg])
    requires PermOn(s, t, seg.lo, seg.hi + 1)
    ensures Depths(t, b, st, ds) && Agree(t, b, seg.lo, seg.hi, d) && 2 <= d <= 15
  {
    assert (st + [seg])[|st|] == seg && (ds + [d])[|st|] == d;
    AgreeStays(s, t, b, seg.lo, seg.hi, d);
    forall k | 0 <= k < |st|
      ensures 2 <= ds[k] <= 15 && Agree(t, b, st[k].lo, st[k].hi, ds[k])
    {
      assert (st + [seg])[k] == st[k] && (ds + [d])[k] == ds[k];
      AgreeElsewhere(s, t, b, st[k], ds[k], seg);
    }
  }

  lemma AgreeElsewhere(s: seq<int>, t: seq<int>, b: seq<Byte>, p: Seg, d: nat, seg: Seg)
    requires Agree(s, b, p.lo, p.hi, d) && PermOn(s, t, seg.lo, seg.hi + 1)
    requires p.hi < seg.lo || seg.hi < p.lo
    ensures Agree(t, b, p.lo, p.hi, d)
  {
    PermOutside(s, t, seg.lo, seg.hi + 1);
    forall x | p.lo <= x <= p.hi
      ensures t[x] == s[x]
    {
      var y := PermSource(s, t, seg.lo, seg.hi + 1, x);
    }
  }

  lemma DepthsPush(s: seq<int>, b: seq<Byte>, st: seq<Seg>, ds: seq<int>, parts: seq<Seg>, pd: seq<int>)
    requires Depths(s, b, st, ds) && Depths(s, b, parts, pd)
    ensures Depths(s, b, st + parts, ds + pd)
  {
  }

  /** The symbol that each rotation shows at depth d. */
  ghost predicate KeyAtDepth(key: seq<int>, b: seq<Byte>, d: nat) {
    |b| <= |key| && forall u :: 0 <= u < |b| ==> key[u] == b[Adv(|b|, u, d)]
  }

  /** Parting by the symbol at depth d sorts across the parts, and the middle agrees one symbol deeper. */
  lemma PartedOrders(s: seq<int>, b: seq<Byte>, key: seq<int>, d: nat, lo: int, n: int, m: int, hi: int, med: int)
    requires Agree(s, b, lo, hi, d) && Parted(s, key, lo, n, m, hi, med)
    requires KeyAtDepth(key, b, d)
    ensures Agree(s, b, lo, n, d) && Agree(s, b, n + 1, m - 1, d + 1) && Agree(s, b, m, hi, d)
    ensures forall x, y :: lo <= x < y <= hi && !(y <= n) && !(n < x && y < m) && !(m <= x) ==>
              Ordered(s, Rank(b), x, y)
  {
    forall x, y | n < x < m && n < y < m
      ensures Cmp(b, s[x], s[y], d + 1) == 0
    {
      CmpSplit(b, s[x], s[y], d, 1);
    }
    forall x, y | lo <= x < y <= hi && !(y <= n) && !(n < x && y < m) && !(m <= x)
      ensures Ordered(s, Rank(b), x, y)
    {
      CmpSplit(b, s[x], s[y], d, 1);
      CmpLong(b, s[x], s[y], d + 1);
      RankOrders(b, s[x], s[y]);
    }
  }

  lemma EqualDeepens(s: seq<int>, b: seq<Byte>, key: seq<int>, d: nat, lo: int, hi: int, med: int)
    requires Agree(s, b, lo, hi, d) && Band(s, key, lo, hi + 1, 0, med)
    requires KeyAtDepth(key, b, d)
    ensures Agree(s, b, lo, hi, d + 1)
  {
    forall x, y | lo <= x <= hi && lo <= y <= hi
      ensures Cmp(b, s[x], s[y], d + 1) == 0
    {
      CmpSplit(b, s[x], s[y], d, 1);
    }
  }

  datatype Job = Job(lo: int, hi: int, d: nat)

  function Segs(jobs: seq<Job>): (st: seq<Seg>)
    ensures |st| == |jobs|
  {
    seq(|jobs|, k requires 0 <= k < |jobs| => Seg(jobs[k].lo, jobs[k].hi))
  }

  function Ds(jobs: seq<Job>): (ds: seq<int>)
    ensures |ds| == |jobs|
  {
    seq(|jobs|, k requires 0 <= k < |jobs| => jobs[k].d)
  }

  ghost function Cost(seg: Seg, d: int): nat {
    1 + if 0 < Size(seg) && d < 16 then 4 * (16 - d) * Size(seg) else 0
  }

  ghost function Work(jobs: seq<Job>): nat {
    if jobs == [] then 0
    else
      var j := jobs[|jobs| - 1];
      Work(jobs[..|jobs| - 1]) + Cost(Seg(j.lo, j.hi), j.d)
  }

  lemma {:induction false} WorkAppend(jobs: seq<Job>, more: seq<Job>)
    ensures Work(jobs + more) == Work(jobs) + Work(more)
  {
    if more == [] {
      assert jobs + more == jobs;
    } else {
      var k := |more| - 1;
      WorkAppend(jobs, more[..k]);
      assert (jobs + more)[..|jobs + more| - 1] == jobs + more[..k];
    }
  }

  lemma WorkOne(p: Job)
    ensures Work([p]) == Cost(Seg(p.lo, p.hi), p.d)
  {
    assert [p][..0] == [];
  }

  lemma WorkThree(p: Job, q: Job, r: Job)
    ensures Work([p, q, r]) == Cost(Seg(p.lo, p.hi), p.d) + Cost(Seg(q.lo, q.hi), q.d) + Cost(Seg(r.lo, r.hi), r.d)
  {
    assert [p, q, r][..2] == [p, q] && [p, q][..1] == [p];
    WorkOne(p);
  }

  lemma CostSplits(lo: int, n: int, m: int, hi: int, d: nat)
    requires lo - 1 <= n && n + 1 < m <= hi + 1 && d <= 14
    ensures Cost(Seg(lo, n), d) + Cost(Seg(m, hi), d) + Cost(Seg(n + 1, m - 1), d + 1) < Cost(Seg(lo, hi), d)
  {
    var x, y, z, k := n - lo + 1, hi - m + 1, m - n - 1, 16 - d;
    assert 4 * k * (x + y + z) == 4 * k * x + 4 * k * y + 4 * k * z;
    assert 4 * (k - 1) * z == 4 * k * z - 4 * z;
  }

  /** Everything mainQSort3 keeps between two pops. */
  ghost predicate QState(was: seq<int>, s: seq<int>, b: seq<Byte>, jobs: seq<Job>, lo: int, hi: int) {
    SortState(was, s, Rank(b), Segs(jobs), lo, hi) && Depths(s, b, Segs(jobs), Ds(jobs))
  }

  lemma JobsAppend(jobs: seq<Job>, more: seq<Job>)
    ensures Segs(jobs + more) == Segs(jobs) + Segs(more) && Ds(jobs + more) == Ds(jobs) + Ds(more)
  {
  }

  lemma Opened(was: seq<int>, s: seq<int>, b: seq<Byte>, rest: seq<Job>, job: Job, lo: int, hi: int)
    requires QState(was, s, b, rest + [job], lo, hi)
    ensures Segs(rest + [job]) == Segs(rest) + [Seg(job.lo, job.hi)]
    ensures lo <= job.lo <= job.hi + 1 <= hi + 1
    ensures Agree(s, b, job.lo, job.hi, job.d) && 2 <= job.d <= 15
    ensures Depths(s, b, Segs(rest), Ds(rest))
  {
    JobsAppend(rest, [job]);
    var st, ds := Segs(rest + [job]), Ds(rest + [job]);
    assert Segs([job]) == [Seg(job.lo, job.hi)] && Ds([job]) == [job.d];
    assert st[|rest|] == Seg(job.lo, job.hi) && ds[|rest|] == job.d;
    PopOk(Segs(rest), Seg(job.lo, job.hi), lo, hi);
    forall k | 0 <= k < |rest|
      ensures st[k] == Segs(rest)[k] && ds[k] == Ds(rest)[k]
    {
    }
  }

  lemma DepthsReplaced(was: seq<int>, s: seq<int>, t: seq<int>, b: seq<Byte>, rest: seq<Job>, job: Job,
                       parts: seq<Job>, lo: int, hi: int)
    requires QState(was, s, b, rest + [job], lo, hi)
    requires PermOn(s, t, job.lo, job.hi + 1)
    requires Depths(t, b, Segs(parts), Ds(parts))
    ensures Depths(t, b, Segs(rest + parts), Ds(rest + parts))
  {
    Opened(was, s, b, rest, job, lo, hi);
    JobsAppend(rest, [job]);
    JobsAppend(rest, parts);
    assert Ds([job]) == [job.d];
    DepthsPop(s, t, b, Segs(rest), Ds(rest), Seg(job.lo, job.hi), job.d);
    DepthsPush(t, b, Segs(rest), Ds(rest), Segs(parts), Ds(parts));
  }

  /** The popped job may be replaced by jobs that leave its stretch part-sorted. */
  lemma JobReplaced(was: seq<int>, s: seq<int>, t: seq<int>, b: seq<Byte>, rest: seq<Job>, job: Job,
                    parts: seq<Job>, lo: int, hi: int)
    requires QState(was, s, b, rest + [job], lo, hi)
    requires PermOn(s, t, job.lo, job.hi + 1)
    requires PartSorted(t, Rank(b), Segs(parts), job.lo, job.hi)
    requires Depths(t, b, Segs(parts), Ds(parts))
    requires StackOk(Segs(rest) + Segs(parts), lo, hi)
    ensures QState(was, t, b, rest + parts, lo, hi)
  {
    DepthsReplaced(was, s, t, b, rest, job, parts, lo, hi);
    Opened(was, s, b, rest, job, lo, hi);
    JobsAppend(rest, parts);
    var st, seg := Segs(rest), Seg(job.lo, job.hi);
    SortStep(was, s, t, Rank(b), st, seg, lo, hi);
    PopPush(s, t, Rank(b), st, seg, Segs(parts), lo, hi);
  }

  lemma WorkReplaced(rest: seq<Job>, job: Job, parts: seq<Job>)
    requires Work(parts) < Work([job])
    ensures Work(rest + parts) < Work(rest + [job])
  {
    WorkAppend(rest, [job]);
    WorkAppend(rest, parts);
  }

  lemma JobDone(was: seq<int>, s: seq<int>, t: seq<int>, b: seq<Byte>, rest: seq<Job>, job: Job, lo: int, hi: int)
    requires QState(was, s, b, rest + [job], lo, hi)
    requires PermOn(s, t, job.lo, job.hi + 1) && PartSorted(t, Rank(b), [], job.lo, job.hi)
    ensures QState(was, t, b, rest + [], lo, hi) && Work(rest + []) < Work(rest + [job])
  {
    var none: seq<Job> := [];
    assert Segs(none) == [] && Ds(none) == [] && Segs(rest) + Segs(none) == Segs(rest);
    RestStacked(was, s, b, rest, job, lo, hi);
    JobReplaced(was, s, t, b, rest, job, none, lo, hi);
    LessWork(rest, job);
  }

  lemma RestStacked(was: seq<int>, s: seq<int>, b: seq<Byte>, rest: seq<Job>, job: Job, lo: int, hi: int)
    requires QState(was, s, b, rest + [job], lo, hi)
    ensures StackOk(Segs(rest), lo, hi)
  {
    Opened(was, s, b, rest, job, lo, hi);
    PopOk(Segs(rest), Seg(job.lo, job.hi), lo, hi);
  }

  lemma LessWork(rest: seq<Job>, job: Job)
    ensures Work(rest + []) < Work(rest + [job])
  {
    WorkOne(job);
    WorkReplaced(rest, job, []);
  }

  ghost predicate Shuffled(p: Job, q: Job, r: Job, x: Job, y: Job, z: Job) {
    || (p == x && q == y && r == z) || (p == x && q == z && r == y)
    || (p == y && q == x && r == z) || (p == y && q == z && r == x)
    || (p == z && q == x && r == y) || (p == z && q == y && r == x)
  }

  /** The parts of a split job, in whatever order. */
  ghost predicate Parts(p: Job, q: Job, r: Job, job: Job, n: int, m: int) {
    && job.lo - 1 <= n && n + 1 < m <= job.hi + 1
    && Shuffled(p, q, r, Job(job.lo, n, job.d), Job(m, job.hi, job.d), Job(n + 1, m - 1, job.d + 1))
  }

  lemma PartsCover(p: Job, q: Job, r: Job, job: Job, n: int, m: int, x: int, y: int)
    requires Parts(p, q, r, job, n, m) && job.lo <= x <= y <= job.hi
    requires y <= n || (n < x && y < m) || m <= x
    ensures Covers(Segs([p, q, r]), x, y)
  {
    var st := Segs([p, q, r]);
    assert st[0] == Seg(p.lo, p.hi) && st[1] == Seg(q.lo, q.hi) && st[2] == Seg(r.lo, r.hi);
    var k := if p.lo <= x && y <= p.hi then 0 else if q.lo <= x && y <= q.hi then 1 else 2;
    assert st[k].lo <= x && y <= st[k].hi;
  }

  lemma PartsFit(p: Job, q: Job, r: Job, job: Job, n: int, m: int)
    requires Parts(p, q, r, job, n, m)
    ensures Disjoint(Segs([p, q, r])) && Within(Segs([p, q, r]), job.lo, job.hi)
    ensures Segs([p, q, r]) == [Seg(p.lo, p.hi), Seg(q.lo, q.hi), Seg(r.lo, r.hi)]
  {
  }

  lemma PartsWork(p: Job, q: Job, r: Job, job: Job, n: int, m: int)
    requires Parts(p, q, r, job, n, m) && job.d <= 14
    ensures Work([p, q, r]) < Work([job])
  {
    CostSplits(job.lo, n, m, job.hi, job.d);
    WorkThree(p, q, r);
    WorkOne(job);
  }

  lemma PartsDepths(t: seq<int>, b: seq<Byte>, p: Job, q: Job, r: Job, job: Job, n: int, m: int)
    requires Parts(p, q, r, job, n, m) && 2 <= job.d <= 14
    requires Agree(t, b, job.lo, n, job.d) && Agree(t, b, n + 1, m - 1, job.d + 1) && Agree(t, b, m, job.hi, job.d)
    ensures Depths(t, b, Segs([p, q, r]), Ds([p, q, r]))
  {
    assert Ds([p, q, r]) == [p.d, q.d, r.d];
    assert Segs([p, q, r]) == [Seg(p.lo, p.hi), Seg(q.lo, q.hi), Seg(r.lo, r.hi)];
  }

  lemma PartsSorted(t: seq<int>, b: seq<Byte>, key: seq<int>, p: Job, q: Job, r: Job, job: Job, n: int, m: int, med: int)
    requires Parts(p, q, r, job, n, m) && 2 <= job.d <= 14 && KeyAtDepth(key, b, job.d)
    requires Agree(t, b, job.lo, job.hi, job.d) && Parted(t, key, job.lo, n, m, job.hi, med)
    ensures PartSorted(t, Rank(b), Segs([p, q, r]), job.lo, job.hi)
    ensures Depths(t, b, Segs([p, q, r]), Ds([p, q, r]))
  {
    PartedOrders(t, b, key, job.d, job.lo, n, m, job.hi, med);
    PartsDepths(t, b, p, q, r, job, n, m);
    var st := Segs([p, q, r]);
    forall x, y | job.lo <= x < y <= job.hi
      ensures Ordered(t, Rank(b), x, y) || Covers(st, x, y)
    {
      if y <= n || (n < x && y < m) || m <= x {
        PartsCover(p, q, r, job, n, m, x, y);
      }
    }
  }

  ghost predicate ByLength(p: Job, q: Job, r: Job) {
    p.hi - p.lo >= q.hi - q.lo >= r.hi - r.lo
  }

  /** The parts of a job, once rearranged, are part-sorted and agree on their depths. */
  lemma PartsReady(s: seq<int>, t: seq<int>, b: seq<Byte>, key: seq<int>, job: Job,
                   n: int, m: int, med: int, p: Job, q: Job, r: Job)
    requires Agree(s, b, job.lo, job.hi, job.d) && 2 <= job.d <= 14 && KeyAtDepth(key, b, job.d)
    requires PermOn(s, t, job.lo, job.hi + 1) && Parted(t, key, job.lo, n, m, job.hi, med) && Parts(p, q, r, job, n, m)
    ensures PartSorted(t, Rank(b), Segs([p, q, r]), job.lo, job.hi)
    ensures Depths(t, b, Segs([p, q, r]), Ds([p, q, r]))
  {
    AgreeStays(s, t, b, job.lo, job.hi, job.d);
    PartsSorted(t, b, key, p, q, r, job, n, m, med);
  }

  lemma SplitRoom(was: seq<int>, s: seq<int>, b: seq<Byte>, rest: seq<Job>, job: Job,
                  n: int, m: int, p: Job, q: Job, r: Job, lo: int, hi: int)
    requires QState(was, s, b, rest + [job], lo, hi) && hi - lo + 1 < 0x8000_0000
    requires Parts(p, q, r, job, n, m) && ByLength(p, q, r) && job.hi - job.lo >= 20
    ensures StackOk(Segs(rest) + Segs([p, q, r]), lo, hi) && |rest| <= 39
  {
    Opened(was, s, b, rest, job, lo, hi);
    SplitStack(Segs(rest), Seg(job.lo, job.hi), job, n, m, p, q, r, lo, hi);
  }

  lemma JobSplit(was: seq<int>, s: seq<int>, t: seq<int>, b: seq<Byte>, key: seq<int>, rest: seq<Job>, job: Job,
                 n: int, m: int, med: int, p: Job, q: Job, r: Job, lo: int, hi: int)
    requires QState(was, s, b, rest + [job], lo, hi) && hi - lo + 1 < 0x8000_0000
    requires Agree(s, b, job.lo, job.hi, job.d) && 2 <= job.d <= 14 && KeyAtDepth(key, b, job.d)
    requires PermOn(s, t, job.lo, job.hi + 1) && Parted(t, key, job.lo, n, m, job.hi, med)
    requires Parts(p, q, r, job, n, m) && ByLength(p, q, r) && job.hi - job.lo >= 20
    ensures QState(was, t, b, rest + [p, q, r], lo, hi) && |rest| <= 39
  {
    PartsReady(s, t, b, key, job, n, m, med, p, q, r);
    SplitRoom(was, s, b, rest, job, n, m, p, q, r, lo, hi);
    JobReplaced(was, s, t, b, rest, job, [p, q, r], lo, hi);
  }

  lemma SplitStack(st: seq<Seg>, seg: Seg, job: Job, n: int, m: int, p: Job, q: Job, r: Job, lo: int, hi: int)
    requires StackOk(st + [seg], lo, hi) && hi - lo + 1 < 0x8000_0000
    requires seg == Seg(job.lo, job.hi) && job.hi - job.lo >= 20
    requires Parts(p, q, r, job, n, m) && ByLength(p, q, r)
    ensures StackOk(st + Segs([p, q, r]), lo, hi) && |st| <= 39
  {
    PartsFit(p, q, r, job, n, m);
    PushDisjoint(st, seg, Segs([p, q, r]), lo, hi);
    PushThreeShallow(st, seg, Seg(p.lo, p.hi), Seg(q.lo, q.hi), Seg(r.lo, r.hi), hi - lo + 1);
    assert (st + [seg])[|st|] == seg;
    DepthBound(st + [seg], hi - lo + 1);
  }

  lemma DeeperReady(s: seq<int>, t: seq<int>, b: seq<Byte>, key: seq<int>, job: Job, med: int)
    requires Agree(s, b, job.lo, job.hi, job.d) && 2 <= job.d <= 14 && job.lo <= job.hi && KeyAtDepth(key, b, job.d)
    requires PermOn(s, t, job.lo, job.hi + 1) && Band(t, key, job.lo, job.hi + 1, 0, med)
    ensures PartSorted(t, Rank(b), Segs([job.(d := job.d + 1)]), job.lo, job.hi)
    ensures Depths(t, b, Segs([job.(d := job.d + 1)]), Ds([job.(d := job.d + 1)]))
  {
    var seg, next := Seg(job.lo, job.hi), job.(d := job.d + 1);
    assert Segs([next]) == [seg] && Ds([next]) == [next.d];
    AgreeStays(s, t, b, job.lo, job.hi, job.d);
    EqualDeepens(t, b, key, job.d, job.lo, job.hi, med);
    WholeCovered(t, Rank(b), seg);
  }

  /** A stretch with one symbol at depth d stays one job, one symbol deeper. */
  lemma JobDeeper(was: seq<int>, s: seq<int>, t: seq<int>, b: seq<Byte>, key: seq<int>, rest: seq<Job>, job: Job,
                  med: int, lo: int, hi: int)
    requires QState(was, s, b, rest + [job], lo, hi)
    requires Agree(s, b, job.lo, job.hi, job.d) && 2 <= job.d <= 14 && job.lo <= job.hi && KeyAtDepth(key, b, job.d)
    requires PermOn(s, t, job.lo, job.hi + 1) && Band(t, key, job.lo, job.hi + 1, 0, med)
    ensures QState(was, t, b, rest + [job.(d := job.d + 1)], lo, hi)
  {
    var next := job.(d := job.d + 1);
    DeeperReady(s, t, b, key, job, med);
    assert StackOk(Segs(rest) + Segs([next]), lo, hi) by {
      Opened(was, s, b, rest, job, lo, hi);
      assert Segs([next]) == [Seg(job.lo, job.hi)];
    }
    JobReplaced(was, s, t, b, rest, job, [next], lo, hi);
  }

  lemma DeeperWork(rest: seq<Job>, job: Job)
    requires job.d <= 14 && job.lo <= job.hi
    ensures Work(rest + [job.(d := job.d + 1)]) < Work(rest + [job])
  {
    WorkOne(job);
    WorkOne(job.(d := job.d + 1));
    WorkReplaced(rest, job, [job.(d := job.d + 1)]);
  }

  lemma WholeCovered(t: seq<int>, rank: seq<int>, seg: Seg)
    requires 0 <= seg.lo && seg.hi < |t|
    ensures PartSorted(t, rank, [seg], seg.lo, seg.hi)
  {
    forall x, y | seg.lo <= x < y <= seg.hi
      ensures Covers([seg], x, y)
    {
      assert [seg][0] == seg;
    }
  }

  lemma KeyIsSymbol(block: seq<int>, quadrant: seq<int>, b: seq<Byte>, d: nat)
    requires Overshot(block, quadrant, b) && d <= 15
    ensures KeyAtDepth(block[d..], b, d)
  {
    forall u | 0 <= u < |b|
      ensures block[d..][u] == b[Adv(|b|, u, d)]
    {
      AtHome(block, quadrant, b, u + d);
      AdvWraps(|b|, u, d);
    }
  }

  /** Three compare-and-exchange steps order the parts by length, longest first. */
  method OrderParts(x: Job, y: Job, z: Job) returns (p: Job, q: Job, r: Job)
    ensures Shuffled(p, q, r, x, y, z) && ByLength(p, q, r)
  {
    p, q, r := x, y, z;
    if p.hi - p.lo < q.hi - q.lo {
      p, q := q, p;
    }
    if q.hi - q.lo < r.hi - r.lo {
      q, r := r, q;
    }
    if p.hi - p.lo < q.hi - q.lo {
      p, q := q, p;
    }
  }

  /** Splits a stretch around the median symbol of its first, last and middle rotation at depth d. */
  method SplitAtDepth(ptr: array<int>, block: array<int>, quadrant: array<int>, lo: int, hi: int, d: nat,
                      ghost b: seq<Byte>)
    returns (allEqual: bool, n: int, m: int, med: int)
    requires ptr != block && ptr != quadrant && Inputs(block, quadrant, b)
    requires lo <= hi && d <= 15 && Agree(ptr[..], b, lo, hi, d)
    modifies ptr
    ensures PermOn(old(ptr[..]), ptr[..], lo, hi + 1)
    ensures KeyAtDepth(block[d..], b, d)
    ensures allEqual ==> Band(ptr[..], block[d..], lo, hi + 1, 0, med)
    ensures !allEqual ==> Parted(ptr[..], block[d..], lo, n, m, hi, med)
  {
    ghost var key := block[d..];
    assert block[..][d..] == key;
    KeyIsSymbol(block[..], quadrant[..], b, d);
    var mid := (lo + hi) / 2;
    med := Mmed3(block[ptr[lo] + d], block[ptr[hi] + d], block[ptr[mid] + d]);
    ghost var pivot := if med == block[ptr[lo] + d] then lo else if med == block[ptr[hi] + d] then hi else mid;
    assert key[ptr[pivot]] == med;
    allEqual, n, m := Split(ptr, block, d, key, lo, hi, med, pivot);
    assert block[d..] == key;
  }

  /** Parts a job by the symbol at its depth; `parts` are the jobs that replace it. */
  method PartJob(ptr: array<int>, block: array<int>, quadrant: array<int>, job: Job, ghost b: seq<Byte>,
                 ghost was: seq<int>, ghost rest: seq<Job>, ghost a: int, ghost z: int)
    returns (parts: seq<Job>)
    requires ptr != block && ptr != quadrant && Inputs(block, quadrant, b) && ptr.Length < 0x8000_0000
    requires 0 <= a <= z < ptr.Length && QState(was, ptr[..], b, rest + [job], a, z)
    requires job.hi - job.lo >= 20 && job.d <= 14
    modifies ptr
    ensures QState(was, ptr[..], b, rest + parts, a, z)
    ensures Work(rest + parts) < Work(rest + [job])
    ensures |parts| == 1 || (|parts| == 3 && |rest| <= 39)
  {
    ghost var s, key := ptr[..], block[job.d..];
    Opened(was, s, b, rest, job, a, z);
    var allEqual, n, m, med := SplitAtDepth(ptr, block, quadrant, job.lo, job.hi, job.d, b);
    if allEqual {
      JobDeeper(was, s, ptr[..], b, key, rest, job, med, a, z);
      DeeperWork(rest, job);
      return [job.(d := job.d + 1)];
    }
    var p, q, r := OrderParts(Job(job.lo, n, job.d), Job(m, job.hi, job.d), Job(n + 1, m - 1, job.d + 1));
    JobSplit(was, s, ptr[..], b, key, rest, job, n, m, med, p, q, r, a, z);
    PartsWork(p, q, r, job, n, m);
    WorkReplaced(rest, job, [p, q, r]);
    return [p, q, r];
  }

  /** The three stack arrays spell out the jobs. */
  ghost predicate HoldsJobs(stackLo: array<int>, stackHi: array<int>, stackD: array<int>, jobs: seq<Job>)
    reads stackLo, stackHi, stackD
  {
    && stackLo != stackHi && stackLo != stackD && stackHi != stackD
    && |jobs| <= stackLo.Length == stackHi.Length == stackD.Length
    && forall k :: 0 <= k < |jobs| ==> stackLo[k] == jobs[k].lo && stackHi[k] == jobs[k].hi && stackD[k] == jobs[k].d
  }

  method PopJob(stackLo: array<int>, stackHi: array<int>, stackD: array<int>, sp: int, ghost jobs: seq<Job>)
    returns (job: Job, ghost rest: seq<Job>)
    requires 0 < sp == |jobs| && HoldsJobs(stackLo, stackHi, stackD, jobs)
    ensures jobs == rest + [job] && HoldsJobs(stackLo, stackHi, stackD, rest)
  {
    job := Job(stackLo[sp - 1], stackHi[sp - 1], stackD[sp - 1]);
    rest := jobs[..sp - 1];
  }

  method PushJobs(stackLo: array<int>, stackHi: array<int>, stackD: array<int>, sp: int, parts: seq<Job>,
                  ghost jobs: seq<Job>)
    returns (sp': int)
    requires 0 <= sp == |jobs| && HoldsJobs(stackLo, stackHi, stackD, jobs)
    requires sp + |parts| <= stackLo.Length
    modifies stackLo, stackHi, stackD
    ensures HoldsJobs(stackLo, stackHi, stackD, jobs + parts) && sp' == |jobs + parts|
  {
    for k := 0 to |parts|
      invariant HoldsJobs(stackLo, stackHi, stackD, jobs + parts[..k])
    {
      stackLo[sp + k], stackHi[sp + k], stackD[sp + k] := parts[k].lo, parts[k].hi, parts[k].d;
      assert jobs + parts[..k + 1] == jobs + parts[..k] + [parts[k]];
    }
    assert parts[..|parts|] == parts;
    sp' := sp + |parts|;
  }

  lemma JobsStart(s: seq<int>, b: seq<Byte>, lo: int, hi: int)
    requires 0 <= lo <= hi < |s| && Agree(s, b, lo, hi, 2)
    ensures QState(s, s, b, [Job(lo, hi, 2)], lo, hi)
  {
    var jobs := [Job(lo, hi, 2)];
    assert Segs(jobs) == [Seg(lo, hi)] && Ds(jobs) == [2];
    StackStarts(s, Rank(b), lo, hi);
  }

  /** Pops one job and works on it: a short or deep stretch is sorted outright, a longer one is parted. */
  method DoJob(ptr: array<int>, block: array<int>, quadrant: array<int>, n: nat, job: Job, budget: int,
               ghost b: seq<Byte>, ghost was: seq<int>, ghost rest: seq<Job>, ghost a: int, ghost z: int)
    returns (budget': int, parts: seq<Job>)
    requires ptr != block && ptr != quadrant && n == |b| && Inputs(block, quadrant, b)
    requires 0 <= a <= z < ptr.Length < 0x8000_0000 && z - a + 1 <= 2391484
    requires QState(was, ptr[..], b, rest + [job], a, z)
    modifies ptr
    ensures budget' <= budget && PermOn(was, ptr[..], a, z + 1)
    ensures budget' >= 0 || parts != [] ==> QState(was, ptr[..], b, rest + parts, a, z)
    ensures Work(rest + parts) < Work(rest + [job])
    ensures |parts| <= 1 || (|parts| == 3 && |rest| <= 39)
  {
    ghost var s := ptr[..];
    Opened(was, s, b, rest, job, a, z);
    budget', parts := budget, [];
    if job.hi - job.lo < 20 || job.d > 14 {
      budget' := MainSimpleSort(ptr, block, quadrant, n, job.lo, job.hi, job.d, budget, b);
      SortStep(was, s, ptr[..], Rank(b), Segs(rest), Seg(job.lo, job.hi), a, z);
      JobVanishes(rest, job);
      if budget' >= 0 {
        JobDone(was, s, ptr[..], b, rest, job, a, z);
      }
    } else {
      parts := PartJob(ptr, block, quadrant, job, b, was, rest, a, z);
    }
  }

  lemma JobVanishes(rest: seq<Job>, job: Job)
    ensures Work(rest + []) < Work(rest + [job])
  {
    WorkOne(job);
    var none: seq<Job> := [];
    assert Work(none) == 0;
    WorkReplaced(rest, job, none);
  }

  /** Sorts the rotations in [loSt, hiSt], which agree on two symbols, unless the budget runs out. */
  method MainQSort3(ptr: array<int>, block: array<int>, quadrant: array<int>, n: nat, loSt: int, hiSt: int,
                    budget: int, ghost b: seq<Byte>)
    returns (budget': int)
    requires ptr != block && ptr != quadrant && n == |b| && Inputs(block, quadrant, b)
    requires 0 <= loSt <= hiSt < ptr.Length < 0x8000_0000 && hiSt - loSt + 1 <= 2391484
    requires Agree(ptr[..], b, loSt, hiSt, 2)
    modifies ptr
    ensures PermOn(old(ptr[..]), ptr[..], loSt, hiSt + 1)
    ensures budget' >= 0 ==> PartSorted(ptr[..], Rank(b), [], loSt, hiSt)
    ensures budget' <= budget
  {
    var stackLo, stackHi, stackD := new int[100], new int[100], new int[100];
    budget' := budget;
    ghost var was, jobs: seq<Job> := ptr[..], [];
    JobsStart(was, b, loSt, hiSt);
    var sp := PushJobs(stackLo, stackHi, stackD, 0, [Job(loSt, hiSt, 2)], jobs);
    jobs := [Job(loSt, hiSt, 2)];
    assert [] + jobs == jobs;
    while sp > 0
      invariant sp == |jobs| <= 42 && HoldsJobs(stackLo, stackHi, stackD, jobs)
      invariant QState(was, ptr[..], b, jobs, loSt, hiSt) && Inputs(block, quadrant, b)
      invariant budget' <= budget
      decreases Work(jobs)
    {
      assert sp < 100 - 2; // 1001
      var job, parts;
      ghost var rest;
      job, rest := PopJob(stackLo, stackHi, stackD, sp, jobs);
      budget', parts := DoJob(ptr, block, quadrant, n, job, budget', b, was, rest, loSt, hiSt);
      if parts == [] && budget' < 0 {
        return;
      }
      sp := PushJobs(stackLo, stackHi, stackD, sp - 1, parts, rest);
      jobs := rest + parts;
    }
    assert Segs(jobs) == [];
  }
}
