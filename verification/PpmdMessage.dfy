/** Whole messages through PPMd7 and the range coder, and the model both sides start from. */
module PpmdMessage {
  import opened PpmdCoder
  import opened PpmdModel
  import opened PpmdSteps
  import opened PpmdTrace
  import opened RangeCoder

  import Bits

  /** The steps of a message and the model after it. */
  function Steps<T>(m: Model<T>, symbols: seq<int>, u: Updates<T>): seq<Step>
    decreases |symbols|
  {
    if symbols == [] then [] else Coded(m, symbols[0], u).steps + Steps(Coded(m, symbols[0], u).model, symbols[1..], u)
  }

  function After<T>(m: Model<T>, symbols: seq<int>, u: Updates<T>): Model<T>
    decreases |symbols|
  {
    if symbols == [] then m else After(Coded(m, symbols[0], u).model, symbols[1..], u)
  }

  /** Bytes and end marks, and every model they are coded with is well-formed. */
  ghost predicate Healthy<T>(m: Model<T>, symbols: seq<int>, u: Updates<T>)
    decreases |symbols|
  {
    symbols != [] ==> Good(m) && -1 <= symbols[0] < MAX_BYTE && Healthy(Coded(m, symbols[0], u).model, symbols[1..], u)
  }

  lemma {:induction false} ApplyConcat(e: Interval, a: seq<Step>, b: seq<Step>)
    ensures ApplyAll(e, a + b) == ApplyAll(ApplyAll(e, a), b)
    decreases |a|
  {
    if a == [] {
      assert a + b == b;
    } else {
      ApplyConcat(Apply(e, a[0]), a[1..], b);
      assert (a + b)[1..] == a[1..] + b;
    }
  }

  lemma {:induction false} StepsLegal<T>(m: Model<T>, symbols: seq<int>, u: Updates<T>)
    requires Healthy(m, symbols, u)
    ensures AllLegal(Steps(m, symbols, u))
    decreases |symbols|
  {
    if symbols != [] {
      CodedMeans(m, symbols[0], u);
      StepsLegal(Coded(m, symbols[0], u).model, symbols[1..], u);
    }
  }

  /** The encoder over a message: the bytes spell the lower end of the interval that the message's steps lead to. */
  method EncodeMessage<T>(p: Ppmd7<T>, symbols: seq<int>, u: Updates<T>) returns (bytes: seq<int>)
    requires Healthy(p.Now(), symbols, u)
    modifies p
    ensures p.Now() == After(old(p.Now()), symbols, u)
    ensures var f := ApplyAll(FIRST, Steps(old(p.Now()), symbols, u));
      AllBytes(bytes) && Num(bytes) == f.low && |bytes| == f.digits + 4
  {
    ghost var m := p.Now();
    var rc := new RangeEnc();
    assert symbols[0..] == symbols;
    for i := 0 to |symbols|
      invariant rc.Valid() && fresh(rc) && Healthy(p.Now(), symbols[i..], u)
      invariant After(p.Now(), symbols[i..], u) == After(m, symbols, u)
      invariant ApplyAll(rc.Abs(), Steps(p.Now(), symbols[i..], u)) == ApplyAll(FIRST, Steps(m, symbols, u))
    {
      assert symbols[i..][1..] == symbols[i + 1..];
      ghost var o := Coded(p.Now(), symbols[i], u);
      ApplyConcat(rc.Abs(), o.steps, Steps(o.model, symbols[i + 1..], u));
      p.EncodeSymbol(rc, symbols[i], u);
    }
    assert symbols[|symbols|..] == [];
    rc.FlushData();
    bytes := rc.out;
  }

  /** One symbol off the front of what is still ahead. */
  lemma FrontAhead<T>(m: Model<T>, symbols: seq<int>, u: Updates<T>, e: Interval, f: Interval)
    requires Healthy(m, symbols, u) && symbols != [] && Normal(e) && f == ApplyAll(e, Steps(m, symbols, u))
    ensures var o := Coded(m, symbols[0], u);
      && Within(f, ApplyAll(e, o.steps)) && Normal(ApplyAll(e, o.steps))
      && f == ApplyAll(ApplyAll(e, o.steps), Steps(o.model, symbols[1..], u))
  {
    var o := Coded(m, symbols[0], u);
    CodedMeans(m, symbols[0], u);
    AllWithin(e, o.steps);
    StepsLegal(o.model, symbols[1..], u);
    AllWithin(ApplyAll(e, o.steps), Steps(o.model, symbols[1..], u));
    ApplyConcat(e, o.steps, Steps(o.model, symbols[1..], u));
  }

  /** The decoder is at e, the rest of the message leads from there to the stream's end f, and to the model end. */
  ghost predicate OnTrack<T>(m: Model<T>, rest: seq<int>, u: Updates<T>, e: Interval, f: Interval, end: Model<T>) {
    forall x {:trigger Shown(x)} :: Shown(x) ==>
      Normal(e) && Healthy(m, rest, u) && f == ApplyAll(e, Steps(m, rest, u)) && end == After(m, rest, u)
  }

  method DecodeFront<T>(q: Ppmd7<T>, rc: RangeDec, u: Updates<T>, ghost rest: seq<int>, ghost e: Interval, ghost f: Interval,
                        ghost end: Model<T>)
    returns (r: int, ghost e1: Interval)
    requires rest != [] && OnTrack(q.Now(), rest, u, e, f, end) && rc.Tracks(e) && rc.Spells(f)
    modifies q, rc
    ensures r == rest[0] && OnTrack(q.Now(), rest[1..], u, e1, f, end) && rc.Tracks(e1)
  {
    assert Shown(0);
    ghost var o := Coded(q.Now(), rest[0], u);
    FrontAhead(q.Now(), rest, u, e, f);
    e1 := ApplyAll(e, o.steps);
    r := q.DecodeSymbol(rc, u, rest[0], e, f);
  }

  lemma AtEnd<T>(m: Model<T>, rest: seq<int>, u: Updates<T>, e: Interval, f: Interval, end: Model<T>)
    requires OnTrack(m, rest, u, e, f, end) && rest == []
    ensures e == f && m == end
  {
    assert Shown(0);
  }

  lemma AtStart<T>(m: Model<T>, symbols: seq<int>, u: Updates<T>)
    requires Healthy(m, symbols, u)
    ensures var f := ApplyAll(FIRST, Steps(m, symbols, u));
      OnTrack(m, symbols, u, FIRST, f, After(m, symbols, u)) && Within(f, FIRST) && Normal(f)
  {
    StepsLegal(m, symbols, u);
    AllWithin(FIRST, Steps(m, symbols, u));
  }

  /** The decoder over the same bytes, from the same model: the same symbols, the same model, and Code ends at zero. */
  method DecodeMessage<T>(q: Ppmd7<T>, bytes: seq<int>, n: nat, u: Updates<T>, ghost symbols: seq<int>)
    returns (got: seq<int>, code: nat)
    requires n == |symbols| && Healthy(q.Now(), symbols, u)
    requires var f := ApplyAll(FIRST, Steps(q.Now(), symbols, u));
      AllBytes(bytes) && Num(bytes) == f.low && |bytes| == f.digits + 4
    modifies q
    ensures got == symbols && q.Now() == After(old(q.Now()), symbols, u) && code == 0
  {
    ghost var f, end := ApplyAll(FIRST, Steps(q.Now(), symbols, u)), After(q.Now(), symbols, u);
    AtStart(q.Now(), symbols, u);
    var rc := new RangeDec(bytes);
    var ok := rc.Init(f);
    ghost var e := FIRST;
    got := [];
    assert symbols[0..] == symbols;
    for i := 0 to n
      invariant fresh(rc) && rc.Tracks(e) && rc.Spells(f) && got == symbols[..i]
      invariant OnTrack(q.Now(), symbols[i..], u, e, f, end)
    {
      assert symbols[i..][1..] == symbols[i + 1..];
      var r;
      r, e := DecodeFront(q, rc, u, symbols[i..], e, f, end);
      got := got + [r];
    }
    AtEnd(q.Now(), symbols[n..], u, e, f, end);
    code := LastCode(rc, f);
  }

  /** Once everything is read, Code is what is left above the lower end: nothing. */
  method LastCode(rc: RangeDec, ghost f: Interval) returns (code: nat)
    requires rc.Tracks(f) && rc.Spells(f)
    ensures code == 0
  {
    assert rc.input[..rc.pos] == rc.input;
    code := rc.Code;
  }

  /** From equal models, what the encoder emits for a message the decoder reads back, and the models are equal again. The bytes
      in between spell the lower end of the interval that the message's steps lead to. */
  method RoundTrip<T>(p: Ppmd7<T>, q: Ppmd7<T>, symbols: seq<int>, u: Updates<T>)
    returns (bytes: seq<int>, got: seq<int>, code: nat)
    requires p != q && p.Now() == q.Now() && Healthy(p.Now(), symbols, u)
    modifies p, q
    ensures var f := ApplyAll(FIRST, Steps(old(p.Now()), symbols, u));
      AllBytes(bytes) && Num(bytes) == f.low && |bytes| == f.digits + 4
    ensures got == symbols && code == 0 && p.Now() == q.Now() == After(old(p.Now()), symbols, u)
  {
    bytes := EncodeMessage(p, symbols, u);
    got, code := DecodeMessage(q, bytes, |symbols|, u, symbols);
  }

  // ----- the model that both sides start from

  const INIT_BIN_ESC := [0x3CDD, 0x1F3F, 0x59BF, 0x48F3, 0x64A1, 0x5ABC, 0x6632, 0x6051]

  function InitBin(i: nat, k: nat): int {
    BIN_SCALE - INIT_BIN_ESC[k % 8] / (i + 2)
  }

  /** Every byte once. */
  function FirstStates(): seq<State> {
    seq(256, i => State(i, 1, 0))
  }

  function FirstSees(): seq<seq<See>> {
    seq(25, i => seq(16, k => See((5 * i + 10) * 8, 3, 4)))
  }

  function FirstBins(): seq<seq<int>> {
    seq(128, i requires 0 <= i => seq(64, k requires 0 <= k => InitBin(i, k)))
  }

  /** RestartModel and Ppmd7_Init: one context without a suffix that holds every byte once. The flag and the escape
      count of the model before are not touched. */
  function Restarted<T>(was: Model<T>, maxOrder: nat, store: T): Model<T> {
    Model(Memory(map[1 := Context(FirstStates(), 257, 0, 0)]), 1, Place(1, 0), maxOrder, was.initEsc, 0,
          was.hiBitsFlag, -(if maxOrder < 12 then maxOrder else 12) - 1,
          FirstSees(), See(0, 7, 64), FirstBins(), store)
  }

  /** One value in every eighth place. */
  method PutColumn(row0: seq<int>, k: nat, val: int) returns (row: seq<int>)
    requires |row0| == 64 && k < 8
    ensures |row| == 64 && forall j :: 0 <= j < 64 ==> row[j] == if j % 8 == k then val else row0[j]
  {
    row := row0;
    var m: nat := 0;
    while m < 64
      invariant m % 8 == 0 && m <= 64 && |row| == 64
      invariant forall j :: 0 <= j < 64 ==> row[j] == if j % 8 == k && j < m then val else row0[j]
    {
      row := row[m + k := val];
      m := m + 8;
    }
  }

  /** A row of binSumm: eight values, each of them in eight places. */
  method InitRow(i: nat) returns (row: seq<int>)
    ensures row == seq(64, k requires 0 <= k => InitBin(i, k))
  {
    row := seq(64, _ => 0);
    for k: nat := 0 to 8
      invariant |row| == 64 && forall j :: 0 <= j < 64 && j % 8 < k ==> row[j] == InitBin(i, j)
    {
      var val := 0x4000 - INIT_BIN_ESC[k] / (i + 2);
      row := PutColumn(row, k, val);
    }
  }

  method InitBins() returns (bins: seq<seq<int>>)
    ensures bins == FirstBins()
  {
    bins := [];
    for i: nat := 0 to 128
      invariant bins == seq(i, i requires 0 <= i => seq(64, k requires 0 <= k => InitBin(i, k)))
    {
      var row := InitRow(i);
      bins := bins + [row];
    }
  }

  method InitSees() returns (see: seq<seq<See>>)
    ensures see == FirstSees()
  {
    see := [];
    for i: nat := 0 to 25
      invariant see == seq(i, i => seq(16, k => See((5 * i + 10) * 8, 3, 4)))
    {
      var row: seq<See> := [];
      var shift := 7 - 4;
      for k := 0 to 16
        invariant row == seq(k, k => See((5 * i + 10) * 8, 3, 4))
      {
        row := row + [See((5 * i + 10) * Bits.Pow2(shift), shift, 4)];
      }
      see := see + [row];
    }
  }

  method InitStats() returns (stats: seq<State>)
    ensures stats == FirstStates()
  {
    stats := [];
    for i := 0 to 256
      invariant stats == seq(i, i => State(i, 1, 0))
    {
      stats := stats + [State(i, 1, 0)];
    }
  }

  method RestartTables<T>(p: Ppmd7<T>)
    modifies p`see, p`dummySee, p`binSumm
    ensures p.see == FirstSees() && p.dummySee == See(0, 7, 64) && p.binSumm == FirstBins()
  {
    p.dummySee := See(0, 7, 64);
    p.see := InitSees();
    p.binSumm := InitBins();
  }

  /** RestartModel and Ppmd7_Init on the fields. */
  method Restart<T>(p: Ppmd7<T>, maxOrder: nat, store: T)
    modifies p
    ensures p.Now() == Restarted(old(p.Now()), maxOrder, store)
  {
    RestartTables(p);
    var stats := InitStats();
    p.orderFall, p.prevSuccess := maxOrder, 0;
    p.runLength := -(if maxOrder < 12 then maxOrder else 12) - 1;
    p.contexts, p.minContext, p.foundState := map[1 := Context(stats, 256 + 1, 0, 0)], 1, Place(1, 0);
    p.store := store;
  }

  lemma {:induction false} OnesWeigh(stats: seq<State>)
    requires forall i :: 0 <= i < |stats| ==> stats[i].freq == 1
    ensures Weight(stats, {}) == |stats|
  {
    if stats != [] {
      OnesWeigh(stats[..|stats| - 1]);
    }
  }

  lemma InitBinInside(i: nat, k: nat)
    requires i < 128
    ensures 0 < InitBin(i, k) < BIN_SCALE
  {
    var x := INIT_BIN_ESC[k % 8];
    assert 0x1F3F <= x <= 0x6632;
    Division(x, i + 2);
    MulMono(2, i + 2, x / (i + 2));
    if x / (i + 2) <= 0 {
      MulMono(x / (i + 2), 0, i + 2);
    }
  }

  /** The model after a restart is well-formed. */
  lemma RestartGood<T>(was: Model<T>, maxOrder: nat, store: T)
    requires was.hiBitsFlag in {0, 8}
    ensures Good(Restarted(was, maxOrder, store))
  {
    var m := Restarted(was, maxOrder, store);
    OnesWeigh(Here(m).stats);
    assert GoodStats(Here(m).stats);
    assert GoodContext(m.memory.contexts, Here(m));
    forall i, j | 0 <= i < 128 && 0 <= j < 64
      ensures 0 < m.binSumm[i][j] < BIN_SCALE
    {
      InitBinInside(i, j);
    }
  }
}
