/** The compressed stream as BZ2_decompress reads it: every GET_BITS label is a state that wants some bits, the saved
    locals are the variables, and the code between two labels is one step. */
module Wire {
  import opened Counting
  import opened Bits
  import opened HuffmanCodes
  import opened DecodeTables
  import opened Mtf
  import opened MtfStage

  const MAX_SELECTORS := 18002
  const G_SIZE := 50
  const GROUPS_LEN := 3
  const COUNT_LEN := 15
  const CURR_LEN := 5
  const CRC_BYTES := 4
  const ORIG_BYTES := 3
  const STREAM_MAGIC: seq<int> := [0x42, 0x5A, 0x68]
  const BLOCK_MAGIC: seq<int> := [0x31, 0x41, 0x59, 0x26, 0x53, 0x59]
  const END_MAGIC: seq<int> := [0x17, 0x72, 0x45, 0x38, 0x50, 0x90]

  // ----- states

  datatype Label =
    | Magic(k: nat) | BlkHdr(k: nat) | BlockCrc(k: nat) | RandBit | OrigPtr(k: nat)
    | Mapping1 | Mapping2(i: nat, j: nat)
    | SelGroups | SelCount | SelUnary(i: nat, j: nat)
    | Coding1 | Coding2 | Coding3
    | Mtf1 | Mtf2
    | EndHdr(k: nat) | CombCrc(k: nat)
    | StreamEnd | Failed(magic: bool)

  /** The numbers of the stream and block headers. */
  datatype Head = Head(blockSize100k: int, storedBlockCRC: nat, storedCombinedCRC: nat, blockRandomised: bool, origPtr: nat)

  datatype Sel = Sel(nGroups: nat, nSelectors: nat, selectorMtf: seq<int>, selector: seq<int>)

  /** The tables read so far, and the lengths of the one being read; i of the source is |row|, t is |len|. */
  datatype Cod = Cod(len: seq<seq<int>>, row: seq<int>, curr: int)

  datatype Sym = Sym(tables: seq<Table>, groupNo: int, groupPos: int, gSel: int, zn: nat, zvec: nat, syms: seq<int>)

  /** What a block that has been read hands on to the MTF stage. */
  datatype Block = Block(head: Head, inUse: seq<bool>, syms: seq<int>)

  datatype Vars = Vars(head: Head, inUse16: seq<bool>, inUse: seq<bool>, sel: Sel, cod: Cod, sym: Sym, done: seq<Block>)

  datatype St = St(at: Label, v: Vars)

  function Start(): St {
    St(Magic(0), Vars(Head(0, 0, 0, false, 0), [], [], Sel(0, 0, [], []), Cod([], [], 0), Sym([], -1, 0, 0, 0, 0, []), []))
  }

  /** How many bits the state waits for; none once reading is over. */
  function Want(s: St): nat {
    match s.at
    case Magic(_) => BYTE_LEN
    case BlkHdr(_) => BYTE_LEN
    case BlockCrc(_) => BYTE_LEN
    case OrigPtr(_) => BYTE_LEN
    case EndHdr(_) => BYTE_LEN
    case CombCrc(_) => BYTE_LEN
    case SelGroups => GROUPS_LEN
    case SelCount => COUNT_LEN
    case Coding1 => CURR_LEN
    case Mtf1 => s.v.sym.zn
    case StreamEnd => 0
    case Failed(_) => 0
    case _ => 1
  }

  function NInUse(v: Vars): nat {
    |UsedList(v.inUse)|
  }

  function AlphaSize(v: Vars): nat {
    NInUse(v) + 2
  }

  // ----- what keeps every index in range

  ghost predicate MapOk(v: Vars) {
    |v.inUse16| == 16 && |v.inUse| == 256
  }

  ghost predicate InRange(s: seq<int>, n: int) {
    forall i :: 0 <= i < |s| ==> 0 <= s[i] < n
  }

  ghost predicate SelectOk(v: Vars) {
    |v.inUse| == 256 && NInUse(v) >= 1 && 2 <= v.sel.nGroups <= 6
  }

  ghost predicate SelectorsOk(v: Vars) {
    SelectOk(v) && 1 <= |v.sel.selector| == v.sel.nSelectors && InRange(v.sel.selector, v.sel.nGroups)
  }

  ghost predicate LensOk(len: seq<seq<int>>, alphaSize: nat) {
    forall t :: 0 <= t < |len| ==> RowOk(len[t]) && |len[t]| == alphaSize
  }

  ghost predicate CodingOk(v: Vars) {
    SelectorsOk(v) && LensOk(v.cod.len, AlphaSize(v)) && |v.cod.len| < v.sel.nGroups && RowOk(v.cod.row) && |v.cod.row| < AlphaSize(v)
  }

  ghost predicate TableOk(t: Table) {
    |t.limit| == |t.base| == MAX_CODE_LEN && |t.perm| == MAX_ALPHA_SIZE && 1 <= t.minLen <= LONGEST
  }

  ghost predicate AllTablesOk(t: seq<Table>) {
    forall i :: 0 <= i < |t| ==> TableOk(t[i])
  }

  ghost predicate TablesOk(v: Vars) {
    && SelectorsOk(v) && |v.sym.tables| == v.sel.nGroups && AllTablesOk(v.sym.tables)
    && -1 <= v.sym.groupNo < v.sel.nSelectors && 0 <= v.sym.groupPos < G_SIZE
  }

  ghost predicate SymOk(v: Vars) {
    TablesOk(v) && 0 <= v.sym.gSel < v.sel.nGroups
  }

  ghost predicate Ok(s: St) {
    var v := s.v;
    match s.at
    case Magic(k) => k <= 3
    case BlkHdr(k) => k <= 5
    case EndHdr(k) => 1 <= k <= 5
    case Mapping1 => |v.inUse16| <= 15
    case Mapping2(i, j) => i <= 15 && j <= 15 && MapOk(v)
    case SelGroups => |v.inUse| == 256 && NInUse(v) >= 1
    case SelCount => SelectOk(v)
    case SelUnary(i, j) => SelectOk(v) && InRange(v.sel.selectorMtf, v.sel.nGroups) && i < v.sel.nSelectors && j < v.sel.nGroups
        && |v.sel.selectorMtf| == if i < MAX_SELECTORS then i else MAX_SELECTORS
    case Coding1 => CodingOk(v)
    case Coding2 => CodingOk(v) && 1 <= v.cod.curr <= LONGEST
    case Coding3 => CodingOk(v) && 1 <= v.cod.curr <= LONGEST
    case Mtf1 => SymOk(v) && 1 <= v.sym.zn <= LONGEST
    case Mtf2 => SymOk(v) && 1 <= v.sym.zn <= LONGEST + 1
    case _ => true
  }

  // ----- the code between two labels

  function FailData(v: Vars): St {
    St(Failed(false), v)
  }

  function NextMagic(k: nat, v: Vars, x: nat): (r: St)
    requires k <= 3
    ensures Ok(r)
  {
    if k < 3 then if x != STREAM_MAGIC[k] then St(Failed(true), v) else St(Magic(k + 1), v)
    else if x < 0x31 || x > 0x39 then St(Failed(true), v)
    else St(BlkHdr(0), v.(head := v.head.(blockSize100k := x - 0x30)))
  }

  function NextBlkHdr(k: nat, v: Vars, x: nat): (r: St)
    requires k <= 5
    ensures Ok(r)
  {
    if k == 0 && x == END_MAGIC[0] then St(EndHdr(1), v)
    else if x != BLOCK_MAGIC[k] then FailData(v)
    else if k < 5 then St(BlkHdr(k + 1), v)
    else St(BlockCrc(0), v.(head := v.head.(storedBlockCRC := 0)))
  }

  function NextBlockCrc(k: nat, v: Vars, x: nat): (r: St)
    ensures Ok(r)
  {
    var v' := v.(head := v.head.(storedBlockCRC := 256 * v.head.storedBlockCRC + x));
    if k < 3 then St(BlockCrc(k + 1), v') else St(RandBit, v')
  }

  function NextOrigPtr(k: nat, v: Vars, x: nat): (r: St)
    ensures Ok(r)
  {
    var v' := v.(head := v.head.(origPtr := 256 * v.head.origPtr + x));
    if k < 2 then St(OrigPtr(k + 1), v')
    else if v'.head.origPtr > 10 + 100000 * v.head.blockSize100k then FailData(v')
    else St(Mapping1, v'.(inUse16 := []))
  }

  /** The next row of the mapping table that is present. */
  function NextRow(v: Vars, i: nat): (r: St)
    requires MapOk(v) && i <= 16
    ensures Ok(r)
    decreases 16 - i
  {
    if i == 16 then
      if NInUse(v) == 0 then FailData(v) else St(SelGroups, v)
    else if v.inUse16[i] then St(Mapping2(i, 0), v)
    else NextRow(v, i + 1)
  }

  function NoBytes(): (r: seq<bool>)
    ensures |r| == 256
  {
    seq(256, _ => false)
  }

  function NextMapping1(v: Vars, x: nat): (r: St)
    requires |v.inUse16| <= 15
    ensures Ok(r)
  {
    var v' := v.(inUse16 := v.inUse16 + [x == 1]);
    if |v'.inUse16| < 16 then St(Mapping1, v') else NextRow(v'.(inUse := NoBytes()), 0)
  }

  function NextMapping2(i: nat, j: nat, v: Vars, x: nat): (r: St)
    requires i <= 15 && j <= 15 && MapOk(v)
    ensures Ok(r)
  {
    var v' := if x == 1 then v.(inUse := v.inUse[16 * i + j := true]) else v;
    if j < 15 then St(Mapping2(i, j + 1), v') else NextRow(v', i + 1)
  }

  /** Undoes the move-to-front code of the selectors, with a list of the groups. */
  function UndoMtf(m: seq<int>, pos: seq<int>): (r: seq<int>)
    requires InRange(m, |pos|) && InRange(pos, |pos|)
    ensures |r| == |m| && InRange(r, |pos|)
    decreases |m|
  {
    if m == [] then [] else [pos[m[0]]] + UndoMtf(m[1..], ToFront(pos, m[0]))
  }

  function SelectorsDone(v: Vars): (r: St)
    requires SelectOk(v) && InRange(v.sel.selectorMtf, v.sel.nGroups) && |v.sel.selectorMtf| >= 1
    ensures Ok(r)
  {
    var sel := v.sel.(nSelectors := |v.sel.selectorMtf|, selector := UndoMtf(v.sel.selectorMtf, Upto(v.sel.nGroups)));
    St(Coding1, v.(sel := sel, cod := Cod([], [], 0)))
  }

  function NextSelUnary(i: nat, j: nat, v: Vars, x: nat): (r: St)
    requires Ok(St(SelUnary(i, j), v))
    ensures Ok(r)
  {
    if x != 0 then if j + 1 >= v.sel.nGroups then FailData(v) else St(SelUnary(i, j + 1), v)
    else
      var v' := if i < MAX_SELECTORS then v.(sel := v.sel.(selectorMtf := v.sel.selectorMtf + [j])) else v;
      if i + 1 < v.sel.nSelectors then St(SelUnary(i + 1, 0), v') else SelectorsDone(v')
  }

  function CheckCurr(v: Vars): (r: St)
    requires CodingOk(v)
    ensures Ok(r)
  {
    if v.cod.curr < 1 || v.cod.curr > LONGEST then FailData(v) else St(Coding2, v)
  }

  function MakeTables(lens: seq<seq<int>>): seq<Table> {
    seq(|lens|, t requires 0 <= t < |lens| => MakeTable(lens[t]))
  }

  lemma TablesMade(lens: seq<seq<int>>, alphaSize: nat)
    requires LensOk(lens, alphaSize) && alphaSize >= 1
    ensures AllTablesOk(MakeTables(lens))
  {
    forall t | 0 <= t < |lens| ensures TableOk(MakeTables(lens)[t]) {
      RowRange(lens[t]);
    }
  }

  /** The prelude of GET_MTF_VAL: a new group every 50 symbols. */
  function StartSym(v: Vars): (r: St)
    requires TablesOk(v) && (v.sym.groupPos > 0 ==> 0 <= v.sym.gSel < v.sel.nGroups)
    ensures Ok(r)
  {
    var y := v.sym;
    if y.groupPos == 0 then
      if y.groupNo + 1 >= v.sel.nSelectors then FailData(v)
      else
        var g := v.sel.selector[y.groupNo + 1];
        St(Mtf1, v.(sym := y.(groupNo := y.groupNo + 1, groupPos := G_SIZE - 1, gSel := g, zn := y.tables[g].minLen)))
    else St(Mtf1, v.(sym := y.(groupPos := y.groupPos - 1, zn := y.tables[y.gSel].minLen)))
  }

  function CodingDone(v: Vars): (r: St)
    requires SelectorsOk(v) && LensOk(v.cod.len, AlphaSize(v)) && |v.cod.len| == v.sel.nGroups
    ensures Ok(r)
  {
    TablesMade(v.cod.len, AlphaSize(v));
    StartSym(v.(sym := Sym(MakeTables(v.cod.len), -1, 0, 0, 0, 0, [])))
  }

  /** A length is complete. */
  function NextLength(v: Vars): (r: St)
    requires CodingOk(v) && 1 <= v.cod.curr <= LONGEST
    ensures Ok(r)
  {
    var row := v.cod.row + [v.cod.curr];
    if |row| < AlphaSize(v) then CheckCurr(v.(cod := v.cod.(row := row)))
    else
      var len := v.cod.len + [row];
      if |len| < v.sel.nGroups then St(Coding1, v.(cod := Cod(len, [], v.cod.curr))) else CodingDone(v.(cod := Cod(len, [], v.cod.curr)))
  }

  /** After the end mark the block is complete, and the next header comes. */
  function GotSym(v: Vars, s: int): (r: St)
    requires SymOk(v)
    ensures Ok(r)
  {
    var syms := v.sym.syms + [s];
    if s == NInUse(v) + 1 then St(BlkHdr(0), v.(done := v.done + [Block(v.head, v.inUse, syms)]))
    else StartSym(v.(sym := v.sym.(syms := syms)))
  }

  function JudgeBy(t: Table, zn: nat, zvec: nat): Verdict
    requires TableOk(t) && zn >= 1
  {
    Judge(t.limit, t.base, t.perm, zn, zvec)
  }

  function Decide(v: Vars): (r: St)
    requires SymOk(v) && 1 <= v.sym.zn <= LONGEST + 1
    ensures Ok(r)
  {
    match JudgeBy(v.sym.tables[v.sym.gSel], v.sym.zn, v.sym.zvec)
    case Complete(s) => GotSym(v, s)
    case OneMore => St(Mtf2, v.(sym := v.sym.(zn := v.sym.zn + 1)))
    case Bad => FailData(v)
  }

  function NextEndHdr(k: nat, v: Vars, x: nat): (r: St)
    requires k <= 5
    ensures Ok(r)
  {
    if x != END_MAGIC[k] then FailData(v)
    else if k < 5 then St(EndHdr(k + 1), v)
    else St(CombCrc(0), v.(head := v.head.(storedCombinedCRC := 0)))
  }

  function NextCombCrc(k: nat, v: Vars, x: nat): (r: St)
    ensures Ok(r)
  {
    var v' := v.(head := v.head.(storedCombinedCRC := 256 * v.head.storedCombinedCRC + x));
    if k < 3 then St(CombCrc(k + 1), v') else St(StreamEnd, v')
  }

  function NextGroups(v: Vars, x: nat): (r: St)
    requires |v.inUse| == 256 && NInUse(v) >= 1
    ensures Ok(r)
  {
    if x < 2 || x > 6 then FailData(v) else St(SelCount, v.(sel := v.sel.(nGroups := x)))
  }

  function NextCount(v: Vars, x: nat): (r: St)
    requires SelectOk(v)
    ensures Ok(r)
  {
    if x < 1 then FailData(v) else St(SelUnary(0, 0), v.(sel := v.sel.(nSelectors := x, selectorMtf := [])))
  }

  /** The step from one label to the next, given the bits read. */
  function Next(s: St, x: nat): (r: St)
    requires Ok(s)
    ensures Ok(r)
  {
    var v := s.v;
    match s.at
    case Magic(k) => NextMagic(k, v, x)
    case BlkHdr(k) => NextBlkHdr(k, v, x)
    case BlockCrc(k) => NextBlockCrc(k, v, x)
    case RandBit => St(OrigPtr(0), v.(head := v.head.(blockRandomised := x == 1, origPtr := 0)))
    case OrigPtr(k) => NextOrigPtr(k, v, x)
    case Mapping1 => NextMapping1(v, x)
    case Mapping2(i, j) => NextMapping2(i, j, v, x)
    case SelGroups => NextGroups(v, x)
    case SelCount => NextCount(v, x)
    case SelUnary(i, j) => NextSelUnary(i, j, v, x)
    case Coding1 => CheckCurr(v.(cod := v.cod.(curr := x, row := [])))
    case Coding2 => if x != 0 then St(Coding3, v) else NextLength(v)
    case Coding3 => CheckCurr(v.(cod := v.cod.(curr := if x == 0 then v.cod.curr + 1 else v.cod.curr - 1)))
    case Mtf1 => Decide(v.(sym := v.sym.(zvec := x)))
    case Mtf2 => Decide(v.(sym := v.sym.(zvec := 2 * v.sym.zvec + x)))
    case EndHdr(k) => NextEndHdr(k, v, x)
    case CombCrc(k) => NextCombCrc(k, v, x)
    case _ => s
  }

  // ----- runs

  lemma WantBound(s: St)
    requires Ok(s)
    ensures Want(s) <= 20
  {
  }

  /** Steps as long as there are enough bits. */
  function Run(s: St, bits: seq<Bit>): (r: (St, seq<Bit>))
    requires Ok(s)
    ensures Ok(r.0)
    decreases |bits|
  {
    var n := Want(s);
    if n == 0 || |bits| < n then (s, bits) else Run(Next(s, Value(bits[..n])), bits[n..])
  }

  /** Cutting the bits in two makes no difference. */
  lemma {:induction false} RunAppend(s: St, a: seq<Bit>, b: seq<Bit>)
    requires Ok(s)
    ensures Run(s, a + b) == Run(Run(s, a).0, Run(s, a).1 + b)
    decreases |a|
  {
    var n := Want(s);
    if n != 0 && |a| >= n {
      assert (a + b)[..n] == a[..n] && (a + b)[n..] == a[n..] + b;
      RunAppend(Next(s, Value(a[..n])), a[n..], b);
    }
  }

  /** One request served. */
  lemma RunStep(s: St, x: nat, rest: seq<Bit>)
    requires Ok(s) && Want(s) >= 1 && x < Pow2(Want(s))
    ensures Run(s, Spell(x, Want(s)) + rest) == Run(Next(s, x), rest)
  {
    var n := Want(s);
    var bits := Spell(x, n) + rest;
    assert bits[..n] == Spell(x, n) && bits[n..] == rest;
    ValueOfSpell(x, n);
    DivModUnique(x, Pow2(n), 0, x);
  }
}
