/** The compressed format read in the large: every field at once, from all the bits there are. It says what a stream is,
    without labels, saved variables or input that comes in pieces. */
module Reader {
  import opened Counting
  import opened Bits
  import opened HuffmanCodes
  import opened DecodeTables
  import opened MtfStage
  import opened Wire

  /** What was read and the bits behind it; or the bits are no part of a stream; or there are not enough of them. */
  datatype Parsed<T> = Got(value: T, rest: seq<Bit>) | Wrong | Short {
    predicate IsFailure() {
      !Got?
    }

    function PropagateFailure<U>(): Parsed<U>
      requires IsFailure()
    {
      if Wrong? then Wrong else Short
    }

    function Extract(): (T, seq<Bit>)
      requires !IsFailure()
    {
      (value, rest)
    }
  }

  /** A number of n bits. */
  function Num(bits: seq<Bit>, n: nat): (p: Parsed<nat>)
    ensures p.Got? ==> |p.rest| == |bits| - n
  {
    if |bits| < n then Short else Got(Value(bits[..n]), bits[n..])
  }

  /** These bytes and no others. */
  function Expect(bits: seq<Bit>, bytes: seq<int>): (p: Parsed<()>)
    ensures p.Got? ==> |p.rest| <= |bits|
    decreases |bytes|
  {
    if bytes == [] then Got((), bits)
    else
      var x :- Num(bits, 8);
      if x.0 == bytes[0] then Expect(x.1, bytes[1..]) else Wrong
  }

  /** n flags. */
  function Flags(bits: seq<Bit>, n: nat): (p: Parsed<seq<bool>>)
    ensures p.Got? ==> |p.value| == n && |p.rest| <= |bits|
  {
    if |bits| < n then Short else Got(seq(n, i requires 0 <= i < n => bits[i] == 1), bits[n..])
  }

  /** Sixteen flags for every group that is present, and none for the others. */
  function ByteMap(bits: seq<Bit>, groups: seq<bool>): (p: Parsed<seq<bool>>)
    ensures p.Got? ==> |p.value| == 16 * |groups| && |p.rest| <= |bits|
    decreases |groups|
  {
    if groups == [] then Got([], bits)
    else
      var row :- if groups[0] then Flags(bits, 16) else Got(seq(16, _ => false), bits);
      var more :- ByteMap(row.1, groups[1..]);
      Got(row.0 + more.0, more.1)
  }

  /** The bytes in use, at least one. */
  function BytesInUse(bits: seq<Bit>, groups: seq<bool>): (p: Parsed<seq<bool>>)
    requires |groups| == 16
    ensures p.Got? ==> |p.value| == 256 && |UsedList(p.value)| >= 1 && |p.rest| <= |bits|
  {
    var bytes :- ByteMap(bits, groups);
    if |UsedList(bytes.0)| == 0 then Wrong else Got(bytes.0, bytes.1)
  }

  function InUse(bits: seq<Bit>): (p: Parsed<seq<bool>>)
    ensures p.Got? ==> |p.value| == 256 && |UsedList(p.value)| >= 1 && |p.rest| <= |bits|
  {
    var groups :- Flags(bits, 16);
    BytesInUse(groups.1, groups.0)
  }

  /** As many ones as come before a zero; j have been seen, and there must be fewer than the limit. */
  function Unary(bits: seq<Bit>, j: nat, limit: nat): (p: Parsed<nat>)
    requires j < limit
    ensures p.Got? ==> p.value < limit && |p.rest| <= |bits|
    decreases |bits|
  {
    if bits == [] then Short
    else if bits[0] == 0 then Got(j, bits[1..])
    else if j + 1 == limit then Wrong
    else Unary(bits[1..], j + 1, limit)
  }

  function Unaries(bits: seq<Bit>, n: nat, limit: nat): (p: Parsed<seq<int>>)
    requires limit > 0
    ensures p.Got? ==> |p.value| == n && Wire.InRange(p.value, limit) && |p.rest| <= |bits|
    decreases n
  {
    if n == 0 then Got([], bits)
    else
      var j :- Unary(bits, 0, limit);
      var more :- Unaries(j.1, n - 1, limit);
      Got([j.0] + more.0, more.1)
  }

  /** Surplus selectors are read and forgotten. */
  function Kept(m: seq<int>): seq<int> {
    if |m| <= 18002 then m else m[..18002]
  }

  /** At least one selector, all below the number of tables, as they are coded by moving to the front. */
  function Selectors(bits: seq<Bit>, nGroups: nat): (p: Parsed<seq<int>>)
    requires nGroups > 0
    ensures p.Got? ==> 0 < |p.value| <= 18002 && Wire.InRange(p.value, nGroups) && |p.rest| <= |bits|
  {
    var n :- Num(bits, 15);
    if n.0 == 0 then Wrong
    else
      var m :- Unaries(n.1, n.0, nGroups);
      Got(Kept(m.0), m.1)
  }

  /** A code length, from 1 to 20 and never outside on the way: from the last one in steps of one, 10 for up and 11 for down,
      and 0 where it stands. */
  function Length(bits: seq<Bit>, c: int): (p: Parsed<int>)
    ensures p.Got? ==> 1 <= p.value <= 20 && |p.rest| <= |bits|
    decreases |bits|
  {
    if c < 1 || c > 20 then Wrong
    else if bits == [] then Short
    else if bits[0] == 0 then Got(c, bits[1..])
    else if |bits| == 1 then Short
    else Length(bits[2..], if bits[1] == 0 then c + 1 else c - 1)
  }

  /** n lengths, the first one relative to c. */
  function Row(bits: seq<Bit>, c: int, n: nat): (p: Parsed<seq<int>>)
    ensures p.Got? ==> |p.value| == n && RowOk(p.value) && |p.rest| <= |bits|
    decreases n
  {
    if n == 0 then Got([], bits)
    else
      var l :- Length(bits, c);
      var more :- Row(l.1, l.0, n - 1);
      Got([l.0] + more.0, more.1)
  }

  /** The lengths of a table, n of them: five bits to begin with, and each relative to the one before. */
  function TableLengths(bits: seq<Bit>, n: nat): (p: Parsed<seq<int>>)
    ensures p.Got? ==> |p.value| == n && RowOk(p.value) && |p.rest| <= |bits|
  {
    var c :- Num(bits, 5);
    Row(c.1, c.0, n)
  }

  /** k tables of n lengths. */
  function Rows(bits: seq<Bit>, k: nat, n: nat): (p: Parsed<seq<seq<int>>>)
    ensures p.Got? ==> |p.value| == k && LensOk(p.value, n) && |p.rest| <= |bits|
    decreases k
  {
    if k == 0 then Got([], bits)
    else
      var row :- TableLengths(bits, n);
      var more :- Rows(row.1, k - 1, n);
      Got([row.0] + more.0, more.1)
  }

  /** A symbol: the first n bits or more, as many as the table asks for. */
  function OneSymbol(bits: seq<Bit>, t: Table, n: nat): (p: Parsed<int>)
    requires TableOk(t) && n >= 1
    ensures p.Got? ==> |p.rest| < |bits|
    decreases |bits| - n
  {
    if |bits| < n then Short
    else
      match JudgeBy(t, n, Value(bits[..n]))
      case Complete(s) => Got(s, bits[n..])
      case OneMore => OneSymbol(bits, t, n + 1)
      case Bad => Wrong
  }

  /** The symbols from the k-th on, up to the end mark, each with the table that is selected for its group of fifty. */
  function Symbols(bits: seq<Bit>, tables: seq<Table>, sel: seq<int>, mark: int, k: nat): (p: Parsed<seq<int>>)
    requires AllTablesOk(tables) && Wire.InRange(sel, |tables|)
    ensures p.Got? ==> |p.rest| <= |bits|
    decreases |bits|
  {
    if k / 50 >= |sel| then Wrong
    else
      var t := tables[sel[k / 50]];
      var s :- OneSymbol(bits, t, t.minLen);
      if s.0 == mark then Got([mark], s.1)
      else
        var more :- Symbols(s.1, tables, sel, mark, k + 1);
        Got([s.0] + more.0, more.1)
  }

  // ----- a block, from its end to its beginning

  /** The symbols, read with the tables that the selectors name. */
  function AfterTables(bits: seq<Bit>, m: seq<int>, lens: seq<seq<int>>, alphaSize: nat): (p: Parsed<seq<int>>)
    requires LensOk(lens, alphaSize) && alphaSize >= 1 && Wire.InRange(m, |lens|)
    ensures p.Got? ==> |p.rest| <= |bits|
  {
    TablesMade(lens, alphaSize);
    Symbols(bits, MakeTables(lens), UndoMtf(m, Upto(|lens|)), alphaSize - 1, 0)
  }

  function AfterSelectors(bits: seq<Bit>, m: seq<int>, nGroups: nat, alphaSize: nat): (p: Parsed<seq<int>>)
    requires Wire.InRange(m, nGroups) && alphaSize >= 1
    ensures p.Got? ==> |p.rest| <= |bits|
  {
    var lens :- Rows(bits, nGroups, alphaSize);
    AfterTables(lens.1, m, lens.0, alphaSize)
  }

  function AfterGroups(bits: seq<Bit>, nGroups: nat, alphaSize: nat): (p: Parsed<seq<int>>)
    requires nGroups > 0 && alphaSize >= 1
    ensures p.Got? ==> |p.rest| <= |bits|
  {
    var m :- Selectors(bits, nGroups);
    AfterSelectors(m.1, m.0, nGroups, alphaSize)
  }

  /** From two to six tables. */
  function AfterMap(bits: seq<Bit>, alphaSize: nat): (p: Parsed<seq<int>>)
    requires alphaSize >= 1
    ensures p.Got? ==> |p.rest| <= |bits|
  {
    var nGroups :- Num(bits, 3);
    if nGroups.0 < 2 || nGroups.0 > 6 then Wrong else AfterGroups(nGroups.1, nGroups.0, alphaSize)
  }

  /** The alphabet has a symbol for each byte in use, and two more. */
  function AfterBytes(bits: seq<Bit>, head: Head, inUse: seq<bool>): (p: Parsed<Block>)
    requires |inUse| == 256
    ensures p.Got? ==> |p.rest| <= |bits|
  {
    var syms :- AfterMap(bits, |UsedList(inUse)| + 2);
    Got(Block(head, inUse, syms.0), syms.1)
  }

  function AfterHead(bits: seq<Bit>, head: Head): (p: Parsed<Block>)
    ensures p.Got? ==> |p.rest| <= |bits|
  {
    var inUse :- InUse(bits);
    AfterBytes(inUse.1, head, inUse.0)
  }

  /** Checksum, flag and position, behind the magic bytes; the position cannot lie outside a block of this level. */
  function HeadOf(bits: seq<Bit>, level: int): (p: Parsed<Head>)
    ensures p.Got? ==> |p.rest| <= |bits|
  {
    var crc :- Num(bits, 32);
    var flag :- Num(crc.1, 1);
    var origPtr :- Num(flag.1, 24);
    if origPtr.0 > 10 + 100000 * level then Wrong else Got(Head(level, crc.0, 0, flag.0 == 1, origPtr.0), origPtr.1)
  }

  function AfterMagic(bits: seq<Bit>, level: int): (p: Parsed<Block>)
    ensures p.Got? ==> |p.rest| <= |bits|
  {
    var head :- HeadOf(bits, level);
    AfterHead(head.1, head.0)
  }

  const BLOCK_START := 0x31
  const BLOCK_REST: seq<int> := [0x41, 0x59, 0x26, 0x53, 0x59]
  const END_START := 0x17
  const END_REST: seq<int> := [0x72, 0x45, 0x38, 0x50, 0x90]
  const STREAM_START: seq<int> := [0x42, 0x5A, 0x68]

  /** A block behind the first byte of its magic. */
  function OneBlock(bits: seq<Bit>, level: int): (p: Parsed<Block>)
    ensures p.Got? ==> |p.rest| <= |bits|
  {
    var magic :- Expect(bits, BLOCK_REST);
    AfterMagic(magic.1, level)
  }

  // ----- a stream

  datatype Whole = Whole(blocks: seq<Block>, combinedCRC: nat)

  /** The trailer behind the first byte of its magic. */
  function AfterEndMagic(bits: seq<Bit>): Parsed<Whole> {
    var crc :- Num(bits, 32);
    Got(Whole([], crc.0), crc.1)
  }

  function AfterEnd(bits: seq<Bit>): Parsed<Whole> {
    var magic :- Expect(bits, END_REST);
    AfterEndMagic(magic.1)
  }

  /** A block behind the first byte of its magic, and what comes behind it. */
  function AfterStart(bits: seq<Bit>, level: int): Parsed<Whole>
    decreases |bits|, 0
  {
    var block :- OneBlock(bits, level);
    var more :- Blocks(block.1, level);
    Got(Whole([block.0] + more.0.blocks, more.0.combinedCRC), more.1)
  }

  /** Blocks up to the trailer with the combined checksum. */
  function Blocks(bits: seq<Bit>, level: int): Parsed<Whole>
    decreases |bits|, 1
  {
    var first :- Num(bits, 8);
    if first.0 == END_START then AfterEnd(first.1)
    else if first.0 == BLOCK_START then AfterStart(first.1, level)
    else Wrong
  }

  /** The magic bytes and the level, a digit from 1 to 9. */
  function Level(bits: seq<Bit>): Parsed<int> {
    var magic :- Expect(bits, STREAM_START);
    var digit :- Num(magic.1, 8);
    if 0x31 <= digit.0 <= 0x39 then Got(digit.0 - 0x30, digit.1) else Wrong
  }
}
