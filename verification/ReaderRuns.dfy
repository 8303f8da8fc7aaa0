/** The automaton over bits reads exactly what the format says: it accepts the same streams, gives the same blocks, refuses
    the same bits, and waits where bits are missing. */
module ReaderRuns {
  import opened Counting
  import opened Bits
  import opened HuffmanCodes
  import opened DecodeTables
  import opened MtfStage
  import opened Wire
  import opened BlockBits
  import opened Reader

  // ----- one request

  ghost predicate Waiting(s: St) {
    !s.at.StreamEnd? && !s.at.Failed?
  }

  ghost predicate Shown(x: int) {
    true
  }

  /** From s these bits lead where the parsed result says. Opened by Shown(0). */
  ghost predicate Leads(s: St, bits: seq<Bit>, o: Parsed<St>)
    requires Ok(s)
  {
    forall x {:trigger Shown(x)} :: Shown(x) ==>
      match o
      case Got(t, rest) => Ok(t) && Run(s, bits) == Run(t, rest)
      case Wrong => Run(s, bits).0.at == Failed(false)
      case Short => Waiting(Run(s, bits).0)
  }

  lemma Served(s: St, bits: seq<Bit>)
    requires Ok(s) && Want(s) >= 1
    ensures |bits| < Want(s) ==> Leads(s, bits, Short)
    ensures |bits| >= Want(s) ==> Leads(s, bits, Got(Next(s, Value(bits[..Want(s)])), bits[Want(s)..]))
    ensures |bits| >= Want(s) && Next(s, Value(bits[..Want(s)])).at == Failed(false) ==> Leads(s, bits, Wrong)
  {
  }

  /** A single bit. */
  lemma ServedBit(s: St, bits: seq<Bit>)
    requires Ok(s) && Want(s) == 1
    ensures bits == [] ==> Leads(s, bits, Short)
    ensures bits != [] ==> Leads(s, bits, Got(Next(s, bits[0]), bits[1..]))
    ensures bits != [] && Next(s, bits[0]).at == Failed(false) ==> Leads(s, bits, Wrong)
  {
    Served(s, bits);
    if bits != [] {
      assert bits[..1] == [bits[0]];
      assert bits[..1][..0] == [];
      assert Value([]) == 0 && Value(bits[..1]) == bits[0];
    }
  }

  lemma Stopped(v: Vars, bits: seq<Bit>)
    ensures Leads(FailData(v), bits, Wrong)
  {
  }

  // ----- magic bytes

  function BlockMagic(k: nat, v: Vars): St {
    if k < 6 then St(BlkHdr(k), v) else St(BlockCrc(0), CrcSet(v, 0))
  }

  lemma {:induction false} BlockMagicRuns(k: nat, v: Vars, bits: seq<Bit>)
    requires 1 <= k <= 6
    ensures match Expect(bits, BLOCK_MAGIC[k..])
            case Got(_, rest) => Leads(BlockMagic(k, v), bits, Got(BlockMagic(6, v), rest))
            case Wrong => Leads(BlockMagic(k, v), bits, Wrong)
            case Short => Leads(BlockMagic(k, v), bits, Short)
    decreases 6 - k
  {
    if k < 6 {
      Served(BlockMagic(k, v), bits);
      assert BLOCK_MAGIC[k..][1..] == BLOCK_MAGIC[k + 1..];
      if |bits| >= 8 {
        BlockMagicRuns(k + 1, v, bits[8..]);
      }
    }
  }

  function EndMagic(k: nat, v: Vars): St {
    if k < 6 then St(EndHdr(k), v) else St(CombCrc(0), v.(head := v.head.(storedCombinedCRC := 0)))
  }

  lemma {:induction false} EndMagicRuns(k: nat, v: Vars, bits: seq<Bit>)
    requires 1 <= k <= 6
    ensures match Expect(bits, END_MAGIC[k..])
            case Got(_, rest) => Leads(EndMagic(k, v), bits, Got(EndMagic(6, v), rest))
            case Wrong => Leads(EndMagic(k, v), bits, Wrong)
            case Short => Leads(EndMagic(k, v), bits, Short)
    decreases 6 - k
  {
    if k < 6 {
      Served(EndMagic(k, v), bits);
      assert END_MAGIC[k..][1..] == END_MAGIC[k + 1..];
      if |bits| >= 8 {
        EndMagicRuns(k + 1, v, bits[8..]);
      }
    }
  }

  /** The magic of a stream is refused in its own way. */
  lemma {:induction false} StreamMagicRuns(k: nat, v: Vars, bits: seq<Bit>)
    requires k <= 3
    ensures match Expect(bits, STREAM_MAGIC[k..])
            case Got(_, rest) => Leads(St(Magic(k), v), bits, Got(St(Magic(3), v), rest))
            case Wrong => Run(St(Magic(k), v), bits).0.at == Failed(true)
            case Short => Leads(St(Magic(k), v), bits, Short)
    decreases 3 - k
  {
    if k < 3 {
      Served(St(Magic(k), v), bits);
      assert STREAM_MAGIC[k..][1..] == STREAM_MAGIC[k + 1..];
      if |bits| >= 8 {
        StreamMagicRuns(k + 1, v, bits[8..]);
      }
    }
  }

  // ----- the head of a block

  /** Bits that are a number in whole bytes. */
  lemma AsBytes(bits: seq<Bit>, k: nat) returns (x: nat)
    requires |bits| == 8 * k
    ensures x == Value(bits) && Bytes(x, k) == bits && x < Pow2(BYTE_LEN * k)
  {
    x := Value(bits);
    SpellOfValue(bits);
    BytesSpell(x, k);
  }

  lemma {:induction false} CrcShort(k: nat, v: Vars, bits: seq<Bit>)
    requires k <= 3 && |bits| < 8 * (4 - k)
    ensures Leads(St(BlockCrc(k), v), bits, Short)
    decreases 4 - k
  {
    Served(St(BlockCrc(k), v), bits);
    if |bits| >= 8 {
      var t := NextBlockCrc(k, v, Value(bits[..8]));
      CrcShort(k + 1, t.v, bits[8..]);
    }
  }

  lemma CrcRuns(v: Vars, bits: seq<Bit>)
    ensures match Num(bits, 32)
            case Got(c, rest) => Leads(St(BlockCrc(0), CrcSet(v, 0)), bits, Got(St(RandBit, CrcSet(v, c)), rest))
            case Wrong => false
            case Short => Leads(St(BlockCrc(0), CrcSet(v, 0)), bits, Short)
  {
    if |bits| < 32 {
      CrcShort(0, CrcSet(v, 0), bits);
    } else {
      var c := AsBytes(bits[..32], 4);
      ReadCrcPart(v, c, 4);
      ReadRun(St(BlockCrc(0), CrcSet(v, 0)), Bytes(c, 4), St(RandBit, CrcSet(v, c)), bits[32..]);
      assert bits == bits[..32] + bits[32..];
    }
  }

  lemma {:induction false} CombShort(k: nat, v: Vars, bits: seq<Bit>)
    requires k <= 3 && |bits| < 8 * (4 - k)
    ensures Leads(St(CombCrc(k), v), bits, Short)
    decreases 4 - k
  {
    Served(St(CombCrc(k), v), bits);
    if |bits| >= 8 {
      var t := NextCombCrc(k, v, Value(bits[..8]));
      CombShort(k + 1, t.v, bits[8..]);
    }
  }

  function OrigAt(v: Vars, p: nat, k: nat): St {
    St(OrigPtr(k), v.(head := v.head.(origPtr := p)))
  }

  /** The third byte decides. */
  lemma OrigLast(v: Vars, p: nat, bits: seq<Bit>)
    ensures match Num(bits, 8)
            case Got(x, rest) =>
              Leads(OrigAt(v, p, 2), bits, OrigEnd(v, 256 * p + x, rest))
            case Wrong => false
            case Short => Leads(OrigAt(v, p, 2), bits, Short)
  {
    Served(OrigAt(v, p, 2), bits);
  }

  lemma ValueGrows(s: seq<Bit>, n: nat)
    requires n < |s|
    ensures Value(s) == 2 * Value(s[..|s| - 1]) + s[|s| - 1] && Value(s[n..]) == 2 * Value(s[n..|s| - 1]) + s[|s| - 1]
  {
    assert s[n..][..|s| - 1 - n] == s[n..|s| - 1];
  }

  lemma TwiceIn(x: nat, p: nat)
    ensures 2 * (x * p) == x * (2 * p)
  {
  }

  lemma {:induction false} ValueSplit(s: seq<Bit>, n: nat)
    requires n <= |s|
    ensures Value(s) == Value(s[..n]) * Pow2(|s| - n) + Value(s[n..])
    decreases |s| - n
  {
    if n == |s| {
      assert s[..n] == s;
    } else {
      var k := |s| - 1;
      ValueSplit(s[..k], n);
      ValueGrows(s, n);
      assert s[..k][..n] == s[..n] && s[..k][n..] == s[n..k];
      TwiceIn(Value(s[..n]), Pow2(k - n));
    }
  }

  /** Three bytes as one number. */
  lemma ThreeBytes(bits: seq<Bit>)
    requires |bits| >= 24
    ensures Value(bits[..24]) == 256 * (256 * Value(bits[..8]) + Value(bits[8..][..8])) + Value(bits[16..][..8])
  {
    assert Pow2(8) == 256;
    ValueSplit(bits[..24], 16);
    ValueSplit(bits[..16], 8);
    assert bits[..24][..16] == bits[..16] && bits[..24][16..] == bits[16..][..8];
    assert bits[..16][..8] == bits[..8] && bits[..16][8..] == bits[8..][..8];
  }

  function OrigEnd(v: Vars, q: nat, rest: seq<Bit>): Parsed<St> {
    if q > 10 + 100000 * v.head.blockSize100k then Wrong
    else Got(St(Mapping1, v.(head := v.head.(origPtr := q), inUse16 := [])), rest)
  }

  lemma OrigTwo(v: Vars, p: nat, bits: seq<Bit>)
    ensures |bits| < 16 ==> Leads(OrigAt(v, p, 1), bits, Short)
    ensures |bits| >= 16 ==>
              Leads(OrigAt(v, p, 1), bits, OrigEnd(v, 256 * (256 * p + Value(bits[..8])) + Value(bits[8..][..8]), bits[16..]))
  {
    Served(OrigAt(v, p, 1), bits);
    if |bits| >= 8 {
      OrigLast(v, 256 * p + Value(bits[..8]), bits[8..]);
      if |bits| >= 16 {
        assert bits[8..][8..] == bits[16..];
      }
    }
  }

  lemma OrigOne(v: Vars, bits: seq<Bit>)
    ensures |bits| < 24 ==> Leads(OrigAt(v, 0, 0), bits, Short)
    ensures |bits| >= 24 ==>
              Leads(OrigAt(v, 0, 0), bits,
                    OrigEnd(v, 256 * (256 * Value(bits[..8]) + Value(bits[8..][..8])) + Value(bits[16..][..8]), bits[24..]))
  {
    Served(OrigAt(v, 0, 0), bits);
    if |bits| >= 8 {
      OrigTwo(v, Value(bits[..8]), bits[8..]);
      if |bits| >= 24 {
        assert bits[8..][8..] == bits[16..] && bits[8..][16..] == bits[24..];
      }
    }
  }

  lemma OrigRuns(v: Vars, bits: seq<Bit>)
    ensures |bits| < 24 ==> Leads(OrigAt(v, 0, 0), bits, Short)
    ensures |bits| >= 24 ==> Leads(OrigAt(v, 0, 0), bits, OrigEnd(v, Value(bits[..24]), bits[24..]))
  {
    OrigOne(v, bits);
    if |bits| >= 24 {
      ThreeBytes(bits);
    }
  }

  function Headed(v: Vars, h: Head): St {
    St(Mapping1, v.(head := h, inUse16 := []))
  }

  lemma RandRuns(v: Vars, bits: seq<Bit>)
    ensures match Num(bits, 1)
            case Got(x, rest) => Leads(St(RandBit, v), bits, Got(OrigAt(v.(head := v.head.(blockRandomised := x == 1)), 0, 0), rest))
            case Wrong => false
            case Short => Leads(St(RandBit, v), bits, Short)
  {
    Served(St(RandBit, v), bits);
  }

  lemma HeadRuns(v: Vars, bits: seq<Bit>)
    requires v.head.storedCombinedCRC == 0
    ensures match HeadOf(bits, v.head.blockSize100k)
            case Got(h, rest) => Leads(St(BlockCrc(0), CrcSet(v, 0)), bits, Got(Headed(v, h), rest)) && h.blockSize100k == v.head.blockSize100k && h.storedCombinedCRC == 0
            case Wrong => Leads(St(BlockCrc(0), CrcSet(v, 0)), bits, Wrong)
            case Short => Leads(St(BlockCrc(0), CrcSet(v, 0)), bits, Short)
  {
    CrcRuns(v, bits);
    if |bits| >= 32 {
      var w := CrcSet(v, Value(bits[..32]));
      RandRuns(w, bits[32..]);
      if |bits| >= 33 {
        OrigRuns(w.(head := w.head.(blockRandomised := Value(bits[32..][..1]) == 1)), bits[32..][1..]);
      }
    }
  }

  // ----- the map of the bytes in use

  lemma FlagsMore(bits: seq<Bit>, n: nat)
    requires n >= 1 && bits != []
    ensures Flags(bits, n) == var o := Flags(bits[1..], n - 1); if o.Got? then Got([bits[0] == 1] + o.value, o.rest) else o
  {
    if |bits| >= n {
      assert bits[1..][n - 1..] == bits[n..];
      assert Flags(bits, n).value == [bits[0] == 1] + Flags(bits[1..], n - 1).value;
    }
  }

  /** Behind the group flags read so far the bits lead to the rows if the parsed flags say so. */
  ghost predicate GroupsLead(v: Vars, bits: seq<Bit>, p: Parsed<seq<bool>>)
    requires |v.inUse16| < 16
  {
    match p
    case Got(flags, rest) =>
      && |v.inUse16 + flags| == 16
      && Leads(St(Mapping1, v), bits, Got(NextRow(v.(inUse16 := v.inUse16 + flags, inUse := NoBytes()), 0), rest))
    case Wrong => false
    case Short => Leads(St(Mapping1, v), bits, Short)
  }

  lemma GroupsOn(v: Vars, bits: seq<Bit>, o: Parsed<seq<bool>>)
    requires |v.inUse16| < 15 && bits != [] && GroupsLead(v.(inUse16 := v.inUse16 + [bits[0] == 1]), bits[1..], o)
    ensures GroupsLead(v, bits, if o.Got? then Got([bits[0] == 1] + o.value, o.rest) else o)
  {
    ServedBit(St(Mapping1, v), bits);
    if o.Got? {
      assert v.inUse16 + [bits[0] == 1] + o.value == v.inUse16 + ([bits[0] == 1] + o.value);
    }
  }

  lemma GroupsLast(v: Vars, bits: seq<Bit>)
    requires |v.inUse16| == 15 && bits != []
    ensures GroupsLead(v, bits, Got([bits[0] == 1], bits[1..]))
  {
    ServedBit(St(Mapping1, v), bits);
  }

  lemma {:induction false} GroupsRun(v: Vars, bits: seq<Bit>)
    requires |v.inUse16| < 16
    ensures GroupsLead(v, bits, Flags(bits, 16 - |v.inUse16|))
    decreases 16 - |v.inUse16|
  {
    var n := 16 - |v.inUse16|;
    if bits == [] {
      ServedBit(St(Mapping1, v), bits);
    } else if n == 1 {
      GroupsLast(v, bits);
      assert Flags(bits, 1).value == [bits[0] == 1];
    } else {
      GroupsRun(v.(inUse16 := v.inUse16 + [bits[0] == 1]), bits[1..]);
      GroupsOn(v, bits, Flags(bits[1..], n - 1));
      FlagsMore(bits, n);
    }
  }

  /** The first bytes are known, and no others so far. */
  function Filled(pre: seq<bool>): (r: seq<bool>)
    requires |pre| <= 256
    ensures |r| == 256
  {
    pre + seq(256 - |pre|, _ => false)
  }

  lemma NextFilled(pre: seq<bool>, x: bool)
    requires |pre| < 256
    ensures Filled(pre + [x]) == if x then Filled(pre)[|pre| := true] else Filled(pre)
  {
  }

  /** From a place in row i of the byte map, behind the flags pre, the bits lead to the next row if the parsed flags say so. */
  ghost predicate RowLead(v: Vars, i: nat, pre: seq<bool>, bits: seq<Bit>, p: Parsed<seq<bool>>)
    requires i < 16 && 16 * i <= |pre| < 16 * i + 16 && MapOk(v)
  {
    match p
    case Got(row, rest) =>
      && |pre + row| == 16 * i + 16
      && Leads(St(Mapping2(i, |pre| - 16 * i), v), bits, Got(NextRow(v.(inUse := Filled(pre + row)), i + 1), rest))
    case Wrong => false
    case Short => Leads(St(Mapping2(i, |pre| - 16 * i), v), bits, Short)
  }

  /** One more flag of row i. */
  lemma NextInRow(v: Vars, i: nat, pre: seq<bool>, x: Bit)
    requires i < 16 && 16 * i <= |pre| < 16 * i + 16 && MapOk(v) && v.inUse == Filled(pre)
    ensures var w := v.(inUse := Filled(pre + [x == 1]));
      Next(St(Mapping2(i, |pre| - 16 * i), v), x) == if |pre| == 16 * i + 15 then NextRow(w, i + 1) else St(Mapping2(i, |pre| + 1 - 16 * i), w)
  {
    NextFilled(pre, x == 1);
  }

  lemma RowOn(v: Vars, i: nat, pre: seq<bool>, bits: seq<Bit>, o: Parsed<seq<bool>>)
    requires i < 16 && 16 * i <= |pre| < 16 * i + 15 && MapOk(v) && v.inUse == Filled(pre) && bits != []
    requires RowLead(v.(inUse := Filled(pre + [bits[0] == 1])), i, pre + [bits[0] == 1], bits[1..], o)
    ensures RowLead(v, i, pre, bits, if o.Got? then Got([bits[0] == 1] + o.value, o.rest) else o)
  {
    ServedBit(St(Mapping2(i, |pre| - 16 * i), v), bits);
    NextInRow(v, i, pre, bits[0]);
    if o.Got? {
      assert pre + [bits[0] == 1] + o.value == pre + ([bits[0] == 1] + o.value);
    }
  }

  lemma RowLast(v: Vars, i: nat, pre: seq<bool>, bits: seq<Bit>)
    requires i < 16 && |pre| == 16 * i + 15 && MapOk(v) && v.inUse == Filled(pre) && bits != []
    ensures RowLead(v, i, pre, bits, Got([bits[0] == 1], bits[1..]))
  {
    ServedBit(St(Mapping2(i, 15), v), bits);
    NextInRow(v, i, pre, bits[0]);
  }

  lemma {:induction false} RowRuns(v: Vars, i: nat, pre: seq<bool>, bits: seq<Bit>)
    requires i < 16 && 16 * i <= |pre| < 16 * i + 16 && MapOk(v) && v.inUse == Filled(pre)
    ensures RowLead(v, i, pre, bits, Flags(bits, 16 * i + 16 - |pre|))
    decreases 16 * i + 16 - |pre|
  {
    var n := 16 * i + 16 - |pre|;
    if bits == [] {
      ServedBit(St(Mapping2(i, |pre| - 16 * i), v), bits);
    } else if n == 1 {
      RowLast(v, i, pre, bits);
      assert Flags(bits, 1).value == [bits[0] == 1];
    } else {
      RowRuns(v.(inUse := Filled(pre + [bits[0] == 1])), i, pre + [bits[0] == 1], bits[1..]);
      RowOn(v, i, pre, bits, Flags(bits[1..], n - 1));
      FlagsMore(bits, n);
    }
  }

  /** From row i of the byte map the bits lead to its end if the parsed flags say so. */
  ghost predicate MapLead(v: Vars, i: nat, pre: seq<bool>, bits: seq<Bit>, p: Parsed<seq<bool>>)
    requires i <= 16 && |pre| == 16 * i && MapOk(v)
  {
    match p
    case Got(more, rest) => |pre + more| == 256 && Leads(NextRow(v, i), bits, Got(NextRow(v.(inUse := pre + more), 16), rest))
    case Wrong => false
    case Short => Leads(NextRow(v, i), bits, Short)
  }

  /** A row has been read, and the rest of the map behind it. */
  lemma MapOn(v: Vars, i: nat, pre: seq<bool>, row: seq<bool>, bits: seq<Bit>, rest: seq<Bit>, o: Parsed<seq<bool>>)
    requires i < 16 && |pre| == 16 * i && |row| == 16 && MapOk(v) && v.inUse16[i] && RowLead(v, i, pre, bits, Got(row, rest))
    requires MapLead(v.(inUse := Filled(pre + row)), i + 1, pre + row, rest, o)
    ensures MapLead(v, i, pre, bits, if o.Got? then Got(row + o.value, o.rest) else o)
  {
    if o.Got? {
      assert pre + row + o.value == pre + (row + o.value);
    }
  }

  /** A row without bytes in use is not sent. */
  lemma MapOver(v: Vars, i: nat, pre: seq<bool>, row: seq<bool>, bits: seq<Bit>, o: Parsed<seq<bool>>)
    requires i < 16 && |pre| == 16 * i && |row| == 16 && MapOk(v) && !v.inUse16[i] && MapLead(v, i + 1, pre + row, bits, o)
    ensures MapLead(v, i, pre, bits, if o.Got? then Got(row + o.value, o.rest) else o)
  {
    if o.Got? {
      assert pre + row + o.value == pre + (row + o.value);
    }
  }

  lemma {:induction false} MapRuns(v: Vars, i: nat, pre: seq<bool>, bits: seq<Bit>, groups: seq<bool>)
    requires i <= 16 && |pre| == 16 * i && MapOk(v) && v.inUse == Filled(pre) && groups == v.inUse16[i..]
    ensures MapLead(v, i, pre, bits, ByteMap(bits, groups))
    decreases 16 - i, 1
  {
    if i == 16 {
      assert Filled(pre) == pre == pre + [];
    } else if groups[0] {
      RowRuns(v, i, pre, bits);
      if |bits| >= 16 {
        MapSent(v, i, pre, bits, groups);
      }
    } else {
      var row := seq(16, _ => false);
      assert Filled(pre + row) == Filled(pre);
      assert groups[1..] == v.inUse16[i + 1..];
      MapRuns(v, i + 1, pre + row, bits, groups[1..]);
      MapOver(v, i, pre, row, bits, ByteMap(bits, groups[1..]));
    }
  }

  lemma {:induction false} MapSent(v: Vars, i: nat, pre: seq<bool>, bits: seq<Bit>, groups: seq<bool>)
    requires i < 16 && |pre| == 16 * i && MapOk(v) && v.inUse == Filled(pre) && groups == v.inUse16[i..] && groups[0]
    requires |bits| >= 16 && RowLead(v, i, pre, bits, Flags(bits, 16))
    ensures MapLead(v, i, pre, bits, ByteMap(bits, groups))
    decreases 16 - i, 0
  {
    var row, rest := Flags(bits, 16).value, bits[16..];
    assert groups[1..] == v.inUse16[i + 1..];
    MapRuns(v.(inUse := Filled(pre + row)), i + 1, pre + row, rest, groups[1..]);
    MapOn(v, i, pre, row, bits, rest, ByteMap(rest, groups[1..]));
  }

  /** From s the bits lead behind the map if the parsed bytes in use say so. */
  ghost predicate UseLeads(s: St, bits: seq<Bit>, v: Vars, p: Parsed<seq<bool>>, w: Vars) {
    && Ok(s)
    && match p
       case Got(inUse, rest) => w == v.(inUse16 := w.inUse16, inUse := inUse) && Leads(s, bits, Got(St(SelGroups, w), rest))
       case Wrong => Leads(s, bits, Wrong)
       case Short => Leads(s, bits, Short)
  }

  lemma UseFollows(s: St, bits: seq<Bit>, t: St, rest: seq<Bit>, v: Vars, p: Parsed<seq<bool>>, w: Vars)
    requires Ok(s) && Ok(t) && Leads(s, bits, Got(t, rest)) && UseLeads(t, rest, v, p, w)
    ensures UseLeads(s, bits, v, p, w)
  {
  }

  /** A map without any byte in use is refused. */
  lemma UsedOrNot(v: Vars, rest: seq<Bit>)
    requires MapOk(v)
    ensures |UsedList(v.inUse)| == 0 ==> Leads(NextRow(v, 16), rest, Wrong)
    ensures |UsedList(v.inUse)| > 0 ==> NextRow(v, 16) == St(SelGroups, v)
  {
    Stopped(v, rest);
  }

  function WithGroups(v: Vars, groups: seq<bool>): Vars {
    v.(inUse16 := groups, inUse := NoBytes())
  }

  lemma BytesRun(v: Vars, groups: seq<bool>, bits: seq<Bit>) returns (w: Vars)
    requires |groups| == 16
    ensures UseLeads(NextRow(WithGroups(v, groups), 0), bits, v, BytesInUse(bits, groups), w)
  {
    var u := WithGroups(v, groups);
    assert NoBytes() == Filled([]) && groups[0..] == groups;
    MapRuns(u, 0, [], bits, groups);
    w := v;
    var o := ByteMap(bits, groups);
    if o.Got? {
      assert [] + o.value == o.value;
      w := u.(inUse := o.value);
      UsedOrNot(w, o.rest);
    }
  }

  lemma RowsRun(v: Vars, bits: seq<Bit>, groups: seq<bool>, rest: seq<Bit>) returns (w: Vars)
    requires v.inUse16 == [] && |groups| == 16 && GroupsLead(v, bits, Got(groups, rest))
    ensures UseLeads(St(Mapping1, v), bits, v, BytesInUse(rest, groups), w)
  {
    assert [] + groups == groups;
    w := BytesRun(v, groups, rest);
    UseFollows(St(Mapping1, v), bits, NextRow(WithGroups(v, groups), 0), rest, v, BytesInUse(rest, groups), w);
  }

  lemma InUseRuns(v: Vars, bits: seq<Bit>) returns (w: Vars)
    requires v.inUse16 == []
    ensures UseLeads(St(Mapping1, v), bits, v, InUse(bits), w)
  {
    GroupsRun(v, bits);
    w := v;
    if |bits| >= 16 {
      w := RowsRun(v, bits, Flags(bits, 16).value, bits[16..]);
    }
  }
}
