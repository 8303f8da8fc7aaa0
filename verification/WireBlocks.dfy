/** What every reachable state of the bit stream reader guarantees about the blocks it hands on. */
module WireBlocks {
  import opened Counting
  import opened Bits
  import opened HuffmanCodes
  import opened DecodeTables
  import opened MtfStage
  import opened Wire
  import opened BlockDecoder

  ghost predicate PermOk(t: Table, n: int) {
    forall i {:trigger t.perm[i]} :: 0 <= i < |t.perm| ==> 0 <= t.perm[i] < n
  }

  ghost predicate PermsOk(ts: seq<Table>, n: int) {
    forall i {:trigger ts[i]} :: 0 <= i < |ts| ==> PermOk(ts[i], n)
  }

  ghost predicate LevelOk(v: Vars) {
    1 <= v.head.blockSize100k <= 9
  }

  ghost predicate AllReadable(done: seq<Block>) {
    forall i {:trigger done[i]} :: 0 <= i < |done| ==> Readable(done[i])
  }

  /** Known while symbols are read. */
  ghost predicate SymsOk(v: Vars) {
    PermsOk(v.sym.tables, AlphaSize(v)) && InRange(v.sym.syms, AlphaSize(v))
  }

  ghost predicate Known(s: St) {
    AllReadable(s.v.done)
    && match s.at
       case Magic(_) => true
       case Failed(_) => true
       case Mtf1 => LevelOk(s.v) && SymsOk(s.v)
       case Mtf2 => LevelOk(s.v) && SymsOk(s.v)
       case _ => LevelOk(s.v)
  }

  /** At most one block is added at a time. */
  ghost predicate Grows(a: seq<Block>, b: seq<Block>) {
    b == a || (|b| == |a| + 1 && b[..|a|] == a)
  }

  // ----- the steps that start and end a block

  lemma TablePerm(row: seq<int>)
    requires RowOk(row) && 0 < |row|
    ensures PermOk(MakeTable(row), |row|)
  {
    var lo, hi := MinLen(row, |row|), MaxLen(row, |row|);
    RowRange(row);
    SortedAt(row, lo, hi);
    var s, t := Sorted(row, lo, hi), MakeTable(row);
    forall i | 0 <= i < |t.perm|
      ensures 0 <= t.perm[i] < |row|
    {
      if i < |s| {
        assert t.perm[i] == s[i];
      }
    }
  }

  lemma TablesPerm(lens: seq<seq<int>>, n: nat)
    requires LensOk(lens, n) && n >= 1
    ensures PermsOk(MakeTables(lens), n)
  {
    forall i | 0 <= i < |MakeTables(lens)|
      ensures PermOk(MakeTables(lens)[i], n)
    {
      TablePerm(lens[i]);
    }
  }

  lemma StartSymKnown(v: Vars)
    requires TablesOk(v) && (v.sym.groupPos > 0 ==> 0 <= v.sym.gSel < v.sel.nGroups) && LevelOk(v) && SymsOk(v) && AllReadable(v.done)
    ensures Known(StartSym(v)) && StartSym(v).v.done == v.done
  {
  }

  lemma CodingDoneKnown(v: Vars)
    requires SelectorsOk(v) && LensOk(v.cod.len, AlphaSize(v)) && |v.cod.len| == v.sel.nGroups && LevelOk(v) && AllReadable(v.done)
    ensures Known(CodingDone(v)) && CodingDone(v).v.done == v.done
  {
    TablesMade(v.cod.len, AlphaSize(v));
    TablesPerm(v.cod.len, AlphaSize(v));
    StartSymKnown(v.(sym := Sym(MakeTables(v.cod.len), -1, 0, 0, 0, 0, [])));
  }

  lemma GotSymKnown(v: Vars, s: int)
    requires SymOk(v) && LevelOk(v) && SymsOk(v) && AllReadable(v.done) && 0 <= s < AlphaSize(v)
    ensures Known(GotSym(v, s)) && Grows(v.done, GotSym(v, s).v.done)
  {
    var syms := v.sym.syms + [s];
    if s == NInUse(v) + 1 {
      assert Readable(Block(v.head, v.inUse, syms));
    } else {
      StartSymKnown(v.(sym := v.sym.(syms := syms)));
    }
  }

  lemma DecideKnown(v: Vars)
    requires SymOk(v) && 1 <= v.sym.zn <= LONGEST + 1 && LevelOk(v) && SymsOk(v) && AllReadable(v.done)
    ensures Known(Decide(v)) && Grows(v.done, Decide(v).v.done)
  {
    var t := v.sym.tables[v.sym.gSel];
    match JudgeBy(t, v.sym.zn, v.sym.zvec) {
      case Complete(s) => GotSymKnown(v, s);
      case _ =>
    }
  }

  lemma NextLengthKnown(v: Vars)
    requires CodingOk(v) && 1 <= v.cod.curr <= LONGEST && LevelOk(v) && AllReadable(v.done)
    ensures Known(NextLength(v)) && NextLength(v).v.done == v.done
  {
    var row := v.cod.row + [v.cod.curr];
    var len := v.cod.len + [row];
    if |row| == AlphaSize(v) && |len| == v.sel.nGroups {
      CodingDoneKnown(v.(cod := Cod(len, [], v.cod.curr)));
    }
  }

  lemma {:induction false} NextRowKnown(v: Vars, i: nat)
    requires MapOk(v) && i <= 16 && LevelOk(v) && AllReadable(v.done)
    ensures Known(NextRow(v, i)) && NextRow(v, i).v.done == v.done
    decreases 16 - i
  {
    if i < 16 && !v.inUse16[i] {
      NextRowKnown(v, i + 1);
    }
  }

  lemma HeaderKnown(s: St, x: nat)
    requires Ok(s) && Known(s)
    requires s.at.Magic? || s.at.BlkHdr? || s.at.BlockCrc? || s.at.RandBit? || s.at.OrigPtr? || s.at.EndHdr? || s.at.CombCrc?
    ensures Known(Next(s, x)) && Next(s, x).v.done == s.v.done
  {
  }

  lemma MapKnown(s: St, x: nat)
    requires Ok(s) && Known(s) && (s.at.Mapping1? || s.at.Mapping2?)
    ensures Known(Next(s, x)) && Next(s, x).v.done == s.v.done
  {
    var v := s.v;
    match s.at {
      case Mapping1 =>
        var v' := v.(inUse16 := v.inUse16 + [x == 1]);
        if |v'.inUse16| == 16 {
          NextRowKnown(v'.(inUse := NoBytes()), 0);
        }
      case Mapping2(i, j) =>
        if j == 15 {
          NextRowKnown(if x == 1 then v.(inUse := v.inUse[16 * i + j := true]) else v, i + 1);
        }
    }
  }

  lemma SelectorKnown(s: St, x: nat)
    requires Ok(s) && Known(s) && (s.at.SelGroups? || s.at.SelCount? || s.at.SelUnary?)
    ensures Known(Next(s, x)) && Next(s, x).v.done == s.v.done
  {
  }

  lemma CodingKnown(s: St, x: nat)
    requires Ok(s) && Known(s) && (s.at.Coding1? || s.at.Coding2? || s.at.Coding3?)
    ensures Known(Next(s, x)) && Next(s, x).v.done == s.v.done
  {
    if s.at.Coding2? && x == 0 {
      NextLengthKnown(s.v);
    }
  }

  lemma MoreKnown(s: St, x: nat)
    requires Ok(s) && Known(s) && s.at.Mtf2?
    ensures Known(Next(s, x)) && Grows(s.v.done, Next(s, x).v.done)
  {
    var v := s.v.(sym := s.v.sym.(zvec := 2 * s.v.sym.zvec + x));
    DecideKnown(v);
    assert Next(s, x) == Decide(v);
  }

  lemma FirstKnown(s: St, x: nat)
    requires Ok(s) && Known(s) && s.at.Mtf1?
    ensures Known(Next(s, x)) && Grows(s.v.done, Next(s, x).v.done)
  {
    DecideKnown(s.v.(sym := s.v.sym.(zvec := x)));
  }

  lemma SymbolKnown(s: St, x: nat)
    requires Ok(s) && Known(s) && (s.at.Mtf1? || s.at.Mtf2?)
    ensures Known(Next(s, x)) && Grows(s.v.done, Next(s, x).v.done)
  {
    if s.at.Mtf1? {
      FirstKnown(s, x);
    } else {
      MoreKnown(s, x);
    }
  }

  /** One step keeps what is known, and hands on at most one block, which the later stages can work on. */
  lemma NextKnown(s: St, x: nat)
    requires Ok(s) && Known(s)
    ensures Known(Next(s, x)) && Grows(s.v.done, Next(s, x).v.done)
  {
    match s.at {
      case Mapping1 => MapKnown(s, x);
      case Mapping2(_, _) => MapKnown(s, x);
      case SelGroups => SelectorKnown(s, x);
      case SelCount => SelectorKnown(s, x);
      case SelUnary(_, _) => SelectorKnown(s, x);
      case Coding1 => CodingKnown(s, x);
      case Coding2 => CodingKnown(s, x);
      case Coding3 => CodingKnown(s, x);
      case Mtf1 => SymbolKnown(s, x);
      case Mtf2 => SymbolKnown(s, x);
      case StreamEnd =>
      case Failed(_) =>
      case _ => HeaderKnown(s, x);
    }
  }
}
