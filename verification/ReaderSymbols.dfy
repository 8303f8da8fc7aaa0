/** The automaton reads the symbols of a block as the format says. */
module ReaderSymbols {
  import opened Counting
  import opened Bits
  import opened HuffmanCodes
  import opened DecodeTables
  import opened MtfStage
  import opened Wire
  import opened Reader
  import opened ReaderRuns

  // ----- one symbol

  /** n bits with the value z have been read. */
  function SoFar(v: Vars, n: nat, z: nat): Vars {
    v.(sym := v.sym.(zn := n, zvec := z))
  }

  function TableOf(v: Vars): Table
    requires SymOk(v)
  {
    v.sym.tables[v.sym.gSel]
  }

  lemma NextAsked(v: Vars, n: nat, z: nat, x: nat)
    requires SymOk(v) && 1 <= n <= LONGEST + 1 && JudgeBy(TableOf(v), n, z).OneMore?
    ensures n <= LONGEST && Decide(SoFar(v, n, z)) == St(Mtf2, SoFar(v, n + 1, z)) && Ok(St(Mtf2, SoFar(v, n + 1, z)))
    ensures Next(St(Mtf2, SoFar(v, n + 1, z)), x) == Decide(SoFar(v, n + 1, 2 * z + x))
  {
    var s := SoFar(v, n + 1, z);
    assert s.(sym := s.sym.(zvec := 2 * z + x)) == SoFar(v, n + 1, 2 * z + x);
  }

  lemma OneBit(bits: seq<Bit>, n: nat)
    requires n < |bits|
    ensures Value(bits[..n + 1]) == 2 * Value(bits[..n]) + bits[n] && bits[n..][0] == bits[n] && bits[n..][1..] == bits[n + 1..]
  {
    assert bits[..n + 1][..n] == bits[..n];
  }

  lemma AskMore(v: Vars, bits: seq<Bit>, n: nat)
    requires SymOk(v) && 1 <= n <= LONGEST + 1 && n <= |bits| && JudgeBy(TableOf(v), n, Value(bits[..n])).OneMore?
    ensures n <= LONGEST
    ensures |bits| == n ==> Leads(Decide(SoFar(v, n, Value(bits[..n]))), bits[n..], Short)
    ensures |bits| > n ==>
              Leads(Decide(SoFar(v, n, Value(bits[..n]))), bits[n..], Got(Decide(SoFar(v, n + 1, Value(bits[..n + 1]))), bits[n + 1..]))
  {
    var s, x := St(Mtf2, SoFar(v, n + 1, Value(bits[..n]))), if |bits| > n then bits[n] else 0;
    NextAsked(v, n, Value(bits[..n]), x);
    ServedBit(s, bits[n..]);
    if |bits| > n {
      OneBit(bits, n);
    }
  }

  /** With n bits read the others lead where the parsed symbol says. */
  ghost predicate SymbolLeads(v: Vars, bits: seq<Bit>, n: nat, p: Parsed<int>, n1: nat, z1: nat) {
    && SymOk(v) && 1 <= n <= LONGEST + 1 && n <= |bits|
    && match p
       case Got(s, rest) => Leads(Decide(SoFar(v, n, Value(bits[..n]))), bits[n..], Got(GotSym(SoFar(v, n1, z1), s), rest))
       case Wrong => Leads(Decide(SoFar(v, n, Value(bits[..n]))), bits[n..], Wrong)
       case Short => Leads(Decide(SoFar(v, n, Value(bits[..n]))), bits[n..], Short)
  }

  lemma OneBitMore(v: Vars, bits: seq<Bit>, n: nat, p: Parsed<int>, n1: nat, z1: nat)
    requires SymOk(v) && 1 <= n <= LONGEST && n < |bits| && SymbolLeads(v, bits, n + 1, p, n1, z1)
    requires Leads(Decide(SoFar(v, n, Value(bits[..n]))), bits[n..], Got(Decide(SoFar(v, n + 1, Value(bits[..n + 1]))), bits[n + 1..]))
    ensures SymbolLeads(v, bits, n, p, n1, z1)
  {
  }

  /** The first n bits are judged; others are asked for one by one. */
  lemma {:induction false} DecideRuns(v: Vars, bits: seq<Bit>, n: nat) returns (n1: nat, z1: nat)
    requires SymOk(v) && 1 <= n <= LONGEST + 1 && n <= |bits|
    ensures SymbolLeads(v, bits, n, OneSymbol(bits, TableOf(v), n), n1, z1)
    decreases |bits| - n
  {
    n1, z1 := n, Value(bits[..n]);
    if JudgeBy(TableOf(v), n, z1).OneMore? {
      AskMore(v, bits, n);
      if |bits| > n {
        n1, z1 := DecideRuns(v, bits, n + 1);
        OneBitMore(v, bits, n, OneSymbol(bits, TableOf(v), n + 1), n1, z1);
      }
    } else {
      Stopped(SoFar(v, n, z1), bits[n..]);
    }
  }

  lemma SymbolRuns(v: Vars, bits: seq<Bit>) returns (n: nat, z: nat)
    requires SymOk(v) && 1 <= v.sym.zn <= LONGEST
    ensures match OneSymbol(bits, TableOf(v), v.sym.zn)
            case Got(s, rest) => Leads(St(Mtf1, v), bits, Got(GotSym(SoFar(v, n, z), s), rest))
            case Wrong => Leads(St(Mtf1, v), bits, Wrong)
            case Short => Leads(St(Mtf1, v), bits, Short)
  {
    n, z := 0, 0;
    Served(St(Mtf1, v), bits);
    if |bits| >= v.sym.zn {
      assert v.(sym := v.sym.(zvec := Value(bits[..v.sym.zn]))) == SoFar(v, v.sym.zn, Value(bits[..v.sym.zn]));
      n, z := DecideRuns(v, bits, v.sym.zn);
    }
  }

  // ----- all symbols

  /** Symbol k comes next: the groups of fifty and the places in them are counted as the program does it. */
  ghost predicate Due(v: Vars, k: nat) {
    && TablesOk(v)
    && (if k % 50 == 0 then v.sym.groupPos == 0 && v.sym.groupNo == k / 50 - 1
        else v.sym.groupPos == 50 - k % 50 && v.sym.groupNo == k / 50 && v.sym.gSel == v.sel.selector[k / 50])
  }

  lemma Begins(v: Vars, k: nat)
    requires Due(v, k)
    ensures k / 50 >= |v.sel.selector| ==> StartSym(v) == FailData(v)
    ensures k / 50 < |v.sel.selector| ==>
              var w := StartSym(v).v;
              && StartSym(v) == St(Mtf1, w) && w == v.(sym := w.sym) && w.sym.tables == v.sym.tables && w.sym.syms == v.sym.syms
              && SymOk(w) && w.sym.gSel == v.sel.selector[k / 50] && w.sym.zn == v.sym.tables[w.sym.gSel].minLen
              && forall n, z, s :: Due(SoFar(w, n, z).(sym := SoFar(w, n, z).sym.(syms := w.sym.syms + [s])), k + 1)
  {
  }

  ghost predicate Over(v: Vars, w: Vars, syms: seq<int>) {
    w.head == v.head && w.done == v.done + [Block(v.head, v.inUse, syms)]
  }

  /** From the next symbol on the bits lead where the parsed symbols say. */
  ghost predicate SymbolsLead(v: Vars, k: nat, bits: seq<Bit>, p: Parsed<seq<int>>, w: Vars) {
    && Due(v, k)
    && match p
       case Got(more, rest) => Leads(StartSym(v), bits, Got(St(BlkHdr(0), w), rest)) && Over(v, w, v.sym.syms + more)
       case Wrong => Leads(StartSym(v), bits, Wrong)
       case Short => Leads(StartSym(v), bits, Short)
  }

  lemma MoreSymbols(v: Vars, k: nat, bits: seq<Bit>, u: Vars, s: int, rest: seq<Bit>, o: Parsed<seq<int>>, w: Vars)
    requires Due(v, k) && u == v.(sym := u.sym) && u.sym.syms == v.sym.syms + [s]
    requires Due(u, k + 1) && Leads(StartSym(v), bits, Got(StartSym(u), rest)) && SymbolsLead(u, k + 1, rest, o, w)
    ensures SymbolsLead(v, k, bits, if o.Got? then Got([s] + o.value, o.rest) else o, w)
  {
    if o.Got? {
      assert v.sym.syms + [s] + o.value == v.sym.syms + ([s] + o.value);
    }
  }

  ghost predicate OneTaken(v: Vars, k: nat, bits: seq<Bit>, p: Parsed<int>, w: Vars)
    requires Due(v, k)
  {
    match p
    case Got(s, rest) =>
      if s == NInUse(v) + 1 then SymbolsLead(v, k, bits, Got([s], rest), w)
      else
        && Due(w, k + 1) && w == v.(sym := w.sym) && w.sym.tables == v.sym.tables && w.sym.syms == v.sym.syms + [s]
        && Leads(StartSym(v), bits, Got(StartSym(w), rest))
    case Wrong => SymbolsLead(v, k, bits, Wrong, w)
    case Short => SymbolsLead(v, k, bits, Short, w)
  }

  /** One symbol taken: the end, or the next one is due. */
  lemma TakeOne(v: Vars, k: nat, bits: seq<Bit>) returns (w: Vars)
    requires Due(v, k) && k / 50 < |v.sel.selector|
    ensures var t := v.sym.tables[v.sel.selector[k / 50]];
      OneTaken(v, k, bits, OneSymbol(bits, t, t.minLen), w)
  {
    w := v;
    Begins(v, k);
    var u := StartSym(v).v;
    var n, z := SymbolRuns(u, bits);
    var s := OneSymbol(bits, TableOf(u), u.sym.zn);
    if s.Got? {
      var x := SoFar(u, n, z);
      w := if s.value == NInUse(v) + 1 then GotSym(x, s.value).v else x.(sym := x.sym.(syms := x.sym.syms + [s.value]));
    }
  }

  ghost predicate ReadBy(v: Vars, tables: seq<Table>, sel: seq<int>, mark: int) {
    TablesOk(v) && tables == v.sym.tables && sel == v.sel.selector && mark == NInUse(v) + 1
  }

  lemma SymbolsOn(v: Vars, k: nat, bits: seq<Bit>, tables: seq<Table>, sel: seq<int>, mark: int, u: Vars, s: int, rest: seq<Bit>, w: Vars)
    requires Due(v, k) && ReadBy(v, tables, sel, mark) && k / 50 < |sel| && s != mark && |rest| < |bits|
    requires OneSymbol(bits, tables[sel[k / 50]], tables[sel[k / 50]].minLen) == Got(s, rest) && OneTaken(v, k, bits, Got(s, rest), u)
    requires SymbolsLead(u, k + 1, rest, Symbols(rest, tables, sel, mark, k + 1), w)
    ensures SymbolsLead(v, k, bits, Symbols(bits, tables, sel, mark, k), w)
  {
    MoreSymbols(v, k, bits, u, s, rest, Symbols(rest, tables, sel, mark, k + 1), w);
  }

  lemma SymbolsStop(v: Vars, k: nat, bits: seq<Bit>, tables: seq<Table>, sel: seq<int>, mark: int, w: Vars)
    requires Due(v, k) && ReadBy(v, tables, sel, mark) && k / 50 < |sel|
    requires var p := OneSymbol(bits, tables[sel[k / 50]], tables[sel[k / 50]].minLen);
      OneTaken(v, k, bits, p, w) && (p.Got? ==> p.value == mark)
    ensures SymbolsLead(v, k, bits, Symbols(bits, tables, sel, mark, k), w)
  {
  }

  lemma {:induction false} SymbolsBy(v: Vars, k: nat, bits: seq<Bit>, tables: seq<Table>, sel: seq<int>, mark: int) returns (w: Vars)
    requires Due(v, k) && ReadBy(v, tables, sel, mark)
    ensures SymbolsLead(v, k, bits, Symbols(bits, tables, sel, mark, k), w)
    decreases |bits|, 0
  {
    w := v;
    if k / 50 >= |sel| {
      Begins(v, k);
    } else {
      w := TakeOne(v, k, bits);
      var s := OneSymbol(bits, tables[sel[k / 50]], tables[sel[k / 50]].minLen);
      if s.Got? && s.value != mark {
        w := SymbolsFrom(v, k, bits, tables, sel, mark, w, s.value, s.rest);
      } else {
        SymbolsStop(v, k, bits, tables, sel, mark, w);
      }
    }
  }

  lemma {:induction false} SymbolsFrom(v: Vars, k: nat, bits: seq<Bit>, tables: seq<Table>, sel: seq<int>, mark: int,
                                       u: Vars, s: int, rest: seq<Bit>) returns (w: Vars)
    requires Due(v, k) && ReadBy(v, tables, sel, mark) && k / 50 < |sel| && s != mark && |rest| < |bits|
    requires OneSymbol(bits, tables[sel[k / 50]], tables[sel[k / 50]].minLen) == Got(s, rest) && OneTaken(v, k, bits, Got(s, rest), u)
    ensures SymbolsLead(v, k, bits, Symbols(bits, tables, sel, mark, k), w)
    decreases |rest|, 1
  {
    w := SymbolsBy(u, k + 1, rest, tables, sel, mark);
    SymbolsOn(v, k, bits, tables, sel, mark, u, s, rest, w);
  }

  lemma SymbolsRun(v: Vars, k: nat, bits: seq<Bit>) returns (w: Vars)
    requires Due(v, k)
    ensures SymbolsLead(v, k, bits, Symbols(bits, v.sym.tables, v.sel.selector, NInUse(v) + 1, k), w)
  {
    w := SymbolsBy(v, k, bits, v.sym.tables, v.sel.selector, NInUse(v) + 1);
  }
}
