/** The automaton reads selectors, code lengths and symbols as the format says. */
module ReaderCodes {
  import opened Counting
  import opened Bits
  import opened HuffmanCodes
  import opened DecodeTables
  import opened MtfStage
  import opened Wire
  import opened Reader
  import opened ReaderRuns

  // ----- selectors

  /** A zero ends the number. */
  lemma {:induction false} UnaryRuns(i: nat, j: nat, v: Vars, bits: seq<Bit>)
    requires Ok(St(SelUnary(i, j), v))
    ensures match Unary(bits, j, v.sel.nGroups)
            case Got(x, rest) => Ok(St(SelUnary(i, x), v)) && Leads(St(SelUnary(i, j), v), bits, Got(NextSelUnary(i, x, v, 0), rest))
            case Wrong => Leads(St(SelUnary(i, j), v), bits, Wrong)
            case Short => Leads(St(SelUnary(i, j), v), bits, Short)
    decreases |bits|
  {
    ServedBit(St(SelUnary(i, j), v), bits);
    if bits != [] && bits[0] == 1 && j + 1 != v.sel.nGroups {
      UnaryRuns(i, j + 1, v, bits[1..]);
    }
  }

  /** With the selectors m read so far, of n. */
  function SelVars(v: Vars, m: seq<int>, n: nat): Vars {
    v.(sel := v.sel.(nSelectors := n, selectorMtf := Kept(m)))
  }

  ghost predicate SelReady(v: Vars, m: seq<int>, n: nat) {
    SelectOk(v) && Wire.InRange(m, v.sel.nGroups) && |m| <= n && n > 0
  }

  function SelAt(v: Vars, m: seq<int>, n: nat): St
    requires SelReady(v, m, n)
  {
    if |m| < n then St(SelUnary(|m|, 0), SelVars(v, m, n)) else SelectorsDone(SelVars(v, m, n))
  }

  lemma SelNext(v: Vars, m: seq<int>, n: nat, x: nat)
    requires SelReady(v, m, n) && |m| < n && x < v.sel.nGroups
    ensures SelReady(v, m + [x], n) && Ok(St(SelUnary(|m|, x), SelVars(v, m, n)))
    ensures NextSelUnary(|m|, x, SelVars(v, m, n), 0) == SelAt(v, m + [x], n)
  {
    if |m| < MAX_SELECTORS {
      assert Kept(m + [x]) == Kept(m) + [x];
    } else {
      assert Kept(m + [x]) == Kept(m);
    }
  }

  lemma SelStep(v: Vars, m: seq<int>, n: nat, bits: seq<Bit>)
    requires SelReady(v, m, n) && |m| < n
    ensures match Unary(bits, 0, v.sel.nGroups)
            case Got(x, rest) => SelReady(v, m + [x], n) && Leads(SelAt(v, m, n), bits, Got(SelAt(v, m + [x], n), rest))
            case Wrong => Leads(SelAt(v, m, n), bits, Wrong)
            case Short => Leads(SelAt(v, m, n), bits, Short)
  {
    UnaryRuns(|m|, 0, SelVars(v, m, n), bits);
    var j := Unary(bits, 0, v.sel.nGroups);
    if j.Got? {
      SelNext(v, m, n, j.value);
    }
  }

  lemma Assoc<T>(a: seq<T>, x: T, b: seq<T>)
    ensures a + [x] + b == a + ([x] + b)
  {
  }

  /** Behind the selectors m the bits lead to as many more as the parsed ones say. */
  ghost predicate SelLead(v: Vars, m: seq<int>, n: nat, bits: seq<Bit>, p: Parsed<seq<int>>) {
    && SelReady(v, m, n)
    && match p
       case Got(more, rest) => SelReady(v, m + more, n) && Leads(SelAt(v, m, n), bits, Got(SelAt(v, m + more, n), rest))
       case Wrong => Leads(SelAt(v, m, n), bits, Wrong)
       case Short => Leads(SelAt(v, m, n), bits, Short)
  }

  lemma MoreSel(v: Vars, m: seq<int>, n: nat, bits: seq<Bit>, x: int, rest: seq<Bit>, o: Parsed<seq<int>>)
    requires SelReady(v, m, n) && SelLead(v, m + [x], n, rest, o) && Leads(SelAt(v, m, n), bits, Got(SelAt(v, m + [x], n), rest))
    ensures SelLead(v, m, n, bits, if o.Got? then Got([x] + o.value, o.rest) else o)
  {
    if o.Got? {
      Assoc(m, x, o.value);
    }
  }

  lemma {:induction false} UnariesRun(v: Vars, m: seq<int>, n: nat, bits: seq<Bit>)
    requires SelReady(v, m, n)
    ensures SelLead(v, m, n, bits, Unaries(bits, n - |m|, v.sel.nGroups))
    decreases n - |m|
  {
    if |m| == n {
      assert m + [] == m;
    } else {
      SelStep(v, m, n, bits);
      var j := Unary(bits, 0, v.sel.nGroups);
      if j.Got? {
        UnariesRun(v, m + [j.value], n, j.rest);
        MoreSel(v, m, n, bits, j.value, j.rest, Unaries(j.rest, n - |m| - 1, v.sel.nGroups));
      }
    }
  }

  /** The state in which the tables are about to be read. */
  function Selected(v: Vars, m: seq<int>): St
    requires SelectOk(v) && Wire.InRange(m, v.sel.nGroups) && |m| >= 1
  {
    SelectorsDone(v.(sel := v.sel.(selectorMtf := m)))
  }

  lemma Fifteen()
    ensures Pow2(COUNT_LEN) == 32768
  {
    Pow2Sum(5, 5);
    Pow2Sum(10, 5);
    assert Pow2(5) == 32;
  }

  /** From s the bits lead behind the selectors if the parsed ones say so. */
  ghost predicate SelectorsLead(s: St, bits: seq<Bit>, v: Vars, p: Parsed<seq<int>>) {
    && Ok(s) && SelectOk(v)
    && match p
       case Got(m, rest) => Wire.InRange(m, v.sel.nGroups) && |m| >= 1 && Leads(s, bits, Got(Selected(v, m), rest))
       case Wrong => Leads(s, bits, Wrong)
       case Short => Leads(s, bits, Short)
  }

  lemma SelectorsFollow(s: St, bits: seq<Bit>, t: St, rest: seq<Bit>, v: Vars, p: Parsed<seq<int>>)
    requires Ok(s) && Ok(t) && Leads(s, bits, Got(t, rest)) && SelectorsLead(t, rest, v, p)
    ensures SelectorsLead(s, bits, v, p)
  {
  }

  function KeptOf(p: Parsed<seq<int>>): Parsed<seq<int>> {
    if p.Got? then Got(Kept(p.value), p.rest) else p
  }

  lemma AllRead(v: Vars, m: seq<int>, n: nat)
    requires SelReady(v, m, n) && |m| == n
    ensures SelAt(v, m, n) == Selected(v, Kept(m))
  {
  }

  lemma CountedGot(v: Vars, n: nat, bits: seq<Bit>, m: seq<int>, rest: seq<Bit>)
    requires SelectOk(v) && n > 0 && |m| == n && SelLead(v, [], n, bits, Got(m, rest))
    ensures SelectorsLead(SelAt(v, [], n), bits, v, Got(Kept(m), rest))
  {
    assert [] + m == m;
    AllRead(v, m, n);
  }

  lemma CountedRun(v: Vars, n: nat, bits: seq<Bit>)
    requires SelectOk(v) && n > 0
    ensures SelectorsLead(SelAt(v, [], n), bits, v, KeptOf(Unaries(bits, n, v.sel.nGroups)))
  {
    UnariesRun(v, [], n, bits);
    var o := Unaries(bits, n, v.sel.nGroups);
    if o.Got? {
      CountedGot(v, n, bits, o.value, o.rest);
    }
  }

  lemma SelectorsRun(v: Vars, bits: seq<Bit>)
    requires SelectOk(v)
    ensures SelectorsLead(St(SelCount, v), bits, v, Selectors(bits, v.sel.nGroups))
  {
    Served(St(SelCount, v), bits);
    if |bits| >= 15 {
      var n := Value(bits[..15]);
      if n > 0 {
        assert Kept([]) == [];
        CountedRun(v, n, bits[15..]);
        SelectorsFollow(St(SelCount, v), bits, SelAt(v, [], n), bits[15..], v, KeptOf(Unaries(bits[15..], n, v.sel.nGroups)));
      }
    }
  }

  // ----- code lengths

  function CurrSet(v: Vars, c: int): Vars {
    v.(cod := v.cod.(curr := c))
  }

  lemma {:induction false} LengthRuns(v: Vars, c: int, bits: seq<Bit>)
    requires CodingOk(v)
    ensures match Length(bits, c)
            case Got(l, rest) => Leads(CheckCurr(CurrSet(v, c)), bits, Got(NextLength(CurrSet(v, l)), rest))
            case Wrong => Leads(CheckCurr(CurrSet(v, c)), bits, Wrong)
            case Short => Leads(CheckCurr(CurrSet(v, c)), bits, Short)
    decreases |bits|
  {
    var w := CurrSet(v, c);
    if 1 <= c <= 20 {
      ServedBit(St(Coding2, w), bits);
      if bits != [] && bits[0] == 1 {
        ServedBit(St(Coding3, w), bits[1..]);
        if |bits| > 1 {
          var d := if bits[1] == 0 then c + 1 else c - 1;
          assert bits[1..][1..] == bits[2..];
          assert CurrSet(w, d) == CurrSet(v, d);
          LengthRuns(v, d, bits[2..]);
        }
      }
    }
  }

  /** The lengths row of the current table have been read. */
  function RowVars(v: Vars, row: seq<int>, c: int): Vars {
    v.(cod := v.cod.(row := row, curr := c))
  }

  function TablesAt(v: Vars, len: seq<seq<int>>, c: int): St
    requires SelectorsOk(v) && LensOk(len, AlphaSize(v)) && |len| <= v.sel.nGroups
  {
    if |len| < v.sel.nGroups then St(Coding1, v.(cod := Cod(len, [], c))) else CodingDone(v.(cod := Cod(len, [], c)))
  }

  lemma LengthThen(v: Vars, row: seq<int>, l: int)
    requires CodingOk(RowVars(v, row, l)) && 1 <= l <= 20
    ensures |row| + 1 < AlphaSize(v) ==>
              CodingOk(RowVars(v, row + [l], l)) && NextLength(RowVars(v, row, l)) == CheckCurr(RowVars(v, row + [l], l))
    ensures |row| + 1 == AlphaSize(v) ==>
              LensOk(v.cod.len + [row + [l]], AlphaSize(v)) && NextLength(RowVars(v, row, l)) == TablesAt(v, v.cod.len + [row + [l]], l)
  {
  }

  /** Behind the lengths row the bits lead to the end of the table if the parsed ones say so. */
  ghost predicate LengthsLead(v: Vars, row: seq<int>, c: int, bits: seq<Bit>, p: Parsed<seq<int>>, last: int) {
    && CodingOk(RowVars(v, row, c))
    && match p
       case Got(more, rest) =>
         && LensOk(v.cod.len + [row + more], AlphaSize(v))
         && Leads(CheckCurr(RowVars(v, row, c)), bits, Got(TablesAt(v, v.cod.len + [row + more], last), rest))
       case Wrong => Leads(CheckCurr(RowVars(v, row, c)), bits, Wrong)
       case Short => Leads(CheckCurr(RowVars(v, row, c)), bits, Short)
  }

  lemma MoreLengths(v: Vars, row: seq<int>, c: int, bits: seq<Bit>, l: int, rest: seq<Bit>, o: Parsed<seq<int>>, last: int)
    requires CodingOk(RowVars(v, row, c)) && LengthsLead(v, row + [l], l, rest, o, last)
    requires Leads(CheckCurr(RowVars(v, row, c)), bits, Got(CheckCurr(RowVars(v, row + [l], l)), rest))
    ensures LengthsLead(v, row, c, bits, if o.Got? then Got([l] + o.value, o.rest) else o, last)
  {
    if o.Got? {
      Assoc(row, l, o.value);
    }
  }

  /** One more length of a table. */
  lemma OneLength(v: Vars, row: seq<int>, c: int, bits: seq<Bit>)
    requires CodingOk(RowVars(v, row, c))
    ensures match Length(bits, c)
            case Got(l, rest) =>
              if |row| + 1 == AlphaSize(v) then LengthsLead(v, row, c, bits, Got([l], rest), l)
              else CodingOk(RowVars(v, row + [l], l)) && Leads(CheckCurr(RowVars(v, row, c)), bits, Got(CheckCurr(RowVars(v, row + [l], l)), rest))
            case Wrong => LengthsLead(v, row, c, bits, Wrong, c)
            case Short => LengthsLead(v, row, c, bits, Short, c)
  {
    var w := RowVars(v, row, c);
    assert CurrSet(w, c) == w;
    LengthRuns(w, c, bits);
    var l := Length(bits, c);
    if l.Got? {
      assert CurrSet(w, l.value) == RowVars(v, row, l.value);
      LengthThen(v, row, l.value);
    }
  }

  lemma {:induction false} LengthsFrom(v: Vars, row: seq<int>, c: int, bits: seq<Bit>, l: int, rest: seq<Bit>) returns (last: int)
    requires CodingOk(RowVars(v, row, c)) && CodingOk(RowVars(v, row + [l], l)) && |row| + 1 < AlphaSize(v)
    requires Leads(CheckCurr(RowVars(v, row, c)), bits, Got(CheckCurr(RowVars(v, row + [l], l)), rest))
    ensures var o := Row(rest, l, AlphaSize(v) - |row| - 1);
      LengthsLead(v, row, c, bits, if o.Got? then Got([l] + o.value, o.rest) else o, last)
    decreases AlphaSize(v) - |row|, 0
  {
    last := RowLengthsRun(v, row + [l], l, rest);
    MoreLengths(v, row, c, bits, l, rest, Row(rest, l, AlphaSize(v) - |row| - 1), last);
  }

  lemma {:induction false} RowLengthsRun(v: Vars, row: seq<int>, c: int, bits: seq<Bit>) returns (last: int)
    requires CodingOk(RowVars(v, row, c))
    ensures LengthsLead(v, row, c, bits, Row(bits, c, AlphaSize(v) - |row|), last)
    decreases AlphaSize(v) - |row|, 1
  {
    last := c;
    OneLength(v, row, c, bits);
    var l, n := Length(bits, c), AlphaSize(v) - |row|;
    if l.Got? {
      last := l.value;
      if n > 1 {
        last := LengthsFrom(v, row, c, bits, l.value, l.rest);
      } else {
        assert Row(l.rest, l.value, 0) == Got([], l.rest);
        assert [l.value] + [] == [l.value];
      }
    }
  }

  lemma TableStarts(v: Vars, len: seq<seq<int>>, c: int, bits: seq<Bit>)
    requires SelectorsOk(v) && LensOk(len, AlphaSize(v)) && |len| < v.sel.nGroups
    ensures |bits| < 5 ==> Leads(TablesAt(v, len, c), bits, Short)
    ensures |bits| >= 5 ==> var w := RowVars(v.(cod := Cod(len, [], c)), [], Value(bits[..5]));
              CodingOk(w) && Leads(TablesAt(v, len, c), bits, Got(CheckCurr(w), bits[5..]))
  {
    Served(TablesAt(v, len, c), bits);
  }

  /** From s the bits lead to one more table if the parsed row says so. */
  ghost predicate RowLeads(s: St, bits: seq<Bit>, v: Vars, len: seq<seq<int>>, p: Parsed<seq<int>>, last: int) {
    && SelectorsOk(v) && |len| < v.sel.nGroups && Ok(s)
    && match p
       case Got(row, rest) => LensOk(len + [row], AlphaSize(v)) && Leads(s, bits, Got(TablesAt(v, len + [row], last), rest))
       case Wrong => Leads(s, bits, Wrong)
       case Short => Leads(s, bits, Short)
  }

  lemma RowFollows(s: St, bits: seq<Bit>, t: St, rest: seq<Bit>, v: Vars, len: seq<seq<int>>, p: Parsed<seq<int>>, last: int)
    requires Ok(s) && Ok(t) && Leads(s, bits, Got(t, rest)) && RowLeads(t, rest, v, len, p, last)
    ensures RowLeads(s, bits, v, len, p, last)
  {
  }

  lemma RowGot(v: Vars, len: seq<seq<int>>, c0: int, c: int, bits: seq<Bit>, row: seq<int>, rest: seq<Bit>, last: int)
    requires SelectorsOk(v) && |len| < v.sel.nGroups
    requires LengthsLead(v.(cod := Cod(len, [], c0)), [], c, bits, Got(row, rest), last)
    ensures RowLeads(CheckCurr(RowVars(v.(cod := Cod(len, [], c0)), [], c)), bits, v, len, Got(row, rest), last)
  {
    assert [] + row == row;
    SameTables(v, v.(cod := Cod(len, [], c0)), len + [row], last);
  }

  lemma TableRow(v: Vars, len: seq<seq<int>>, c0: int, c: int, bits: seq<Bit>) returns (last: int)
    requires SelectorsOk(v) && |len| < v.sel.nGroups && CodingOk(RowVars(v.(cod := Cod(len, [], c0)), [], c))
    ensures RowLeads(CheckCurr(RowVars(v.(cod := Cod(len, [], c0)), [], c)), bits, v, len, Row(bits, c, AlphaSize(v)), last)
  {
    var w := v.(cod := Cod(len, [], c0));
    last := RowLengthsRun(w, [], c, bits);
    var row := Row(bits, c, AlphaSize(v));
    if row.Got? {
      RowGot(v, len, c0, c, bits, row.value, row.rest, last);
    }
  }

  lemma OneTable(v: Vars, len: seq<seq<int>>, c: int, bits: seq<Bit>) returns (last: int)
    requires SelectorsOk(v) && LensOk(len, AlphaSize(v)) && |len| < v.sel.nGroups
    ensures RowLeads(TablesAt(v, len, c), bits, v, len, TableLengths(bits, AlphaSize(v)), last)
  {
    last := c;
    TableStarts(v, len, c, bits);
    if |bits| >= 5 {
      var first := Value(bits[..5]);
      last := TableRow(v, len, c, first, bits[5..]);
      RowFollows(TablesAt(v, len, c), bits, CheckCurr(RowVars(v.(cod := Cod(len, [], c)), [], first)), bits[5..], v, len,
                 Row(bits[5..], first, AlphaSize(v)), last);
    }
  }

  /** From the tables len the bits lead where the parsed tables say. */
  ghost predicate TablesLead(v: Vars, len: seq<seq<int>>, c: int, bits: seq<Bit>, p: Parsed<seq<seq<int>>>, last: int) {
    && SelectorsOk(v) && LensOk(len, AlphaSize(v)) && |len| <= v.sel.nGroups
    && match p
       case Got(more, rest) =>
         && LensOk(len + more, AlphaSize(v)) && |len + more| <= v.sel.nGroups
         && Leads(TablesAt(v, len, c), bits, Got(TablesAt(v, len + more, last), rest))
       case Wrong => Leads(TablesAt(v, len, c), bits, Wrong)
       case Short => Leads(TablesAt(v, len, c), bits, Short)
  }

  lemma MoreTables(v: Vars, len: seq<seq<int>>, c: int, bits: seq<Bit>, row: seq<int>, mid: int, rest: seq<Bit>, o: Parsed<seq<seq<int>>>, last: int)
    requires TablesLead(v, len, c, bits, Got([row], rest), mid) && TablesLead(v, len + [row], mid, rest, o, last)
    ensures TablesLead(v, len, c, bits, if o.Got? then Got([row] + o.value, o.rest) else o, last)
  {
    if o.Got? {
      Assoc(len, row, o.value);
    }
  }

  lemma {:induction false} TablesRun(v: Vars, len: seq<seq<int>>, c: int, bits: seq<Bit>) returns (last: int)
    requires SelectorsOk(v) && LensOk(len, AlphaSize(v)) && |len| <= v.sel.nGroups
    ensures TablesLead(v, len, c, bits, Rows(bits, v.sel.nGroups - |len|, AlphaSize(v)), last)
    decreases v.sel.nGroups - |len|
  {
    last := c;
    if |len| == v.sel.nGroups {
      assert len + [] == len;
    } else {
      last := OneTable(v, len, c, bits);
      var row := TableLengths(bits, AlphaSize(v));
      if row.Got? {
        var mid := last;
        last := TablesRun(v, len + [row.value], mid, row.rest);
        MoreTables(v, len, c, bits, row.value, mid, row.rest, Rows(row.rest, v.sel.nGroups - |len| - 1, AlphaSize(v)), last);
      }
    }
  }

  lemma SameTables(v: Vars, w: Vars, len: seq<seq<int>>, c: int)
    requires w == v.(cod := w.cod) && SelectorsOk(v) && LensOk(len, AlphaSize(v)) && |len| <= v.sel.nGroups
    ensures TablesAt(w, len, c) == TablesAt(v, len, c)
  {
  }
}
