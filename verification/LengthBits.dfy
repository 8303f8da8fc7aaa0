/** The code lengths: five bits for the first of a table, and then steps up and down. */
module LengthBits {
  import opened Bits
  import opened HuffmanCodes
  import opened DecodeTables
  import opened Wire
  import opened BlockBits
  import opened SelectorBits

  /** From length c to length l. */
  function Steps(c: int, l: int): seq<Bit>
    decreases if c < l then l - c else c - l
  {
    if c < l then [1, 0] + Steps(c + 1, l)
    else if c > l then [1, 1] + Steps(c - 1, l)
    else []
  }

  function Deltas(c: int, row: seq<int>): seq<Bit>
    decreases |row|
  {
    if row == [] then [] else (Steps(c, row[0]) + [0]) + Deltas(row[0], row[1..])
  }

  function TableBits(row: seq<int>): seq<Bit> {
    if row == [] || row[0] < 0 then [] else Spell(row[0], CURR_LEN) + Deltas(row[0], row)
  }

  function LengthBits(lens: seq<seq<int>>): seq<Bit> {
    if lens == [] then [] else TableBits(lens[0]) + LengthBits(lens[1..])
  }

  // ----- one length

  ghost predicate Coding(v: Vars, lens: seq<seq<int>>, t: nat) {
    SelectorsOk(v) && LensOk(lens, AlphaSize(v)) && t < |lens| == v.sel.nGroups
  }

  /** Table t up to length i has been read, and c is the current length. */
  function CodVars(v: Vars, lens: seq<seq<int>>, t: nat, i: nat, c: int): Vars
    requires t < |lens| && i <= |lens[t]|
  {
    v.(cod := Cod(lens[..t], lens[t][..i], c))
  }

  function CurrSet(v: Vars, c: int): Vars {
    v.(cod := v.cod.(curr := c))
  }

  lemma StepFollows(v: Vars, c: int)
    requires CodingOk(v) && 1 <= c <= LONGEST
    ensures Read(St(Coding2, CurrSet(v, c)), [1], St(Coding3, CurrSet(v, c)))
  {
    ReadBit(St(Coding2, CurrSet(v, c)), 1);
  }

  lemma StepTaken(v: Vars, c: int, up: bool)
    requires CodingOk(v) && 1 <= c <= LONGEST && 1 <= (if up then c + 1 else c - 1) <= LONGEST
    ensures Read(St(Coding3, CurrSet(v, c)), [if up then 0 else 1], St(Coding2, CurrSet(v, if up then c + 1 else c - 1)))
  {
    ReadBit(St(Coding3, CurrSet(v, c)), if up then 0 else 1);
  }

  lemma OneStep(v: Vars, c: int, up: bool)
    requires CodingOk(v) && 1 <= c <= LONGEST && 1 <= (if up then c + 1 else c - 1) <= LONGEST
    ensures Read(St(Coding2, CurrSet(v, c)), [1] + [if up then 0 else 1], St(Coding2, CurrSet(v, if up then c + 1 else c - 1)))
  {
    var w := CurrSet(v, c);
    StepFollows(v, c);
    StepTaken(v, c, up);
    ReadThen(St(Coding2, w), [1], St(Coding3, w), [if up then 0 else 1], St(Coding2, CurrSet(v, if up then c + 1 else c - 1)));
  }

  lemma {:induction false} ReadSteps(v: Vars, c: int, l: int)
    requires CodingOk(v) && 1 <= c <= LONGEST && 1 <= l <= LONGEST
    ensures Read(St(Coding2, CurrSet(v, c)), Steps(c, l), St(Coding2, CurrSet(v, l)))
    decreases if c < l then l - c else c - l
  {
    if c == l {
      ReadNothing(St(Coding2, CurrSet(v, c)));
    } else {
      var up := c < l;
      var d := if up then c + 1 else c - 1;
      ReadSteps(v, d, l);
      assert Steps(c, l) == [1] + [if up then 0 else 1] + Steps(d, l);
      StepThen(v, c, up, Steps(d, l), CurrSet(v, l));
    }
  }

  lemma StepThen(v: Vars, c: int, up: bool, bits: seq<Bit>, w: Vars)
    requires CodingOk(v) && CodingOk(w) && 1 <= c <= LONGEST && 1 <= (if up then c + 1 else c - 1) <= LONGEST && 1 <= w.cod.curr <= LONGEST
    requires Read(St(Coding2, CurrSet(v, if up then c + 1 else c - 1)), bits, St(Coding2, w))
    ensures Read(St(Coding2, CurrSet(v, c)), [1] + [if up then 0 else 1] + bits, St(Coding2, w))
  {
    OneStep(v, c, up);
    ReadThen(St(Coding2, CurrSet(v, c)), [1] + [if up then 0 else 1], St(Coding2, CurrSet(v, if up then c + 1 else c - 1)), bits, St(Coding2, w));
  }

  lemma ReadLength(v: Vars, l: int)
    requires CodingOk(v) && 1 <= v.cod.curr <= LONGEST && 1 <= l <= LONGEST
    ensures Read(St(Coding2, v), Steps(v.cod.curr, l) + [0], NextLength(CurrSet(v, l)))
  {
    assert CurrSet(v, v.cod.curr) == v;
    ReadSteps(v, v.cod.curr, l);
    var w := CurrSet(v, l);
    ReadBit(St(Coding2, w), 0);
    ReadThen(St(Coding2, v), Steps(v.cod.curr, l), St(Coding2, w), [0], NextLength(w));
  }

  // ----- one table

  /** The state in which lengths i and up of table t are still to come. */
  function RowState(v: Vars, lens: seq<seq<int>>, t: nat, i: nat, c: int): St
    requires Coding(v, lens, t) && i <= |lens[t]| && 1 <= c <= LONGEST
  {
    if i < |lens[t]| then St(Coding2, CodVars(v, lens, t, i, c)) else TableState(v, lens, t + 1, c)
  }

  function TableState(v: Vars, lens: seq<seq<int>>, t: nat, c: int): St
    requires SelectorsOk(v) && LensOk(lens, AlphaSize(v)) && t <= |lens| == v.sel.nGroups
  {
    if t < |lens| then St(Coding1, v.(cod := Cod(lens[..t], [], c))) else CodingDone(v.(cod := Cod(lens, [], c)))
  }

  lemma StatesOk(v: Vars, lens: seq<seq<int>>, t: nat, i: nat, c: int)
    requires Coding(v, lens, t) && i <= |lens[t]| && 1 <= c <= LONGEST
    ensures Ok(RowState(v, lens, t, i, c)) && (i < |lens[t]| ==> CodingOk(CodVars(v, lens, t, i, c)))
  {
  }

  lemma LengthDone(v: Vars, lens: seq<seq<int>>, t: nat, i: nat)
    requires Coding(v, lens, t) && i < |lens[t]|
    ensures CodingOk(CodVars(v, lens, t, i, lens[t][i])) && 1 <= lens[t][i] <= LONGEST
    ensures NextLength(CodVars(v, lens, t, i, lens[t][i])) == RowState(v, lens, t, i + 1, lens[t][i])
  {
    assert lens[t][..i] + [lens[t][i]] == lens[t][..i + 1];
    assert lens[t][..|lens[t]|] == lens[t];
    assert lens[..t] + [lens[t]] == lens[..t + 1];
    assert lens[..|lens|] == lens;
  }

  lemma ReadOneLength(v: Vars, lens: seq<seq<int>>, t: nat, i: nat, c: int)
    requires Coding(v, lens, t) && i < |lens[t]| && 1 <= c <= LONGEST
    ensures 1 <= lens[t][i] <= LONGEST
    ensures Read(RowState(v, lens, t, i, c), Steps(c, lens[t][i]) + [0], RowState(v, lens, t, i + 1, lens[t][i]))
  {
    StatesOk(v, lens, t, i, c);
    LengthDone(v, lens, t, i);
    ReadLength(CodVars(v, lens, t, i, c), lens[t][i]);
  }

  lemma RowEnds(v: Vars, lens: seq<seq<int>>, t: nat, c: int)
    requires Coding(v, lens, t) && 1 <= c <= LONGEST
    ensures RowState(v, lens, t, |lens[t]|, c) == TableState(v, lens, t + 1, c) && Ok(TableState(v, lens, t + 1, c))
    ensures Deltas(c, lens[t][|lens[t]|..]) == [] && Read(TableState(v, lens, t + 1, c), [], TableState(v, lens, t + 1, c))
  {
    StatesOk(v, lens, t, |lens[t]|, c);
    ReadNothing(TableState(v, lens, t + 1, c));
  }

  lemma ReadLengthThen(v: Vars, lens: seq<seq<int>>, t: nat, i: nat, c: int, end: St)
    requires Coding(v, lens, t) && i < |lens[t]| && 1 <= c <= LONGEST
    requires 1 <= lens[t][i] && Ok(RowState(v, lens, t, i + 1, lens[t][i])) && Ok(end)
    requires Read(RowState(v, lens, t, i + 1, lens[t][i]), Deltas(lens[t][i], lens[t][i + 1..]), end)
    ensures Ok(RowState(v, lens, t, i, c)) && Read(RowState(v, lens, t, i, c), Deltas(c, lens[t][i..]), end)
  {
    var l := lens[t][i];
    ReadOneLength(v, lens, t, i, c);
    assert lens[t][i..][1..] == lens[t][i + 1..];
    ReadThen(RowState(v, lens, t, i, c), Steps(c, l) + [0], RowState(v, lens, t, i + 1, l), Deltas(l, lens[t][i + 1..]), end);
  }

  function LastOf(row: seq<int>, i: nat, c: int): int
    requires i <= |row|
  {
    if i == |row| then c else row[|row| - 1]
  }

  lemma {:induction false} ReadRow(v: Vars, lens: seq<seq<int>>, t: nat, i: nat, c: int)
    requires Coding(v, lens, t) && i <= |lens[t]| && 1 <= c <= LONGEST
    ensures Ok(RowState(v, lens, t, i, c)) && Ok(TableState(v, lens, t + 1, LastOf(lens[t], i, c)))
    ensures Read(RowState(v, lens, t, i, c), Deltas(c, lens[t][i..]), TableState(v, lens, t + 1, LastOf(lens[t], i, c)))
    decreases |lens[t]| - i
  {
    StatesOk(v, lens, t, i, c);
    if i == |lens[t]| {
      RowEnds(v, lens, t, c);
    } else {
      var l := lens[t][i];
      LengthDone(v, lens, t, i);
      ReadRow(v, lens, t, i + 1, l);
      var end := TableState(v, lens, t + 1, LastOf(lens[t], i + 1, l));
      ReadLengthThen(v, lens, t, i, c, end);
    }
  }

  lemma ReadFirst(v: Vars, lens: seq<seq<int>>, t: nat, c: int)
    requires Coding(v, lens, t) && lens[t] != []
    ensures Ok(TableState(v, lens, t, c)) && 1 <= lens[t][0] <= LONGEST && Ok(RowState(v, lens, t, 0, lens[t][0]))
    ensures Read(TableState(v, lens, t, c), Spell(lens[t][0], CURR_LEN), RowState(v, lens, t, 0, lens[t][0]))
  {
    Fifteen();
    assert lens[t][..0] == [];
    ReadOne(TableState(v, lens, t, c), lens[t][0]);
  }

  lemma ReadTable(v: Vars, lens: seq<seq<int>>, t: nat, c: int)
    requires Coding(v, lens, t) && lens[t] != []
    ensures Ok(TableState(v, lens, t, c)) && Ok(TableState(v, lens, t + 1, LastOf(lens[t], 0, c)))
    ensures Read(TableState(v, lens, t, c), TableBits(lens[t]), TableState(v, lens, t + 1, LastOf(lens[t], 0, c)))
  {
    ReadFirst(v, lens, t, c);
    ReadRow(v, lens, t, 0, lens[t][0]);
    assert lens[t][0..] == lens[t];
    ReadThen(TableState(v, lens, t, c), Spell(lens[t][0], CURR_LEN), RowState(v, lens, t, 0, lens[t][0]), Deltas(lens[t][0], lens[t]),
             TableState(v, lens, t + 1, LastOf(lens[t], 0, c)));
  }

  // ----- all tables

  lemma {:induction false} ReadTables(v: Vars, lens: seq<seq<int>>, t: nat, c: int) returns (last: int)
    requires SelectorsOk(v) && LensOk(lens, AlphaSize(v)) && t <= |lens| == v.sel.nGroups
    ensures Ok(TableState(v, lens, t, c)) && Ok(TableState(v, lens, |lens|, last))
    ensures Read(TableState(v, lens, t, c), LengthBits(lens[t..]), TableState(v, lens, |lens|, last))
    decreases |lens| - t
  {
    if t == |lens| {
      last := c;
      ReadNothing(TableState(v, lens, t, c));
    } else {
      ReadTable(v, lens, t, c);
      last := ReadTables(v, lens, t + 1, LastOf(lens[t], 0, c));
      assert lens[t..][1..] == lens[t + 1..];
      ReadThen(TableState(v, lens, t, c), TableBits(lens[t]), TableState(v, lens, t + 1, LastOf(lens[t], 0, c)),
               LengthBits(lens[t + 1..]), TableState(v, lens, |lens|, last));
    }
  }
}
