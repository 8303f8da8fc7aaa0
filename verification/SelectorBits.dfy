/** The selectors: move-to-front over the coding tables, then unary. */
module SelectorBits {
  import opened Bits
  import opened Mtf
  import opened MtfStage
  import opened Wire
  import opened BlockBits

  /** Where each selector stands in the list, which it then leads. */
  function MtfOf(sel: seq<int>, pos: seq<int>): seq<int>
    decreases |sel|
  {
    if sel == [] || sel[0] !in pos then []
    else [Find(pos, sel[0])] + MtfOf(sel[1..], ToFront(pos, Find(pos, sel[0])))
  }

  lemma {:induction false} MtfUndone(sel: seq<int>, pos: seq<int>)
    requires Listing(pos, |pos|) && InRange(sel, |pos|)
    ensures |MtfOf(sel, pos)| == |sel| && InRange(MtfOf(sel, pos), |pos|) && UndoMtf(MtfOf(sel, pos), pos) == sel
    decreases |sel|
  {
    if sel != [] {
      assert sel[0] in pos;
      var k := Find(pos, sel[0]);
      ToFrontKeeps(pos, |pos|, k);
      var m := MtfOf(sel[1..], ToFront(pos, k));
      MtfUndone(sel[1..], ToFront(pos, k));
      assert MtfOf(sel, pos) == [k] + m && ([k] + m)[1..] == m;
    }
  }

  lemma UptoListing(m: nat)
    ensures Listing(Upto(m), m)
  {
    EncodingStarts([], m);
  }

  // ----- unary

  function Ones(n: nat): (r: seq<Bit>)
    ensures |r| == n
  {
    if n == 0 then [] else [1] + Ones(n - 1)
  }

  function Unary(m: seq<int>): seq<Bit> {
    if m == [] || m[0] < 0 then [] else (Ones(m[0]) + [0]) + Unary(m[1..])
  }

  function SelVars(v: Vars, m: seq<int>, i: nat): Vars
    requires i <= |m|
  {
    v.(sel := v.sel.(nSelectors := |m|, selectorMtf := m[..i]))
  }

  ghost predicate Sending(v: Vars, m: seq<int>, i: nat) {
    SelectOk(v) && InRange(m, v.sel.nGroups) && i < |m| <= MAX_SELECTORS
  }

  /** The state in which selector i and up are still to come. */
  function SelState(v: Vars, m: seq<int>, i: nat): St
    requires SelectOk(v) && InRange(m, v.sel.nGroups) && i <= |m| && 1 <= |m|
  {
    if i < |m| then St(SelUnary(i, 0), SelVars(v, m, i)) else SelectorsDone(SelVars(v, m, i))
  }

  lemma SelEnds(v: Vars, m: seq<int>, i: nat)
    requires Sending(v, m, i)
    ensures Read(St(SelUnary(i, m[i]), SelVars(v, m, i)), [0], SelState(v, m, i + 1))
  {
    ReadBit(St(SelUnary(i, m[i]), SelVars(v, m, i)), 0);
    assert m[..i] + [m[i]] == m[..i + 1];
  }

  lemma SelOne(v: Vars, m: seq<int>, i: nat, j: nat)
    requires Sending(v, m, i) && j < m[i]
    ensures Read(St(SelUnary(i, j), SelVars(v, m, i)), [1], St(SelUnary(i, j + 1), SelVars(v, m, i)))
  {
    ReadBit(St(SelUnary(i, j), SelVars(v, m, i)), 1);
  }

  lemma {:induction false} SelOnes(v: Vars, m: seq<int>, i: nat, j: nat)
    requires Sending(v, m, i) && j <= m[i]
    ensures Read(St(SelUnary(i, j), SelVars(v, m, i)), Ones(m[i] - j), St(SelUnary(i, m[i]), SelVars(v, m, i)))
    decreases m[i] - j
  {
    if j == m[i] {
      ReadNothing(St(SelUnary(i, j), SelVars(v, m, i)));
    } else {
      SelOne(v, m, i, j);
      SelOnes(v, m, i, j + 1);
      ReadThen(St(SelUnary(i, j), SelVars(v, m, i)), [1], St(SelUnary(i, j + 1), SelVars(v, m, i)), Ones(m[i] - j - 1),
               St(SelUnary(i, m[i]), SelVars(v, m, i)));
    }
  }

  lemma SelSent(v: Vars, m: seq<int>, i: nat)
    requires Sending(v, m, i)
    ensures Read(St(SelUnary(i, 0), SelVars(v, m, i)), Ones(m[i]) + [0], SelState(v, m, i + 1))
  {
    SelOnes(v, m, i, 0);
    SelEnds(v, m, i);
    ReadThen(St(SelUnary(i, 0), SelVars(v, m, i)), Ones(m[i]), St(SelUnary(i, m[i]), SelVars(v, m, i)), [0], SelState(v, m, i + 1));
  }

  lemma SelStateOk(v: Vars, m: seq<int>, i: nat)
    requires SelectOk(v) && InRange(m, v.sel.nGroups) && i <= |m| && 1 <= |m| <= MAX_SELECTORS
    ensures Ok(SelState(v, m, i))
  {
  }

  lemma {:induction false} ReadUnary(v: Vars, m: seq<int>, i: nat)
    requires SelectOk(v) && InRange(m, v.sel.nGroups) && i <= |m| && 1 <= |m| <= MAX_SELECTORS
    ensures Ok(SelState(v, m, i)) && Ok(SelState(v, m, |m|))
    ensures Read(SelState(v, m, i), Unary(m[i..]), SelState(v, m, |m|))
    decreases |m| - i
  {
    SelStateOk(v, m, i);
    if i == |m| {
      ReadNothing(SelState(v, m, i));
    } else {
      SelSent(v, m, i);
      ReadUnary(v, m, i + 1);
      assert m[i..][1..] == m[i + 1..];
      ReadThen(SelState(v, m, i), Ones(m[i]) + [0], SelState(v, m, i + 1), Unary(m[i + 1..]), SelState(v, m, |m|));
    }
  }

  // ----- all of it

  function SelectorBits(nGroups: nat, sel: seq<int>): seq<Bit> {
    Spell(nGroups, GROUPS_LEN) + (Spell(|sel|, COUNT_LEN) + Unary(MtfOf(sel, Upto(nGroups))))
  }

  function SelectorSet(v: Vars, nGroups: nat, sel: seq<int>): Vars {
    v.(sel := Sel(nGroups, |sel|, MtfOf(sel, Upto(nGroups)), sel), cod := Cod([], [], 0))
  }

  lemma ReadCount(v: Vars, m: seq<int>)
    requires SelectOk(v) && InRange(m, v.sel.nGroups) && 1 <= |m| <= MAX_SELECTORS
    ensures Read(St(SelCount, v), Spell(|m|, COUNT_LEN), St(SelUnary(0, 0), SelVars(v, m, 0)))
  {
    assert m[..0] == [];
    CountStep(v, |m|);
  }

  lemma CountStep(v: Vars, x: nat)
    requires SelectOk(v) && 1 <= x < 32768
    ensures Read(St(SelCount, v), Spell(x, COUNT_LEN), NextCount(v, x))
  {
    Fifteen();
    ReadOne(St(SelCount, v), x);
  }

  lemma AllSelectors(v: Vars, sel: seq<int>, m: seq<int>)
    requires SelectOk(v) && InRange(sel, v.sel.nGroups) && 1 <= |sel| <= MAX_SELECTORS && Listing(Upto(v.sel.nGroups), v.sel.nGroups)
    requires m == MtfOf(sel, Upto(v.sel.nGroups))
    ensures |m| >= 1 && InRange(m, v.sel.nGroups) && SelState(v, m, |m|) == St(Coding1, SelectorSet(v, v.sel.nGroups, sel))
  {
    MtfUndone(sel, Upto(v.sel.nGroups));
    assert m[..|m|] == m;
  }

  lemma Fifteen()
    ensures Pow2(COUNT_LEN) == 32768 && Pow2(GROUPS_LEN) == 8 && Pow2(CURR_LEN) == 32
  {
    assert Pow2(3) == 8;
    assert Pow2(5) == 32;
    Pow2Sum(5, 5);
    Pow2Sum(10, 5);
  }

  lemma ReadUnaries(v: Vars, sel: seq<int>)
    requires SelectOk(v) && InRange(sel, v.sel.nGroups) && 1 <= |sel| <= MAX_SELECTORS && Listing(Upto(v.sel.nGroups), v.sel.nGroups)
    ensures var m := MtfOf(sel, Upto(v.sel.nGroups));
      Read(St(SelCount, v), Spell(|sel|, COUNT_LEN) + Unary(m), St(Coding1, SelectorSet(v, v.sel.nGroups, sel)))
  {
    var m := MtfOf(sel, Upto(v.sel.nGroups));
    MtfUndone(sel, Upto(v.sel.nGroups));
    ReadCount(v, m);
    ReadUnary(v, m, 0);
    assert m[0..] == m;
    AllSelectors(v, sel, m);
    ReadThen(St(SelCount, v), Spell(|m|, COUNT_LEN), SelState(v, m, 0), Unary(m), SelState(v, m, |m|));
  }

  lemma ReadSelectors(v: Vars, nGroups: nat, sel: seq<int>)
    requires |v.inUse| == 256 && NInUse(v) >= 1 && 2 <= nGroups <= 6 && InRange(sel, nGroups) && 1 <= |sel| <= MAX_SELECTORS
    ensures Ok(St(Coding1, SelectorSet(v, nGroups, sel)))
    ensures Read(St(SelGroups, v), SelectorBits(nGroups, sel), St(Coding1, SelectorSet(v, nGroups, sel)))
  {
    UptoListing(nGroups);
    Fifteen();
    ReadOne(St(SelGroups, v), nGroups);
    var w := v.(sel := v.sel.(nGroups := nGroups));
    ReadUnaries(w, sel);
    ReadThen(St(SelGroups, v), Spell(nGroups, GROUPS_LEN), St(SelCount, w), Spell(|sel|, COUNT_LEN) + Unary(MtfOf(sel, Upto(nGroups))),
             St(Coding1, SelectorSet(v, nGroups, sel)));
  }
}
