/** The loops over the selectors: move-to-front in the encoder, and its undoing in the decoder. */
module Selectors {
  import opened Mtf
  import opened MtfStage
  import opened Wire
  import opened SelectorBits

  // ----- move-to-front over the coding tables

  /** One selector: found in the list, which shifts along and is then led by it. */
  method SelectorToFront(pos: array<int>, n: nat, ll: int) returns (j: nat)
    requires n <= pos.Length && ll in pos[..n]
    modifies pos
    ensures j < n && j == Find(old(pos[..n]), ll) && pos[..n] == ToFront(old(pos[..n]), j)
  {
    ghost var was := pos[..n];
    ghost var f := Find(was, ll);
    j := 0;
    var tmp := pos[0];
    while ll != tmp
      invariant 0 <= j <= f && tmp == was[j]
      invariant j > 0 ==> forall i {:trigger pos[i]} :: 1 <= i <= j ==> pos[i] == was[i - 1]
      invariant forall i {:trigger pos[i]} :: j < i < n ==> pos[i] == was[i]
      decreases f - j
    {
      assert was[f] == ll;
      j := j + 1;
      var tmp2 := tmp;
      tmp := pos[j];
      pos[j] := tmp2;
    }
    pos[0] := tmp;
    assert j == f;
    assert pos[..n] == ToFront(was, j);
  }

  method SelectorMtf(selector: seq<int>, nGroups: nat) returns (selectorMtf: seq<int>)
    requires 2 <= nGroups <= 6 && InRange(selector, nGroups)
    ensures selectorMtf == MtfOf(selector, Upto(nGroups))
  {
    var pos := new int[6];
    for i := 0 to nGroups
      invariant forall k :: 0 <= k < i ==> pos[k] == k
    {
      pos[i] := i;
    }
    selectorMtf := [];
    UptoListing(nGroups);
    assert pos[..nGroups] == Upto(nGroups) && selector[0..] == selector;
    for i := 0 to |selector|
      invariant Listing(pos[..nGroups], nGroups)
      invariant selectorMtf + MtfOf(selector[i..], pos[..nGroups]) == MtfOf(selector, Upto(nGroups))
    {
      ghost var list := pos[..nGroups];
      assert selector[i..][1..] == selector[i + 1..] && selector[i] in list;
      var j := SelectorToFront(pos, nGroups, selector[i]);
      ToFrontKeeps(list, nGroups, j);
      AppendOne(selectorMtf, j, MtfOf(selector[i + 1..], pos[..nGroups]));
      selectorMtf := selectorMtf + [j];
    }
    assert selectorMtf + [] == selectorMtf;
  }

  lemma AppendOne(a: seq<int>, x: int, b: seq<int>)
    ensures (a + [x]) + b == a + ([x] + b)
  {
  }

  /** The decoder's side. */
  method UndoSelectors(selectorMtf: seq<int>, nGroups: nat) returns (selector: seq<int>)
    requires 2 <= nGroups <= 6 && InRange(selectorMtf, nGroups)
    ensures selector == UndoMtf(selectorMtf, Upto(nGroups))
  {
    var pos := new int[6];
    for i := 0 to nGroups
      invariant forall k :: 0 <= k < i ==> pos[k] == k
    {
      pos[i] := i;
    }
    selector := [];
    assert pos[..nGroups] == Upto(nGroups) && selectorMtf[0..] == selectorMtf;
    for i := 0 to |selectorMtf|
      invariant InRange(pos[..nGroups], nGroups)
      invariant selector + UndoMtf(selectorMtf[i..], pos[..nGroups]) == UndoMtf(selectorMtf, Upto(nGroups))
    {
      assert selectorMtf[i..][1..] == selectorMtf[i + 1..];
      var tmp := MoveToFront(pos, nGroups, selectorMtf[i]);
      AppendOne(selector, tmp, UndoMtf(selectorMtf[i + 1..], pos[..nGroups]));
      selector := selector + [tmp];
    }
    assert selector + [] == selector;
  }

  method MoveToFront(pos: array<int>, n: nat, v0: nat) returns (tmp: int)
    requires v0 < n <= pos.Length
    modifies pos
    ensures tmp == old(pos[v0]) && pos[..n] == ToFront(old(pos[..n]), v0)
  {
    ghost var was := pos[..n];
    var v := v0;
    tmp := pos[v];
    while v > 0
      invariant v <= v0
      invariant forall i {:trigger pos[i]} :: v < i <= v0 ==> pos[i] == was[i - 1]
      invariant forall i {:trigger pos[i]} :: 0 <= i <= v && i < v0 ==> pos[i] == was[i]
      invariant forall i {:trigger pos[i]} :: v0 < i < n ==> pos[i] == was[i]
    {
      pos[v] := pos[v - 1];
      v := v - 1;
    }
    pos[0] := tmp;
    assert pos[..n] == ToFront(was, v0);
  }
}
