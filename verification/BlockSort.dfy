/** BZ2_blockSort: the main sort, with the fallback sort for short or repetitive blocks. */
module BlockSort {
  import opened Permutations
  import opened Rotations
  import opened MainCompare
  import opened MainFinish
  import opened FallbackSort
  import opened MainSort
  import opened InverseBwt

  /** The row of rotation 0. */
  method FindOrig(ptr: array<int>, n: nat) returns (origPtr: int)
    requires 0 < n <= ptr.Length && IsPerm(ptr[..n])
    ensures 0 <= origPtr < n && ptr[origPtr] == 0
  {
    origPtr := -1;
    var i := 0;
    while i < n
      invariant 0 <= i <= n && forall x :: 0 <= x < i ==> ptr[x] != 0
    {
      if ptr[i] == 0 {
        origPtr := i;
        break;
      }
      i := i + 1;
    }
    assert origPtr != -1 by { // 1003
      PermOnto(ptr[..n], 0);
      var x :| 0 <= x < n && ptr[..n][x] == 0;
      assert ptr[x] == 0;
    }
  }

  /** Whichever sorter does it, the rotations end up sorted, the block keeps its bytes, and so the inverse
      transform of the last column gives the block back. */
  method BlockSort(arr1: array<int>, block: array<int>, quadrant: array<int>, eclass: array<int>, ftab: array<int>,
                   bhtab: array<bool>, n: nat, workFactor: int, ghost b: seq<Byte>)
    returns (origPtr: int)
    requires 0 < n == |b| < SETMASK && n <= arr1.Length < 0x8000_0000 && n <= eclass.Length && ftab.Length == 65537
    requires n + OVERSHOOT <= block.Length && n + OVERSHOOT <= quadrant.Length && bhtab.Length >= 32 * (n / 32 + 3)
    requires arr1 !in {block, quadrant, eclass, ftab} && block !in {quadrant, eclass, ftab} && quadrant != ftab
    requires block[..n] == b
    modifies arr1, block, quadrant, eclass, ftab, bhtab
    ensures SortsRotations(arr1[..n], b) && block[..n] == b
    ensures 0 <= origPtr < n && arr1[origPtr] == 0
    ensures forall k :: 0 <= k < n ==> DrawnByte(LastColumn(b, arr1[..n]), origPtr, k) == b[k]
  {
    if n < 10000 {
      FallbackSort.FallbackSort(arr1, eclass, block, bhtab, n, b);
    } else {
      var wfact := if workFactor < 1 then 1 else if workFactor > 100 then 100 else workFactor;
      var budgetInit := n * ((wfact - 1) / 3);
      var budget := MainSort.MainSort(arr1, block, quadrant, ftab, n, budgetInit, b);
      if budget < 0 {
        FallbackSort.FallbackSort(arr1, eclass, block, bhtab, n, b);
      }
    }
    origPtr := FindOrig(arr1, n);
    DrawsBlock(b, arr1[..n], origPtr);
  }
}
