/** The table of the bytes in use: sixteen bits for groups of sixteen bytes, and sixteen more for every group in use. */
module MapBits {
  import opened Counting
  import opened Bits
  import opened MtfStage
  import opened Wire
  import opened BlockBits

  const GROUPS := 16

  function Flag(b: bool): Bit {
    if b then 1 else 0
  }

  function Flags(s: seq<bool>): (r: seq<Bit>)
    ensures |r| == |s|
  {
    if s == [] then [] else [Flag(s[0])] + Flags(s[1..])
  }

  /** For every group whether one of its bytes is in use. */
  function Groups(inUse: seq<bool>): (r: seq<bool>)
    ensures |r| == |inUse| / GROUPS
  {
    if |inUse| < GROUPS then [] else [true in inUse[..GROUPS]] + Groups(inUse[GROUPS..])
  }

  function Rows(inUse: seq<bool>): seq<Bit> {
    if |inUse| < GROUPS then []
    else (if true in inUse[..GROUPS] then Flags(inUse[..GROUPS]) else []) + Rows(inUse[GROUPS..])
  }

  function MapBits(inUse: seq<bool>): seq<Bit> {
    Flags(Groups(inUse)) + Rows(inUse)
  }

  lemma {:induction false} GroupAt(inUse: seq<bool>, i: nat)
    requires i < |inUse| / GROUPS
    ensures Groups(inUse)[i] <==> true in inUse[GROUPS * i..GROUPS * (i + 1)]
    decreases i
  {
    if i > 0 {
      GroupAt(inUse[GROUPS..], i - 1);
      assert inUse[GROUPS..][GROUPS * (i - 1)..GROUPS * i] == inUse[GROUPS * i..GROUPS * (i + 1)];
    }
  }

  // ----- the sixteen groups

  /** The state before group k is read. */
  function GroupState(v: Vars, used: seq<bool>, k: nat): St
    requires k <= |used|
  {
    if k < 16 then St(Mapping1, v.(inUse16 := used[..k])) else FromRow(v, used)
  }

  function FromRow(v: Vars, used: seq<bool>): St {
    if |used| == 16 then NextRow(v.(inUse16 := used, inUse := NoBytes()), 0) else FailData(v)
  }

  lemma GroupFlag(v: Vars, used: seq<bool>, k: nat)
    requires |used| == 16 && k < 16
    ensures Read(St(Mapping1, v.(inUse16 := used[..k])), [Flag(used[k])], GroupState(v, used, k + 1))
  {
    ReadBit(St(Mapping1, v.(inUse16 := used[..k])), Flag(used[k]));
    assert used[..k] + [used[k]] == used[..k + 1];
    assert used[..16] == used;
  }

  lemma {:induction false} ReadGroups(v: Vars, used: seq<bool>, k: nat)
    requires |used| == 16 && k < 16
    ensures Read(St(Mapping1, v.(inUse16 := used[..k])), Flags(used[k..]), FromRow(v, used))
    decreases 16 - k
  {
    GroupFlag(v, used, k);
    assert used[k..][1..] == used[k + 1..];
    var s := St(Mapping1, v.(inUse16 := used[..k]));
    if k < 15 {
      ReadGroups(v, used, k + 1);
      ReadThen(s, [Flag(used[k])], St(Mapping1, v.(inUse16 := used[..k + 1])), Flags(used[k + 1..]), FromRow(v, used));
    } else {
      assert Flags(used[k..]) == [Flag(used[k])];
    }
  }

  // ----- the rows of the groups in use

  /** What is known after p bytes: those, and no others so far. */
  function Known(inUse: seq<bool>, p: nat): (r: seq<bool>)
    requires p <= |inUse| == 256
    ensures |r| == 256
  {
    seq(256, k requires 0 <= k < 256 => k < p && inUse[k])
  }

  function RowVars(v: Vars, inUse: seq<bool>, p: nat): Vars
    requires p <= |inUse| == 256
  {
    v.(inUse16 := Groups(inUse), inUse := Known(inUse, p))
  }

  /** The state before byte j of row i is read. */
  function RowState(v: Vars, inUse: seq<bool>, i: nat, j: nat): St
    requires i < 16 && j <= 16 && |inUse| == 256
  {
    if j < 16 then St(Mapping2(i, j), RowVars(v, inUse, 16 * i + j)) else NextRow(RowVars(v, inUse, 16 * (i + 1)), i + 1)
  }

  lemma KnownNext(inUse: seq<bool>, p: nat)
    requires p < |inUse| == 256
    ensures Known(inUse, p + 1) == if inUse[p] then Known(inUse, p)[p := true] else Known(inUse, p)
  {
  }

  lemma RowFlag(v: Vars, inUse: seq<bool>, i: nat, j: nat)
    requires i < 16 && j < 16 && |inUse| == 256
    ensures Read(St(Mapping2(i, j), RowVars(v, inUse, 16 * i + j)), [Flag(inUse[16 * i + j])], RowState(v, inUse, i, j + 1))
  {
    var p := 16 * i + j;
    ReadBit(St(Mapping2(i, j), RowVars(v, inUse, p)), Flag(inUse[p]));
    KnownNext(inUse, p);
  }

  lemma {:induction false} ReadRow(v: Vars, inUse: seq<bool>, i: nat, j: nat)
    requires i < 16 && j < 16 && |inUse| == 256
    ensures Read(St(Mapping2(i, j), RowVars(v, inUse, 16 * i + j)), Flags(inUse[16 * i + j..16 * i + 16]),
                 NextRow(RowVars(v, inUse, 16 * (i + 1)), i + 1))
    decreases 16 - j
  {
    var p := 16 * i + j;
    RowFlag(v, inUse, i, j);
    assert inUse[p..16 * i + 16][1..] == inUse[p + 1..16 * i + 16];
    if j < 15 {
      ReadRow(v, inUse, i, j + 1);
      ReadThen(St(Mapping2(i, j), RowVars(v, inUse, p)), [Flag(inUse[p])], St(Mapping2(i, j + 1), RowVars(v, inUse, p + 1)),
               Flags(inUse[p + 1..16 * i + 16]), NextRow(RowVars(v, inUse, 16 * (i + 1)), i + 1));
    } else {
      assert Flags(inUse[p..16 * i + 16]) == [Flag(inUse[p])];
    }
  }

  /** A group without bytes in use needs no row. */
  lemma EmptyRow(inUse: seq<bool>, i: nat)
    requires i < 16 && |inUse| == 256 && true !in inUse[16 * i..16 * (i + 1)]
    ensures Known(inUse, 16 * i) == Known(inUse, 16 * (i + 1))
  {
    forall x | 16 * i <= x < 16 * (i + 1)
      ensures !inUse[x]
    {
      assert inUse[16 * i..16 * (i + 1)][x - 16 * i] == inUse[x];
    }
  }

  function MapSet(v: Vars, inUse: seq<bool>): Vars
    requires |inUse| == 256
  {
    v.(inUse16 := Groups(inUse), inUse := inUse)
  }

  lemma RowStarts(v: Vars, inUse: seq<bool>, i: nat)
    requires i < 16 && |inUse| == 256 && true in inUse[16 * i..16 * (i + 1)]
    ensures NextRow(RowVars(v, inUse, 16 * i), i) == St(Mapping2(i, 0), RowVars(v, inUse, 16 * i))
  {
    GroupAt(inUse, i);
  }

  lemma ReadFullRow(v: Vars, inUse: seq<bool>, i: nat, rows: seq<Bit>)
    requires i < 16 && |inUse| == 256 && |UsedList(inUse)| >= 1 && true in inUse[16 * i..16 * (i + 1)]
    requires Read(NextRow(RowVars(v, inUse, 16 * (i + 1)), i + 1), rows, St(SelGroups, MapSet(v, inUse)))
    ensures Read(NextRow(RowVars(v, inUse, 16 * i), i), Flags(inUse[16 * i..16 * (i + 1)]) + rows, St(SelGroups, MapSet(v, inUse)))
  {
    RowStarts(v, inUse, i);
    ReadRow(v, inUse, i, 0);
    ReadThen(St(Mapping2(i, 0), RowVars(v, inUse, 16 * i)), Flags(inUse[16 * i..16 * (i + 1)]),
             NextRow(RowVars(v, inUse, 16 * (i + 1)), i + 1), rows, St(SelGroups, MapSet(v, inUse)));
  }

  lemma {:induction false} ReadRows(v: Vars, inUse: seq<bool>, i: nat)
    requires i <= 16 && |inUse| == 256 && |UsedList(inUse)| >= 1
    ensures Read(NextRow(RowVars(v, inUse, 16 * i), i), Rows(inUse[16 * i..]), St(SelGroups, MapSet(v, inUse)))
    decreases 16 - i
  {
    var rest := inUse[16 * i..];
    if i == 16 {
      assert Known(inUse, 256) == inUse;
      ReadNothing(St(SelGroups, MapSet(v, inUse)));
    } else {
      ReadRows(v, inUse, i + 1);
      GroupAt(inUse, i);
      assert rest[..16] == inUse[16 * i..16 * (i + 1)] && rest[16..] == inUse[16 * (i + 1)..];
      if true in rest[..16] {
        ReadFullRow(v, inUse, i, Rows(rest[16..]));
      } else {
        EmptyRow(inUse, i);
        assert [] + Rows(rest[16..]) == Rows(rest[16..]);
      }
    }
  }

  lemma ReadMap(v: Vars, inUse: seq<bool>)
    requires |inUse| == 256 && |UsedList(inUse)| >= 1
    ensures Read(St(Mapping1, v.(inUse16 := [])), MapBits(inUse), St(SelGroups, MapSet(v, inUse)))
  {
    var used := Groups(inUse);
    ReadGroups(v, used, 0);
    assert used[..0] == [] && used[0..] == used;
    assert Known(inUse, 0) == NoBytes();
    ReadRows(v, inUse, 0);
    assert inUse[16 * 0..] == inUse;
    ReadThen(St(Mapping1, v.(inUse16 := [])), Flags(used), FromRow(v, used), Rows(inUse), St(SelGroups, MapSet(v, inUse)));
  }
}
