/** Randomised blocks: a table of counts says which of the bytes drawn have their lowest bit turned over. */
module RandMask {

  /** The bytes left until the next one to turn over, and the position in the table (rNToGo and rTPos). */
  datatype Rand = Rand(toGo: int, pos: int)

  const R_NUMS_SIZE := 512

  function Update(rNums: int -> int, r: Rand): Rand {
    if r.toGo == 0 then Rand(rNums(r.pos) - 1, if r.pos + 1 == R_NUMS_SIZE then 0 else r.pos + 1) else Rand(r.toGo - 1, r.pos)
  }

  /** The state when k bytes have been drawn. */
  function RandAt(rNums: int -> int, k: nat): Rand {
    if k == 0 then Rand(0, 0) else Update(rNums, RandAt(rNums, k - 1))
  }

  function MaskOf(r: Rand): int {
    if r.toGo == 1 then 1 else 0
  }

  /** Counted out: behind a whole stretch the next one has as many bytes as the next count says, and its last byte but one is
      turned over. */
  lemma {:induction false} Stretch(rNums: int -> int, k: nat, pos: int, i: nat)
    requires RandAt(rNums, k) == Rand(0, pos) && 0 <= pos < 512 && i < rNums(pos)
    ensures RandAt(rNums, k + i + 1) == Rand(rNums(pos) - 1 - i, (pos + 1) % 512)
    ensures MaskOf(RandAt(rNums, k + i + 1)) == if i == rNums(pos) - 2 then 1 else 0
    ensures i == rNums(pos) - 1 ==> RandAt(rNums, k + rNums(pos)) == Rand(0, (pos + 1) % 512)
  {
    if i > 0 {
      Stretch(rNums, k, pos, i - 1);
    }
  }

  /** A byte, XORed with a mask of one bit. */
  function Flip(c: int, m: int): int {
    if m == 0 then c else if c % 2 == 0 then c + 1 else c - 1
  }

  lemma FlipByte(c: int, m: int)
    requires 0 <= c < 256
    ensures 0 <= Flip(c, m) < 256 && Flip(Flip(c, m), m) == c
  {
  }

  /** The byte drawn as number i, with the mask. */
  function Masked(rNums: int -> int, c: int, i: nat): int {
    Flip(c, MaskOf(RandAt(rNums, i + 1)))
  }

  function Unmask(rNums: int -> int, raw: seq<int>): seq<int> {
    seq(|raw|, i requires 0 <= i < |raw| => Masked(rNums, raw[i], i))
  }

  /** Turning the same bits over again gives the bytes back. */
  lemma UnmaskTwice(rNums: int -> int, raw: seq<int>)
    requires forall i :: 0 <= i < |raw| ==> 0 <= raw[i] < 256
    ensures Unmask(rNums, Unmask(rNums, raw)) == raw
  {
    forall i | 0 <= i < |raw|
      ensures Unmask(rNums, Unmask(rNums, raw))[i] == raw[i]
    {
      FlipByte(raw[i], MaskOf(RandAt(rNums, i + 1)));
    }
  }

  /** The bytes a block yields: as drawn, or with the mask. */
  function Derandomised(rNums: int -> int, randomised: bool, raw: seq<int>): seq<int> {
    if randomised then Unmask(rNums, raw) else raw
  }
}
