/** Canonical Huffman codes: assignment, prefix-freeness, decoding tables and decoding. */
module HuffmanCodes {
  import opened Permutations
  import opened Counting
  import opened Bits

  const MAX_CODE_LEN := 23
  const LONGEST := 20

  ghost predicate Lengths(lens: seq<int>, lo: int, hi: int) {
    0 <= lo && forall i :: 0 <= i < |lens| ==> lo <= lens[i] <= hi
  }

  /** The first code of length n. */
  function First(lens: seq<int>, n: nat): nat
    decreases n, 0
  {
    if n == 0 then 0 else 2 * Used(lens, n - 1)
  }

  /** The number of n-bit strings that start with a code of at most n bits. */
  function Used(lens: seq<int>, n: nat): nat
    decreases n, 1
  {
    First(lens, n) + CountOf(lens, n)
  }

  /** The same number, code by code: the Kraft sum scaled by 2^n. */
  function Weight(lens: seq<int>, n: nat): nat {
    if lens == [] then 0
    else
      var k := |lens| - 1;
      Weight(lens[..k], n) + if 0 <= lens[k] <= n then Pow2(n - lens[k]) else 0
  }

  ghost predicate Kraft(lens: seq<int>, longest: nat) {
    Lengths(lens, 1, longest) && Weight(lens, longest) <= Pow2(longest)
  }

  lemma {:induction false} WeightDoubles(lens: seq<int>, n: nat)
    ensures Weight(lens, n + 1) == 2 * Weight(lens, n) + CountOf(lens, n + 1)
    ensures Weight(lens, 0) == CountOf(lens, 0)
  {
    if lens != [] {
      WeightDoubles(lens[..|lens| - 1], n);
    }
  }

  lemma {:induction false} UsedIsWeight(lens: seq<int>, n: nat)
    ensures Used(lens, n) == Weight(lens, n)
  {
    if n == 0 {
      WeightDoubles(lens, 0);
    } else {
      UsedIsWeight(lens, n - 1);
      WeightDoubles(lens, n - 1);
    }
  }

  lemma {:induction false} UsedFits(lens: seq<int>, n: nat, longest: nat)
    requires n <= longest && Used(lens, longest) <= Pow2(longest)
    ensures Used(lens, n) <= Pow2(n)
    decreases longest
  {
    if n < longest {
      assert Used(lens, longest) >= 2 * Used(lens, longest - 1);
      UsedFits(lens, n, longest - 1);
    }
  }

  lemma KraftFits(lens: seq<int>, n: nat, longest: nat)
    requires Kraft(lens, longest) && n <= longest
    ensures Used(lens, n) <= Pow2(n)
  {
    UsedIsWeight(lens, longest);
    UsedFits(lens, n, longest);
  }

  // ----- codes

  function Code(lens: seq<int>, i: nat): nat
    requires i < |lens| && lens[i] >= 0
  {
    First(lens, lens[i]) + CountOf(lens[..i], lens[i])
  }

  function Codeword(lens: seq<int>, i: nat): (r: seq<Bit>)
    requires i < |lens| && lens[i] >= 0
    ensures |r| == lens[i]
  {
    Spell(Code(lens, i), lens[i])
  }

  /** Every code fits its length. */
  lemma CodeFits(lens: seq<int>, i: nat, longest: nat)
    requires Kraft(lens, longest) && i < |lens|
    ensures First(lens, lens[i]) <= Code(lens, i) < Used(lens, lens[i]) <= Pow2(lens[i])
  {
    CountPrefix(lens, lens[i], i, |lens|);
    assert lens[..|lens|] == lens;
    KraftFits(lens, lens[i], longest);
  }

  /** What a longer string shows in its first n bits lies behind all codes of n bits or fewer. */
  lemma {:induction false} HighBehind(lens: seq<int>, w: nat, n: nat, d: nat)
    requires d >= 1 && w >= First(lens, n + d)
    ensures High(w, d) >= Used(lens, n)
    decreases d
  {
    if d > 1 {
      HighBehind(lens, w / 2, n, d - 1);
    } else {
      assert High(w, 1) == High(w / 2, 0) == w / 2;
    }
  }

  lemma CodesApart(lens: seq<int>, i: nat, j: nat, longest: nat)
    requires Kraft(lens, longest) && i < |lens| && j < |lens| && i != j && lens[i] <= lens[j]
    ensures High(Code(lens, j), lens[j] - lens[i]) != Code(lens, i)
  {
    CodeFits(lens, i, longest);
    CodeFits(lens, j, longest);
    if lens[i] < lens[j] {
      HighBehind(lens, Code(lens, j), lens[i], lens[j] - lens[i]);
    } else if i < j {
      CountPrefix(lens, lens[i], i, j);
    } else {
      CountPrefix(lens, lens[i], j, i);
    }
  }

  /** No codeword is a prefix of another. */
  lemma PrefixFree(lens: seq<int>, i: nat, j: nat, longest: nat)
    requires Kraft(lens, longest) && i < |lens| && j < |lens| && i != j
    ensures !(Codeword(lens, i) <= Codeword(lens, j))
  {
    if lens[i] <= lens[j] {
      CodesApart(lens, i, j, longest);
      CodeFits(lens, i, longest);
      CodeFits(lens, j, longest);
      SpellPrefix(Code(lens, i), Code(lens, j), lens[i], lens[j] - lens[i]);
    }
  }

  lemma {:induction false} FirstIsZero(lens: seq<int>, n: nat)
    requires forall i :: 0 <= i < |lens| ==> n <= lens[i]
    ensures First(lens, n) == 0
  {
    if n != 0 {
      FirstIsZero(lens, n - 1);
      NoneOf(lens, n - 1);
    }
  }

  lemma {:induction false} NoneOf(lens: seq<int>, c: int)
    requires forall i :: 0 <= i < |lens| ==> lens[i] != c
    ensures CountOf(lens, c) == 0
  {
    if lens != [] {
      NoneOf(lens[..|lens| - 1], c);
    }
  }

  method AssignCodes(code: array<int>, length: seq<int>, minLen: int, maxLen: int)
    requires Lengths(length, minLen, maxLen) && |length| <= code.Length
    modifies code
    ensures forall i :: 0 <= i < |length| ==> code[i] == Code(length, i)
  {
    FirstIsZero(length, minLen);
    var vec, n := 0, minLen;
    while n <= maxLen
      invariant minLen <= n && vec == First(length, n)
      invariant forall i :: 0 <= i < |length| && length[i] < n ==> code[i] == Code(length, i)
    {
      for i := 0 to |length|
        invariant vec == First(length, n) + CountOf(length[..i], n)
        invariant forall k :: 0 <= k < |length| && length[k] < n ==> code[k] == Code(length, k)
        invariant forall k :: 0 <= k < i && length[k] == n ==> code[k] == Code(length, k)
      {
        assert length[..i + 1][..i] == length[..i];
        if length[i] == n {
          code[i] := vec;
          vec := vec + 1;
        }
      }
      assert length[..|length|] == length;
      vec := 2 * vec;
      n := n + 1;
    }
  }

  // ----- decoding tables

  const MAX_ALPHA_SIZE := 258

  ghost predicate LimitTable(limit: seq<int>, lens: seq<int>, minLen: int, maxLen: int) {
    && |limit| == MAX_CODE_LEN
    && forall n: nat :: n < MAX_CODE_LEN ==> limit[n] == if minLen <= n <= maxLen then Used(lens, n) - 1 else 0
  }

  /** base[n] turns a code of length n into a position of perm. */
  ghost predicate BaseTable(base: seq<int>, lens: seq<int>, minLen: int, maxLen: int) {
    && |base| == MAX_CODE_LEN
    && forall n: nat :: minLen <= n <= maxLen && n < MAX_CODE_LEN ==> base[n] == First(lens, n) - CountBelow(lens, n)
  }

  /** Symbols in order of length, and in alphabetical order within a length. */
  ghost predicate PermTable(perm: seq<int>, lens: seq<int>, upto: int, col: int) {
    && |lens| <= |perm|
    && forall k: nat :: k < |lens| && (lens[k] < upto || (lens[k] == upto && k < col)) ==>
         Place(lens, k) < |lens| && perm[Place(lens, k)] == k
  }

  ghost predicate Tables(limit: seq<int>, base: seq<int>, perm: seq<int>, lens: seq<int>, minLen: int, maxLen: int) {
    && LimitTable(limit, lens, minLen, maxLen) && BaseTable(base, lens, minLen, maxLen)
    && PermTable(perm, lens, maxLen + 1, 0) && |perm| == MAX_ALPHA_SIZE
  }

  lemma PermStep(perm: seq<int>, lens: seq<int>, n: int, j: nat)
    requires PermTable(perm, lens, n, j) && j < |lens|
    ensures Place(lens, j) < |lens|
    ensures PermTable(if lens[j] == n then perm[Place(lens, j) := j] else perm, lens, n, j + 1)
  {
    PlaceInRange(lens, j);
    if lens[j] == n {
      forall k: nat | k < |lens| && (lens[k] < n || (lens[k] == n && k < j))
        ensures Place(lens, k) < Place(lens, j)
      {
        PlaceOrders(lens, k, j);
      }
    }
  }

  lemma {:induction false} NoneBelow(lens: seq<int>, c: int)
    requires forall i :: 0 <= i < |lens| ==> c <= lens[i]
    ensures CountBelow(lens, c) == 0
  {
    if lens != [] {
      NoneBelow(lens[..|lens| - 1], c);
    }
  }

  /** The symbols of length i. */
  method FillLength(perm: array<int>, length: seq<int>, i: int, pp0: int) returns (pp: int)
    requires pp0 == CountBelow(length, i) && PermTable(perm[..], length, i, 0)
    modifies perm
    ensures pp == CountBelow(length, i + 1) && PermTable(perm[..], length, i + 1, 0)
  {
    pp := pp0;
    for j := 0 to |length|
      invariant pp == CountBelow(length, i) + CountOf(length[..j], i) && PermTable(perm[..], length, i, j)
    {
      ghost var was := perm[..];
      assert length[..j + 1][..j] == length[..j];
      PermStep(was, length, i, j);
      if length[j] == i {
        perm[pp] := j;
        assert perm[..] == was[pp := j];
        pp := pp + 1;
      }
    }
    assert length[..|length|] == length;
    CountSteps(length, i);
  }

  method FillPerm(perm: array<int>, length: seq<int>, minLen: int, maxLen: int)
    requires Lengths(length, minLen, maxLen) && |length| <= perm.Length
    modifies perm
    ensures PermTable(perm[..], length, maxLen + 1, 0)
  {
    NoneBelow(length, minLen);
    var pp, i := 0, minLen;
    while i <= maxLen
      invariant minLen <= i <= maxLen + 1 || i == minLen
      invariant pp == CountBelow(length, i) && PermTable(perm[..], length, i, 0)
    {
      pp := FillLength(perm, length, i, pp);
      i := i + 1;
    }
  }

  /** Occurrences of each length, shifted by one, and then summed up. */
  method FillBase(base: array<int>, length: seq<int>)
    requires Lengths(length, 0, LONGEST) && base.Length == MAX_CODE_LEN
    modifies base
    ensures forall c :: 0 <= c < MAX_CODE_LEN ==> base[c] == CountBelow(length, c)
  {
    for i := 0 to MAX_CODE_LEN
      invariant forall c :: 0 <= c < i ==> base[c] == 0
    {
      base[i] := 0;
    }
    for i := 0 to |length|
      invariant forall c :: 0 <= c < MAX_CODE_LEN ==> base[c] == CountOf(length[..i], c - 1)
    {
      assert length[..i + 1][..i] == length[..i];
      base[length[i] + 1] := base[length[i] + 1] + 1;
    }
    assert length[..|length|] == length;
    NoneOf(length, -1);
    NoneBelow(length, 0);
    for i := 1 to MAX_CODE_LEN
      invariant forall c :: 0 <= c < i ==> base[c] == CountBelow(length, c)
      invariant forall c :: i <= c < MAX_CODE_LEN ==> base[c] == CountOf(length, c - 1)
    {
      CountSteps(length, i - 1);
      base[i] := base[i] + base[i - 1];
    }
  }

  method FillLimit(limit: array<int>, base: array<int>, minLen: int, maxLen: int, ghost lens: seq<int>)
    requires limit != base && Lengths(lens, minLen, maxLen) && maxLen <= LONGEST
    requires limit.Length == MAX_CODE_LEN && base.Length == MAX_CODE_LEN
    requires forall c :: 0 <= c < MAX_CODE_LEN ==> base[c] == CountBelow(lens, c)
    modifies limit
    ensures LimitTable(limit[..], lens, minLen, maxLen)
  {
    for i := 0 to MAX_CODE_LEN
      invariant forall c :: 0 <= c < i ==> limit[c] == 0
    {
      limit[i] := 0;
    }
    FirstIsZero(lens, minLen);
    var vec, i := 0, minLen;
    while i <= maxLen
      invariant minLen <= i && (i <= maxLen + 1 || i == minLen) && vec == First(lens, i)
      invariant forall n: nat :: n < MAX_CODE_LEN ==> limit[n] == if minLen <= n < i then Used(lens, n) - 1 else 0
    {
      CountSteps(lens, i);
      vec := vec + (base[i + 1] - base[i]);
      limit[i] := vec - 1;
      vec := 2 * vec;
      i := i + 1;
    }
  }

  method CreateDecodeTables(limit: array<int>, base: array<int>, perm: array<int>, length: seq<int>, minLen: int, maxLen: int)
    requires limit != base && limit != perm && base != perm
    requires Lengths(length, minLen, maxLen) && maxLen <= LONGEST && |length| <= MAX_ALPHA_SIZE
    requires limit.Length == MAX_CODE_LEN && base.Length == MAX_CODE_LEN && perm.Length == MAX_ALPHA_SIZE
    modifies limit, base, perm
    ensures Tables(limit[..], base[..], perm[..], length, minLen, maxLen)
  {
    FillPerm(perm, length, minLen, maxLen);
    ghost var p := perm[..];
    FillBase(base, length);
    FillLimit(limit, base, minLen, maxLen, length);
    FirstIsZero(length, minLen);
    NoneBelow(length, minLen);
    var i := minLen + 1;
    while i <= maxLen
      invariant minLen + 1 <= i && (i <= maxLen + 1 || i == minLen + 1)
      invariant forall n: nat :: minLen <= n < i && n < MAX_CODE_LEN ==> base[n] == First(length, n) - CountBelow(length, n)
      invariant forall n: nat :: i <= n < MAX_CODE_LEN ==> base[n] == CountBelow(length, n)
      invariant LimitTable(limit[..], length, minLen, maxLen) && perm[..] == p
    {
      assert limit[..][i - 1] == limit[i - 1];
      base[i] := 2 * (limit[i - 1] + 1) - base[i];
      i := i + 1;
    }
  }

  // ----- decoding one symbol

  datatype Decoded = Symbol(sym: int, rest: seq<Bit>) | DataError | MoreBits

  /** The symbol whose codeword starts the bits. */
  ghost predicate Starts(lens: seq<int>, sym: int, bits: seq<Bit>) {
    0 <= sym < |lens| && lens[sym] >= 0 && Codeword(lens, sym) <= bits
  }

  /** A codeword longer than n keeps the first n bits above the limit. */
  lemma LongerCode(lens: seq<int>, bits: seq<Bit>, n: nat, sym: int, longest: nat)
    requires Kraft(lens, longest) && Starts(lens, sym, bits) && n < lens[sym]
    ensures n < |bits| && Value(bits[..n]) >= Used(lens, n)
  {
    CodeFits(lens, sym, longest);
    var w, d := Code(lens, sym), lens[sym] - n;
    HighBehind(lens, w, n, d);
    SpellSplit(w, n, d);
    HighBound(w, n, d);
    assert Codeword(lens, sym)[..n] == Spell(High(w, d), n);
    assert bits[..n] == Codeword(lens, sym)[..n];
    ValueOfSpell(High(w, d), n);
    DivModUnique(High(w, d), Pow2(n), 0, High(w, d));
  }

  /** A codeword of n bits or fewer: one of its symbols is found by the first n bits that fall below the limit. */
  lemma ShortCode(lens: seq<int>, bits: seq<Bit>, n: nat, sym: int, longest: nat)
    requires Kraft(lens, longest) && Starts(lens, sym, bits) && lens[sym] == n
    ensures n <= |bits| && Value(bits[..n]) == Code(lens, sym) < Used(lens, n)
  {
    CodeFits(lens, sym, longest);
    assert bits[..n] == Codeword(lens, sym);
    ValueOfSpell(Code(lens, sym), n);
    DivModUnique(Code(lens, sym), Pow2(n), 0, Code(lens, sym));
  }

  /** A code value between First and Used belongs to exactly one symbol. */
  lemma {:induction false} CodeOwner(lens: seq<int>, n: nat, j: nat) returns (k: nat)
    requires j < CountOf(lens, n)
    ensures k < |lens| && lens[k] == n && CountOf(lens[..k], n) == j
  {
    var m := |lens| - 1;
    if j < CountOf(lens[..m], n) {
      k := CodeOwner(lens[..m], n, j);
      assert lens[..m][..k] == lens[..k];
    } else {
      k := m;
    }
  }

  lemma ValueOwner(lens: seq<int>, bits: seq<Bit>, n: nat) returns (k: nat)
    requires n <= |bits| && First(lens, n) <= Value(bits[..n]) < Used(lens, n)
    ensures Starts(lens, k, bits) && lens[k] == n
    ensures Place(lens, k) == Value(bits[..n]) - First(lens, n) + CountBelow(lens, n)
  {
    k := CodeOwner(lens, n, Value(bits[..n]) - First(lens, n));
    assert Value(bits[..n]) == Code(lens, k);
    SpellOfValue(bits[..n]);
    assert Codeword(lens, k) == bits[..n];
  }

  /** Only one symbol can start the bits. */
  lemma OneStarts(lens: seq<int>, bits: seq<Bit>, i: int, j: int, longest: nat)
    requires Kraft(lens, longest) && Starts(lens, i, bits) && Starts(lens, j, bits)
    ensures i == j
  {
    if i != j {
      PrefixFree(lens, i, j, longest);
      PrefixFree(lens, j, i, longest);
    }
  }

  lemma {:induction false} SomeUsed(lens: seq<int>, n: nat)
    requires |lens| > 0 && Lengths(lens, 0, n)
    ensures Used(lens, n) > 0
  {
    UsedIsWeight(lens, n);
    assert Weight(lens, n) >= Pow2(n - lens[|lens| - 1]);
  }

  /** No codeword has been seen in the first n bits: reading has to go on from here. */
  ghost predicate Undecided(lens: seq<int>, bits: seq<Bit>, n: nat, maxLen: int) {
    && n <= |bits| && Value(bits[..n]) >= First(lens, n) && (n > maxLen ==> Value(bits[..n]) > 0)
    && (Kraft(lens, LONGEST) ==> NoneBefore(lens, bits, n))
  }

  ghost predicate NoneBefore(lens: seq<int>, bits: seq<Bit>, n: int) {
    forall i {:trigger Starts(lens, i, bits)} :: Starts(lens, i, bits) ==> lens[i] >= n
  }

  lemma NoneHere(lens: seq<int>, bits: seq<Bit>, n: nat, maxLen: int)
    requires Kraft(lens, LONGEST) && Lengths(lens, 0, maxLen) && Undecided(lens, bits, n, maxLen)
    requires n <= maxLen ==> Value(bits[..n]) >= Used(lens, n)
    ensures NoneBefore(lens, bits, n + 1)
    ensures n == |bits| ==> forall i :: !Starts(lens, i, bits)
  {
    forall i | Starts(lens, i, bits)
      ensures lens[i] > n
    {
      if lens[i] == n {
        ShortCode(lens, bits, n, i, LONGEST);
      }
    }
  }

  lemma ReadsOn(lens: seq<int>, bits: seq<Bit>, n: nat, maxLen: int)
    requires |lens| > 0 && Lengths(lens, 0, maxLen) && Undecided(lens, bits, n, maxLen)
    requires n <= maxLen ==> Value(bits[..n]) >= Used(lens, n)
    ensures n < |bits| ==> Undecided(lens, bits, n + 1, maxLen)
    ensures n == |bits| && Kraft(lens, LONGEST) ==> forall i :: !Starts(lens, i, bits)
  {
    if Kraft(lens, LONGEST) {
      NoneHere(lens, bits, n, maxLen);
    }
    if n < |bits| {
      assert bits[..n + 1][..n] == bits[..n];
      SomeUsed(lens, maxLen);
      if n > maxLen {
        NoneOf(lens, n);
      }
      assert Value(bits[..n + 1]) >= 2 * Used(lens, n);
    }
  }

  /** A value at or below the limit names a symbol whose codeword starts the bits, the only one there is. */
  lemma Decided(lens: seq<int>, bits: seq<Bit>, n: nat, maxLen: int) returns (k: nat)
    requires Undecided(lens, bits, n, maxLen) && Value(bits[..n]) < Used(lens, n)
    ensures Starts(lens, k, bits) && lens[k] == n
    ensures Place(lens, k) == Value(bits[..n]) - First(lens, n) + CountBelow(lens, n)
    ensures Kraft(lens, LONGEST) ==> forall i {:trigger Starts(lens, i, bits)} :: Starts(lens, i, bits) ==> i == k
  {
    k := ValueOwner(lens, bits, n);
    if Kraft(lens, LONGEST) {
      forall i | Starts(lens, i, bits)
        ensures i == k
      {
        OneStarts(lens, bits, i, k, LONGEST);
      }
    }
  }

  /** The tables name the symbol that a value at or below the limit stands for. */
  lemma Found(limit: seq<int>, base: seq<int>, perm: seq<int>, minLen: int, bits: seq<Bit>, n: nat, lens: seq<int>, maxLen: int)
    returns (k: nat)
    requires Tables(limit, base, perm, lens, minLen, maxLen) && Lengths(lens, minLen, maxLen) && 1 <= minLen <= n <= LONGEST && maxLen <= LONGEST
    requires Undecided(lens, bits, n, maxLen) && Value(bits[..n]) <= limit[n]
    ensures 0 <= Value(bits[..n]) - base[n] < |lens| <= |perm| && perm[Value(bits[..n]) - base[n]] == k
    ensures Starts(lens, k, bits) && lens[k] == n
    ensures Kraft(lens, LONGEST) ==> forall i {:trigger Starts(lens, i, bits)} :: Starts(lens, i, bits) ==> i == k
  {
    k := Decided(lens, bits, n, maxLen);
    assert Place(lens, k) < |lens| && perm[Place(lens, k)] == k;
  }

  ghost predicate NoneStarts(lens: seq<int>, bits: seq<Bit>) {
    Kraft(lens, LONGEST) ==> forall i {:trigger Starts(lens, i, bits)} :: !Starts(lens, i, bits)
  }

  datatype Verdict = Complete(sym: int) | OneMore | Bad

  /** The loop of GET_MTF_VAL after zn bits of value zvec: a symbol, an error, or one more bit. */
  function Judge(limit: seq<int>, base: seq<int>, perm: seq<int>, zn: nat, zvec: nat): Verdict
    requires |limit| == |base| == MAX_CODE_LEN && |perm| == MAX_ALPHA_SIZE && zn >= 1
  {
    if zn > LONGEST then Bad
    else if zvec <= limit[zn] then
      var k := zvec - base[zn];
      if k < 0 || k >= MAX_ALPHA_SIZE then Bad else Complete(perm[k])
    else OneMore
  }

  /** Whatever the lengths are, the symbol found exists; for an admissible code it is the only one that fits the bits. */
  lemma JudgeRight(limit: seq<int>, base: seq<int>, perm: seq<int>, minLen: int, bits: seq<Bit>, n: nat, lens: seq<int>, maxLen: int)
    requires Tables(limit, base, perm, lens, minLen, maxLen) && Lengths(lens, minLen, maxLen) && 1 <= minLen <= n <= LONGEST + 1 && maxLen <= LONGEST
    requires |lens| > 0 && Undecided(lens, bits, n, maxLen)
    ensures var v := Judge(limit, base, perm, n, Value(bits[..n]));
      && (v.Complete? ==> Starts(lens, v.sym, bits) && lens[v.sym] == n
                          && (Kraft(lens, LONGEST) ==> forall i {:trigger Starts(lens, i, bits)} :: Starts(lens, i, bits) ==> i == v.sym))
      && (v.Bad? ==> NoneStarts(lens, bits))
      && (v.OneMore? ==> n <= LONGEST && (n == |bits| ==> NoneStarts(lens, bits)) && (n < |bits| ==> Undecided(lens, bits, n + 1, maxLen)))
  {
    if n <= LONGEST && Value(bits[..n]) <= limit[n] {
      var k := Found(limit, base, perm, minLen, bits, n, lens, maxLen);
    } else if n <= LONGEST {
      ReadsOn(lens, bits, n, maxLen);
    }
  }

  /** Reads minLen bits and then one more at a time until the value drops to the limit of its length. Whatever
      the lengths are, the symbol found exists; for an admissible code it is the one that was sent. */
  method DecodeSymbol(limit: seq<int>, base: seq<int>, perm: seq<int>, minLen: int, bits: seq<Bit>,
                      ghost lens: seq<int>, ghost maxLen: int)
    returns (r: Decoded)
    requires Tables(limit, base, perm, lens, minLen, maxLen) && |lens| > 0
    requires Lengths(lens, minLen, maxLen) && 1 <= minLen && maxLen <= LONGEST
    ensures r.Symbol? ==> Starts(lens, r.sym, bits) && r.rest == bits[lens[r.sym]..]
    ensures Kraft(lens, LONGEST) ==>
              forall i {:trigger Starts(lens, i, bits)} :: Starts(lens, i, bits) ==> r.Symbol? && r.sym == i
  {
    var zn := minLen;
    FirstIsZero(lens, minLen);
    if zn > |bits| {
      return MoreBits;
    }
    var zvec: nat := Value(bits[..zn]);
    while true
      invariant minLen <= zn <= LONGEST + 1 && Undecided(lens, bits, zn, maxLen) && zvec == Value(bits[..zn])
      decreases LONGEST + 1 - zn
    {
      JudgeRight(limit, base, perm, minLen, bits, zn, lens, maxLen);
      match Judge(limit, base, perm, zn, zvec) {
        case Complete(sym) => return Symbol(sym, bits[zn..]);
        case Bad => return DataError;
        case OneMore =>
      }
      if zn == |bits| {
        return MoreBits;
      }
      assert bits[..zn + 1][..zn] == bits[..zn];
      zvec := 2 * zvec + bits[zn];
      zn := zn + 1;
    }
  }
}
