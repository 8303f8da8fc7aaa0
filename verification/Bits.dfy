/** Bit strings, most significant bit first, and powers of two. */
module Bits {

  type Bit = x: int | 0 <= x < 2

  const BYTE_LEN := 8
  const WORD_LEN := 32
  const REST_LEN := 24

  function Pow2(k: nat): (p: nat)
    ensures p >= 1
  {
    if k == 0 then 1 else 2 * Pow2(k - 1)
  }

  lemma {:induction false} Pow2Sum(j: nat, k: nat)
    ensures Pow2(j + k) == Pow2(j) * Pow2(k)
    decreases k
  {
    if k != 0 {
      Pow2Sum(j, k - 1);
      assert Pow2(j + k) == 2 * (Pow2(j) * Pow2(k - 1)) == Pow2(j) * (2 * Pow2(k - 1));
    }
  }

  lemma {:induction false} Pow2Grows(j: nat, k: nat)
    requires j <= k
    ensures Pow2(j) <= Pow2(k)
    decreases k
  {
    if j < k {
      Pow2Grows(j, k - 1);
    }
  }

  /** The low n bits of v. */
  function Spell(v: nat, n: nat): (r: seq<Bit>)
    ensures |r| == n
  {
    if n == 0 then [] else Spell(v / 2, n - 1) + [v % 2]
  }

  function Value(s: seq<Bit>): nat {
    if s == [] then 0 else 2 * Value(s[..|s| - 1]) + s[|s| - 1]
  }

  lemma {:induction false} ValueOfSpell(v: nat, n: nat)
    ensures Value(Spell(v, n)) == v % Pow2(n)
    decreases n
  {
    if n != 0 {
      ValueOfSpell(v / 2, n - 1);
      ModHalves(v, Pow2(n - 1));
      assert Spell(v, n)[..n - 1] == Spell(v / 2, n - 1);
    }
  }

  lemma QuotientBounds(x: nat, d: nat)
    requires d >= 1
    ensures 0 <= x / d && d * (x / d) <= x < d * (x / d) + d
  {
  }

  lemma MultiplesApart(d: nat, u: int, v: int)
    ensures u < v ==> d * u + d <= d * v
  {
    if u < v {
      var w: nat := v - u - 1;
      assert v == u + 1 + w;
      assert d * (u + 1 + w) == d * u + d + d * w;
    }
  }

  lemma DivModUnique(x: nat, d: nat, q: nat, r: nat)
    requires d > 0 && x == d * q + r && r < d
    ensures x / d == q && x % d == r
  {
    QuotientBounds(x, d);
    MultiplesApart(d, q, x / d);
    MultiplesApart(d, x / d, q);
    assert x == d * (x / d) + x % d;
  }

  lemma ModHalves(v: nat, p: nat)
    requires p >= 1
    ensures v % (2 * p) == 2 * ((v / 2) % p) + v % 2
    ensures v / (2 * p) == (v / 2) / p
  {
    var q, r := (v / 2) / p, (v / 2) % p;
    assert v / 2 == p * q + r;
    assert v == 2 * p * q + (2 * r + v % 2) by {
      assert 2 * (p * q) == 2 * p * q;
    }
    DivModUnique(v, 2 * p, q, 2 * r + v % 2);
  }

  lemma {:induction false} SpellOfValue(s: seq<Bit>)
    ensures Spell(Value(s), |s|) == s && Value(s) < Pow2(|s|)
  {
    if s != [] {
      var k := |s| - 1;
      SpellOfValue(s[..k]);
      assert s == s[..k] + [s[k]];
    }
  }

  /** v without its low k bits. */
  function High(v: nat, k: nat): nat {
    if k == 0 then v else High(v / 2, k - 1)
  }

  lemma {:induction false} HighIsQuotient(v: nat, k: nat)
    ensures High(v, k) == v / Pow2(k)
    decreases k
  {
    if k != 0 {
      HighIsQuotient(v / 2, k - 1);
      ModHalves(v, Pow2(k - 1));
    }
  }

  /** The high bits and the low bits. */
  lemma {:induction false} SpellSplit(v: nat, j: nat, k: nat)
    ensures Spell(v, j + k) == Spell(High(v, k), j) + Spell(v, k)
    decreases k
  {
    if k != 0 {
      SpellSplit(v / 2, j, k - 1);
    }
  }

  /** Only the low n bits matter. */
  lemma SpellMod(v: nat, n: nat)
    ensures Spell(v, n) == Spell(v % Pow2(n), n)
  {
    ValueOfSpell(v, n);
    SpellOfValue(Spell(v, n));
  }

  lemma SpellInjective(v: nat, w: nat, n: nat)
    requires v < Pow2(n) && w < Pow2(n) && Spell(v, n) == Spell(w, n)
    ensures v == w
  {
    ValueOfSpell(v, n);
    ValueOfSpell(w, n);
    DivModUnique(v, Pow2(n), 0, v);
    DivModUnique(w, Pow2(n), 0, w);
  }

  lemma {:induction false} HighBound(w: nat, j: nat, k: nat)
    requires w < Pow2(j + k)
    ensures High(w, k) < Pow2(j)
    decreases k
  {
    if k != 0 {
      HighBound(w / 2, j, k - 1);
    }
  }

  /** A prefix of a spelt number is the number without its low bits. */
  lemma SpellPrefix(v: nat, w: nat, j: nat, k: nat)
    requires v < Pow2(j) && w < Pow2(j + k)
    ensures Spell(v, j) <= Spell(w, j + k) <==> High(w, k) == v
  {
    SpellSplit(w, j, k);
    HighBound(w, j, k);
    assert Spell(w, j + k)[..j] == Spell(High(w, k), j);
    if Spell(v, j) <= Spell(w, j + k) {
      assert Spell(v, j) == Spell(w, j + k)[..j];
      SpellInjective(v, High(w, k), j);
    }
  }

  // ----- shifting and adding words

  function Zeros(n: nat): (r: seq<Bit>)
    ensures |r| == n
  {
    if n == 0 then [] else Zeros(n - 1) + [0]
  }

  /** v with k zero bits behind it. */
  function Shl(v: nat, k: nat): nat {
    if k == 0 then v else 2 * Shl(v, k - 1)
  }

  lemma {:induction false} ShlIsProduct(v: nat, k: nat)
    ensures Shl(v, k) == v * Pow2(k)
  {
    if k != 0 {
      ShlIsProduct(v, k - 1);
      assert 2 * (v * Pow2(k - 1)) == v * (2 * Pow2(k - 1));
    }
  }

  lemma {:induction false} SpellShl(v: nat, n: nat, k: nat)
    ensures Spell(Shl(v, k), n + k) == Spell(v, n) + Zeros(k)
    decreases k
  {
    if k != 0 {
      SpellShl(v, n, k - 1);
      assert Shl(v, k) / 2 == Shl(v, k - 1) && Shl(v, k) % 2 == 0;
    }
  }

  /** Adding n bits to a word whose low n bits are zero puts them there. */
  lemma {:induction false} SpellAdd(w: nat, v: nat, m: nat, n: nat)
    requires Spell(w, n) == Zeros(n) && v < Pow2(n)
    ensures Spell(w + v, m + n) == Spell(High(w, n), m) + Spell(v, n)
    decreases n
  {
    if n != 0 {
      assert Spell(w, n)[n - 1] == Zeros(n)[n - 1] && Spell(w, n)[..n - 1] == Zeros(n)[..n - 1];
      assert Spell(w / 2, n - 1) == Zeros(n - 1);
      SpellAdd(w / 2, v / 2, m, n - 1);
      assert (w + v) / 2 == w / 2 + v / 2 && (w + v) % 2 == v % 2;
    }
  }

  /** The same above k more zero bits. */
  lemma {:induction false} SpellAddShl(w: nat, v: nat, m: nat, n: nat, k: nat)
    requires Spell(w, n + k) == Zeros(n + k) && v < Pow2(n)
    ensures Spell(w + Shl(v, k), m + n + k) == Spell(High(w, n + k), m) + Spell(v, n) + Zeros(k)
    decreases k
  {
    if k == 0 {
      SpellAdd(w, v, m, n);
    } else {
      var j := n + k;
      assert Spell(w, j)[j - 1] == Zeros(j)[j - 1] && Spell(w, j)[..j - 1] == Zeros(j)[..j - 1];
      SpellAddShl(w / 2, v, m, n, k - 1);
      assert (w + Shl(v, k)) / 2 == w / 2 + Shl(v, k - 1) && (w + Shl(v, k)) % 2 == 0;
    }
  }

  lemma {:induction false} ZerosSplit(j: nat, k: nat)
    ensures Zeros(j + k) == Zeros(j) + Zeros(k)
    decreases k
  {
    if k != 0 {
      ZerosSplit(j, k - 1);
    }
  }

  lemma {:induction false} HighAdd(w: nat, v: nat, n: nat)
    requires Spell(w, n) == Zeros(n) && v < Pow2(n)
    ensures High(w + v, n) == High(w, n)
    decreases n
  {
    if n != 0 {
      assert Spell(w, n)[n - 1] == Zeros(n)[n - 1] && Spell(w, n)[..n - 1] == Zeros(n)[..n - 1];
      assert Spell(w / 2, n - 1) == Zeros(n - 1);
      HighAdd(w / 2, v / 2, n - 1);
      assert (w + v) / 2 == w / 2 + v / 2;
    }
  }

  lemma {:induction false} HighAddShl(w: nat, v: nat, n: nat, k: nat)
    requires Spell(w, n + k) == Zeros(n + k) && v < Pow2(n)
    ensures High(w + Shl(v, k), n + k) == High(w, n + k)
    decreases k
  {
    if k == 0 {
      HighAdd(w, v, n);
    } else {
      var j := n + k;
      assert Spell(w, j)[j - 1] == Zeros(j)[j - 1] && Spell(w, j)[..j - 1] == Zeros(j)[..j - 1];
      HighAddShl(w / 2, v, n, k - 1);
      assert (w + Shl(v, k)) / 2 == w / 2 + Shl(v, k - 1);
    }
  }

  lemma {:induction false} HighHigh(w: nat, j: nat, k: nat)
    ensures High(High(w, k), j) == High(w, j + k)
    decreases k
  {
    if k != 0 {
      HighHigh(w / 2, j, k - 1);
    }
  }

  lemma {:induction false} HighZero(w: nat, n: nat)
    ensures High(w, n) == 0 <==> w < Pow2(n)
    decreases n
  {
    if n != 0 {
      HighZero(w / 2, n - 1);
    }
  }
}
