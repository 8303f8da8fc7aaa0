/** The initial run-length code: runs of 1 to 255 equal bytes, from four on as four bytes and a count. */
module RunLength {
  import opened Counting

  datatype Pair = Pair(ch: int, len: int)

  ghost predicate Good(p: Pair) {
    0 <= p.ch < 256 && 1 <= p.len <= 255
  }

  /** The bytes of the runs. */
  function Plain(pairs: seq<Pair>): seq<int> {
    if pairs == [] then []
    else
      var k := |pairs| - 1;
      Plain(pairs[..k]) + PlainPair(pairs[k])
  }

  /** What is put into the block for one run. */
  function CodedPair(p: Pair): seq<int> {
    if p.len < 0 then []
    else if p.len < 4 then Copies(p.ch, p.len)
    else Copies(p.ch, 4) + [p.len - 4]
  }

  function Coded(pairs: seq<Pair>): seq<int> {
    if pairs == [] then [] else Coded(pairs[..|pairs| - 1]) + CodedPair(pairs[|pairs| - 1])
  }

  /** Neighbouring runs of one byte occur only behind a run of full length. */
  ghost predicate Follows(p: Pair, q: Pair) {
    p.ch != q.ch || p.len == 255
  }

  ghost predicate Proper(pairs: seq<Pair>) {
    && (forall i :: 0 <= i < |pairs| ==> Good(pairs[i]))
    && forall i {:trigger FollowsAt(pairs, i)} :: 0 < i < |pairs| ==> FollowsAt(pairs, i)
  }

  ghost predicate FollowsAt(pairs: seq<Pair>, i: int)
    requires 0 < i < |pairs|
  {
    Follows(pairs[i - 1], pairs[i])
  }

  // ----- reading it back

  /** One run that starts at the byte drawn last: its length, and how many bytes have been drawn behind it. */
  function Run(d: seq<int>, n: nat, used: nat): (r: (int, nat))
    requires 1 <= used <= n && n + 2 <= |d|
    ensures used < r.1 <= n + 2
  {
    var c := d[used - 1];
    if used + 1 == n + 1 || d[used] != c then (1, used + 1)
    else if used + 2 == n + 1 || d[used + 1] != c then (2, used + 2)
    else if used + 3 == n + 1 || d[used + 2] != c then (3, used + 3)
    else (d[used + 3] + 4, used + 5)
  }

  /** All bytes from here on, and whether the stream turns out to be corrupt. */
  function Expand(d: seq<int>, n: nat, used: nat): (r: (seq<int>, bool))
    requires 1 <= used && n + 2 <= |d|
    decreases n + 1 - used
  {
    if used == n + 1 then ([], false)
    else if used > n + 1 then ([], true)
    else
      var (len, used') := Run(d, n, used);
      var (out, bad) := Expand(d, n, used');
      ((if len >= 0 then Copies(d[used - 1], len) else []) + out, bad)
  }

  lemma Assoc(a: seq<int>, b: seq<int>, c: seq<int>)
    ensures (a + b) + c == a + (b + c)
  {
  }

  function PlainPair(p: Pair): seq<int> {
    if p.len >= 0 then Copies(p.ch, p.len) else []
  }

  lemma {:induction false} CodedSplit(pairs: seq<Pair>)
    requires pairs != []
    ensures Coded(pairs) == CodedPair(pairs[0]) + Coded(pairs[1..])
  {
    var k := |pairs| - 1;
    if k == 0 {
      assert pairs[..0] == [] && pairs[1..] == [];
    } else {
      CodedSplit(pairs[..k]);
      var rest := pairs[1..];
      assert pairs[..k][1..] == rest[..k - 1] && rest[k - 1] == pairs[k];
      Assoc(CodedPair(pairs[0]), Coded(rest[..k - 1]), CodedPair(pairs[k]));
    }
  }

  lemma {:induction false} PlainSplit(pairs: seq<Pair>)
    requires pairs != []
    ensures Plain(pairs) == PlainPair(pairs[0]) + Plain(pairs[1..])
  {
    var k := |pairs| - 1;
    if k == 0 {
      assert pairs[..0] == [] && pairs[1..] == [];
    } else {
      PlainSplit(pairs[..k]);
      var rest := pairs[1..];
      assert pairs[..k][1..] == rest[..k - 1] && rest[k - 1] == pairs[k];
      Assoc(PlainPair(pairs[0]), Plain(rest[..k - 1]), PlainPair(pairs[k]));
    }
  }

  lemma CopiesFour(c: int)
    ensures Copies(c, 1) == [c] && Copies(c, 2) == [c, c] && Copies(c, 3) == [c, c, c] && Copies(c, 4) == [c, c, c, c]
  {
    assert Copies(c, 0) == [];
  }

  /** The code consists of bytes. */
  lemma {:induction false} CodedBytes(pairs: seq<Pair>)
    requires forall i :: 0 <= i < |pairs| ==> Good(pairs[i])
    ensures forall i :: 0 <= i < |Coded(pairs)| ==> 0 <= Coded(pairs)[i] < 256
  {
    if pairs != [] {
      CodedBytes(pairs[..|pairs| - 1]);
      CopiesFour(pairs[|pairs| - 1].ch);
    }
  }

  lemma CodedStarts(pairs: seq<Pair>)
    requires Proper(pairs) && pairs != []
    ensures Coded(pairs) != [] && Coded(pairs)[0] == pairs[0].ch
  {
    CodedSplit(pairs);
    PairHead(pairs[0]);
    var s, t := CodedPair(pairs[0]), Coded(pairs[1..]);
    assert (s + t)[0] == s[0];
  }

  lemma PairHead(p: Pair)
    requires Good(p)
    ensures CodedPair(p) != [] && CodedPair(p)[0] == p.ch
  {
    CopiesFour(p.ch);
  }

  /** A coded run, and what stands behind it. */
  lemma RunStands(p: Pair, rest: seq<int>, d: seq<int>, n: nat, used: nat)
    requires 1 <= used <= n + 1 && n + 2 <= |d| && d[used - 1..n] == CodedPair(p) + rest
    ensures used - 1 + |CodedPair(p)| <= n && d[used - 1 + |CodedPair(p)|..n] == rest
    ensures d[used - 1..used - 1 + |CodedPair(p)|] == CodedPair(p)
  {
    var s, m := d[used - 1..n], |CodedPair(p)|;
    assert s[..m] == CodedPair(p) && s[m..] == rest;
    assert s[..m] == d[used - 1..used - 1 + m] && s[m..] == d[used - 1 + m..n];
  }

  lemma RunShort(c: int, len: int, d: seq<int>, n: nat, used: nat)
    requires 1 <= len <= 3 && 1 <= used && used - 1 + len <= n && n + 2 <= |d|
    requires d[used - 1] == c && (len > 1 ==> d[used] == c) && (len > 2 ==> d[used + 1] == c)
    requires used - 1 + len == n || d[used - 1 + len] != c
    ensures Run(d, n, used) == (len, used + len)
  {
  }

  /** The decoder reads a run exactly as it was coded. */
  lemma RunCoded(p: Pair, rest: seq<int>, d: seq<int>, n: nat, used: nat)
    requires Good(p) && 1 <= used <= n && n + 2 <= |d| && d[used - 1..n] == CodedPair(p) + rest
    requires p.len < 255 && rest != [] ==> rest[0] != p.ch
    ensures Run(d, n, used) == (p.len, used + |CodedPair(p)|) && d[used - 1] == p.ch
  {
    RunStands(p, rest, d, n, used);
    CopiesFour(p.ch);
    var m := |CodedPair(p)|;
    var s := d[used - 1..used - 1 + m];
    assert forall i :: 0 <= i < m ==> d[used - 1 + i] == s[i];
    if p.len < 4 {
      if used - 1 + m < n {
        assert d[used - 1 + m] == rest[0];
      }
      assert d[used - 1 + 0] == p.ch && (p.len > 1 ==> d[used - 1 + 1] == p.ch) && (p.len > 2 ==> d[used - 1 + 2] == p.ch);
      RunShort(p.ch, p.len, d, n, used);
    } else {
      assert s[0] == s[1] == s[2] == s[3] == p.ch && s[4] == p.len - 4;
      assert d[used - 1 + 0] == d[used - 1 + 1] == d[used - 1 + 2] == d[used - 1 + 3] == p.ch;
    }
  }

  lemma NextDiffers(pairs: seq<Pair>)
    requires Proper(pairs) && pairs != []
    ensures Good(pairs[0]) && (pairs[0].len < 255 && Coded(pairs[1..]) != [] ==> Coded(pairs[1..])[0] != pairs[0].ch)
  {
    ProperTail(pairs);
    if |pairs| > 1 {
      CodedStarts(pairs[1..]);
      assert FollowsAt(pairs, 1);
    } else {
      assert pairs[1..] == [];
    }
  }

  lemma ExpandStep(d: seq<int>, n: nat, used: nat, p: Pair, used': nat)
    requires 1 <= used <= n && n + 2 <= |d| && Run(d, n, used) == (p.len, used') && d[used - 1] == p.ch && p.len >= 0
    ensures Expand(d, n, used) == (Copies(p.ch, p.len) + Expand(d, n, used').0, Expand(d, n, used').1)
  {
  }

  /** One run of what was coded. */
  lemma ExpandPair(p: Pair, rest: seq<int>, d: seq<int>, n: nat, used: nat, used': nat)
    requires Good(p) && 1 <= used <= n && n + 2 <= |d| && d[used - 1..n] == CodedPair(p) + rest && used' == used + |CodedPair(p)|
    requires p.len < 255 && rest != [] ==> rest[0] != p.ch
    ensures Expand(d, n, used) == (PlainPair(p) + Expand(d, n, used').0, Expand(d, n, used').1)
  {
    RunCoded(p, rest, d, n, used);
    ExpandStep(d, n, used, p, used');
  }

  /** Where the first run of what was coded ends. */
  lemma FirstStands(pairs: seq<Pair>, d: seq<int>, n: nat, used: nat)
    requires Proper(pairs) && pairs != [] && 1 <= used <= n + 1 && n + 2 <= |d| && d[used - 1..n] == Coded(pairs)
    ensures used <= n && d[used - 1..n] == CodedPair(pairs[0]) + Coded(pairs[1..])
    ensures used + |CodedPair(pairs[0])| <= n + 1 && d[used + |CodedPair(pairs[0])| - 1..n] == Coded(pairs[1..])
  {
    CodedStarts(pairs);
    CodedSplit(pairs);
    RunStands(pairs[0], Coded(pairs[1..]), d, n, used);
  }

  lemma ExpandNext(pairs: seq<Pair>, d: seq<int>, n: nat, used: nat, used': nat)
    requires Proper(pairs) && pairs != [] && used' == used + |CodedPair(pairs[0])|
    requires 1 <= used <= n && n + 2 <= |d| && d[used - 1..n] == CodedPair(pairs[0]) + Coded(pairs[1..])
    ensures Expand(d, n, used) == (PlainPair(pairs[0]) + Expand(d, n, used').0, Expand(d, n, used').1)
  {
    NextDiffers(pairs);
    ExpandPair(pairs[0], Coded(pairs[1..]), d, n, used, used');
  }

  /** One run of what was coded, and the rest. */
  lemma ExpandFirst(pairs: seq<Pair>, d: seq<int>, n: nat, used: nat) returns (used': nat)
    requires Proper(pairs) && pairs != [] && 1 <= used <= n + 1 && n + 2 <= |d| && d[used - 1..n] == Coded(pairs)
    ensures used' <= n + 1 && used' >= 1 && d[used' - 1..n] == Coded(pairs[1..])
    ensures Expand(d, n, used) == (PlainPair(pairs[0]) + Expand(d, n, used').0, Expand(d, n, used').1)
  {
    used' := used + |CodedPair(pairs[0])|;
    FirstStands(pairs, d, n, used);
    ExpandNext(pairs, d, n, used, used');
  }

  /** Expanding what was coded gives the bytes of the runs. */
  lemma {:induction false} ExpandCoded(pairs: seq<Pair>, d: seq<int>, n: nat, used: nat)
    requires Proper(pairs) && 1 <= used <= n + 1 && n + 2 <= |d| && d[used - 1..n] == Coded(pairs)
    ensures Expand(d, n, used) == (Plain(pairs), false)
    decreases |pairs|
  {
    if pairs == [] {
      assert used == n + 1;
    } else {
      var used' := ExpandFirst(pairs, d, n, used);
      ProperTail(pairs);
      ExpandCoded(pairs[1..], d, n, used');
      PlainSplit(pairs);
    }
  }

  lemma ProperTail(pairs: seq<Pair>)
    requires Proper(pairs) && pairs != []
    ensures Proper(pairs[1..])
  {
    var rest := pairs[1..];
    forall i | 0 < i < |rest|
      ensures FollowsAt(rest, i)
    {
      assert FollowsAt(pairs, i + 1);
    }
  }
}
