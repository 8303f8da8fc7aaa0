/** The hash table of the link resolver: bucket chains that behave as a map from (dev, ino) to links. */
module LinkTable {

  datatype Option<T> = None | Some(value: T)

  datatype Kind = Directory | BlockDevice | CharDevice | OtherKind

  /** id tells entries apart; it plays no part in the code. */
  datatype Entry = Entry(id: nat, dev: int, ino: int, nlink: nat, kind: Kind, path: string, size: Option<int>, hardlink: Option<string>)

  type Key = (int, int)

  /** links: how many have not been seen yet. */
  datatype Link = Link(canonical: Entry, held: Option<Entry>, hash: nat, links: nat)

  const INITIAL_SIZE := 1024

  function KeyOf(e: Entry): Key {
    (e.dev, e.ino)
  }

  function LinkKey(l: Link): Key {
    KeyOf(l.canonical)
  }

  /** The chains hold the links of the map, each once and in the bucket of its hash. */
  ghost predicate Chained(bs: seq<seq<Link>>, t: map<Key, Link>, hashOf: (int, int) -> nat) {
    && |bs| > 0
    && (forall b {:trigger bs[b]} :: 0 <= b < |bs| ==> ChainOk(bs[b], b, |bs|, t, hashOf))
    && forall key {:trigger key in t} :: key in t ==> LinkKey(t[key]) == key && t[key] in bs[hashOf(key.0, key.1) % |bs|]
  }

  ghost predicate ChainOk(c: seq<Link>, b: nat, n: nat, t: map<Key, Link>, hashOf: (int, int) -> nat)
    requires n > 0
  {
    && (forall k {:trigger c[k]} :: 0 <= k < |c| ==> InPlace(c[k], b, n, t, hashOf))
    && forall j, k {:trigger c[j], c[k]} :: 0 <= j < k < |c| ==> LinkKey(c[j]) != LinkKey(c[k])
  }

  ghost predicate InPlace(l: Link, b: nat, n: nat, t: map<Key, Link>, hashOf: (int, int) -> nat)
    requires n > 0
  {
    && l.hash == hashOf(l.canonical.dev, l.canonical.ino) && l.hash % n == b && l.links > 0
    && LinkKey(l) in t && t[LinkKey(l)] == l
  }

  lemma AddHead(bs: seq<seq<Link>>, t: map<Key, Link>, hashOf: (int, int) -> nat, l: Link, b: nat)
    requires Chained(bs, t, hashOf) && LinkKey(l) !in t && l.links > 0
    requires l.hash == hashOf(l.canonical.dev, l.canonical.ino) && b == l.hash % |bs|
    ensures Chained(bs[b := [l] + bs[b]], t[LinkKey(l) := l], hashOf)
  {
    var cs, u := bs[b := [l] + bs[b]], t[LinkKey(l) := l];
    forall d | 0 <= d < |cs|
      ensures ChainOk(cs[d], d, |cs|, u, hashOf)
    {
      assert ChainOk(bs[d], d, |bs|, t, hashOf);
    }
    forall key | key in u
      ensures LinkKey(u[key]) == key && u[key] in cs[hashOf(key.0, key.1) % |cs|]
    {
      if key == LinkKey(l) {
        assert cs[b][0] == l;
      } else {
        var d := hashOf(key.0, key.1) % |bs|;
        assert t[key] in bs[d];
        assert d == b ==> cs[d] == [l] + bs[d];
      }
    }
  }

  function Without(c: seq<Link>, k: nat): seq<Link>
    requires k < |c|
  {
    c[..k] + c[k + 1..]
  }

  lemma RemoveAt(bs: seq<seq<Link>>, t: map<Key, Link>, hashOf: (int, int) -> nat, b: nat, k: nat)
    requires Chained(bs, t, hashOf) && b < |bs| && k < |bs[b]|
    ensures LinkKey(bs[b][k]) in t && t[LinkKey(bs[b][k])] == bs[b][k]
    ensures Chained(bs[b := Without(bs[b], k)], t - {LinkKey(bs[b][k])}, hashOf)
  {
    var l := bs[b][k];
    assert ChainOk(bs[b], b, |bs|, t, hashOf) && InPlace(l, b, |bs|, t, hashOf);
    var cs, u := bs[b := Without(bs[b], k)], t - {LinkKey(l)};
    forall d | 0 <= d < |cs|
      ensures ChainOk(cs[d], d, |cs|, u, hashOf)
    {
      assert ChainOk(bs[d], d, |bs|, t, hashOf);
      forall j | 0 <= j < |cs[d]|
        ensures InPlace(cs[d][j], d, |cs|, u, hashOf)
      {
        if d == b {
          assert cs[d][j] == bs[d][if j < k then j else j + 1];
        }
        assert InPlace(cs[d][j], d, |bs|, t, hashOf);
        assert d != b ==> cs[d][j].hash % |bs| != l.hash % |bs|;
      }
    }
    forall key | key in u
      ensures LinkKey(u[key]) == key && u[key] in cs[hashOf(key.0, key.1) % |cs|]
    {
      var d := hashOf(key.0, key.1) % |bs|;
      assert t[key] in bs[d];
      var j :| 0 <= j < |bs[d]| && bs[d][j] == t[key];
      assert InPlace(bs[d][j], d, |bs|, t, hashOf);
      if d == b {
        assert j != k;
        assert cs[d][if j < k then j else j - 1] == bs[d][j];
      }
    }
  }

  lemma ReplaceAt(bs: seq<seq<Link>>, t: map<Key, Link>, hashOf: (int, int) -> nat, b: nat, k: nat, l: Link)
    requires Chained(bs, t, hashOf) && b < |bs| && k < |bs[b]| && l.links > 0
    requires l.canonical == bs[b][k].canonical && l.hash == bs[b][k].hash
    ensures LinkKey(l) in t && t[LinkKey(l)] == bs[b][k]
    ensures Chained(bs[b := bs[b][k := l]], t[LinkKey(l) := l], hashOf)
  {
    assert ChainOk(bs[b], b, |bs|, t, hashOf) && InPlace(bs[b][k], b, |bs|, t, hashOf);
    var cs, u := bs[b := bs[b][k := l]], t[LinkKey(l) := l];
    forall d | 0 <= d < |cs|
      ensures ChainOk(cs[d], d, |cs|, u, hashOf)
    {
      assert ChainOk(bs[d], d, |bs|, t, hashOf);
      forall j | 0 <= j < |cs[d]|
        ensures InPlace(cs[d][j], d, |cs|, u, hashOf)
      {
        assert InPlace(bs[d][j], d, |bs|, t, hashOf);
        assert d != b ==> bs[d][j].hash % |bs| != l.hash % |bs|;
      }
      forall i, j | 0 <= i < j < |cs[d]|
        ensures LinkKey(cs[d][i]) != LinkKey(cs[d][j])
      {
        assert LinkKey(bs[d][i]) != LinkKey(bs[d][j]);
      }
    }
    forall key | key in u
      ensures LinkKey(u[key]) == key && u[key] in cs[hashOf(key.0, key.1) % |cs|]
    {
      var d := hashOf(key.0, key.1) % |bs|;
      assert key in t;
      assert t[key] in bs[d];
      var j :| 0 <= j < |bs[d]| && bs[d][j] == t[key];
      assert InPlace(bs[d][j], d, |bs|, t, hashOf);
      assert cs[d][j] == u[key];
    }
  }

  lemma FoundAt(bs: seq<seq<Link>>, t: map<Key, Link>, hashOf: (int, int) -> nat, b: nat, k: nat)
    requires Chained(bs, t, hashOf) && b < |bs| && k < |bs[b]|
    ensures var l := bs[b][k]; InPlace(l, b, |bs|, t, hashOf)
  {
    assert ChainOk(bs[b], b, |bs|, t, hashOf);
  }

  /** A key whose chain does not show it is not in the map. */
  lemma NotFound(bs: seq<seq<Link>>, t: map<Key, Link>, hashOf: (int, int) -> nat, key: Key)
    requires Chained(bs, t, hashOf)
    requires forall k :: 0 <= k < |bs[hashOf(key.0, key.1) % |bs|]| ==> LinkKey(bs[hashOf(key.0, key.1) % |bs|][k]) != key
    ensures key !in t
  {
  }

  lemma EmptyChains(n: nat, hashOf: (int, int) -> nat)
    requires n > 0
    ensures Chained(seq(n, _ => []), map[], hashOf)
  {
  }

  lemma NothingLeft(bs: seq<seq<Link>>, t: map<Key, Link>, hashOf: (int, int) -> nat)
    requires Chained(bs, t, hashOf) && forall b :: 0 <= b < |bs| ==> bs[b] == []
    ensures t == map[]
  {
  }
}
