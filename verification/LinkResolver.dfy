/** The link resolver: which entries are handed back, when, and as links to what. */
module LinkResolver {
  import opened LinkProtocol
  import opened LinkTable

  // ----- chains

  /** A link goes to the head of its chain. */
  method PutHead(to: array<seq<Link>>, le: Link, hashOf: (int, int) -> nat, ghost t: map<Key, Link>)
    requires Chained(to[..], t, hashOf) && LinkKey(le) !in t && le.links > 0 && le.hash == hashOf(le.canonical.dev, le.canonical.ino)
    modifies to
    ensures Chained(to[..], t[LinkKey(le) := le], hashOf)
  {
    ghost var bs := to[..];
    var bucket := le.hash % to.Length;
    AddHead(bs, t, hashOf, le, bucket);
    to[bucket] := [le] + to[bucket];
    assert to[..] == bs[bucket := [le] + bs[bucket]];
  }

  /** The head of a chain is taken off. */
  method TakeHead(from: array<seq<Link>>, i: nat, ghost hashOf: (int, int) -> nat, ghost t: map<Key, Link>) returns (le: Link)
    requires Chained(from[..], t, hashOf) && i < from.Length && from[i] != []
    modifies from
    ensures LinkKey(le) in t && t[LinkKey(le)] == le && le.links > 0 && le.hash == hashOf(le.canonical.dev, le.canonical.ino)
    ensures Chained(from[..], t - {LinkKey(le)}, hashOf) && from[..] == old(from[..])[i := old(from[i])[1..]]
  {
    ghost var bs := from[..];
    le := from[i][0];
    RemoveAt(bs, t, hashOf, i, 0);
    FoundAt(bs, t, hashOf, i, 0);
    from[i] := from[i][1..];
    assert Without(bs[i], 0) == bs[i][1..];
    assert from[..] == bs[i := bs[i][1..]];
  }

  /** A map in two parts. */
  ghost predicate Split(t: map<Key, Link>, a: map<Key, Link>, b: map<Key, Link>) {
    && (forall key {:trigger key in t} :: key in t ==> (key in a && key !in b && t[key] == a[key]) || (key in b && key !in a && t[key] == b[key]))
    && (forall key {:trigger key in a} :: key in a ==> key in t)
    && forall key {:trigger key in b} :: key in b ==> key in t
  }

  lemma SplitMoves(t: map<Key, Link>, a: map<Key, Link>, b: map<Key, Link>, key: Key)
    requires Split(t, a, b) && key in a
    ensures key !in b && Split(t, a - {key}, b[key := a[key]])
  {
  }

  /** A link moves to its new bucket. */
  method MoveHead(from: array<seq<Link>>, to: array<seq<Link>>, i: nat, hashOf: (int, int) -> nat, ghost t: map<Key, Link>,
                  ghost rest: map<Key, Link>, ghost moved: map<Key, Link>)
    returns (ghost rest': map<Key, Link>, ghost moved': map<Key, Link>)
    requires from != to && i < from.Length && from[i] != []
    requires Chained(from[..], rest, hashOf) && Chained(to[..], moved, hashOf) && Split(t, rest, moved)
    modifies from, to
    ensures Chained(from[..], rest', hashOf) && Chained(to[..], moved', hashOf) && Split(t, rest', moved')
    ensures from[..] == old(from[..])[i := old(from[i])[1..]]
  {
    var le := TakeHead(from, i, hashOf, rest);
    SplitMoves(t, rest, moved, LinkKey(le));
    PutHead(to, le, hashOf, moved);
    rest', moved' := rest - {LinkKey(le)}, moved[LinkKey(le) := le];
  }

  /** A whole chain moves to the new buckets. */
  method MoveChain(from: array<seq<Link>>, to: array<seq<Link>>, i: nat, hashOf: (int, int) -> nat, ghost t: map<Key, Link>,
                   ghost rest: map<Key, Link>, ghost moved: map<Key, Link>)
    returns (ghost rest': map<Key, Link>, ghost moved': map<Key, Link>)
    requires from != to && i < from.Length && Chained(from[..], rest, hashOf) && Chained(to[..], moved, hashOf) && Split(t, rest, moved)
    modifies from, to
    ensures Chained(from[..], rest', hashOf) && Chained(to[..], moved', hashOf) && Split(t, rest', moved')
    ensures from[..] == old(from[..])[i := []]
  {
    rest', moved' := rest, moved;
    while from[i] != []
      invariant Chained(from[..], rest', hashOf) && Chained(to[..], moved', hashOf) && Split(t, rest', moved')
      invariant from[..] == old(from[..])[i := from[i]]
      decreases |from[i]|
    {
      rest', moved' := MoveHead(from, to, i, hashOf, t, rest', moved');
    }
  }

  lemma AllMoved(bs: seq<seq<Link>>, t: map<Key, Link>, rest: map<Key, Link>, moved: map<Key, Link>, hashOf: (int, int) -> nat)
    requires Chained(bs, rest, hashOf) && Split(t, rest, moved) && forall b :: 0 <= b < |bs| ==> bs[b] == []
    ensures moved == t
  {
    LinkTable.NothingLeft(bs, rest, hashOf);
  }

  /** The loop of grow_hash. */
  method Rehash(from: array<seq<Link>>, new_size: nat, hashOf: (int, int) -> nat, ghost t: map<Key, Link>) returns (to: array<seq<Link>>)
    requires Chained(from[..], t, hashOf) && new_size > 0
    modifies from
    ensures fresh(to) && to.Length == new_size && Chained(to[..], t, hashOf)
  {
    to := new seq<Link>[new_size](_ => []);
    EmptyChains(new_size, hashOf);
    assert to[..] == seq(new_size, _ => []);
    ghost var rest, moved: map<Key, Link> := t, map[];
    for i := 0 to from.Length
      invariant Chained(from[..], rest, hashOf) && Chained(to[..], moved, hashOf) && Split(t, rest, moved)
      invariant forall j :: 0 <= j < i ==> from[..][j] == []
      modifies from, to
    {
      rest, moved := MoveChain(from, to, i, hashOf, t, rest, moved);
    }
    AllMoved(from[..], t, rest, moved, hashOf);
  }

  ghost predicate InBalance(strategy: Strategy, t: map<Key, Link>, given: multiset<nat>, returned: multiset<nat>) {
    Keyed(strategy, t) && given == returned + HeldIds(t)
  }

  /** One link taken out, and the entry it holds handed back; or nothing is held any more. */
  ghost predicate Drained(was: map<Key, Link>, t: map<Key, Link>, e: Option<Entry>) {
    if e.Some? then exists key {:trigger was[key]} :: key in was && was[key].held == e && t == was - {key}
    else t == was && forall key {:trigger t[key]} :: key in t ==> t[key].held == None
  }

  lemma BalanceDrained(strategy: Strategy, was: map<Key, Link>, t: map<Key, Link>, e: Option<Entry>, given: multiset<nat>, returned: multiset<nat>)
    requires InBalance(strategy, was, given, returned) && Drained(was, t, e)
    ensures InBalance(strategy, t, given, returned + IdOf(e))
    ensures if e.Some? then |t| < |was| else given == returned
  {
    if e.Some? {
      var key :| key in was && was[key].held == e && t == was - {key};
      HeldWithout(was, key);
      KeyedWithout(strategy, was, key);
      Smaller(was, key);
    } else {
      NoneHeld(t);
    }
  }

  lemma SumsGiven(given: multiset<nat>, returned: multiset<nat>, was: multiset<nat>, x: multiset<nat>,
                  now: multiset<nat>, e: multiset<nat>, f: multiset<nat>)
    requires given == returned + was && was + x == now + e + f
    ensures given + x == returned + e + f + now
  {
    assert returned + (was + x) == returned + was + x;
    assert returned + (now + e + f) == returned + e + f + now;
  }

  lemma BalanceGiven(strategy: Strategy, was: map<Key, Link>, x: Entry, hashOf: (int, int) -> nat, r: Outcome,
                     given: multiset<nat>, returned: multiset<nat>)
    requires InBalance(strategy, was, given, returned) && r == Resolve(strategy, was, x, hashOf)
    ensures InBalance(strategy, r.table, given + multiset{x.id}, returned + IdOf(r.e) + IdOf(r.f))
  {
    Conserves(strategy, was, x, hashOf);
    SumsGiven(given, returned, HeldIds(was), multiset{x.id}, HeldIds(r.table), IdOf(r.e), IdOf(r.f));
  }

  ghost predicate PartialTaken(was: map<Key, Link>, t: map<Key, Link>, found: bool, le: Link) {
    if found then LinkKey(le) in was && was[LinkKey(le)] == le && le.held == None && t == was - {LinkKey(le)}
    else t == was && forall key {:trigger t[key]} :: key in t ==> t[key].held.Some?
  }

  ghost predicate PartialOf(was: map<Key, Link>, t: map<Key, Link>, e: Entry, links: nat) {
    KeyOf(e) in was && was[KeyOf(e)].canonical == e && was[KeyOf(e)].links == links && t == was - {KeyOf(e)}
  }

  lemma BalancePartial(strategy: Strategy, was: map<Key, Link>, t: map<Key, Link>, found: bool, le: Link, given: multiset<nat>, returned: multiset<nat>)
    requires InBalance(strategy, was, given, returned) && PartialTaken(was, t, found, le)
    ensures InBalance(strategy, t, given, returned) && (found ==> PartialOf(was, t, le.canonical, le.links))
  {
    if found {
      BalanceWithout(strategy, was, LinkKey(le), given, returned);
    }
  }

  /** What one call does: with an entry it resolves it, without one it drains. */
  ghost predicate Handled(strategy: Strategy, was: map<Key, Link>, x: Option<Entry>, hashOf: (int, int) -> nat, r: Outcome) {
    if x.Some? then r == Resolve(strategy, was, x.value, hashOf) else r.f.None? && Drained(was, r.table, r.e)
  }

  /** Draining comes to an end, and then everything given has been returned. */
  ghost predicate Settled(was: map<Key, Link>, x: Option<Entry>, t: map<Key, Link>, e: Option<Entry>,
                          given: multiset<nat>, returned: multiset<nat>) {
    x.None? ==> if e.Some? then |t| < |was| else given == returned
  }

  lemma Balances(strategy: Strategy, was: map<Key, Link>, x: Option<Entry>, hashOf: (int, int) -> nat, r: Outcome,
                 given: multiset<nat>, returned: multiset<nat>)
    requires InBalance(strategy, was, given, returned) && Handled(strategy, was, x, hashOf, r)
    ensures InBalance(strategy, r.table, given + IdOf(x), returned + IdOf(r.e) + IdOf(r.f))
    ensures Settled(was, x, r.table, r.e, given + IdOf(x), returned + IdOf(r.e) + IdOf(r.f))
  {
    if x.Some? {
      BalanceGiven(strategy, was, x.value, hashOf, r, given, returned);
    } else {
      BalanceDrained(strategy, was, r.table, r.e, given, returned);
      assert given + IdOf(x) == given;
      assert returned + IdOf(r.e) + IdOf(r.f) == returned + IdOf(r.e);
      assert r.e.None? ==> returned + IdOf(r.e) == returned;
    }
  }

  lemma BalanceWithout(strategy: Strategy, t: map<Key, Link>, key: Key, given: multiset<nat>, returned: multiset<nat>)
    requires InBalance(strategy, t, given, returned) && key in t && t[key].held == None
    ensures InBalance(strategy, t - {key}, given, returned)
  {
    HeldWithout(t, key);
    KeyedWithout(strategy, t, key);
  }

  lemma {:induction false} NoneHeld(t: map<Key, Link>)
    requires forall key :: key in t ==> t[key].held == None
    ensures HeldIds(t) == multiset{}
    decreases |t|
  {
    if t != map[] {
      Smaller(t, Pick(t));
      NoneHeld(t - {Pick(t)});
    }
  }

  // ----- the table

  /** The entry that goes when a spare link is released. */
  function SpareIds(spare: Option<Link>): multiset<nat> {
    if spare.Some? then IdOf(spare.value.held) else multiset{}
  }

  ghost predicate Opened(x: int) {
    true
  }

  class Resolver {
    const strategy: Strategy
    const hashOf: (int, int) -> nat
    var buckets: array<seq<Link>>
    var number_entries: nat
    /** The link removed last; it is released with the next lookup. */
    var spare: Option<Link>
    ghost var table: map<Key, Link>
    /** The ids of all entries handed in and handed back so far. */
    ghost var given: multiset<nat>
    ghost var returned: multiset<nat>
    /** The ids of all entries that the resolver itself has released. */
    ghost var released: multiset<nat>

    /** Every entry handed in has been handed back once or is held, never both. */
    ghost predicate Balanced()
      reads `table, `given, `returned
    {
      InBalance(strategy, table, given, returned)
    }

    ghost predicate Valid()
      reads `buckets, `number_entries, `table, buckets
    {
      forall x {:trigger Opened(x)} :: Opened(x) ==>
      && Chained(buckets[..], table, hashOf) && number_entries == |table|
      && forall key {:trigger key in table} :: key in table ==> (table[key].held.Some? <==> strategy == NewCpio)
    }

    /** What is released with the next lookup holds no entry. */
    ghost predicate SpareIdle()
      reads `spare
    {
      SpareIds(spare) == multiset{}
    }

    constructor (strategy: Strategy, hashOf: (int, int) -> nat)
      ensures Valid() && table == map[] && this.strategy == strategy && this.hashOf == hashOf && fresh(buckets) && buckets.Length == 1024
      ensures Balanced() && given == multiset{} && returned == multiset{} && SpareIdle() && released == multiset{}
    {
      this.strategy, this.hashOf := strategy, hashOf;
      given, returned, released := multiset{}, multiset{}, multiset{};
      number_entries, spare, table := 0, None, map[];
      buckets := new seq<Link>[INITIAL_SIZE](_ => []);
      new;
      EmptyChains(INITIAL_SIZE, hashOf);
      assert buckets[..] == seq(INITIAL_SIZE, _ => []);
    }

    /** The spare link is released, and the entry it holds with it. */
    method Release()
      modifies `spare, `released
      ensures spare == None && released == old(released) + SpareIds(old(spare))
    {
      released := released + SpareIds(spare);
      spare := None;
    }

    /** Takes link k out of chain b; it becomes the spare one, with its last count. */
    method Unchain(b: nat, k: nat, last: Link)
      requires Valid() && b < buckets.Length && k < |buckets[b]|
      modifies `number_entries, `spare, `table, buckets
      ensures Valid() && old(LinkKey(buckets[b][k]) in table && table[LinkKey(buckets[b][k])] == buckets[b][k])
      ensures table == old(table - {LinkKey(buckets[b][k])}) && spare == Some(last)
    {
      assert Opened(0);
      ghost var bs := buckets[..];
      RemoveAt(bs, table, hashOf, b, k);
      spare := Some(last);
      table := table - {LinkKey(buckets[b][k])};
      buckets[b] := Without(buckets[b], k);
      assert buckets[..] == bs[b := Without(bs[b], k)];
      number_entries := number_entries - 1;
    }

    /** Changes the count or the entry held of link k in chain b. */
    method Change(b: nat, k: nat, l: Link)
      requires Valid() && b < buckets.Length && k < |buckets[b]| && l.links > 0 && (l.held.Some? <==> strategy == NewCpio)
      requires l.canonical == buckets[b][k].canonical && l.hash == buckets[b][k].hash
      modifies `table, buckets
      ensures Valid() && table == old(table)[LinkKey(l) := l] && LinkKey(l) in old(table)
      ensures buckets[b] == old(buckets[b])[k := l]
    {
      assert Opened(0);
      ghost var bs := buckets[..];
      ReplaceAt(bs, table, hashOf, b, k, l);
      table := table[LinkKey(l) := l];
      buckets[b] := buckets[b][k := l];
      assert buckets[..] == bs[b := bs[b][k := l]];
    }

    /** The position of a key in its chain. */
    method Locate(key: Key) returns (b: nat, k: nat, found: bool)
      requires Valid()
      ensures b < buckets.Length && (found <==> key in table)
      ensures found ==> k < |buckets[b]| && LinkKey(buckets[b][k]) == key && buckets[b][k] == table[key] && table[key].links > 0
      ensures found ==> (table[key].held.Some? <==> strategy == NewCpio)
    {
      assert Opened(0);
      var hash := hashOf(key.0, key.1);
      b := hash % buckets.Length;
      k := 0;
      while k < |buckets[b]|
        invariant k <= |buckets[b]| && forall j :: 0 <= j < k ==> LinkKey(buckets[b][j]) != key
      {
        var le := buckets[b][k];
        FoundAt(buckets[..], table, hashOf, b, k);
        if le.hash == hash && key.0 == le.canonical.dev && key.1 == le.canonical.ino {
          return b, k, true;
        }
        k := k + 1;
      }
      NotFound(buckets[..], table, hashOf, key);
      found := false;
    }

    /** find_entry: a link found is counted down, and taken out when no more are to come. */
    method FindEntry(x: Entry) returns (found: bool, le: Link, b: nat, k: nat)
      requires Valid()
      modifies `number_entries, `spare, `released, `table, buckets
      ensures Valid() && (found <==> KeyOf(x) in old(table))
      ensures spare == (if found && le.links == 0 then Some(le) else None)
      ensures released == old(released) + SpareIds(old(spare))
      ensures !found ==> table == old(table)
      ensures found ==> old(table)[KeyOf(x)].links > 0 && le == Seen(old(table)[KeyOf(x)]) && table == Counted(old(table), le)
      ensures found ==> LinkKey(le) == KeyOf(x) && (le.held.Some? <==> strategy == NewCpio)
      ensures found && le.links > 0 ==> b < buckets.Length && k < |buckets[b]| && buckets[b][k] == le
    {
      Release();
      le := Link(x, None, 0, 0);
      b, k, found := Locate(KeyOf(x));
      if found {
        le := CountDown(b, k);
      }
    }

    method CountDown(b: nat, k: nat) returns (le: Link)
      requires Valid() && b < buckets.Length && k < |buckets[b]|
      requires LinkKey(buckets[b][k]) in table && table[LinkKey(buckets[b][k])] == buckets[b][k] && buckets[b][k].links > 0
      modifies `number_entries, `spare, `table, buckets
      ensures Valid() && le == Seen(old(buckets[b][k])) && table == Counted(old(table), le)
      ensures spare == if le.links == 0 then Some(le) else old(spare)
      ensures le.links > 0 ==> k < |buckets[b]| && buckets[b][k] == le
    {
      assert Opened(0);
      var l := buckets[b][k];
      le := l.(links := l.links - 1);
      if le.links > 0 {
        FoundAt(buckets[..], table, hashOf, b, k);
        Change(b, k, le);
      } else {
        Unchain(b, k, le);
      }
    }

    /** grow_hash: twice as many buckets, the same map. */
    method GrowHash()
      requires Valid()
      modifies `buckets, buckets
      ensures Valid() && fresh(buckets) && buckets.Length == 2 * old(buckets.Length)
    {
      assert Opened(0);
      var new_buckets := Rehash(buckets, 2 * buckets.Length, hashOf, table);
      buckets := new_buckets;
    }

    /** insert_entry: a new link, at the head of its chain. */
    method InsertEntry(x: Entry, held: Option<Entry>)
      requires Valid() && KeyOf(x) !in table && !Passes(x) && (held.Some? <==> strategy == NewCpio)
      modifies `number_entries, `table, `buckets, buckets
      ensures Valid() && table == old(table)[KeyOf(x) := NewLink(x, held, hashOf)] && (buckets == old(buckets) || fresh(buckets))
    {
      assert Opened(0);
      if number_entries > 2 * buckets.Length {
        GrowHash();
      }
      var links := if x.nlink == 0 then 0xFFFF_FFFF else x.nlink - 1;
      Enter(Link(x, held, hashOf(x.dev, x.ino), links));
    }

    method Enter(le: Link)
      requires Valid() && LinkKey(le) !in table && le.links > 0 && (le.held.Some? <==> strategy == NewCpio)
      requires le.hash == hashOf(le.canonical.dev, le.canonical.ino)
      modifies `number_entries, `table, buckets
      ensures Valid() && table == old(table)[LinkKey(le) := le]
    {
      assert Opened(0);
      PutHead(buckets, le, hashOf, table);
      table := table[LinkKey(le) := le];
      number_entries := number_entries + 1;
    }

    /** The first link of the wanted kind. */
    method NextLink(deferred: bool, partial: bool) returns (found: bool, b: nat, k: nat)
      requires Valid()
      ensures found ==> b < buckets.Length && k < |buckets[b]| && if buckets[b][k].held.Some? then deferred else partial
      ensures !found ==> forall key :: key in table ==> !(if table[key].held.Some? then deferred else partial)
    {
      assert Opened(0);
      for bucket := 0 to buckets.Length
        invariant forall b, j {:trigger buckets[b][j]} :: 0 <= b < bucket && 0 <= j < |buckets[b]| ==>
                    !(if buckets[b][j].held.Some? then deferred else partial)
      {
        for j := 0 to |buckets[bucket]|
          invariant forall i :: 0 <= i < j ==> !(if buckets[bucket][i].held.Some? then deferred else partial)
        {
          var le := buckets[bucket][j];
          if le.held.Some? && !deferred {
            continue;
          }
          if le.held.None? && !partial {
            continue;
          }
          return true, bucket, j;
        }
      }
      found, b, k := false, 0, 0;
      forall key | key in table
        ensures !(if table[key].held.Some? then deferred else partial)
      {
        var b := hashOf(key.0, key.1) % buckets.Length;
        assert table[key] in buckets[..][b];
      }
    }

    /** next_entry: takes out a link of the wanted kind, if there is one. */
    method NextEntry(deferred: bool, partial: bool) returns (found: bool, le: Link)
      requires Valid()
      modifies `number_entries, `spare, `released, `table, buckets
      ensures Valid() && spare == (if found then Some(le) else None) && released == old(released) + SpareIds(old(spare))
      ensures found ==> LinkKey(le) in old(table) && old(table)[LinkKey(le)] == le && table == old(table) - {LinkKey(le)}
      ensures found ==> if le.held.Some? then deferred else partial
      ensures !found ==> table == old(table) && forall key :: key in table ==> !(if table[key].held.Some? then deferred else partial)
    {
      Release();
      found, le := TakeNext(deferred, partial);
    }

    method TakeNext(deferred: bool, partial: bool) returns (found: bool, le: Link)
      requires Valid() && spare == None
      modifies `number_entries, `spare, `table, buckets
      ensures Valid() && spare == if found then Some(le) else None
      ensures found ==> LinkKey(le) in old(table) && old(table)[LinkKey(le)] == le && table == old(table) - {LinkKey(le)}
      ensures found ==> if le.held.Some? then deferred else partial
      ensures !found ==> table == old(table) && forall key :: key in table ==> !(if table[key].held.Some? then deferred else partial)
    {
      var b, k;
      found, b, k := NextLink(deferred, partial);
      le := Link(Entry(0, 0, 0, 0, OtherKind, "", None, None), None, 0, 0);
      if found {
        le := buckets[b][k];
        Unchain(b, k, le);
      }
    }

    method EnterFirst(x: Entry) returns (e: Option<Entry>)
      requires Valid() && KeyOf(x) !in table && !Passes(x)
      modifies `number_entries, `table, `buckets, buckets
      ensures Valid() && Outcome(table, e, None) == First(strategy, old(table), x, hashOf) && (buckets == old(buckets) || fresh(buckets))
    {
      assert Opened(0);
      if strategy == NewCpio {
        InsertEntry(x, Some(x));
        e := None;
      } else {
        InsertEntry(x, None);
        e := Some(x);
      }
    }

    /** The new entry takes the place of the one held, which is handed back; the last one is handed back at once. */
    method Swap(x: Entry, le: Link, b: nat, k: nat, ghost was: map<Key, Link>) returns (e: Option<Entry>, f: Option<Entry>)
      requires Valid() && strategy == NewCpio && KeyOf(x) in was && le == Seen(was[KeyOf(x)]) && LinkKey(le) == KeyOf(x)
      requires table == Counted(was, le) && le.held.Some?
      requires le.links > 0 ==> b < buckets.Length && k < |buckets[b]| && buckets[b][k] == le
      requires spare == if le.links == 0 then Some(le) else None
      modifies `spare, `table, buckets
      ensures Valid() && SpareIdle() && Outcome(table, e, f) == Again(strategy, was, x)
    {
      e, f := Some(le.held.value.(size := None, hardlink := Some(le.canonical.path))), None;
      if le.links == 0 {
        f := Some(x);
        spare := Some(le.(held := None));
      } else {
        Change(b, k, le.(held := Some(x)));
        assert table == was[KeyOf(x) := le.(held := Some(x))];
      }
    }

    method LookUp(x: Entry) returns (e: Option<Entry>, f: Option<Entry>)
      requires Valid() && SpareIdle() && !Passes(x) && strategy != OldCpio
      modifies `number_entries, `spare, `released, `table, `buckets, buckets
      ensures Valid() && SpareIdle() && released == old(released)
      ensures Outcome(table, e, f) == Resolve(strategy, old(table), x, hashOf) && (buckets == old(buckets) || fresh(buckets))
    {
      ghost var was := table;
      e, f := Some(x), None;
      var found, le, b, k := FindEntry(x);
      if !found {
        e := EnterFirst(x);
      } else if strategy == Tar {
        e := Some(x.(size := None, hardlink := Some(le.canonical.path)));
      } else if strategy == Mtree {
        e := Some(x.(hardlink := Some(le.canonical.path)));
      } else {
        e, f := Swap(x, le, b, k, was);
      }
    }

    /** archive_entry_linkify, given an entry. */
    method Respond(x: Entry) returns (e: Option<Entry>, f: Option<Entry>)
      requires Valid() && SpareIdle()
      modifies `number_entries, `spare, `released, `table, `buckets, buckets
      ensures Valid() && SpareIdle() && released == old(released)
      ensures Outcome(table, e, f) == Resolve(strategy, old(table), x, hashOf) && (buckets == old(buckets) || fresh(buckets))
    {
      e, f := Some(x), None;
      if x.nlink == 1 {
        return;
      }
      if x.kind == Directory || x.kind == BlockDevice || x.kind == CharDevice {
        return;
      }
      if strategy == OldCpio {
        return;
      }
      e, f := LookUp(x);
    }

    /** archive_entry_linkify, given no entry: one that is still held, if any. */
    method Drain() returns (e: Option<Entry>)
      requires Valid() && SpareIdle()
      modifies `number_entries, `spare, `released, `table, buckets
      ensures Valid() && SpareIdle() && released == old(released) && Drained(old(table), table, e)
    {
      var found, le := NextEntry(true, false);
      e := None;
      if found {
        e := le.held;
        spare := Some(le.(held := None));
        assert old(table)[LinkKey(le)].held == e;
      }
    }

    method Answer(x: Option<Entry>) returns (e: Option<Entry>, f: Option<Entry>)
      requires Valid() && SpareIdle()
      modifies `number_entries, `spare, `released, `table, `buckets, buckets
      ensures Valid() && SpareIdle() && released == old(released)
      ensures Handled(strategy, old(table), x, hashOf, Outcome(table, e, f)) && (buckets == old(buckets) || fresh(buckets))
    {
      if x.None? {
        f := None;
        e := Drain();
      } else {
        e, f := Respond(x.value);
      }
    }

    ghost method Record(more: multiset<nat>, back: multiset<nat>)
      modifies `given, `returned
      ensures given == more && returned == back
    {
      given, returned := more, back;
    }

    /** archive_entry_linkify: what is handed in and what is handed back stay balanced over every run, and when nothing is left to
        drain, every entry has been handed back exactly once. No entry is released. */
    method Linkify(x: Option<Entry>) returns (e: Option<Entry>, f: Option<Entry>)
      requires Valid() && Balanced() && SpareIdle()
      modifies this, buckets
      ensures Valid() && Balanced() && SpareIdle() && released == old(released) && (buckets == old(buckets) || fresh(buckets))
      ensures given == old(given) + IdOf(x) && returned == old(returned) + IdOf(e) + IdOf(f)
      ensures Handled(strategy, old(table), x, hashOf, Outcome(table, e, f))
      ensures Settled(old(table), x, table, e, given, returned)
    {
      ghost var was := table;
      e, f := Answer(x);
      Balances(strategy, was, x, hashOf, Outcome(table, e, f), given, returned);
      Record(given + IdOf(x), returned + IdOf(e) + IdOf(f));
    }

    method TakePartial() returns (found: bool, le: Link)
      requires Valid() && SpareIdle()
      modifies `number_entries, `spare, `released, `table, buckets
      ensures Valid() && SpareIdle() && released == old(released) && PartialTaken(old(table), table, found, le)
    {
      found, le := NextEntry(false, true);
    }

    /** archive_entry_partial_links: a group whose entries were handed back but not all seen; nothing held is lost with it. */
    method PartialLinks() returns (e: Option<Entry>, links: nat)
      requires Valid() && Balanced() && SpareIdle()
      modifies `number_entries, `spare, `released, `table, buckets
      ensures SpareIdle() && released == old(released)
      ensures Valid() && Balanced() && if e == None then links == 0 && table == old(table) && forall key :: key in table ==> table[key].held.Some?
                                       else PartialOf(old(table), table, e.value, links)
    {
      ghost var was := table;
      var found, le := TakePartial();
      BalancePartial(strategy, was, table, found, le, given, returned);
      e, links := None, 0;
      if found {
        e, links := Some(le.canonical), le.links;
      }
    }

    /** archive_entry_linkresolver_free releases the entry that a link holds and lets the next lookup release the link with that
        entry again. So each entry still held is released twice, and the entries held are released once each only if there are
        none. */
    method Free()
      requires Valid() && Balanced() && SpareIdle()
      modifies this, buckets
      ensures table == map[] && spare == None && released == old(released) + HeldIds(old(table)) + HeldIds(old(table))
      ensures released == old(released) + HeldIds(old(table)) <==> forall key :: key in old(table) ==> old(table)[key].held == None
    {
      ghost var r0, t0 := released, table;
      FreeAll(r0, t0);
      OnceOrNone(r0, t0);
    }

    method FreeAll(ghost r0: multiset<nat>, ghost t0: map<Key, Link>)
      requires Valid() && SpareIdle() && r0 == released && t0 == table
      modifies `number_entries, `spare, `released, `table, buckets
      ensures table == map[] && spare == None && released == r0 + HeldIds(t0) + HeldIds(t0)
    {
      var found, le := NextEntry(true, true);
      if found {
        HeldWithout(t0, LinkKey(le));
      }
      while found
        invariant Valid() && buckets == old(buckets) && spare == if found then Some(le) else None
        invariant Twice(r0, t0, released, table, if found then IdOf(le.held) else multiset{})
        invariant !found ==> forall key :: key !in table
        decreases found, |table|
      {
        found, le := FreeOne(le, r0, t0);
      }
      assert table == map[];
    }

    method FreeOne(was: Link, ghost r0: multiset<nat>, ghost t0: map<Key, Link>) returns (found: bool, le: Link)
      requires Valid() && spare == Some(was) && Twice(r0, t0, released, table, IdOf(was.held))
      modifies `number_entries, `spare, `released, `table, buckets
      ensures Valid() && spare == if found then Some(le) else None
      ensures Twice(r0, t0, released, table, if found then IdOf(le.held) else multiset{})
      ensures if found then |table| < |old(table)| else forall key :: key !in table
    {
      ghost var t := table;
      released := released + IdOf(was.held);
      found, le := NextEntry(true, true);
      if found {
        HeldWithout(t, LinkKey(le));
        Smaller(t, LinkKey(le));
      }
    }
  }

  /** What is still to be released twice: the entry in hand, and those in the table. */
  ghost predicate Twice(r0: multiset<nat>, t0: map<Key, Link>, released: multiset<nat>, t: map<Key, Link>, e: multiset<nat>) {
    r0 + HeldIds(t0) + HeldIds(t0) == released + e + e + HeldIds(t) + HeldIds(t)
  }

  lemma HeldCounts(t: map<Key, Link>, key: Key)
    requires key in t
    ensures t[key].held.Some? ==> HeldIds(t)[t[key].held.value.id] > 0
  {
    HeldWithout(t, key);
  }

  lemma OnceOrNone(r0: multiset<nat>, t0: map<Key, Link>)
    ensures r0 + HeldIds(t0) + HeldIds(t0) == r0 + HeldIds(t0) <==> forall key :: key in t0 ==> t0[key].held == None
  {
    var r, h := r0 + HeldIds(t0), HeldIds(t0);
    if r + h == r {
      forall x: nat
        ensures h[x] == 0
      {
        assert (r + h)[x] == r[x];
      }
      forall key | key in t0
        ensures t0[key].held == None
      {
        HeldCounts(t0, key);
      }
    }
    if forall key :: key in t0 ==> t0[key].held == None {
      NoneHeld(t0);
    }
  }
}
