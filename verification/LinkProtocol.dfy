/** What the link resolver promises of one call and of whole runs, on a map from (dev, ino) to links. */
module LinkProtocol {
  import opened LinkTable

  // ----- one entry

  datatype Strategy = Tar | Mtree | OldCpio | NewCpio

  /** Links of an entry that are still to come; the count is unsigned, so that an entry without links expects 2^32 - 1. */
  function Unseen(e: Entry): nat {
    if e.nlink == 0 then 0xFFFF_FFFF else e.nlink - 1
  }

  /** Entries that are not looked up at all. */
  predicate Passes(e: Entry) {
    e.nlink == 1 || e.kind != OtherKind
  }

  function AsLink(e: Entry, first: Entry): Entry {
    e.(hardlink := Some(first.path))
  }

  function WithoutSize(e: Entry): Entry {
    e.(size := None)
  }

  datatype Outcome = Outcome(table: map<Key, Link>, e: Option<Entry>, f: Option<Entry>)

  /** A link that has been seen once more stays as long as more are to come. */
  function Counted(t: map<Key, Link>, l: Link): map<Key, Link> {
    if l.links > 0 then t[LinkKey(l) := l] else t - {LinkKey(l)}
  }

  /** The same link, one appearance later. */
  function Seen(l: Link): Link {
    l.(links := if l.links > 0 then l.links - 1 else 0)
  }

  function NewLink(x: Entry, held: Option<Entry>, hashOf: (int, int) -> nat): Link {
    Link(x, held, hashOf(x.dev, x.ino), Unseen(x))
  }

  /** An entry whose key is not known yet. */
  function First(strategy: Strategy, t: map<Key, Link>, x: Entry, hashOf: (int, int) -> nat): Outcome {
    if strategy == NewCpio then Outcome(t[KeyOf(x) := NewLink(x, Some(x), hashOf)], None, None)
    else Outcome(t[KeyOf(x) := NewLink(x, None, hashOf)], Some(x), None)
  }

  /** An entry whose key is known. */
  function Again(strategy: Strategy, t: map<Key, Link>, x: Entry): Outcome
    requires KeyOf(x) in t
  {
    var l := t[KeyOf(x)];
    var seen := Seen(l);
    if strategy == Tar then Outcome(Counted(t, seen), Some(AsLink(WithoutSize(x), l.canonical)), None)
    else if strategy == Mtree then Outcome(Counted(t, seen), Some(AsLink(x, l.canonical)), None)
    else
      var e := if l.held.Some? then Some(AsLink(WithoutSize(l.held.value), l.canonical)) else None;
      if seen.links == 0 then Outcome(Counted(t, seen), e, Some(x))
      else Outcome(Counted(t, seen.(held := Some(x))), e, None)
  }

  /** What archive_entry_linkify does with an entry. */
  function Resolve(strategy: Strategy, t: map<Key, Link>, x: Entry, hashOf: (int, int) -> nat): Outcome {
    if Passes(x) || strategy == OldCpio then Outcome(t, Some(x), None)
    else if KeyOf(x) !in t then First(strategy, t, x, hashOf)
    else Again(strategy, t, x)
  }

  // ----- nothing is lost or handed back twice

  function IdOf(e: Option<Entry>): multiset<nat> {
    if e.Some? then multiset{e.value.id} else multiset{}
  }

  ghost function Pick(t: map<Key, Link>): (key: Key)
    requires t != map[]
    ensures key in t
  {
    var key :| key in t;
    key
  }

  /** The entries held back, by id. */
  ghost function HeldIds(t: map<Key, Link>): multiset<nat>
    decreases |t|
  {
    if t == map[] then multiset{} else IdOf(t[Pick(t)].held) + HeldIds(t - {Pick(t)})
  }

  lemma Smaller(t: map<Key, Link>, key: Key)
    requires key in t
    ensures |t - {key}| < |t|
  {
    assert (t - {key}).Keys == t.Keys - {key};
  }

  lemma TwoOut(t: map<Key, Link>, a: Key, b: Key)
    requires a in t && b in t && a != b
    ensures b in t - {a} && (t - {a})[b] == t[b] && t - {a} - {b} == t - {b} - {a}
  {
  }

  /** Taking out two links in either order. */
  lemma Exchange(t: map<Key, Link>, a: Key, b: Key, s: map<Key, Link>, u: map<Key, Link>, w: map<Key, Link>)
    requires a in t && b in t && HeldIds(t) == IdOf(t[a].held) + HeldIds(s)
    requires HeldIds(s) == IdOf(t[b].held) + HeldIds(w) && HeldIds(u) == IdOf(t[a].held) + HeldIds(w)
    ensures HeldIds(t) == IdOf(t[b].held) + HeldIds(u)
  {
    var x, y, z := IdOf(t[a].held), IdOf(t[b].held), HeldIds(w);
    assert x + (y + z) == y + (x + z);
  }

  lemma {:induction false} HeldWithout(t: map<Key, Link>, key: Key)
    requires key in t
    ensures HeldIds(t) == IdOf(t[key].held) + HeldIds(t - {key})
    decreases |t|
  {
    var first := Pick(t);
    if first != key {
      HeldBoth(t, first, key);
    }
  }

  lemma {:induction false} HeldBoth(t: map<Key, Link>, first: Key, key: Key)
    requires first in t && key in t && first != key && HeldIds(t) == IdOf(t[first].held) + HeldIds(t - {first})
    ensures HeldIds(t) == IdOf(t[key].held) + HeldIds(t - {key})
    decreases |t|, 0
  {
    TwoOut(t, first, key);
    TwoOut(t, key, first);
    Smaller(t, first);
    HeldWithout(t - {first}, key);
    Smaller(t, key);
    HeldWithout(t - {key}, first);
    Exchange(t, first, key, t - {first}, t - {key}, t - {first} - {key});
  }

  lemma HeldSet(t: map<Key, Link>, key: Key, l: Link)
    ensures HeldIds(t[key := l]) == IdOf(l.held) + HeldIds(t - {key})
  {
    HeldWithout(t[key := l], key);
    assert t[key := l] - {key} == t - {key};
  }

  /** Links sit under their keys; a held entry belongs to its link's group; entries are held back in the new cpio way only. */
  ghost predicate Keyed(strategy: Strategy, t: map<Key, Link>) {
    forall key {:trigger t[key]} :: key in t ==> KeyedAt(strategy, t[key], key)
  }

  ghost predicate KeyedAt(strategy: Strategy, l: Link, key: Key) {
    && LinkKey(l) == key && l.links > 0 && !Passes(l.canonical)
    && (l.held.Some? <==> strategy == NewCpio)
    && (l.held.Some? ==> KeyOf(l.held.value) == key && !Passes(l.held.value))
  }

  lemma KeyedSet(strategy: Strategy, t: map<Key, Link>, l: Link)
    requires Keyed(strategy, t) && KeyedAt(strategy, l, LinkKey(l))
    ensures Keyed(strategy, t[LinkKey(l) := l])
  {
  }

  lemma KeyedWithout(strategy: Strategy, t: map<Key, Link>, key: Key)
    requires Keyed(strategy, t)
    ensures Keyed(strategy, t - {key})
  {
    forall other | other in t - {key}
      ensures KeyedAt(strategy, (t - {key})[other], other)
    {
      assert KeyedAt(strategy, t[other], other);
    }
  }

  lemma ConservesFirst(strategy: Strategy, t: map<Key, Link>, x: Entry, hashOf: (int, int) -> nat)
    requires Keyed(strategy, t) && KeyOf(x) !in t && !Passes(x)
    ensures var r := First(strategy, t, x, hashOf);
            Keyed(strategy, r.table) && HeldIds(t) + multiset{x.id} == HeldIds(r.table) + IdOf(r.e) + IdOf(r.f)
  {
    var l := NewLink(x, if strategy == NewCpio then Some(x) else None, hashOf);
    assert t - {KeyOf(x)} == t;
    HeldSet(t, KeyOf(x), l);
    KeyedSet(strategy, t, l);
  }

  lemma KeyedCounted(strategy: Strategy, t: map<Key, Link>, l: Link)
    requires Keyed(strategy, t) && (l.links > 0 ==> KeyedAt(strategy, l, LinkKey(l)))
    ensures Keyed(strategy, Counted(t, l))
    ensures HeldIds(Counted(t, l)) == (if l.links > 0 then IdOf(l.held) else multiset{}) + HeldIds(t - {LinkKey(l)})
  {
    if l.links > 0 {
      KeyedSet(strategy, t, l);
      HeldSet(t, LinkKey(l), l);
    } else {
      KeyedWithout(strategy, t, LinkKey(l));
    }
  }

  /** The entry given comes back; nothing else moves. */
  lemma ConservesPlain(strategy: Strategy, t: map<Key, Link>, x: Entry, e: Entry)
    requires Keyed(strategy, t) && KeyOf(x) in t && strategy != NewCpio && e.id == x.id
    ensures var u := Counted(t, Seen(t[KeyOf(x)]));
            Keyed(strategy, u) && HeldIds(t) + multiset{x.id} == HeldIds(u) + IdOf(Some(e)) + IdOf(None)
  {
    var l := t[KeyOf(x)];
    assert KeyedAt(strategy, l, KeyOf(x));
    HeldWithout(t, KeyOf(x));
    KeyedCounted(strategy, t, Seen(l));
  }

  /** The entry given takes the place of the one held. */
  lemma ConservesTurn(t: map<Key, Link>, x: Entry, h: Link, e: Entry)
    requires Keyed(NewCpio, t) && KeyOf(x) in t && !Passes(x) && h == Seen(t[KeyOf(x)]).(held := Some(x)) && h.links > 0
    requires t[KeyOf(x)].held.Some? && e.id == t[KeyOf(x)].held.value.id
    ensures Keyed(NewCpio, Counted(t, h)) && HeldIds(t) + multiset{x.id} == HeldIds(Counted(t, h)) + IdOf(Some(e)) + IdOf(None)
  {
    assert KeyedAt(NewCpio, t[KeyOf(x)], KeyOf(x));
    HeldWithout(t, KeyOf(x));
    assert KeyedAt(NewCpio, h, LinkKey(h));
    KeyedCounted(NewCpio, t, h);
    SumsSwap(HeldIds(t), IdOf(t[KeyOf(x)].held), HeldIds(t - {KeyOf(x)}), multiset{x.id});
  }

  /** The last entry comes back together with the one held. */
  lemma ConservesLast(t: map<Key, Link>, x: Entry, h: Link, e: Entry)
    requires Keyed(NewCpio, t) && KeyOf(x) in t && h == Seen(t[KeyOf(x)]) && h.links == 0
    requires t[KeyOf(x)].held.Some? && e.id == t[KeyOf(x)].held.value.id
    ensures Keyed(NewCpio, Counted(t, h)) && HeldIds(t) + multiset{x.id} == HeldIds(Counted(t, h)) + IdOf(Some(e)) + IdOf(Some(x))
  {
    assert KeyedAt(NewCpio, t[KeyOf(x)], KeyOf(x));
    HeldWithout(t, KeyOf(x));
    KeyedCounted(NewCpio, t, h);
    SumsSwap(HeldIds(t), IdOf(t[KeyOf(x)].held), HeldIds(t - {KeyOf(x)}), multiset{x.id});
  }

  lemma ConservesHeld(t: map<Key, Link>, x: Entry)
    requires Keyed(NewCpio, t) && KeyOf(x) in t && !Passes(x)
    ensures var r := Again(NewCpio, t, x);
            Keyed(NewCpio, r.table) && HeldIds(t) + multiset{x.id} == HeldIds(r.table) + IdOf(r.e) + IdOf(r.f)
  {
    var l := t[KeyOf(x)];
    assert KeyedAt(NewCpio, l, KeyOf(x));
    if Seen(l).links > 0 {
      ConservesTurn(t, x, Seen(l).(held := Some(x)), AsLink(WithoutSize(l.held.value), l.canonical));
    } else {
      ConservesLast(t, x, Seen(l), AsLink(WithoutSize(l.held.value), l.canonical));
    }
  }

  lemma SumsSwap(all: multiset<nat>, held: multiset<nat>, rest: multiset<nat>, x: multiset<nat>)
    requires all == held + rest
    ensures all + x == x + rest + held + multiset{} && all + x == multiset{} + rest + held + x
  {
  }

  /** Whatever the strategy, an entry given and those held back before are those handed back and those held back after. */
  lemma Conserves(strategy: Strategy, t: map<Key, Link>, x: Entry, hashOf: (int, int) -> nat)
    requires Keyed(strategy, t)
    ensures var r := Resolve(strategy, t, x, hashOf);
            Keyed(strategy, r.table) && HeldIds(t) + multiset{x.id} == HeldIds(r.table) + IdOf(r.e) + IdOf(r.f)
  {
    if !Passes(x) && strategy != OldCpio {
      if KeyOf(x) in t {
        if strategy == NewCpio {
          ConservesHeld(t, x);
        } else {
          ConservesPlain(strategy, t, x, Resolve(strategy, t, x, hashOf).e.value);
        }
      } else {
        ConservesFirst(strategy, t, x, hashOf);
      }
    }
  }

  // ----- whole runs

  function ListOf(e: Option<Entry>): seq<Entry> {
    if e.Some? then [e.value] else []
  }

  datatype Run = Run(table: map<Key, Link>, out: seq<Entry>)

  function After(was: Run, strategy: Strategy, x: Entry, hashOf: (int, int) -> nat): Run {
    var r := Resolve(strategy, was.table, x, hashOf);
    Run(r.table, was.out + ListOf(r.e) + ListOf(r.f))
  }

  /** The entries are given one after another; what is handed back is collected in order. */
  function RunAll(strategy: Strategy, xs: seq<Entry>, hashOf: (int, int) -> nat): Run {
    if xs == [] then Run(map[], [])
    else
      After(RunAll(strategy, xs[..|xs| - 1], hashOf), strategy, xs[|xs| - 1], hashOf)
  }

  /** Directories, devices and entries with one link come back as they are at once, whatever their number of links or the kind;
      all others are entered if they are new, unless nothing is looked up at all. */
  lemma PassedOn(strategy: Strategy, t: map<Key, Link>, x: Entry, hashOf: (int, int) -> nat)
    ensures x.nlink == 1 || x.kind == Directory || x.kind == BlockDevice || x.kind == CharDevice || strategy == OldCpio ==>
              Resolve(strategy, t, x, hashOf) == Outcome(t, Some(x), None)
    ensures x.nlink != 1 && x.kind == OtherKind && strategy != OldCpio && KeyOf(x) !in t ==>
              var r := Resolve(strategy, t, x, hashOf);
              KeyOf(x) in r.table && r.table[KeyOf(x)].canonical == x && (if strategy == NewCpio then r.e == None else r.e == Some(x))
  {
  }

  /** In the old cpio way all entries come back as they were given. */
  lemma {:induction false} OldCpioRuns(xs: seq<Entry>, hashOf: (int, int) -> nat)
    ensures RunAll(OldCpio, xs, hashOf) == Run(map[], xs)
  {
    if xs != [] {
      OldCpioRuns(xs[..|xs| - 1], hashOf);
      assert xs[..|xs| - 1] + [xs[|xs| - 1]] + [] == xs;
    }
  }

  predicate Member(x: Entry, key: Key) {
    !Passes(x) && KeyOf(x) == key
  }

  /** The entries of one group, in order. */
  function Group(xs: seq<Entry>, key: Key): seq<Entry> {
    if xs == [] then [] else Group(xs[..|xs| - 1], key) + (if Member(xs[|xs| - 1], key) then [xs[|xs| - 1]] else [])
  }

  /** Every entry becomes a hard link to the first, without a size. */
  function Hard(g: seq<Entry>, first: Entry): seq<Entry> {
    seq(|g|, i requires 0 <= i < |g| => AsLink(WithoutSize(g[i]), first))
  }

  lemma {:induction false} GroupJoins(a: seq<Entry>, b: seq<Entry>, key: Key)
    ensures Group(a + b, key) == Group(a, key) + Group(b, key)
  {
    if b == [] {
      assert a + b == a;
    } else {
      GroupJoins(a, b[..|b| - 1], key);
      assert (a + b)[..|a + b| - 1] == a + b[..|b| - 1];
    }
  }

  /** Where a group stands in the new cpio way after the entries g: n of them are expected. */
  ghost predicate Stands(r: Run, g: seq<Entry>, key: Key, hashOf: (int, int) -> nat)
    requires |g| > 0 && |g| <= Unseen(g[0]) + 1
  {
    var j, n := |g|, Unseen(g[0]) + 1;
    if j < n then
      && key in r.table && r.table[key] == Link(g[0], Some(g[j - 1]), hashOf(g[0].dev, g[0].ino), n - j)
      && Group(r.out, key) == Hard(g[..j - 1], g[0])
    else
      key !in r.table && Group(r.out, key) == Hard(g[..j - 1], g[0]) + [g[j - 1]]
  }

  lemma GroupOfOne(e: Option<Entry>, key: Key)
    ensures Group(ListOf(e), key) == if e.Some? && Member(e.value, key) then [e.value] else []
  {
  }

  lemma GroupOut(out: seq<Entry>, e: Option<Entry>, f: Option<Entry>, key: Key)
    ensures Group(out + ListOf(e) + ListOf(f), key) == Group(out, key) + Group(ListOf(e), key) + Group(ListOf(f), key)
  {
    GroupJoins(out + ListOf(e), ListOf(f), key);
    GroupJoins(out, ListOf(e), key);
  }

  lemma RunKeyed(strategy: Strategy, xs: seq<Entry>, hashOf: (int, int) -> nat)
    ensures Keyed(strategy, RunAll(strategy, xs, hashOf).table)
  {
    if xs != [] {
      RunKeyed(strategy, xs[..|xs| - 1], hashOf);
      Conserves(strategy, RunAll(strategy, xs[..|xs| - 1], hashOf).table, xs[|xs| - 1], hashOf);
    }
  }

  /** An entry outside the group neither changes the group's link nor brings any of its entries back. */
  lemma OtherStep(strategy: Strategy, t: map<Key, Link>, x: Entry, key: Key, hashOf: (int, int) -> nat)
    requires Keyed(strategy, t) && !Member(x, key)
    ensures var r := Resolve(strategy, t, x, hashOf);
            && (key in r.table <==> key in t) && (key in t ==> r.table[key] == t[key])
            && Group(ListOf(r.e), key) == [] && Group(ListOf(r.f), key) == []
  {
    var r := Resolve(strategy, t, x, hashOf);
    GroupOfOne(r.e, key);
    GroupOfOne(r.f, key);
    if !Passes(x) && strategy != OldCpio && KeyOf(x) in t {
      assert KeyedAt(strategy, t[KeyOf(x)], KeyOf(x));
    }
  }

  lemma HardJoins(g: seq<Entry>, k: nat, first: Entry)
    requires k < |g|
    ensures Hard(g[..k + 1], first) == Hard(g[..k], first) + [AsLink(WithoutSize(g[k]), first)]
  {
  }

  /** The next entry of a group that has begun: what its outcome is. */
  lemma NextOutcome(t: map<Key, Link>, x: Entry, g: seq<Entry>, key: Key, hashOf: (int, int) -> nat)
    requires Keyed(NewCpio, t) && Member(x, key) && 0 < |g| < Unseen(g[0]) + 1
    requires key in t && t[key] == Link(g[0], Some(g[|g| - 1]), hashOf(g[0].dev, g[0].ino), Unseen(g[0]) + 1 - |g|)
    ensures var r := Resolve(NewCpio, t, x, hashOf);
            && r.e == Some(AsLink(WithoutSize(g[|g| - 1]), g[0])) && Member(r.e.value, key)
            && if |g| + 1 < Unseen(g[0]) + 1 then
                 r.f == None && key in r.table && r.table[key] == Link(g[0], Some(x), hashOf(g[0].dev, g[0].ino), Unseen(g[0]) - |g|)
               else r.f == Some(x) && key !in r.table
  {
    assert KeyedAt(NewCpio, t[key], key);
  }

  lemma NextStep(was: Run, x: Entry, g: seq<Entry>, key: Key, hashOf: (int, int) -> nat)
    requires Keyed(NewCpio, was.table) && Member(x, key) && 0 < |g| < Unseen(g[0]) + 1 && Stands(was, g, key, hashOf)
    ensures Stands(After(was, NewCpio, x, hashOf), g + [x], key, hashOf)
  {
    var r := Resolve(NewCpio, was.table, x, hashOf);
    var j, h := |g|, g + [x];
    NextOutcome(was.table, x, g, key, hashOf);
    GroupOut(was.out, r.e, r.f, key);
    GroupOfOne(r.e, key);
    GroupOfOne(r.f, key);
    HardJoins(g, j - 1, g[0]);
    assert h[..j] == g == g[..j - 1 + 1];
    assert h[0] == g[0] && h[j] == x;
  }

  lemma FirstStep(was: Run, x: Entry, key: Key, hashOf: (int, int) -> nat)
    requires Member(x, key) && key !in was.table && Group(was.out, key) == []
    ensures Stands(After(was, NewCpio, x, hashOf), [x], key, hashOf)
  {
    var r := Resolve(NewCpio, was.table, x, hashOf);
    GroupOut(was.out, r.e, r.f, key);
  }

  /** A group not begun has left no trace. */
  ghost predicate Lawful(r: Run, g: seq<Entry>, key: Key, hashOf: (int, int) -> nat) {
    if g == [] then key !in r.table && Group(r.out, key) == []
    else |g| <= Unseen(g[0]) + 1 ==> Stands(r, g, key, hashOf)
  }

  lemma OutsideLaw(was: Run, x: Entry, g: seq<Entry>, key: Key, hashOf: (int, int) -> nat)
    requires Keyed(NewCpio, was.table) && Lawful(was, g, key, hashOf) && !Member(x, key)
    ensures Lawful(After(was, NewCpio, x, hashOf), g, key, hashOf)
  {
    var r := Resolve(NewCpio, was.table, x, hashOf);
    OtherStep(NewCpio, was.table, x, key, hashOf);
    GroupOut(was.out, r.e, r.f, key);
    assert Group(After(was, NewCpio, x, hashOf).out, key) == Group(was.out, key);
  }

  lemma InsideLaw(was: Run, x: Entry, g: seq<Entry>, key: Key, hashOf: (int, int) -> nat)
    requires Keyed(NewCpio, was.table) && Lawful(was, g, key, hashOf) && Member(x, key)
    ensures Lawful(After(was, NewCpio, x, hashOf), g + [x], key, hashOf)
  {
    if g == [] {
      FirstStep(was, x, key, hashOf);
      assert g + [x] == [x];
    } else if |g| < Unseen(g[0]) + 1 {
      NextStep(was, x, g, key, hashOf);
    }
  }

  /** However the groups are mixed, in the new cpio way all entries of a group but the latest have come back as hard links to the
      first, without their sizes; the latest is held until the last one is seen, which comes back as it is. */
  lemma {:induction false} GroupLaw(xs: seq<Entry>, key: Key, hashOf: (int, int) -> nat)
    ensures Lawful(RunAll(NewCpio, xs, hashOf), Group(xs, key), key, hashOf)
  {
    if xs != [] {
      var ys, x := xs[..|xs| - 1], xs[|xs| - 1];
      GroupLaw(ys, key, hashOf);
      RunKeyed(NewCpio, ys, hashOf);
      GroupStep(RunAll(NewCpio, ys, hashOf), x, Group(ys, key), key, hashOf);
    }
  }

  lemma GroupStep(was: Run, x: Entry, g: seq<Entry>, key: Key, hashOf: (int, int) -> nat)
    requires Keyed(NewCpio, was.table) && Lawful(was, g, key, hashOf)
    ensures Lawful(After(was, NewCpio, x, hashOf), g + (if Member(x, key) then [x] else []), key, hashOf)
  {
    if Member(x, key) {
      InsideLaw(was, x, g, key, hashOf);
    } else {
      OutsideLaw(was, x, g, key, hashOf);
      assert g + [] == g;
    }
  }

  /** A fully seen group: only the last entry keeps its size, all others name the first one. */
  lemma FullGroup(xs: seq<Entry>, key: Key, hashOf: (int, int) -> nat)
    requires var g := Group(xs, key); g != [] && |g| == Unseen(g[0]) + 1
    ensures var r, g := RunAll(NewCpio, xs, hashOf), Group(xs, key);
            key !in r.table && Group(r.out, key) == Hard(g[..|g| - 1], g[0]) + [g[|g| - 1]]
  {
    GroupLaw(xs, key, hashOf);
  }

  // ----- the tar and mtree ways

  function LaterOne(strategy: Strategy, x: Entry, first: Entry): Entry {
    if strategy == Tar then AsLink(WithoutSize(x), first) else AsLink(x, first)
  }

  /** The first of a group comes back as it is, all others as links to it. */
  function Followed(strategy: Strategy, g: seq<Entry>): seq<Entry> {
    seq(|g|, i requires 0 <= i < |g| => if i == 0 then g[0] else LaterOne(strategy, g[i], g[0]))
  }

  ghost predicate FollowLawful(strategy: Strategy, r: Run, g: seq<Entry>, key: Key, hashOf: (int, int) -> nat) {
    if g == [] then key !in r.table && Group(r.out, key) == []
    else |g| <= Unseen(g[0]) + 1 ==>
      && Group(r.out, key) == Followed(strategy, g)
      && if |g| <= Unseen(g[0]) then
           key in r.table && r.table[key] == Link(g[0], None, hashOf(g[0].dev, g[0].ino), Unseen(g[0]) + 1 - |g|)
         else key !in r.table
  }

  lemma OneOut(out: seq<Entry>, x: Entry, key: Key)
    requires Member(x, key) && Group(out, key) == []
    ensures Group(out + ListOf(Some(x)) + ListOf(None), key) == [x]
  {
    GroupOut(out, Some(x), None, key);
    GroupOfOne(Some(x), key);
    GroupOfOne(None, key);
  }

  lemma FollowFirst(strategy: Strategy, was: Run, x: Entry, key: Key, hashOf: (int, int) -> nat)
    requires (strategy == Tar || strategy == Mtree) && Member(x, key) && key !in was.table && Group(was.out, key) == []
    ensures FollowLawful(strategy, After(was, strategy, x, hashOf), [x], key, hashOf)
  {
    var r := After(was, strategy, x, hashOf);
    OneOut(was.out, x, key);
    assert r == Run(was.table[key := NewLink(x, None, hashOf)], was.out + ListOf(Some(x)) + ListOf(None));
    assert Followed(strategy, [x]) == [x];
  }

  lemma FollowOutcome(strategy: Strategy, t: map<Key, Link>, x: Entry, g: seq<Entry>, key: Key, hashOf: (int, int) -> nat)
    requires (strategy == Tar || strategy == Mtree) && Keyed(strategy, t) && Member(x, key) && 0 < |g| < Unseen(g[0]) + 1
    requires key in t && t[key] == Link(g[0], None, hashOf(g[0].dev, g[0].ino), Unseen(g[0]) + 1 - |g|)
    ensures var r := Resolve(strategy, t, x, hashOf);
            && r.e == Some(LaterOne(strategy, x, g[0])) && Member(r.e.value, key) && r.f == None
            && if |g| + 1 <= Unseen(g[0]) then
                 key in r.table && r.table[key] == Link(g[0], None, hashOf(g[0].dev, g[0].ino), Unseen(g[0]) - |g|)
               else key !in r.table
  {
    assert KeyedAt(strategy, t[key], key);
  }

  lemma FollowStep(strategy: Strategy, was: Run, x: Entry, g: seq<Entry>, key: Key, hashOf: (int, int) -> nat)
    requires strategy == Tar || strategy == Mtree
    requires Keyed(strategy, was.table) && FollowLawful(strategy, was, g, key, hashOf) && Member(x, key) && 0 < |g| < Unseen(g[0]) + 1
    ensures FollowLawful(strategy, After(was, strategy, x, hashOf), g + [x], key, hashOf)
  {
    var r := Resolve(strategy, was.table, x, hashOf);
    FollowOutcome(strategy, was.table, x, g, key, hashOf);
    GroupOut(was.out, r.e, r.f, key);
    GroupOfOne(r.e, key);
    GroupOfOne(r.f, key);
    assert Followed(strategy, g + [x]) == Followed(strategy, g) + [LaterOne(strategy, x, g[0])];
  }

  lemma FollowOutside(strategy: Strategy, was: Run, x: Entry, g: seq<Entry>, key: Key, hashOf: (int, int) -> nat)
    requires Keyed(strategy, was.table) && FollowLawful(strategy, was, g, key, hashOf) && !Member(x, key)
    ensures FollowLawful(strategy, After(was, strategy, x, hashOf), g, key, hashOf)
  {
    var r := Resolve(strategy, was.table, x, hashOf);
    OtherStep(strategy, was.table, x, key, hashOf);
    GroupOut(was.out, r.e, r.f, key);
    assert Group(After(was, strategy, x, hashOf).out, key) == Group(was.out, key);
  }

  /** However the groups are mixed, in the tar and mtree ways the first of a group comes back as it is and all others as links to it. */
  lemma {:induction false} FollowLaw(strategy: Strategy, xs: seq<Entry>, key: Key, hashOf: (int, int) -> nat)
    requires strategy == Tar || strategy == Mtree
    ensures FollowLawful(strategy, RunAll(strategy, xs, hashOf), Group(xs, key), key, hashOf)
  {
    if xs != [] {
      var ys, x := xs[..|xs| - 1], xs[|xs| - 1];
      FollowLaw(strategy, ys, key, hashOf);
      RunKeyed(strategy, ys, hashOf);
      FollowOn(strategy, RunAll(strategy, ys, hashOf), x, Group(ys, key), key, hashOf);
    }
  }

  lemma FollowOn(strategy: Strategy, was: Run, x: Entry, g: seq<Entry>, key: Key, hashOf: (int, int) -> nat)
    requires (strategy == Tar || strategy == Mtree) && Keyed(strategy, was.table) && FollowLawful(strategy, was, g, key, hashOf)
    ensures FollowLawful(strategy, After(was, strategy, x, hashOf), g + (if Member(x, key) then [x] else []), key, hashOf)
  {
    if !Member(x, key) {
      FollowOutside(strategy, was, x, g, key, hashOf);
      assert g + [] == g;
    } else if g == [] {
      FollowFirst(strategy, was, x, key, hashOf);
      assert g + [x] == [x];
    } else if |g| < Unseen(g[0]) + 1 {
      FollowStep(strategy, was, x, g, key, hashOf);
    }
  }
}
