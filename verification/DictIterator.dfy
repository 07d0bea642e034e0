/**
  The iterator of hiredis-vip-master/dict.c: a pass that may delete each node as it is handed
  out, because the pointer to the next one was read before.
  */
module DictIterators {
  import opened Bytes
  import opened Resp
  import opened Chains
  import opened Dicts

  /** The entries from bucket i on, in the order of the iterator. */
  function FlatFrom(t: seq<seq<Entry>>, i: nat): seq<Entry>
    decreases |t| - i
  {
    if i >= |t| then [] else t[i] + FlatFrom(t, i + 1)
  }

  /** Every key of m once, with its value. */
  ghost predicate Lists(out: seq<Entry>, m: map<bytes, int>) {
    && NoDup(out)
    && (forall j | 0 <= j < |out| :: out[j].key in m && m[out[j].key] == out[j].val)
    && (forall k | k in m :: HasKey(out, k))
  }

  lemma {:induction false} FlatMeaning(hash: Hash, t: seq<seq<Entry>>, m: map<bytes, int>, i: nat)
    requires t != [] && Holds(hash, t, m) && i <= |t|
    ensures var f := FlatFrom(t, i);
      && NoDup(f)
      && (forall j | 0 <= j < |f| :: Index(hash, |t|, f[j].key) >= i && f[j].key in m && m[f[j].key] == f[j].val)
      && (forall k | k in m && Index(hash, |t|, k) >= i :: HasKey(f, k))
    decreases |t| - i
  {
    hide Index, BucketOk, NoDup, HasKey;
    if i < |t| {
      FlatMeaning(hash, t, m, i + 1);
      FlatJoin(hash, |t|, m, i, t[i], FlatFrom(t, i + 1));
    } else {
      FlatEmpty(hash, |t|, m, i);
    }
  }

  lemma FlatEmpty(hash: Hash, n: nat, m: map<bytes, int>, i: nat)
    requires i >= n > 0
    ensures NoDup([]) && forall k | k in m :: Index(hash, n, k) < i
  {}

  lemma FlatJoin(hash: Hash, n: nat, m: map<bytes, int>, i: nat, c: seq<Entry>, g: seq<Entry>)
    requires i < n && BucketOk(hash, n, i, c, m) && NoDup(g)
    requires forall j | 0 <= j < |g| :: Index(hash, n, g[j].key) >= i + 1 && g[j].key in m && m[g[j].key] == g[j].val
    requires forall k | k in m && Index(hash, n, k) >= i + 1 :: HasKey(g, k)
    ensures NoDup(c + g)
    ensures forall j | 0 <= j < |c + g| ::
      Index(hash, n, (c + g)[j].key) >= i && (c + g)[j].key in m && m[(c + g)[j].key] == (c + g)[j].val
    ensures forall k | k in m && Index(hash, n, k) >= i :: HasKey(c + g, k)
  {
    hide Index;
    var f := c + g;
    assert forall j | 0 <= j < |f| :: f[j] == if j < |c| then c[j] else g[j - |c|];
    forall k | k in m && Index(hash, n, k) >= i ensures HasKey(f, k) {
      if Index(hash, n, k) == i {
        var j :| 0 <= j < |c| && c[j].key == k;
        assert f[j].key == k;
      } else {
        var j :| 0 <= j < |g| && g[j].key == k;
        assert f[|c| + j].key == k;
      }
    }
  }

  lemma FlatLists(hash: Hash, t: seq<seq<Entry>>, m: map<bytes, int>)
    requires Holds(hash, t, m)
    ensures Lists(FlatFrom(t, 0), m)
  {
    hide FlatFrom, Holds;
    if t == [] { HoldsNothing(hash, t, m); FlatNothing(t); } else { FlatMeaning(hash, t, m, 0); }
  }

  lemma FlatNothing(t: seq<seq<Entry>>)
    requires t == []
    ensures FlatFrom(t, 0) == []
  {}

  lemma FlatNext(t: seq<seq<Entry>>, i: nat)
    ensures FlatFrom(t, i) == if i >= |t| then [] else t[i] + FlatFrom(t, i + 1)
  {}

  /** The buckets the iterator goes through: their number is compared as an int, and too many of them are none. */
  ghost function Shown<T>(t: seq<T>): seq<T> {
    if |t| < INDEXES then t else []
  }

  /**
    What is still to come: the rest of the bucket from pos on, when an entry was handed out, then
    the later buckets.
    */
  ghost function ToCome(t: seq<seq<Entry>>, index: int, started: bool, pos: nat): seq<Entry> {
    (if started && 0 <= index < |t| && pos <= |t[index]| then t[index][pos..] else [])
      + if index < -1 then [] else FlatFrom(t, index + 1)
  }

  /** The saved pointer is that of place pos in the bucket. */
  ghost predicate Positioned(chains: seq<seq<Node>>, index: int, started: bool, next: Node?, pos: nat) {
    -1 <= index && (started ==> 0 <= index < |chains| && pos <= |chains[index]| && next == At(chains[index], pos))
  }

  /** A dictIterator: the bucket, the node last returned, and the one that followed it then. */
  class DictIterator {
    const ht: Dict
    var index: int
    var entry: Node?
    var nextEntry: Node?
    ghost var pos: nat

    ghost function Remaining(): seq<Entry>
      reads this, ht
    {
      ToCome(Shown(ht.buckets), index, entry != null, pos)
    }

    ghost predicate AtBucket()
      reads this, ht
    {
      Positioned(Shown(ht.chains), index, entry != null, nextEntry, pos)
    }

    /** dictGetIterator. */
    constructor (ht: Dict)
      ensures this.ht == ht && AtBucket() && Remaining() == FlatFrom(Shown(ht.buckets), 0)
    {
      this.ht := ht;
      index, entry, nextEntry, pos := -1, null, null, 0;
      new;
      assert [] + FlatFrom(Shown(ht.buckets), 0) == FlatFrom(Shown(ht.buckets), 0);
    }

    /** dictNext. */
    method Next() returns (e: Node?)
      requires ht.Valid() && AtBucket()
      modifies this
      ensures AtBucket() && entry == e
      ensures e != null ==> Behind(this, e)
      ensures if old(Remaining()) == [] then e == null && Remaining() == []
              else e != null && Entry(e.key, e.val) == old(Remaining())[0] && Remaining() == old(Remaining())[1..]
    {
      hide Holds, Rest, IsPow2, AllTied, ToCome, At, Signed, Behind;
      ghost var t := Shown(ht.buckets);
      TiedLengths(ht.table[..], ht.chains, ht.buckets, ht.nodes);
      SignedSize(ht.size);
      while true
        invariant AtBucket() && Remaining() == old(Remaining())
        decreases |t| - index, if entry != null then 1 else 0
      {
        ghost var was := if entry == null then 0 else pos;
        if entry == null {
          ToComeNext(t, index, pos);
          index := index + 1;
          if index >= Signed(ht.size) { break; }
          entry := ht.table[index];
          FirstTied(ht.table[..], ht.chains, ht.buckets, ht.nodes, index);
        } else {
          entry := nextEntry;
        }
        Arrive(was);
        if entry != null { return entry; }
      }
      ToComeEnd(t, index, pos);
      e := null;
    }

    /** The pointer behind the node now reached is read before the node is handed out. */
    method Arrive(ghost was: nat)
      requires ht.Valid() && |ht.chains| == |ht.buckets| == ht.size < INDEXES && 0 <= index < ht.size
      requires was <= |ht.chains[index]| && entry == At(ht.chains[index], was)
      modifies this`nextEntry, this`pos
      ensures AtBucket()
      ensures
        var all := ToCome(ht.buckets, index, true, was);
        if entry == null then Remaining() == all
        else Behind(this, entry) && all != [] && Entry(entry.key, entry.val) == all[0] && Remaining() == all[1..]
    {
      hide Holds, Rest, IsPow2, AllTied, ToCome, At, Tied;
      ghost var t := ht.buckets;
      OneTied(ht.table[..], ht.chains, t, ht.nodes, index);
      AtPlace(ht.table[index], ht.chains[index], t[index], was);
      pos := was + 1;
      if entry != null {
        ToComeHere(t, index, was);
        nextEntry := entry.next;
      } else {
        ToComeNone(t, index, was, pos);
      }
    }
  }

  lemma FirstTied(heads: seq<Node?>, chains: seq<seq<Node>>, t: seq<seq<Entry>>, nodes: set<Node>, i: nat)
    requires AllTied(heads, chains, t, nodes) && i < |heads|
    ensures heads[i] == At(chains[i], 0)
  {
    hide NodeOk;
    OneTied(heads, chains, t, nodes, i);
  }

  /** A power of two that an int cannot hold is seen as a number that is not positive. */
  lemma SignedSize(n: nat)
    requires n == 0 || IsPow2(n)
    ensures if n < INDEXES then Signed(n) == n else Signed(n) <= 0
  {
    hide IsPow2;
    if n >= INDEXES {
      Indexes();
      BigPower(n, INDEXES);
    }
  }

  lemma Indexes()
    ensures IsPow2(INDEXES)
  {
    hide IsPow2;
    SmallPower();
    SixteenTimes(8);
    SixteenTimes(0x80);
    SixteenTimes(0x800);
    SixteenTimes(0x8000);
    SixteenTimes(0x8_0000);
    SixteenTimes(0x80_0000);
    SixteenTimes(0x800_0000);
  }

  lemma SmallPower()
    ensures IsPow2(8)
  {
    assert IsPow2(2);
  }

  lemma Doubles(n: nat)
    requires IsPow2(n)
    ensures IsPow2(2 * n)
  {}

  lemma SixteenTimes(n: nat)
    requires IsPow2(n)
    ensures IsPow2(16 * n)
  {
    hide IsPow2;
    Doubles(n);
    Doubles(2 * n);
    Doubles(4 * n);
    Doubles(8 * n);
  }

  lemma {:induction false} BigPower(n: nat, k: nat)
    requires IsPow2(n) && IsPow2(k) && n >= k
    ensures n % k == 0
    decreases k
  {
    if k > 1 {
      BigPower(n / 2, k / 2);
      HalfMod(n, k / 2);
    }
  }

  /** The iterator stands behind this node. */
  ghost predicate Behind(iter: DictIterator, e: Node)
    reads iter, iter.ht
  {
    var ht, i := iter.ht, iter.index;
    && iter.entry == e && |ht.chains| == |ht.buckets| < INDEXES && 0 <= i < |ht.chains|
    && 0 < iter.pos <= |ht.chains[i]| == |ht.buckets[i]|
    && e == ht.chains[i][iter.pos - 1] && e.key == ht.buckets[i][iter.pos - 1].key
  }

  /** The pointer at place p of a chain. */
  lemma AtPlace(first: Node?, c: seq<Node>, e: seq<Entry>, p: nat)
    requires Tied(first, c, e) && p <= |c|
    ensures |c| == |e| && first == At(c, 0) && (At(c, p) == null <==> p == |c|)
    ensures p < |c| ==> At(c, p) == c[p] && Entry(c[p].key, c[p].val) == e[p] && c[p].next == At(c, p + 1)
  {
    if p < |c| { assert NodeOk(c, e, p); }
  }

  /** Nothing was handed out of the bucket: the next one, from its start. */
  lemma ToComeNext(t: seq<seq<Entry>>, index: int, pos: nat)
    requires -1 <= index
    ensures ToCome(t, index, false, pos) ==
      if index + 1 < |t| then ToCome(t, index + 1, true, 0) else []
  {
    hide FlatFrom;
    FlatNext(t, index + 1);
    if index + 1 < |t| { assert t[index + 1][0..] == t[index + 1]; }
  }

  lemma ToComeHere(t: seq<seq<Entry>>, index: int, p: nat)
    requires 0 <= index < |t| && p < |t[index]|
    ensures var all := ToCome(t, index, true, p);
      all != [] && all[0] == t[index][p] && all[1..] == ToCome(t, index, true, p + 1)
  {
    hide FlatFrom;
    assert t[index][p..] == [t[index][p]] + t[index][p + 1..];
  }

  lemma ToComeNone(t: seq<seq<Entry>>, index: int, p: nat, pos: nat)
    requires 0 <= index < |t| && p == |t[index]|
    ensures ToCome(t, index, true, p) == ToCome(t, index, false, pos)
  {
    hide FlatFrom;
    assert t[index][p..] == [];
  }

  lemma ToComeEnd(t: seq<seq<Entry>>, index: int, pos: nat)
    requires index >= |t|
    ensures ToCome(t, index, false, pos) == []
  {
    FlatNext(t, index + 1);
  }

  /** What is left of m when the entries that drop selects are deleted as they are listed. */
  function Survivors(m: map<bytes, int>, out: seq<Entry>, drop: Entry -> bool): map<bytes, int>
  {
    if out == [] then m
    else
      var n := |out| - 1;
      if drop(out[n]) then Survivors(m, out[..n], drop) - {out[n].key} else Survivors(m, out[..n], drop)
  }

  lemma {:induction false} SurvivorsMeaning(m: map<bytes, int>, out: seq<Entry>, drop: Entry -> bool)
    ensures forall k :: k in Survivors(m, out, drop) <==>
      k in m && forall j | 0 <= j < |out| && out[j].key == k :: !drop(out[j])
    ensures forall k | k in Survivors(m, out, drop) :: Survivors(m, out, drop)[k] == m[k]
    decreases |out|
  {
    if out != [] {
      var n := |out| - 1;
      SurvivorsMeaning(m, out[..n], drop);
      assert forall j | 0 <= j < n :: out[..n][j] == out[j];
    }
  }

  lemma SurvivorsOfAll(m: map<bytes, int>, out: seq<Entry>, drop: Entry -> bool)
    requires Lists(out, m)
    ensures Survivors(m, out, drop) == map k | k in m && !drop(Entry(k, m[k])) :: m[k]
  {
    SurvivorsMeaning(m, out, drop);
    var s := Survivors(m, out, drop);
    forall k | k in m ensures k in s <==> !drop(Entry(k, m[k])) {
      var j :| 0 <= j < |out| && out[j].key == k;
      assert out[j] == Entry(k, m[k]);
      assert forall i | 0 <= i < |out| && out[i].key == k :: i == j;
    }
  }

  /** Without the place before it, a place moves up by one. */
  lemma PlaceMoves(c: seq<Node>, p: nat)
    requires 0 < p <= |c|
    ensures At(Without(c, p - 1), p - 1) == At(c, p)
  {}

  lemma ToComeMoves(t: seq<seq<Entry>>, u: seq<seq<Entry>>, index: nat, p: nat)
    requires index < |t| && 0 < p <= |t[index]| && u == t[index := Without(t[index], p - 1)]
    ensures ToCome(u, index, true, p - 1) == ToCome(t, index, true, p)
  {
    hide FlatFrom;
    FlatSame(t, u, index + 1);
    assert Without(t[index], p - 1)[p - 1..] == t[index][p..];
  }

  lemma OnlyPlace(hash: Hash, t: seq<seq<Entry>>, m: map<bytes, int>, h: nat, i: nat, j: nat)
    requires Holds(hash, t, m) && h < |t| && i < |t[h]| && j < |t[h]| && t[h][i].key == t[h][j].key
    ensures i == j
  {
    BucketNoDup(hash, t, m, h);
  }

  /** Deleting the node just returned leaves what is still to come alone. */
  method Visit(iter: DictIterator, e: Node, drop: Entry -> bool)
    requires iter.ht.Valid() && iter.AtBucket() && Behind(iter, e)
    modifies iter`pos, iter.ht, iter.ht.table, iter.ht.nodes
    ensures iter.ht.Valid() && iter.AtBucket() && iter.ht.table == old(iter.ht.table)
    ensures iter.ht.nodes == old(iter.ht.nodes)
    ensures iter.Remaining() == old(iter.Remaining()) && iter.ht.size == old(iter.ht.size)
    ensures var m := old(iter.ht.contents);
      iter.ht.contents == if drop(old(Entry(e.key, e.val))) then m - {e.key} else m
  {
    hide Holds, Rest, IsPow2, Index, ToCome, AllTied, At, Without;
    if drop(Entry(e.key, e.val)) {
      var ht := iter.ht;
      ghost var t, links, i, p := ht.buckets, ht.chains, iter.index, iter.pos;
      InBucket(ht.hash, t, ht.contents, i, p - 1);
      ghost var m := ht.contents;
      var ok;
      ghost var j;
      ok, j := ht.Delete(e.key);
      OnlyPlace(ht.hash, t, m, i, p - 1, j);
      iter.pos := p - 1;
      PlaceMoves(links[i], p);
      ToComeMoves(t, ht.buckets, i, p);
    }
  }

  /** The pass so far: what was returned, what is left of the map, and what is to come. */
  ghost predicate Passed(all: seq<Entry>, m: map<bytes, int>, drop: Entry -> bool, out: seq<Entry>, e: Option<Entry>,
                         rest: seq<Entry>, now: map<bytes, int>)
  {
    && all == (if e.Some? then out + [e.value] else out) + rest
    && (e.None? ==> rest == [])
    && now == Survivors(m, out, drop)
  }

  /** One turn: the entry is recorded, its node perhaps deleted, and the next one fetched. */
  method PassOne(iter: DictIterator, e: Node, drop: Entry -> bool, ghost all: seq<Entry>, ghost m: map<bytes, int>,
                 ghost out: seq<Entry>)
    returns (next: Node?)
    requires iter.ht.Valid() && iter.AtBucket() && Behind(iter, e)
    requires Passed(all, m, drop, out, Some(Entry(e.key, e.val)), iter.Remaining(), iter.ht.contents)
    modifies iter, iter.ht, iter.ht.table, iter.ht.nodes
    ensures iter.ht.Valid() && iter.AtBucket() && iter.ht.table == old(iter.ht.table)
    ensures iter.ht.nodes == old(iter.ht.nodes)
    ensures iter.ht.size == old(iter.ht.size) && iter.entry == next && (next != null ==> Behind(iter, next))
    ensures Passed(all, m, drop, out + [old(Entry(e.key, e.val))], Seen(next), iter.Remaining(), iter.ht.contents)
  {
    hide Holds, Rest, IsPow2, Index, ToCome, Positioned, AllTied, Passed, Behind;
    ghost var x, rest, now := Entry(e.key, e.val), iter.Remaining(), iter.ht.contents;
    Visit(iter, e, drop);
    next := iter.Next();
    PassNext(all, m, drop, out, x, rest, now, Seen(next), iter.Remaining(), iter.ht.contents);
  }

  lemma PassNext(all: seq<Entry>, m: map<bytes, int>, drop: Entry -> bool, out: seq<Entry>, x: Entry, rest: seq<Entry>,
                 now: map<bytes, int>, e': Option<Entry>, rest': seq<Entry>, now': map<bytes, int>)
    requires Passed(all, m, drop, out, Some(x), rest, now) && now' == if drop(x) then now - {x.key} else now
    requires if rest == [] then e'.None? && rest' == [] else e' == Some(rest[0]) && rest' == rest[1..]
    ensures Passed(all, m, drop, out + [x], e', rest', now')
  {
    hide Survivors;
    SurvivorsNext(m, out, x, drop);
  }

  function Seen(e: Node?): Option<Entry>
    reads e
  {
    if e == null then None else Some(Entry(e.key, e.val))
  }

  /**
    A pass that may delete each node as it is returned still returns every entry exactly once,
    unless the table is too big.
    */
  method Sweep(ht: Dict, drop: Entry -> bool) returns (out: seq<Entry>)
    requires ht.Valid()
    modifies ht, ht.table, ht.nodes
    ensures ht.Valid() && Lists(out, if old(ht.size) < INDEXES then old(ht.contents) else map[])
    ensures ht.contents == map k | k in old(ht.contents)
      && (old(ht.size) < INDEXES ==> !drop(Entry(k, old(ht.contents)[k]))) :: old(ht.contents)[k]
  {
    hide Holds, Rest, IsPow2, Index, Lists, Survivors, FlatFrom, ToCome, Positioned, Passed, AllTied;
    ghost var m, all := ht.contents, FlatFrom(Shown(ht.buckets), 0);
    ShownLists(ht.hash, ht.buckets, m);
    var iter := new DictIterator(ht);
    out := [];
    var e := iter.Next();
    PassStarts(all, m, drop, Seen(e), iter.Remaining());
    while e != null
      invariant fresh(iter) && iter.ht == ht && ht.Valid() && iter.AtBucket() && ht.table == old(ht.table)
      invariant ht.nodes == old(ht.nodes)
      invariant iter.entry == e && (e != null ==> Behind(iter, e)) && ht.size == old(ht.size)
      invariant Passed(all, m, drop, out, Seen(e), iter.Remaining(), ht.contents)
      invariant |out| <= |all|
      decreases |all| - |out| + if e != null then 1 else 0
    {
      PassShorter(all, m, drop, out, Seen(e), iter.Remaining(), ht.contents);
      ghost var before := out;
      out := out + [Entry(e.key, e.val)];
      e := PassOne(iter, e, drop, all, m, before);
    }
    PassEnds(all, m, drop, out, iter.Remaining(), ht.contents);
    SweptAll(m, out, drop, ht.size < INDEXES);
  }

  lemma ShownLists(hash: Hash, t: seq<seq<Entry>>, m: map<bytes, int>)
    requires Holds(hash, t, m)
    ensures Lists(FlatFrom(Shown(t), 0), if |t| < INDEXES then m else map[])
  {
    hide Lists, Holds;
    if |t| < INDEXES { FlatLists(hash, t, m); } else { NothingListed(); }
  }

  lemma NothingListed()
    ensures Lists([], map[])
  {}

  lemma SweptAll(m: map<bytes, int>, out: seq<Entry>, drop: Entry -> bool, fits: bool)
    requires Lists(out, if fits then m else map[])
    ensures Survivors(m, out, drop) == map k | k in m && (fits ==> !drop(Entry(k, m[k]))) :: m[k]
  {
    if fits { SurvivorsOfAll(m, out, drop); } else { SurvivorsMeaning(m, out, drop); }
  }

  lemma PassStarts(all: seq<Entry>, m: map<bytes, int>, drop: Entry -> bool, e: Option<Entry>, rest: seq<Entry>)
    requires if all == [] then e.None? && rest == [] else e == Some(all[0]) && rest == all[1..]
    ensures Passed(all, m, drop, [], e, rest, m)
  {
    hide Survivors;
    SurvivorsNone(m, drop);
  }

  lemma PassShorter(all: seq<Entry>, m: map<bytes, int>, drop: Entry -> bool, out: seq<Entry>, e: Option<Entry>,
                    rest: seq<Entry>, now: map<bytes, int>)
    requires Passed(all, m, drop, out, e, rest, now) && e.Some?
    ensures |out| < |all|
  {}

  lemma PassEnds(all: seq<Entry>, m: map<bytes, int>, drop: Entry -> bool, out: seq<Entry>, rest: seq<Entry>,
                 now: map<bytes, int>)
    requires Passed(all, m, drop, out, None, rest, now)
    ensures out == all && now == Survivors(m, out, drop)
  {}

  lemma SurvivorsNone(m: map<bytes, int>, drop: Entry -> bool)
    ensures Survivors(m, [], drop) == m
  {}

  lemma SurvivorsNext(m: map<bytes, int>, out: seq<Entry>, e: Entry, drop: Entry -> bool)
    ensures Survivors(m, out + [e], drop) ==
      if drop(e) then Survivors(m, out, drop) - {e.key} else Survivors(m, out, drop)
  {
    assert (out + [e])[..|out|] == out;
  }

  lemma {:induction false} FlatSame(t: seq<seq<Entry>>, u: seq<seq<Entry>>, i: nat)
    requires |t| == |u| && forall x | i <= x < |t| :: t[x] == u[x]
    ensures FlatFrom(t, i) == FlatFrom(u, i)
    decreases |t| - i
  {
    if i < |t| { FlatSame(t, u, i + 1); }
  }
}
