/**
  The resizing hash table of hiredis-vip-master/dict.c: whatever is added, replaced and
  deleted, through any number of resizes, its chains of nodes on the heap are the finite map
  `contents`.
  */
module Dicts {
  import opened Bytes
  import opened Resp
  import opened Chains

  const DICT_HT_INITIAL_SIZE := 4
  const LONG_MAX := 0x7FFF_FFFF_FFFF_FFFF

  /** A bucket number is returned as an int: no more buckets than this. */
  const INDEXES := 0x8000_0000

  /** An unsigned number stored in an int. */
  function Signed(n: nat): (i: int)
    ensures n < INDEXES ==> i == n
    ensures INDEXES <= n < 0x1_0000_0000 ==> i < 0
  {
    var low := n % 0x1_0000_0000;
    if low < INDEXES then low else low - 0x1_0000_0000
  }

  /** _dictNextPower. */
  method NextPower(size: nat) returns (i: nat)
    ensures size >= LONG_MAX ==> i == LONG_MAX
    ensures size < LONG_MAX ==>
      IsPow2(i) && size <= i && DICT_HT_INITIAL_SIZE <= i && (i == DICT_HT_INITIAL_SIZE || i < 2 * size)
  {
    if size >= LONG_MAX { return LONG_MAX; }
    i := DICT_HT_INITIAL_SIZE;
    assert IsPow2(2) && IsPow2(4);
    hide IsPow2;
    while i < size
      invariant i >= 4 && IsPow2(i) && (i == DICT_HT_INITIAL_SIZE || i < 2 * size)
      decreases size - i
    {
      Doubled(i);
      i := i * 2;
    }
  }

  lemma Doubled(i: nat)
    requires i > 0 && IsPow2(i)
    ensures IsPow2(i * 2)
  {
    assert i * 2 % 2 == 0 && i * 2 / 2 == i;
  }

  /** A dictEntry. */
  class Node {
    const key: bytes
    var val: int
    var next: Node?

    constructor (key: bytes, val: int, next: Node?)
      ensures this.key == key && this.val == val && this.next == next
    {
      this.key, this.val, this.next := key, val, next;
    }
  }

  function At(c: seq<Node>, j: int): Node? {
    if 0 <= j < |c| then c[j] else null
  }

  /** The j-th node of a chain holds the j-th entry and points to the node behind it. */
  ghost predicate NodeOk(c: seq<Node>, e: seq<Entry>, j: nat)
    requires j < |c| == |e|
    reads c
  {
    c[j].key == e[j].key && c[j].val == e[j].val && c[j].next == At(c, j + 1)
  }

  /** From first on the nodes c are linked, and hold the entries e. */
  ghost predicate Tied(first: Node?, c: seq<Node>, e: seq<Entry>)
    reads c
  {
    |c| == |e| && first == At(c, 0) && forall j | 0 <= j < |c| :: NodeOk(c, e, j)
  }

  /** All chains of a table, of nodes from the given set. */
  ghost predicate AllTied(heads: seq<Node?>, chains: seq<seq<Node>>, t: seq<seq<Entry>>, nodes: set<Node>)
    reads nodes
  {
    && |heads| == |chains| == |t|
    && (forall i, x | 0 <= i < |chains| && x in chains[i] :: x in nodes)
    && forall i | 0 <= i < |heads| :: Tied(heads[i], chains[i], t[i])
  }

  lemma OneTied(heads: seq<Node?>, chains: seq<seq<Node>>, t: seq<seq<Entry>>, nodes: set<Node>, i: nat)
    requires AllTied(heads, chains, t, nodes) && i < |heads|
    ensures Tied(heads[i], chains[i], t[i]) && |chains[i]| == |t[i]| && forall x | x in chains[i] :: x in nodes
  {
    hide NodeOk;
  }

  lemma EachTied(heads: seq<Node?>, chains: seq<seq<Node>>, t: seq<seq<Entry>>, nodes: set<Node>)
    requires AllTied(heads, chains, t, nodes)
    ensures |heads| == |chains| == |t|
    ensures forall i, x | 0 <= i < |chains| && x in chains[i] :: x in nodes
    ensures forall i | 0 <= i < |heads| :: Tied(heads[i], chains[i], t[i])
  {
    hide Tied;
  }

  lemma TiedLengths(heads: seq<Node?>, chains: seq<seq<Node>>, t: seq<seq<Entry>>, nodes: set<Node>)
    requires AllTied(heads, chains, t, nodes)
    ensures |heads| == |chains| == |t|
  {
    hide Tied;
  }

  /** Nodes of a chain have the keys of its entries. */
  lemma TiedKeys(first: Node?, c: seq<Node>, e: seq<Entry>, x: Node)
    requires Tied(first, c, e) && x in c
    ensures HasKey(e, x.key)
  {
    var j :| 0 <= j < |c| && c[j] == x;
    assert NodeOk(c, e, j);
    assert e[j].key == x.key;
  }

  /** A node stands in the bucket of its key. */
  lemma NodeIndex(hash: Hash, first: Node?, c: seq<Node>, t: seq<seq<Entry>>, m: map<bytes, int>, i: nat, x: Node)
    requires i < |t| && Tied(first, c, t[i]) && Holds(hash, t, m)
    ensures x in c ==> Index(hash, |t|, x.key) == i && x.key in m
  {
    hide Tied, Index;
    if x in c {
      TiedKeys(first, c, t[i], x);
      HasIndex(hash, t, m, i, x.key);
    }
  }

  lemma HasIndex(hash: Hash, t: seq<seq<Entry>>, m: map<bytes, int>, i: nat, k: bytes)
    requires i < |t| && Holds(hash, t, m) && HasKey(t[i], k)
    ensures Index(hash, |t|, k) == i && k in m
  {
    hide Index, BucketOk;
    var j :| 0 <= j < |t[i]| && t[i][j].key == k;
    InBucket(hash, t, m, i, j);
  }

  /** The walk along a chain that finding and adding share. */
  method Search(first: Node?, k: bytes, ghost c: seq<Node>, ghost e: seq<Entry>) returns (he: Node?, ghost j: nat)
    requires Tied(first, c, e)
    ensures if he == null then !HasKey(e, k) else j < |c| == |e| && he == c[j] && e[j].key == k && NodeOk(c, e, j)
  {
    he, j := first, 0;
    while he != null
      invariant j <= |c| && he == At(c, j) && forall x | 0 <= x < j :: e[x].key != k
      decreases |c| - j
    {
      assert NodeOk(c, e, j);
      if he.key == k { return; }
      he, j := he.next, j + 1;
    }
  }

  /** A chain without its j-th element. */
  function Without<T>(c: seq<T>, j: nat): (d: seq<T>)
    requires j < |c|
    ensures |d| == |c| - 1
  {
    c[..j] + c[j + 1..]
  }

  /** The loop of dictDelete on one chain. */
  method Unlink(table: array<Node?>, h: nat, k: bytes, ghost c: seq<Node>, ghost e: seq<Entry>)
    returns (ok: bool, ghost j: nat)
    requires h < table.Length && Tied(table[h], c, e) && NoDup(e)
    modifies table, c
    ensures ok <==> HasKey(e, k)
    ensures forall i | 0 <= i < table.Length && i != h :: table[i] == old(table[i])
    ensures if ok then j < |c| == |e| && e[j].key == k && Tied(table[h], Without(c, j), Without(e, j))
            else Tied(table[h], c, e)
  {
    ok, j := false, 0;
    var de, prevde: Node? := table[h], null;
    while de != null
      invariant j <= |c| && de == At(c, j) && prevde == At(c, j - 1) && forall x | 0 <= x < j :: e[x].key != k
      decreases |c| - j
    {
      assert NodeOk(c, e, j);
      if de.key == k {
        DistinctNodes(table[h], c, e);
        assert j > 0 ==> NodeOk(c, e, j - 1);
        assert forall x | 0 <= x < |c| :: NodeOk(c, e, x);
        if prevde != null {
          prevde.next := de.next;
        } else {
          table[h] := de.next;
        }
        forall x | 0 <= x < |c| && x != j - 1 ensures NodeOk(c, e, x) {
          assert old(NodeOk(c, e, x));
        }
        StillTied(table[h], c, e, j);
        return true, j;
      }
      prevde, de, j := de, de.next, j + 1;
    }
  }

  lemma DistinctNodes(first: Node?, c: seq<Node>, e: seq<Entry>)
    requires Tied(first, c, e) && NoDup(e)
    ensures forall x, y | 0 <= x < y < |c| :: c[x] != c[y]
  {
    forall x, y | 0 <= x < y < |c| ensures c[x] != c[y] {
      assert NodeOk(c, e, x) && NodeOk(c, e, y) && e[x].key != e[y].key;
    }
  }

  /** The chain once the pointer to its j-th node is turned to the node behind. */
  lemma StillTied(first: Node?, c: seq<Node>, e: seq<Entry>, j: nat)
    requires j < |c| == |e| && first == (if j == 0 then At(c, 1) else At(c, 0))
    requires forall x | 0 <= x < |c| && x != j - 1 :: NodeOk(c, e, x)
    requires j > 0 ==> c[j - 1].key == e[j - 1].key && c[j - 1].val == e[j - 1].val && c[j - 1].next == At(c, j + 1)
    ensures Tied(first, Without(c, j), Without(e, j))
  {
    var d, f := Without(c, j), Without(e, j);
    forall x | 0 <= x < |d| ensures NodeOk(d, f, x) {
      assert NodeOk(c, e, if x < j - 1 then x else if x == j - 1 then j else x + 1);
    }
  }

  class Dict {
    const hash: Hash
    var table: array<Node?>
    var size: nat
    var used: nat
    ghost var contents: map<bytes, int>
    ghost var chains: seq<seq<Node>>
    ghost var buckets: seq<seq<Entry>>
    ghost var nodes: set<Node>

    ghost predicate Valid()
      reads this, table, nodes
    {
      && table.Length == size == |buckets| && (size == 0 || IsPow2(size)) && used <= size
      && used == Rest(buckets, 0) == |contents|
      && Holds(hash, buckets, contents)
      && AllTied(table[..], chains, buckets, nodes)
    }

    /** dictCreate. */
    constructor (hash: Hash)
      ensures Valid() && contents == map[] && fresh(table) && nodes == {} && this.hash == hash
    {
      this.hash := hash;
      table, size, used, contents := new Node?[0], 0, 0, map[];
      chains, buckets, nodes := [], [], {};
    }

    /** One turn of the inner loop of dictExpand: a node moves to the head of its new chain. */
    method Move(next: array<Node?>, he: Node, ghost e: Entry, ghost chains: seq<seq<Node>>, ghost t: seq<seq<Entry>>,
                ghost m: map<bytes, int>, ghost nodes: set<Node>)
      returns (ghost chains': seq<seq<Node>>, ghost t': seq<seq<Entry>>)
      requires next.Length > 0 && AllTied(next[..], chains, t, nodes) && Holds(hash, t, m)
      requires he.key == e.key && he.val == e.val && he.key !in m && he in nodes
      modifies next, he`next
      ensures AllTied(next[..], chains', t', nodes) && Holds(hash, t', m[e.key := e.val])
      ensures Rest(t', 0) == Rest(t, 0) + 1
    {
      hide Holds, Rest, Tied, Index;
      ghost var heads := next[..];
      TiedLengths(heads, chains, t, nodes);
      var h := Index(hash, next.Length, he.key);
      forall i | 0 <= i < |t| ensures he !in chains[i] {
        OneTied(heads, chains, t, nodes, i);
        NodeIndex(hash, heads[i], chains[i], t, m, i, he);
      }
      HoldsAdd(hash, t, m, e.key, e.val);
      RestUpdate(t, h, [e] + t[h], 0);
      OneTied(heads, chains, t, nodes, h);
      he.next := next[h];
      next[h] := he;
      chains', t' := chains[h := [he] + chains[h]], t[h := [e] + t[h]];
      forall i | 0 <= i < |t| ensures Tied(next[i], chains'[i], t'[i]) {
        assert old(Tied(heads[i], chains[i], t[i]));
        if i == h { TiedCons(he, heads[h], chains[h], e, t[h]); }
      }
    }

    /** The inner loop of dictExpand: the chain is relinked, node by node, at the heads of the new chains. */
    method Relink(next: array<Node?>, first: Node?, ghost c: seq<Node>, ghost e: seq<Entry>,
                  ghost chains: seq<seq<Node>>, ghost t: seq<seq<Entry>>, ghost m: map<bytes, int>,
                  ghost nodes: set<Node>)
      returns (n: nat, ghost chains': seq<seq<Node>>, ghost t': seq<seq<Entry>>)
      requires next.Length > 0 && AllTied(next[..], chains, t, nodes) && Holds(hash, t, m)
      requires Tied(first, c, e) && NoDup(e) && (forall j | 0 <= j < |e| :: e[j].key !in m)
      requires forall x | x in c :: x in nodes
      modifies next, c
      ensures n == |e| && AllTied(next[..], chains', t', nodes)
      ensures Holds(hash, t', Added(m, e)) && Rest(t', 0) == Rest(t, 0) + n
    {
      hide Holds, AllTied, NoDup;
      DistinctNodes(first, c, e);
      assert e[..0] == [];
      var he := first;
      n, chains', t' := 0, chains, t;
      while he != null
        invariant n <= |c| == |e| && he == At(c, n) && forall x | n <= x < |c| :: NodeOk(c, e, x)
        invariant AllTied(next[..], chains', t', nodes)
        invariant Holds(hash, t', Added(m, e[..n])) && Rest(t', 0) == Rest(t, 0) + n
        decreases |c| - n
      {
        assert NodeOk(c, e, n);
        var nextHe := he.next;
        assert e[..n + 1][..n] == e[..n];
        NotYet(m, e, n);
        label Before:
        chains', t' := Move(next, he, e[n], chains', t', Added(m, e[..n]), nodes);
        forall x | n < x < |c| ensures NodeOk(c, e, x) {
          assert old@Before(NodeOk(c, e, x)) && c[x] != c[n];
        }
        he, n := nextHe, n + 1;
      }
      assert e[..|e|] == e;
    }

    /** One bucket; those behind it stay as they are. */
    method RelinkBucket(next: array<Node?>, i: nat, ghost moved: seq<seq<Node>>, ghost held: seq<seq<Entry>>,
                        ghost m: map<bytes, int>)
      returns (n: nat, ghost chains': seq<seq<Node>>, ghost t': seq<seq<Entry>>)
      requires i < size == table.Length == |chains| == |buckets| && Holds(hash, buckets, contents) && next != table
      requires forall x | i <= x < size :: Tied(table[x], chains[x], buckets[x])
      requires forall x | x in chains[i] :: x in nodes
      requires next.Length > 0 && AllTied(next[..], moved, held, nodes) && Holds(hash, held, m)
      requires NoDup(buckets[i]) && forall j | 0 <= j < |buckets[i]| :: buckets[i][j].key !in m
      modifies next, chains[i]
      ensures n == |buckets[i]| && AllTied(next[..], chains', t', nodes)
      ensures Holds(hash, t', Added(m, buckets[i])) && Rest(t', 0) == Rest(held, 0) + n
      ensures forall x | i < x < size :: Tied(table[x], chains[x], buckets[x])
    {
      hide Holds, Rest, NoDup, AllTied;
      Later(hash, table[..], chains, buckets, contents, i);
      n, chains', t' := Relink(next, table[i], chains[i], buckets[i], moved, held, m, nodes);
      forall x | i < x < size ensures Tied(table[x], chains[x], buckets[x]) {
        assert old(Tied(table[x], chains[x], buckets[x]));
        forall j | 0 <= j < |chains[x]| ensures NodeOk(chains[x], buckets[x], j) {
          assert chains[x][j] !in chains[i] && old(NodeOk(chains[x], buckets[x], j));
        }
      }
    }

    /** The outer loop of dictExpand, which stops when no entry is left. */
    method Rehash(realsize: nat) returns (next: array<Node?>, ghost chains': seq<seq<Node>>, ghost t': seq<seq<Entry>>)
      requires Valid() && realsize > 0
      modifies nodes
      ensures fresh(next) && next.Length == realsize
      ensures AllTied(next[..], chains', t', nodes) && Holds(hash, t', contents) && Rest(t', 0) == used
    {
      hide Holds, Rest, IsPow2, Tied, AllTied, Below, Added, NoDup;
      EachTied(table[..], chains, buckets, nodes);
      next := new Node?[realsize](_ => null);
      chains', t' := seq(realsize, _ => []), seq(realsize, _ => []);
      EmptyTable(hash, t');
      EmptyTied(next[..], chains', t', nodes);
      var left, i := used, 0;
      ghost var m := map[];
      BelowNone(hash, buckets, contents);
      while i < size && left > 0
        invariant i <= size && fresh(next) && forall x | i <= x < size :: Tied(table[x], chains[x], buckets[x])
        invariant m == if size == 0 then map[] else Below(hash, size, contents, i)
        invariant AllTied(next[..], chains', t', nodes) && Holds(hash, t', m)
        invariant left == Rest(buckets, i) && Rest(t', 0) + left == used
      {
        BelowNext(hash, buckets, contents, i);
        RestNext(buckets, i);
        var n;
        n, chains', t' := RelinkBucket(next, i, chains', t', m);
        left := left - n;
        m := Added(m, buckets[i]);
        i := i + 1;
      }
      if i == size { RestDone(buckets, i); }
      if size > 0 { BelowAll(hash, buckets, contents, i); } else { HoldsNothing(hash, buckets, contents); }
    }

    /** dictExpand; false is DICT_ERR. */
    method Expand(size: nat) returns (ok: bool)
      requires Valid() && size < LONG_MAX
      modifies this, nodes
      ensures Valid() && contents == old(contents) && used == old(used) && nodes == old(nodes)
      ensures ok == (used <= size)
      ensures ok ==> fresh(table) && size <= this.size && DICT_HT_INITIAL_SIZE <= this.size
      ensures ok ==> (this.size == DICT_HT_INITIAL_SIZE || this.size < 2 * size)
      ensures !ok ==> table == old(table) && this.size == old(this.size)
    {
      hide Holds, Rest, IsPow2, Tied;
      var realsize := NextPower(size);
      if used > size { return false; }
      var next;
      ghost var chains', t';
      next, chains', t' := Rehash(realsize);
      TiedLengths(next[..], chains', t', nodes);
      table, this.size, chains, buckets := next, realsize, chains', t';
      ok := true;
    }

    /** The table has no more buckets than an int can number, nor will it after the next doubling. */
    predicate Indexable()
      reads this
    {
      (if used == size then 2 * size else size) <= INDEXES
    }

    /** The number of buckets with room for one more entry: a full table doubles. */
    static function Grown(size: nat, used: nat): nat {
      if used < size then size else if size < 2 then DICT_HT_INITIAL_SIZE else 2 * size
    }

    /** _dictExpandIfNeeded: afterwards there is a bucket to spare. */
    method ExpandIfNeeded()
      requires Valid() && Indexable()
      modifies this, nodes
      ensures Valid() && contents == old(contents) && nodes == old(nodes) && used == old(used) < size <= INDEXES
      ensures size == Grown(old(size), old(used))
      ensures table == old(table) || fresh(table)
    {
      hide Holds, Rest, IsPow2, AllTied;
      if size == 0 {
        EmptyUse(hash, buckets, contents);
        var _ := Expand(DICT_HT_INITIAL_SIZE);
        Initial(size);
      } else if used == size {
        ExpandTwice();
      }
    }

    /** A full table doubles. */
    method ExpandTwice()
      requires Valid() && Indexable() && used == size > 0
      modifies this, nodes
      ensures Valid() && contents == old(contents) && nodes == old(nodes) && used == old(used) < size <= INDEXES
      ensures fresh(table) && size == Grown(old(size), old(used))
    {
      hide Holds, Rest, AllTied, IsPow2;
      ghost var was := size;
      var _ := Expand(size * 2);
      if size > DICT_HT_INITIAL_SIZE { Between(size, was); }
    }

    /** _dictKeyIndex: the bucket for a new key, -1 when it is there already. */
    method KeyIndex(key: bytes) returns (index: int)
      requires Valid() && Indexable()
      modifies this, nodes
      ensures Valid() && contents == old(contents) && nodes == old(nodes) && used == old(used) < size <= INDEXES
      ensures size == Grown(old(size), old(used))
      ensures table == old(table) || fresh(table)
      ensures if index == -1 then key in contents else key !in contents && index == Index(hash, size, key)
    {
      hide Holds, Rest, IsPow2, Index, Tied;
      ExpandIfNeeded();
      var h := Index(hash, size, key);
      var he;
      ghost var j;
      he, j := Search(table[h], key, chains[h], buckets[h]);
      if he != null {
        InBucket(hash, buckets, contents, h, j);
        return -1;
      }
      Missing(hash, buckets, contents, key);
      index := Signed(h);
    }

    /** The new entry becomes the head of its chain. */
    method Link(index: nat, key: bytes, val: int)
      requires Valid() && used < size && key !in contents && index == Index(hash, size, key)
      modifies this, table
      ensures Valid() && table == old(table) && fresh(nodes - old(nodes)) && size == old(size)
      ensures contents == old(contents)[key := val] && used == old(used) + 1
    {
      hide Holds, Rest, IsPow2, Index, Tied;
      ghost var heads, t, links := table[..], buckets, chains;
      HoldsAdd(hash, t, contents, key, val);
      RestUpdate(t, index, [Entry(key, val)] + t[index], 0);
      var entry := new Node(key, val, table[index]);
      table[index] := entry;
      used := used + 1;
      contents, nodes := contents[key := val], nodes + {entry};
      chains, buckets := links[index := [entry] + links[index]], t[index := [Entry(key, val)] + t[index]];
      forall i | 0 <= i < size ensures Tied(table[i], chains[i], buckets[i]) {
        assert old(Tied(heads[i], links[i], t[i]));
        if i == index { TiedCons(entry, heads[i], links[i], Entry(key, val), t[i]); }
      }
    }

    /** dictAdd; false is DICT_ERR. */
    method Add(key: bytes, val: int) returns (ok: bool)
      requires Valid() && Indexable()
      modifies this, table, nodes
      ensures Valid() && (table == old(table) || fresh(table)) && fresh(nodes - old(nodes)) && size <= INDEXES
      ensures ok == (key !in old(contents)) && used <= old(used) + 1
      ensures contents == if ok then old(contents)[key := val] else old(contents)
    {
      hide Holds, Rest, IsPow2, Index, Tied;
      var index := KeyIndex(key);
      if index == -1 { return false; }
      Link(index, key, val);
      ok := true;
    }

    /** dictFind. */
    method Find(key: bytes) returns (he: Node?, ghost j: nat)
      requires Valid()
      ensures he != null <==> key in contents
      ensures he != null ==> he.key == key && he.val == contents[key]
      ensures he != null ==>
        && |chains| == |buckets| == size > 0
        && var h := Index(hash, size, key);
          j < |chains[h]| == |buckets[h]| && he == chains[h][j] && key == buckets[h][j].key
    {
      hide Holds, Rest, IsPow2, Index, Tied;
      j := 0;
      if size == 0 {
        HoldsNothing(hash, buckets, contents);
        return null, 0;
      }
      var h := Index(hash, size, key);
      he, j := Search(table[h], key, chains[h], buckets[h]);
      if he != null {
        InBucket(hash, buckets, contents, h, j);
      } else {
        Missing(hash, buckets, contents, key);
      }
    }

    /** dictSetHashVal on the node found. */
    method SetVal(he: Node, val: int, ghost h: nat, ghost j: nat)
      requires Valid() && |chains| == |buckets| == size && h < size && j < |chains[h]| == |buckets[h]|
      requires he == chains[h][j]
      modifies this`contents, this`buckets, he`val
      ensures Valid() && contents == old(contents)[old(buckets)[h][j].key := val]
    {
      hide Holds, Rest, IsPow2, Index;
      ghost var t := buckets;
      ghost var c, e := chains[h], t[h];
      ghost var k := e[j].key;
      InBucket(hash, t, contents, h, j);
      HoldsSet(hash, t, contents, h, j, val);
      RestUpdate(t, h, e[j := Entry(k, val)], 0);
      OneTied(table[..], chains, t, nodes, h);
      BucketNoDup(hash, t, contents, h);
      DistinctNodes(table[h], c, e);
      forall i | 0 <= i < size && i != h ensures he !in chains[i] {
        OneTied(table[..], chains, t, nodes, i);
        NodeIndex(hash, table[i], chains[i], t, contents, i, he);
        NodeIndex(hash, table[h], c, t, contents, h, he);
      }
      assert NodeOk(c, e, j);
      he.val := val;
      contents, buckets := contents[k := val], t[h := e[j := Entry(k, val)]];
      forall i | 0 <= i < size ensures Tied(table[i], chains[i], buckets[i]) {
        assert old(Tied(table[i], chains[i], t[i]));
        forall x | 0 <= x < |chains[i]| ensures NodeOk(chains[i], buckets[i], x) {
          assert old(NodeOk(chains[i], t[i], x)) && chains[i][x] in chains[i];
        }
      }
    }

    /** dictReplace; true when the key is new. */
    method Replace(key: bytes, val: int) returns (added: bool)
      requires Valid() && Indexable()
      modifies this, table, nodes
      ensures Valid() && (table == old(table) || fresh(table)) && fresh(nodes - old(nodes)) && size <= INDEXES
      ensures added == (key !in old(contents)) && contents == old(contents)[key := val] && used <= old(used) + 1
    {
      hide Holds, Rest, IsPow2, Index, Tied;
      added := Add(key, val);
      if added { return; }
      var he;
      ghost var j;
      he, j := Find(key);
      SetVal(he, val, Index(hash, size, key), j);
    }

    /** The loop of dictDelete; the other chains stay as they are. */
    method UnlinkBucket(h: nat, key: bytes) returns (ok: bool, ghost j: nat)
      requires Valid() && h < size
      modifies table, nodes
      ensures |chains| == size && (ok <==> HasKey(buckets[h], key)) && (!ok ==> Valid())
      ensures forall i, x | 0 <= i < size && x in chains[i] :: x in nodes
      ensures forall i | 0 <= i < size && i != h :: Tied(table[i], chains[i], buckets[i])
      ensures ok ==>
        && j < |chains[h]| == |buckets[h]| && buckets[h][j].key == key
        && Tied(table[h], Without(chains[h], j), Without(buckets[h], j))
    {
      hide Holds, Rest, IsPow2, NoDup;
      BucketNoDup(hash, buckets, contents, h);
      Others(hash, table[..], chains, buckets, contents, nodes, h);
      ok, j := Unlink(table, h, key, chains[h], buckets[h]);
      forall i | 0 <= i < size && i != h ensures Tied(table[i], chains[i], buckets[i]) {
        assert old(Tied(table[i], chains[i], buckets[i]));
        forall x | 0 <= x < |chains[i]| ensures NodeOk(chains[i], buckets[i], x) {
          assert chains[i][x] !in chains[h] && old(NodeOk(chains[i], buckets[i], x));
        }
      }
    }

    /** dictDelete; false is DICT_ERR. */
    method Delete(key: bytes) returns (ok: bool, ghost j: nat)
      requires Valid()
      modifies this, table, nodes
      ensures Valid() && table == old(table) && size == old(size) && nodes == old(nodes) && used <= old(used)
      ensures ok == (key in old(contents)) && contents == old(contents) - {key}
      ensures ok ==>
        && |chains| == |buckets| == size > 0 && |old(chains)| == |old(buckets)| == size
        && var h := Index(hash, size, key);
        && j < |old(chains)[h]| == |old(buckets)[h]| && old(buckets)[h][j].key == key
        && chains == old(chains)[h := Without(old(chains)[h], j)]
        && buckets == old(buckets)[h := Without(old(buckets)[h], j)]
    {
      hide Holds, Rest, IsPow2, Index, Tied, AllTied;
      ok, j := false, 0;
      if size == 0 {
        HoldsNothing(hash, buckets, contents);
        return;
      }
      ghost var t, links := buckets, chains;
      var h := Index(hash, size, key);
      ok, j := UnlinkBucket(h, key);
      if !ok {
        Missing(hash, t, contents, key);
        assert contents - {key} == contents;
        return;
      }
      InBucket(hash, t, contents, h, j);
      TiedWithout(table[..], links, t, nodes, h, j);
      HoldsDelete(hash, t, contents, h, j);
      RestUpdate(t, h, Without(t[h], j), 0);
      CountWithout(contents, key);
      used := used - 1;
      contents, chains, buckets := contents - {key}, links[h := Without(links[h], j)], t[h := Without(t[h], j)];
    }
  }

  lemma TiedCons(he: Node, first: Node?, c: seq<Node>, e: Entry, es: seq<Entry>)
    requires Tied(first, c, es) && he.next == first && he.key == e.key && he.val == e.val
    ensures Tied(he, [he] + c, [e] + es)
  {
    var d, f := [he] + c, [e] + es;
    forall j | 0 <= j < |d| ensures NodeOk(d, f, j) {
      if j > 0 { assert NodeOk(c, es, j - 1); }
    }
  }

  /** The chains still to be moved share no nodes with the next one. */
  lemma Later(hash: Hash, heads: seq<Node?>, chains: seq<seq<Node>>, t: seq<seq<Entry>>, m: map<bytes, int>, i: nat)
    requires i < |t| == |heads| == |chains| && Holds(hash, t, m)
    requires forall x | i <= x < |t| :: Tied(heads[x], chains[x], t[x])
    ensures forall x, y | i < x < |t| && y in chains[x] :: y !in chains[i]
  {
    hide Tied, Index, Holds;
    forall x, y | i < x < |t| && y in chains[x] ensures y !in chains[i] {
      NodeIndex(hash, heads[x], chains[x], t, m, x, y);
      NodeIndex(hash, heads[i], chains[i], t, m, i, y);
    }
  }

  lemma EmptyTied(heads: seq<Node?>, chains: seq<seq<Node>>, t: seq<seq<Entry>>, nodes: set<Node>)
    requires |heads| == |chains| == |t| && forall i | 0 <= i < |t| :: heads[i] == null && chains[i] == [] && t[i] == []
    ensures AllTied(heads, chains, t, nodes)
  {}

  lemma BucketNoDup(hash: Hash, t: seq<seq<Entry>>, m: map<bytes, int>, h: nat)
    requires Holds(hash, t, m) && h < |t|
    ensures NoDup(t[h])
  {
    assert BucketOk(hash, |t|, h, t[h], m);
  }

  /** No node of another bucket is in this one. */
  lemma Others(hash: Hash, heads: seq<Node?>, chains: seq<seq<Node>>, t: seq<seq<Entry>>, m: map<bytes, int>,
               nodes: set<Node>, h: nat)
    requires AllTied(heads, chains, t, nodes) && Holds(hash, t, m) && h < |t|
    ensures |chains| == |t|
    ensures forall i, x | 0 <= i < |t| && i != h && x in chains[i] :: x !in chains[h]
  {
    hide Tied, Index, Holds;
    forall i, x | 0 <= i < |t| && i != h && x in chains[i] ensures x !in chains[h] {
      NodeIndex(hash, heads[i], chains[i], t, m, i, x);
      NodeIndex(hash, heads[h], chains[h], t, m, h, x);
    }
  }

  /** There is no power of two between n and its double. */
  lemma {:induction false} Between(a: nat, n: nat)
    requires IsPow2(a) && IsPow2(n) && 2 * n <= a < 4 * n
    ensures a == 2 * n
    decreases n
  {
    if n > 1 { Between(a / 2, n / 2); }
  }

  lemma Initial(a: nat)
    requires IsPow2(a) && DICT_HT_INITIAL_SIZE <= a < 2 * DICT_HT_INITIAL_SIZE
    ensures a == DICT_HT_INITIAL_SIZE
  {
    Between(a, 2);
  }

  lemma TiedWithout(heads: seq<Node?>, chains: seq<seq<Node>>, t: seq<seq<Entry>>, nodes: set<Node>, h: nat, j: nat)
    requires |heads| == |chains| == |t| && h < |t| && j < |chains[h]| == |t[h]|
    requires forall i, x | 0 <= i < |chains| && x in chains[i] :: x in nodes
    requires Tied(heads[h], Without(chains[h], j), Without(t[h], j))
    requires forall i | 0 <= i < |t| && i != h :: Tied(heads[i], chains[i], t[i])
    ensures AllTied(heads, chains[h := Without(chains[h], j)], t[h := Without(t[h], j)], nodes)
  {
    hide Tied;
  }

  lemma CountWithout(m: map<bytes, int>, k: bytes)
    requires k in m
    ensures |m - {k}| == |m| - 1
  {
    assert (m - {k}).Keys == m.Keys - {k};
    assert |m.Keys| == |m|;
  }

  lemma EmptyUse(hash: Hash, t: seq<seq<Entry>>, m: map<bytes, int>)
    requires t == []
    ensures Rest(t, 0) == 0
  {}

  lemma NotYet(m: map<bytes, int>, c: seq<Entry>, j: nat)
    requires NoDup(c) && j < |c| && c[j].key !in m
    ensures c[j].key !in Added(m, c[..j])
  {
    AddedMeaning(m, c[..j]);
  }

  lemma EmptyTable(hash: Hash, t: seq<seq<Entry>>)
    requires t != [] && forall i | 0 <= i < |t| :: t[i] == []
    ensures Holds(hash, t, map[]) && Rest(t, 0) == 0
  {
    RestZero(t, 0);
  }

  lemma BelowNone(hash: Hash, t: seq<seq<Entry>>, m: map<bytes, int>)
    ensures t != [] ==> Below(hash, |t|, m, 0) == map[]
  {}

  lemma RestNext(t: seq<seq<Entry>>, i: nat)
    requires i < |t|
    ensures Rest(t, i) == |t[i]| + Rest(t, i + 1)
  {}

  lemma RestDone(t: seq<seq<Entry>>, i: nat)
    requires i == |t|
    ensures Rest(t, i) == 0
  {}

  lemma HoldsNothing(hash: Hash, t: seq<seq<Entry>>, m: map<bytes, int>)
    requires Holds(hash, t, m) && t == []
    ensures m == map[]
  {}

  /** A client of the table. */
  datatype Op =
    | AddOp(key: bytes, val: int)
    | ReplaceOp(key: bytes, val: int)
    | DeleteOp(key: bytes)
    | FindOp(key: bytes)

  datatype Result = Flag(flag: bool) | Value(value: Option<int>)

  /** What an operation does to a finite map. */
  function After(m: map<bytes, int>, op: Op): map<bytes, int> {
    match op
    case AddOp(k, v) => if k in m then m else m[k := v]
    case ReplaceOp(k, v) => m[k := v]
    case DeleteOp(k) => m - {k}
    case FindOp(_) => m
  }

  function Says(m: map<bytes, int>, op: Op): Result {
    match op
    case AddOp(k, _) => Flag(k !in m)
    case ReplaceOp(k, _) => Flag(k !in m)
    case DeleteOp(k) => Flag(k in m)
    case FindOp(k) => Value(if k in m then Some(m[k]) else None)
  }

  function AfterAll(m: map<bytes, int>, ops: seq<Op>): map<bytes, int>
  {
    if ops == [] then m else After(AfterAll(m, ops[..|ops| - 1]), ops[|ops| - 1])
  }

  function SaysAll(m: map<bytes, int>, ops: seq<Op>): seq<Result>
  {
    if ops == [] then []
    else SaysAll(m, ops[..|ops| - 1]) + [Says(AfterAll(m, ops[..|ops| - 1]), ops[|ops| - 1])]
  }

  /** Any sequence of operations answers as the finite map does. */
  method Drive(d: Dict, ops: seq<Op>) returns (results: seq<Result>)
    requires d.Valid() && d.size <= INDEXES && 2 * (d.used + |ops|) <= INDEXES
    modifies d, d.table, d.nodes
    ensures d.Valid() && d.contents == AfterAll(old(d.contents), ops)
    ensures results == SaysAll(old(d.contents), ops)
  {
    hide Holds, Rest, IsPow2, AllTied;
    results := [];
    for i := 0 to |ops|
      invariant d.Valid() && d.size <= INDEXES && d.used <= old(d.used) + i
      invariant (d.table == old(d.table) || fresh(d.table)) && fresh(d.nodes - old(d.nodes))
      invariant d.contents == AfterAll(old(d.contents), ops[..i]) && results == SaysAll(old(d.contents), ops[..i])
    {
      assert ops[..i + 1][..i] == ops[..i];
      var r := Do(d, ops[i]);
      results := results + [r];
    }
    assert ops[..|ops|] == ops;
  }

  method Do(d: Dict, op: Op) returns (r: Result)
    requires d.Valid() && d.size <= INDEXES && d.Indexable()
    modifies d, d.table, d.nodes
    ensures d.Valid() && (d.table == old(d.table) || fresh(d.table)) && fresh(d.nodes - old(d.nodes))
    ensures d.used <= old(d.used) + 1 && d.size <= INDEXES
    ensures d.contents == After(old(d.contents), op) && r == Says(old(d.contents), op)
  {
    hide Holds, Rest, IsPow2, AllTied, Index;
    match op {
      case AddOp(k, v) => var ok := d.Add(k, v); r := Flag(ok);
      case ReplaceOp(k, v) => var added := d.Replace(k, v); r := Flag(added);
      case DeleteOp(k) => var ok, _ := d.Delete(k); r := Flag(ok);
      case FindOp(k) => var he, _ := d.Find(k); r := Value(if he == null then None else Some(he.val));
    }
  }
}
