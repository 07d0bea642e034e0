/** Bucket chains of the hash table in hiredis-vip-master/dict.c, seen from the map they hold. */
module Chains {
  import opened Bytes

  datatype Entry = Entry(key: bytes, val: int)

  type Hash = bytes -> nat

  /** The bitwise and of two numbers. */
  function BitAnd(a: nat, b: nat): (r: nat)
    ensures r <= b
  {
    if a == 0 || b == 0 then 0 else 2 * BitAnd(a / 2, b / 2) + if a % 2 == 1 && b % 2 == 1 then 1 else 0
  }

  /** The bucket of a key: the hash masked with size - 1. */
  function Index(hash: Hash, n: nat, k: bytes): (i: nat)
    requires n > 0
    ensures i < n
  {
    BitAnd(hash(k), n - 1)
  }

  predicate IsPow2(n: nat)
  {
    n == 1 || (n > 1 && n % 2 == 0 && IsPow2(n / 2))
  }

  /** For a power of two the mask is the remainder. */
  lemma {:induction false} MaskIsMod(h: nat, n: nat)
    requires IsPow2(n)
    ensures BitAnd(h, n - 1) == h % n
    decreases n
  {
    if n > 1 {
      var half := n / 2;
      MaskIsMod(h / 2, half);
      assert n == 2 * half && (n - 1) / 2 == half - 1 && (n - 1) % 2 == 1;
      assert h % n == 2 * (h / 2 % half) + h % 2 by { HalfMod(h, half); }
    }
  }

  lemma HalfMod(h: nat, half: nat)
    requires half > 0
    ensures h % (2 * half) == 2 * (h / 2 % half) + h % 2
  {
    var q, r := h / 2 / half, h / 2 % half;
    assert h / 2 == q * half + r;
    assert h == 2 * (q * half + r) + h % 2;
    assert h == q * (2 * half) + (2 * r + h % 2);
    ModOf(h, q, 2 * half, 2 * r + h % 2);
  }

  lemma ModOf(h: nat, q: nat, n: nat, r: nat)
    requires h == q * n + r && r < n
    ensures h % n == r
  {
    var p, s := h / n, h % n;
    assert p * n + s == q * n + r;
    if p < q { Multiple(p, q, n); } else if q < p { Multiple(q, p, n); }
  }

  lemma {:induction false} Multiple(p: nat, q: nat, n: nat)
    requires p < q
    ensures q * n >= p * n + n
    decreases q
  {
    assert q * n == (q - 1) * n + n;
    if p + 1 < q { Multiple(p, q - 1, n); }
  }

  predicate HasKey(c: seq<Entry>, k: bytes) {
    exists j :: 0 <= j < |c| && c[j].key == k
  }

  predicate NoDup(c: seq<Entry>) {
    forall i, j | 0 <= i < j < |c| :: c[i].key != c[j].key
  }

  /** Bucket i of n holds each key of m that belongs to it, once, with its value, and nothing else. */
  ghost predicate BucketOk(hash: Hash, n: nat, i: nat, c: seq<Entry>, m: map<bytes, int>)
    requires i < n
  {
    && NoDup(c)
    && (forall j | 0 <= j < |c| :: Index(hash, n, c[j].key) == i && c[j].key in m && m[c[j].key] == c[j].val)
    && (forall k | k in m && Index(hash, n, k) == i :: HasKey(c, k))
  }

  /** The table holds exactly m. */
  ghost predicate Holds(hash: Hash, t: seq<seq<Entry>>, m: map<bytes, int>) {
    && (t == [] ==> m == map[])
    && forall i | 0 <= i < |t| :: BucketOk(hash, |t|, i, t[i], m)
  }

  /** The number of entries from bucket i on. */
  function Rest(t: seq<seq<Entry>>, i: nat): nat
    requires i <= |t|
    decreases |t| - i
  {
    if i == |t| then 0 else |t[i]| + Rest(t, i + 1)
  }

  lemma {:induction false} RestUpdate(t: seq<seq<Entry>>, h: nat, c: seq<Entry>, i: nat)
    requires h < |t| && i <= |t|
    ensures Rest(t[h := c], i) == Rest(t, i) + if i <= h then |c| - |t[h]| else 0
    decreases |t| - i
  {
    if i < |t| {
      RestUpdate(t, h, c, i + 1);
    }
  }

  lemma {:induction false} RestZero(t: seq<seq<Entry>>, i: nat)
    requires i <= |t|
    ensures Rest(t, i) == 0 <==> forall x | i <= x < |t| :: t[x] == []
    decreases |t| - i
  {
    if i < |t| {
      RestZero(t, i + 1);
    }
  }

  lemma Elsewhere(hash: Hash, n: nat, i: nat, c: seq<Entry>, m: map<bytes, int>, k: bytes, v: int)
    requires i < n && BucketOk(hash, n, i, c, m) && Index(hash, n, k) != i
    ensures BucketOk(hash, n, i, c, m[k := v]) && BucketOk(hash, n, i, c, m - {k})
  {
    hide Index, HasKey;
  }

  lemma AtHead(hash: Hash, n: nat, i: nat, c: seq<Entry>, m: map<bytes, int>, k: bytes, v: int)
    requires i < n && BucketOk(hash, n, i, c, m) && Index(hash, n, k) == i && k !in m
    ensures BucketOk(hash, n, i, [Entry(k, v)] + c, m[k := v])
  {
    hide Index;
    var d := [Entry(k, v)] + c;
    assert forall j | 0 < j < |d| :: d[j] == c[j - 1];
    forall x | x in m[k := v] && Index(hash, n, x) == i ensures HasKey(d, x) {
      if x == k {
        assert d[0].key == x;
      } else {
        var j :| 0 <= j < |c| && c[j].key == x;
        assert d[j + 1].key == x;
      }
    }
  }

  lemma InPlace(hash: Hash, n: nat, i: nat, c: seq<Entry>, m: map<bytes, int>, j: nat, v: int)
    requires i < n && BucketOk(hash, n, i, c, m) && j < |c|
    ensures BucketOk(hash, n, i, c[j := Entry(c[j].key, v)], m[c[j].key := v])
  {
    hide Index;
    var d := c[j := Entry(c[j].key, v)];
    assert forall x | 0 <= x < |c| :: d[x].key == c[x].key;
    forall k | k in m && Index(hash, n, k) == i ensures HasKey(d, k) {
      var x :| 0 <= x < |c| && c[x].key == k;
      assert d[x].key == k;
    }
  }

  lemma Unlinked(hash: Hash, n: nat, i: nat, c: seq<Entry>, m: map<bytes, int>, j: nat)
    requires i < n && BucketOk(hash, n, i, c, m) && j < |c|
    ensures BucketOk(hash, n, i, c[..j] + c[j + 1..], m - {c[j].key})
  {
    hide Index;
    var d := c[..j] + c[j + 1..];
    assert forall x | 0 <= x < |d| :: d[x] == c[if x < j then x else x + 1];
    forall k | k in m - {c[j].key} && Index(hash, n, k) == i ensures HasKey(d, k) {
      var x :| 0 <= x < |c| && c[x].key == k;
      assert d[if x < j then x else x - 1].key == k;
    }
  }

  /** A change of one bucket that keeps it right keeps the table right. */
  lemma HoldsAdd(hash: Hash, t: seq<seq<Entry>>, m: map<bytes, int>, k: bytes, v: int)
    requires t != [] && Holds(hash, t, m) && k !in m
    ensures var h := Index(hash, |t|, k); Holds(hash, t[h := [Entry(k, v)] + t[h]], m[k := v])
  {
    hide Index, BucketOk;
    var h := Index(hash, |t|, k);
    AtHead(hash, |t|, h, t[h], m, k, v);
    forall i | 0 <= i < |t| && i != h ensures BucketOk(hash, |t|, i, t[i], m[k := v]) {
      Elsewhere(hash, |t|, i, t[i], m, k, v);
    }
  }

  lemma HoldsSet(hash: Hash, t: seq<seq<Entry>>, m: map<bytes, int>, h: nat, j: nat, v: int)
    requires h < |t| && j < |t[h]| && Holds(hash, t, m)
    ensures var k := t[h][j].key; Holds(hash, t[h := t[h][j := Entry(k, v)]], m[k := v])
  {
    hide Index, BucketOk;
    var k := t[h][j].key;
    InBucket(hash, t, m, h, j);
    InPlace(hash, |t|, h, t[h], m, j, v);
    forall i | 0 <= i < |t| && i != h ensures BucketOk(hash, |t|, i, t[i], m[k := v]) {
      Elsewhere(hash, |t|, i, t[i], m, k, v);
    }
  }

  lemma HoldsDelete(hash: Hash, t: seq<seq<Entry>>, m: map<bytes, int>, h: nat, j: nat)
    requires h < |t| && j < |t[h]| && Holds(hash, t, m)
    ensures Holds(hash, t[h := t[h][..j] + t[h][j + 1..]], m - {t[h][j].key})
  {
    hide Index, BucketOk;
    var k := t[h][j].key;
    InBucket(hash, t, m, h, j);
    Unlinked(hash, |t|, h, t[h], m, j);
    forall i | 0 <= i < |t| && i != h ensures BucketOk(hash, |t|, i, t[i], m - {k}) {
      Elsewhere(hash, |t|, i, t[i], m, k, 0);
    }
  }

  lemma InBucket(hash: Hash, t: seq<seq<Entry>>, m: map<bytes, int>, h: nat, j: nat)
    requires h < |t| && j < |t[h]| && Holds(hash, t, m)
    ensures var e := t[h][j]; Index(hash, |t|, e.key) == h && e.key in m && m[e.key] == e.val
  {
    assert BucketOk(hash, |t|, h, t[h], m);
  }

  lemma Missing(hash: Hash, t: seq<seq<Entry>>, m: map<bytes, int>, k: bytes)
    requires t != [] && Holds(hash, t, m) && !HasKey(t[Index(hash, |t|, k)], k)
    ensures k !in m
  {
    assert BucketOk(hash, |t|, Index(hash, |t|, k), t[Index(hash, |t|, k)], m);
  }

  /** The map after the entries of a chain are added. */
  function Added(m: map<bytes, int>, c: seq<Entry>): map<bytes, int>
  {
    if c == [] then m else Added(m, c[..|c| - 1])[c[|c| - 1].key := c[|c| - 1].val]
  }

  lemma {:induction false} AddedMeaning(m: map<bytes, int>, c: seq<Entry>)
    requires NoDup(c)
    ensures forall k :: k in Added(m, c) <==> k in m || HasKey(c, k)
    ensures forall j | 0 <= j < |c| :: c[j].key in Added(m, c) && Added(m, c)[c[j].key] == c[j].val
    ensures forall k | k in m && !HasKey(c, k) :: Added(m, c)[k] == m[k]
    decreases |c|
  {
    hide HasKey;
    if c == [] {
      NoKeyInNothing();
    } else {
      var n := |c| - 1;
      AddedMeaning(m, c[..n]);
      HasKeySnoc(c);
      assert forall j | 0 <= j < n :: c[..n][j] == c[j];
    }
  }

  lemma NoKeyInNothing()
    ensures forall k :: !HasKey([], k)
  {}

  lemma HasKeySnoc(c: seq<Entry>)
    requires c != []
    ensures forall k :: HasKey(c, k) <==> HasKey(c[..|c| - 1], k) || c[|c| - 1].key == k
  {
    var n := |c| - 1;
    forall k ensures HasKey(c, k) <==> HasKey(c[..n], k) || c[n].key == k {
      if HasKey(c[..n], k) {
        var j :| 0 <= j < n && c[..n][j].key == k;
        assert c[j].key == k;
      }
      if HasKey(c, k) {
        var j :| 0 <= j < |c| && c[j].key == k;
        if j < n { assert c[..n][j].key == k; }
      }
    }
  }

  /** The part of m in the buckets before i. */
  function Below(hash: Hash, n: nat, m: map<bytes, int>, i: nat): map<bytes, int>
    requires n > 0
  {
    map k | k in m && Index(hash, n, k) < i :: m[k]
  }

  lemma BelowNext(hash: Hash, t: seq<seq<Entry>>, m: map<bytes, int>, i: nat)
    requires i < |t| && Holds(hash, t, m)
    ensures Added(Below(hash, |t|, m, i), t[i]) == Below(hash, |t|, m, i + 1)
    ensures NoDup(t[i]) && forall j | 0 <= j < |t[i]| :: t[i][j].key !in Below(hash, |t|, m, i)
  {
    hide Index;
    assert BucketOk(hash, |t|, i, t[i], m);
    var c, before, after := t[i], Below(hash, |t|, m, i), Below(hash, |t|, m, i + 1);
    AddedMeaning(before, c);
    forall k ensures k in Added(before, c) <==> k in after {
      if HasKey(c, k) {
        var j :| 0 <= j < |c| && c[j].key == k;
      }
    }
    forall k | k in after ensures Added(before, c)[k] == after[k] {
      if HasKey(c, k) {
        var j :| 0 <= j < |c| && c[j].key == k;
      }
    }
  }

  lemma BelowAll(hash: Hash, t: seq<seq<Entry>>, m: map<bytes, int>, i: nat)
    requires t != [] && i <= |t| && Holds(hash, t, m) && Rest(t, i) == 0
    ensures Below(hash, |t|, m, i) == m
  {
    RestZero(t, i);
    forall k | k in m ensures Index(hash, |t|, k) < i {
      var h := Index(hash, |t|, k);
      assert BucketOk(hash, |t|, h, t[h], m);
      assert HasKey(t[h], k);
    }
  }
}
