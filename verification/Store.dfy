/**
  What MGET, DEL and MSET mean on a key-value store, and why running them slot by slot
  means the same.  An entry is a key, with its value in an MSET.
  */
module Store {
  import opened Bytes
  import opened Resp
  import opened Commands
  import opened KeySlot

  type Store = map<bytes, bytes>
  datatype Entry = Entry(key: bytes, value: bytes)

  // One command ------------------------------------------------------

  function Get(store: Store, k: bytes): Reply {
    if k in store then Str(store[k]) else Nil
  }

  function Mget(store: Store, es: seq<Entry>): seq<Reply> {
    seq(|es|, i requires 0 <= i < |es| => Get(store, es[i].key))
  }

  /** DEL: key after key, counting those that were there. */
  function Del(store: Store, es: seq<Entry>): (nat, Store)
    decreases |es|
  {
    if es == [] then (0, store)
    else
      var (n, st) := Del(store, es[..|es| - 1]);
      var k := es[|es| - 1].key;
      if k in st then (n + 1, st - {k}) else (n, st)
  }

  /** MSET: pair after pair, a later one overwriting. */
  function Mset(store: Store, es: seq<Entry>): Store
    decreases |es|
  {
    if es == [] then store
    else Mset(store, es[..|es| - 1])[es[|es| - 1].key := es[|es| - 1].value]
  }

  const OK: bytes := [79, 75]

  predicate Multi(t: Cmd) {
    t == MGET || t == DEL || t == MSET
  }

  /** The reply and the store afterwards. */
  function Exec(t: Cmd, store: Store, es: seq<Entry>): (Reply, Store)
    requires Multi(t)
  {
    if t == MGET then (Array(|es|, Mget(store, es)), store)
    else if t == DEL then (Integer(Del(store, es).0), Del(store, es).1)
    else (Status(OK), Mset(store, es))
  }

  // Slot by slot -----------------------------------------------------

  /** The entries of slot s, in their order. */
  function InSlot(es: seq<Entry>, s: int): seq<Entry>
    decreases |es|
  {
    if es == [] then []
    else InSlot(es[..|es| - 1], s) + if Slot(es[|es| - 1].key) == s then [es[|es| - 1]] else []
  }

  ghost function KeySet(es: seq<Entry>): set<bytes> {
    set i | 0 <= i < |es| :: es[i].key
  }

  lemma KeySetSnoc(es: seq<Entry>)
    requires es != []
    ensures KeySet(es) == KeySet(es[..|es| - 1]) + {es[|es| - 1].key}
  {
    assert es == es[..|es| - 1] + [es[|es| - 1]];
  }

  lemma {:induction false} KeySetInSlot(es: seq<Entry>, s: int)
    ensures forall k :: k in KeySet(InSlot(es, s)) <==> k in KeySet(es) && Slot(k) == s
    decreases |es|
  {
    hide Slot;
    if es != [] {
      KeySetInSlot(es[..|es| - 1], s);
      KeySetSnoc(es);
      var fs := InSlot(es, s);
      if Slot(es[|es| - 1].key) == s {
        KeySetSnoc(fs);
        assert fs[..|fs| - 1] == InSlot(es[..|es| - 1], s);
      } else {
        assert fs == InSlot(es[..|es| - 1], s);
      }
    }
  }

  // DEL --------------------------------------------------------------

  /** The store without some keys, and how many of them it has. */
  ghost function Minus(store: Store, a: set<bytes>): Store {
    store - a
  }

  ghost function Hits(a: set<bytes>, store: Store): nat {
    |a * store.Keys|
  }

  lemma InTwoSteps(store: Store, a: set<bytes>, b: set<bytes>)
    ensures Minus(Minus(store, a), b) == Minus(store, a + b)
    ensures Hits(a + b, store) == Hits(a, store) + Hits(b, Minus(store, a))
  {
    var s := store.Keys;
    assert Minus(store, a).Keys == s - a;
    assert (a + b) * s == a * s + b * (s - a);
    assert (a * s) * (b * (s - a)) == {};
  }

  lemma NoKeys(store: Store)
    ensures KeySet([]) == {} && Minus(store, {}) == store && Hits({}, store) == 0
  {
    assert {} * store.Keys == {};
  }

  lemma OneKey(st: Store, k: bytes)
    ensures Hits({k}, st) == if k in st then 1 else 0
    ensures Minus(st, {k}) == if k in st then st - {k} else st
  {
    if k in st {
      assert {k} * st.Keys == {k};
    } else {
      assert {k} * st.Keys == {};
    }
  }

  /** DEL removes the set of keys and counts the ones present, duplicates once. */
  lemma {:induction false} DelMeaning(store: Store, es: seq<Entry>)
    ensures Del(store, es).1 == Minus(store, KeySet(es))
    ensures Del(store, es).0 == Hits(KeySet(es), store)
    decreases |es|
  {
    hide KeySet, Minus, Hits;
    if es == [] {
      NoKeys(store);
    } else {
      var init, k := es[..|es| - 1], es[|es| - 1].key;
      DelMeaning(store, init);
      KeySetSnoc(es);
      InTwoSteps(store, KeySet(init), {k});
      OneKey(Minus(store, KeySet(init)), k);
    }
  }

  /** The sub-commands of the slots below n, one after the other. */
  function DelSlots(store: Store, es: seq<Entry>, n: nat): (nat, Store)
    decreases n
  {
    if n == 0 then (0, store)
    else
      var (c, st) := DelSlots(store, es, n - 1);
      var (d, st') := Del(st, InSlot(es, n - 1));
      (c + d, st')
  }

  ghost function Below(es: seq<Entry>, n: int): set<bytes> {
    set k | k in KeySet(es) && Slot(k) < n
  }

  lemma {:induction false} DelSlotsMeaning(store: Store, es: seq<Entry>, n: nat)
    ensures DelSlots(store, es, n).1 == Minus(store, Below(es, n))
    ensures DelSlots(store, es, n).0 == Hits(Below(es, n), store)
    decreases n
  {
    hide Slot, InSlot, KeySet, Del, Below, Minus, Hits;
    if n == 0 {
      NothingBelow(es);
      NoKeys(store);
    } else {
      DelSlotsMeaning(store, es, n - 1);
      var fs := InSlot(es, n - 1);
      DelMeaning(DelSlots(store, es, n - 1).1, fs);
      BelowNext(es, n);
      InTwoSteps(store, Below(es, n - 1), KeySet(fs));
    }
  }

  lemma NothingBelow(es: seq<Entry>)
    ensures Below(es, 0) == {}
  {
    hide Slot, KeySet;
  }

  lemma BelowNext(es: seq<Entry>, n: nat)
    requires n > 0
    ensures Below(es, n) == Below(es, n - 1) + KeySet(InSlot(es, n - 1))
  {
    hide Slot, InSlot, KeySet;
    KeySetInSlot(es, n - 1);
  }

  /** DEL, slot by slot, deletes and counts the same. */
  lemma DelSlotsIsDel(store: Store, es: seq<Entry>)
    ensures DelSlots(store, es, SLOTS) == Del(store, es)
  {
    hide Del, DelSlots, KeySet, Minus, Hits, Slot;
    DelMeaning(store, es);
    DelSlotsMeaning(store, es, SLOTS);
    assert Below(es, SLOTS) == KeySet(es);
  }

  // MSET -------------------------------------------------------------

  /** The value the last pair with key k gives it. */
  function Last(es: seq<Entry>, k: bytes): Option<bytes>
    decreases |es|
  {
    if es == [] then None
    else if es[|es| - 1].key == k then Some(es[|es| - 1].value)
    else Last(es[..|es| - 1], k)
  }

  function Look(store: Store, k: bytes): Option<bytes> {
    if k in store then Some(store[k]) else None
  }

  lemma {:induction false} MsetMeaning(store: Store, es: seq<Entry>, k: bytes)
    ensures Look(Mset(store, es), k) == if Last(es, k).Some? then Last(es, k) else Look(store, k)
    decreases |es|
  {
    if es != [] { MsetMeaning(store, es[..|es| - 1], k); }
  }

  lemma {:induction false} LastInSlot(es: seq<Entry>, s: int, k: bytes)
    ensures Last(InSlot(es, s), k) == if Slot(k) == s then Last(es, k) else None
    decreases |es|
  {
    hide Slot;
    if es != [] {
      var init := es[..|es| - 1];
      LastInSlot(init, s, k);
      var fs := InSlot(es, s);
      if Slot(es[|es| - 1].key) == s {
        assert fs[..|fs| - 1] == InSlot(init, s);
      } else {
        assert fs == InSlot(init, s);
      }
    }
  }

  function MsetSlots(store: Store, es: seq<Entry>, n: nat): Store
    decreases n
  {
    if n == 0 then store else Mset(MsetSlots(store, es, n - 1), InSlot(es, n - 1))
  }

  lemma {:induction false} MsetSlotsMeaning(store: Store, es: seq<Entry>, n: nat, k: bytes)
    ensures Look(MsetSlots(store, es, n), k) == if Slot(k) < n && Last(es, k).Some? then Last(es, k) else Look(store, k)
    decreases n
  {
    hide Slot, InSlot, Last, Mset;
    if n > 0 {
      MsetSlotsMeaning(store, es, n - 1, k);
      MsetMeaning(MsetSlots(store, es, n - 1), InSlot(es, n - 1), k);
      LastInSlot(es, n - 1, k);
    }
  }

  lemma SameLook(a: Store, b: Store)
    requires forall k :: Look(a, k) == Look(b, k)
    ensures a == b
  {
    assert forall k :: k in a <==> Look(a, k).Some?;
    assert forall k :: k in b <==> Look(b, k).Some?;
    assert forall k | k in a :: Look(a, k) == Some(a[k]) && Look(b, k) == Some(b[k]);
  }

  /** MSET, slot by slot, leaves the same store, duplicate keys included. */
  lemma MsetSlotsIsMset(store: Store, es: seq<Entry>)
    ensures MsetSlots(store, es, SLOTS) == Mset(store, es)
  {
    hide Look, Mset, MsetSlots, Last;
    var a, b := MsetSlots(store, es, SLOTS), Mset(store, es);
    forall k ensures Look(a, k) == Look(b, k) {
      MsetSlotsMeaning(store, es, SLOTS, k);
      MsetMeaning(store, es, k);
    }
    SameLook(a, b);
  }

  // MGET -------------------------------------------------------------

  /** How many of the entries are in slot s. */
  function Count(es: seq<Entry>, s: int): nat {
    |InSlot(es, s)|
  }

  /** Entry i is the one at place Count(es[..i]) among the entries of its slot. */
  lemma {:induction false} RankInSlot(es: seq<Entry>, i: nat)
    requires i < |es|
    ensures var s := Slot(es[i].key);
      var r := Count(es[..i], s);
      r < |InSlot(es, s)| && InSlot(es, s)[r] == es[i]
    decreases |es|
  {
    hide Slot;
    var s := Slot(es[i].key);
    var init := es[..|es| - 1];
    if i == |es| - 1 {
      assert es[..i] == init;
    } else {
      assert init[..i] == es[..i];
      RankInSlot(init, i);
    }
  }
}
