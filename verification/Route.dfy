/**
  The slot table (cluster_update_route_by_addr, node_get_by_table and node_get_by_slot in
  hiredis-vip-master/hircluster.c).
  */
module Route {
  import opened Resp
  import opened KeySlot

  /** A null pointer in the table. */
  const NONE := -1

  /** cluster_slot: a node serves the slots from start to end. */
  datatype Region = Region(start: nat, end: nat, node: nat)

  /** A node of the parsed reply, in the order of the dictionary. */
  datatype Master = Master(isMaster: bool, slots: seq<Region>)

  predicate InRange(r: Region) {
    r.start <= r.end < SLOTS
  }

  predicate Covers(r: Region, k: int) {
    r.start <= k <= r.end
  }

  predicate Apart(r: Region, s: Region) {
    r.end < s.start || s.end < r.start
  }

  predicate Disjoint(rs: seq<Region>) {
    forall i, j | 0 <= i < j < |rs| :: Apart(rs[i], rs[j])
  }

  predicate Legal(rs: seq<Region>) {
    forall i | 0 <= i < |rs| :: InRange(rs[i])
  }

  predicate Sorted(rs: seq<Region>) {
    forall i, j | 0 <= i < j < |rs| :: rs[i].start <= rs[j].start
  }

  /** The table says of every slot which node serves it. */
  ghost predicate Owned(rs: seq<Region>, table: seq<int>) {
    && |table| == SLOTS
    && (forall k, i | 0 <= k < SLOTS && 0 <= i < |rs| :: Covers(rs[i], k) ==> table[k] == rs[i].node)
    && forall k | 0 <= k < SLOTS && table[k] != NONE :: exists i :: 0 <= i < |rs| && Covers(rs[i], k)
  }

  function Regions(ms: seq<Master>): seq<Region>
  {
    if ms == [] then [] else Regions(ms[..|ms| - 1]) + ms[|ms| - 1].slots
  }

  predicate AllMasters(ms: seq<Master>) {
    forall i | 0 <= i < |ms| :: ms[i].isMaster
  }

  lemma {:induction false} LegalParts(ms: seq<Master>, i: nat)
    requires i < |ms| && Legal(Regions(ms))
    ensures Legal(ms[i].slots)
    decreases |ms|
  {
    var n := |ms| - 1;
    var before, last := Regions(ms[..n]), ms[n].slots;
    assert forall j | 0 <= j < |before| :: Regions(ms)[j] == before[j];
    assert forall j | 0 <= j < |last| :: Regions(ms)[|before| + j] == last[j];
    if i < n { LegalParts(ms[..n], i); }
  }

  /** The regions of one node go to the array, unless one is impossible. */
  method Push(rs: seq<Region>, slots: seq<Region>) returns (ok: bool, out: seq<Region>)
    ensures ok <==> Legal(slots)
    ensures ok ==> out == rs + slots
  {
    out := rs;
    for j := 0 to |slots|
      invariant out == rs + slots[..j] && Legal(slots[..j])
    {
      if slots[j].start > slots[j].end || slots[j].end >= SLOTS {
        assert !InRange(slots[j]);
        return false, out;
      }
      out := out + [slots[j]];
    }
    ok := true;
  }

  /** The regions of all nodes, unless one is not a master or has an impossible region. */
  method Collect(ms: seq<Master>) returns (ok: bool, rs: seq<Region>)
    ensures ok <==> AllMasters(ms) && Legal(Regions(ms))
    ensures ok ==> rs == Regions(ms)
  {
    hide InRange;
    rs := [];
    for i := 0 to |ms|
      invariant rs == Regions(ms[..i]) && Legal(rs) && AllMasters(ms[..i])
    {
      assert ms[..i + 1][..i] == ms[..i];
      if !ms[i].isMaster { return false, rs; }
      ok, rs := Push(rs, ms[i].slots);
      if !ok {
        if Legal(Regions(ms)) { LegalParts(ms, i); }
        return false, rs;
      }
    }
    assert ms[..|ms|] == ms;
    ok := true;
  }

  /** hiarray_sort with cluster_slot_start_cmp, by insertion. */
  method Sort(rs: seq<Region>) returns (out: seq<Region>)
    ensures Sorted(out) && multiset(out) == multiset(rs)
  {
    hide Sorted, Permuted;
    NothingSorted(rs);
    out := [];
    for i := 0 to |rs|
      invariant Sorted(out) && Permuted(out, rs[..i])
    {
      var p := |out|;
      while p > 0 && out[p - 1].start > rs[i].start
        invariant 0 <= p <= |out|
        invariant forall j | p <= j < |out| :: out[j].start > rs[i].start
      {
        p := p - 1;
      }
      InsertKeeps(out, p, rs[i]);
      InsertGrows(rs, i, out, p);
      out := out[..p] + [rs[i]] + out[p..];
    }
    AllPermuted(out, rs);
  }

  ghost predicate Permuted(a: seq<Region>, b: seq<Region>) {
    multiset(a) == multiset(b)
  }

  lemma NothingSorted(rs: seq<Region>)
    ensures Sorted([]) && Permuted([], rs[..0])
  {}

  lemma AllPermuted(out: seq<Region>, rs: seq<Region>)
    requires Permuted(out, rs[..|rs|])
    ensures multiset(out) == multiset(rs)
  {
    assert rs[..|rs|] == rs;
  }

  lemma InsertGrows(rs: seq<Region>, i: nat, s: seq<Region>, p: nat)
    requires i < |rs| && p <= |s| && Permuted(s, rs[..i])
    ensures Permuted(s[..p] + [rs[i]] + s[p..], rs[..i + 1])
  {
    InsertCounts(s[..p], rs[i], s[p..]);
    assert s[..p] + s[p..] == s && rs[..i + 1] == rs[..i] + [rs[i]];
  }

  lemma InsertKeeps(s: seq<Region>, p: nat, r: Region)
    requires Sorted(s) && p <= |s|
    requires p > 0 ==> s[p - 1].start <= r.start
    requires forall j | p <= j < |s| :: s[j].start > r.start
    ensures Sorted(s[..p] + [r] + s[p..])
  {
    assert forall j | 0 <= j < p :: s[j].start <= r.start;
    InsertSorts(s[..p], r, s[p..]);
  }

  lemma InsertCounts<T>(a: seq<T>, x: T, b: seq<T>)
    ensures multiset(a + [x] + b) == multiset(a + b) + multiset{x}
  {}

  lemma InsertSorts(a: seq<Region>, r: Region, b: seq<Region>)
    requires Sorted(a) && Sorted(b)
    requires forall i | 0 <= i < |a| :: a[i].start <= r.start
    requires forall i | 0 <= i < |b| :: r.start <= b[i].start
    ensures Sorted(a + [r] + b)
  {}

  /** The inner filling loop: all or nothing of a region was free. */
  method Claim(table: array<int>, r: Region) returns (ok: bool)
    requires table.Length == SLOTS && InRange(r)
    modifies table
    ensures ok <==> forall k | r.start <= k <= r.end :: old(table[k]) == NONE
    ensures ok ==> forall k | 0 <= k < SLOTS :: table[k] == if Covers(r, k) then r.node else old(table[k])
  {
    var k := r.start;
    while k <= r.end
      invariant r.start <= k <= r.end + 1
      invariant forall i | 0 <= i < SLOTS :: table[i] == if r.start <= i < k then r.node else old(table[i])
      invariant forall i | r.start <= i < k :: old(table[i]) == NONE
    {
      if table[k] != NONE { return false; }
      table[k] := r.node;
      k := k + 1;
    }
    ok := true;
  }

  lemma OwnedMore(rs: seq<Region>, before: seq<int>, r: Region, after: seq<int>)
    requires Owned(rs, before) && InRange(r) && Legal(rs) && |after| == SLOTS
    requires forall k | r.start <= k <= r.end :: before[k] == NONE
    requires forall k | 0 <= k < SLOTS :: after[k] == if Covers(r, k) then r.node else before[k]
    ensures Owned(rs + [r], after) && forall i | 0 <= i < |rs| :: Apart(rs[i], r)
  {
    var more := rs + [r];
    forall k | 0 <= k < SLOTS && after[k] != NONE ensures exists i :: 0 <= i < |more| && Covers(more[i], k) {
      if Covers(r, k) {
        assert Covers(more[|rs|], k);
      } else {
        var i :| 0 <= i < |rs| && Covers(rs[i], k);
        assert Covers(more[i], k);
      }
    }
    forall i | 0 <= i < |rs| ensures Apart(rs[i], r) {
      assert InRange(rs[i]);
      assert forall k | r.start <= k <= r.end :: before[k] == NONE && (Covers(rs[i], k) ==> before[k] == rs[i].node);
      assert !Covers(rs[i], r.start);
      assert r.start <= rs[i].start <= r.end ==> !Covers(rs[i], rs[i].start);
    }
  }

  lemma TakenMeansOverlap(rs: seq<Region>, table: seq<int>, r: Region, k: int)
    requires Owned(rs, table) && InRange(r) && Covers(r, k) && table[k] != NONE
    ensures exists i :: 0 <= i < |rs| && !Apart(rs[i], r)
  {
    var i :| 0 <= i < |rs| && Covers(rs[i], k);
    assert !Apart(rs[i], r);
  }

  /** The outer filling loop. */
  method Fill(rs: seq<Region>) returns (ok: bool, table: array<int>)
    requires Legal(rs)
    ensures fresh(table) && table.Length == SLOTS
    ensures ok <==> Disjoint(rs)
    ensures ok ==> Owned(rs, table[..])
  {
    table := new int[SLOTS](_ => NONE);
    for j := 0 to |rs|
      invariant fresh(table) && Owned(rs[..j], table[..]) && Disjoint(rs[..j])
    {
      ghost var before := table[..];
      ok := Claim(table, rs[j]);
      if !ok {
        ghost var k :| rs[j].start <= k <= rs[j].end && before[k] != NONE;
        TakenMeansOverlap(rs[..j], before, rs[j], k);
        return false, table;
      }
      OwnedMore(rs[..j], before, rs[j], table[..]);
      assert rs[..j + 1] == rs[..j] + [rs[j]];
    }
    assert rs[..|rs|] == rs;
    ok := true;
  }

  lemma SameMembers(a: seq<Region>, b: seq<Region>)
    requires multiset(a) == multiset(b)
    ensures forall r :: r in a <==> r in b
  {
    assert forall r :: r in multiset(a) <==> r in a;
  }

  lemma RemoveEqual<T>(a: multiset<T>, b: multiset<T>, x: T)
    requires a + multiset{x} == b + multiset{x}
    ensures a == b
  {
    assert a == (a + multiset{x}) - multiset{x};
    assert b == (b + multiset{x}) - multiset{x};
  }

  lemma DisjointWithout(a: seq<Region>, i: nat)
    requires Disjoint(a) && i < |a|
    ensures Disjoint(a[..i] + a[i + 1..]) && forall r | r in a[..i] + a[i + 1..] :: Apart(r, a[i])
  {
    var rest := a[..i] + a[i + 1..];
    assert forall j | 0 <= j < |rest| :: rest[j] == if j < i then a[j] else a[j + 1];
  }

  /** The last of b is somewhere in a; without it the rest of a is the rest of b. */
  lemma FindLast(a: seq<Region>, b: seq<Region>) returns (i: nat)
    requires multiset(a) == multiset(b) && b != []
    ensures i < |a| && a[i] == b[|b| - 1] && multiset(a[..i] + a[i + 1..]) == multiset(b[..|b| - 1])
  {
    i := Somewhere(a, b, |b| - 1);
    WithoutLast(a, b, i);
  }

  lemma Somewhere(a: seq<Region>, b: seq<Region>, n: nat) returns (i: nat)
    requires multiset(a) == multiset(b) && n < |b|
    ensures i < |a| && a[i] == b[n]
  {
    SameMembers(a, b);
    assert b[n] in a;
    i :| 0 <= i < |a| && a[i] == b[n];
  }

  lemma Taken(a: seq<Region>, i: nat)
    requires i < |a|
    ensures multiset(a) == multiset(a[..i] + a[i + 1..]) + multiset{a[i]}
  {
    InsertCounts(a[..i], a[i], a[i + 1..]);
    assert a == a[..i] + [a[i]] + a[i + 1..];
  }

  lemma WithoutLast(a: seq<Region>, b: seq<Region>, i: nat)
    requires multiset(a) == multiset(b) && b != [] && i < |a| && a[i] == b[|b| - 1]
    ensures multiset(a[..i] + a[i + 1..]) == multiset(b[..|b| - 1])
  {
    var n := |b| - 1;
    Taken(a, i);
    Taken(b, n);
    assert b[..n] + b[n + 1..] == b[..n];
    RemoveEqual(multiset(a[..i] + a[i + 1..]), multiset(b[..n]), b[n]);
  }

  lemma DisjointSnoc(b: seq<Region>, rest: seq<Region>)
    requires b != [] && Disjoint(b[..|b| - 1]) && multiset(rest) == multiset(b[..|b| - 1])
    requires forall r | r in rest :: Apart(r, b[|b| - 1])
    ensures Disjoint(b)
  {
    var n := |b| - 1;
    SameMembers(rest, b[..n]);
    forall j | 0 <= j < n ensures Apart(b[j], b[n]) {
      assert b[..n][j] in rest;
    }
    assert forall j | 0 <= j < n :: b[..n][j] == b[j];
  }

  /** None of the three notions depends on the order of the regions. */
  lemma {:induction false} DisjointAnyOrder(a: seq<Region>, b: seq<Region>)
    requires multiset(a) == multiset(b) && Disjoint(a)
    ensures Disjoint(b)
    decreases |b|
  {
    if b != [] {
      var i := FindLast(a, b);
      DisjointWithout(a, i);
      DisjointAnyOrder(a[..i] + a[i + 1..], b[..|b| - 1]);
      DisjointSnoc(b, a[..i] + a[i + 1..]);
    }
  }

  lemma LegalAnyOrder(a: seq<Region>, b: seq<Region>)
    requires multiset(a) == multiset(b) && Legal(a)
    ensures Legal(b)
  {
    SameMembers(a, b);
    forall i | 0 <= i < |b| ensures InRange(b[i]) {
      assert b[i] in a;
    }
  }

  lemma OwnedAnyOrder(a: seq<Region>, b: seq<Region>, table: seq<int>)
    requires multiset(a) == multiset(b) && Owned(a, table)
    ensures Owned(b, table)
  {
    SameMembers(a, b);
    forall k, i | 0 <= k < SLOTS && 0 <= i < |b| && Covers(b[i], k) ensures table[k] == b[i].node {
      assert b[i] in a;
    }
    forall k | 0 <= k < SLOTS && table[k] != NONE ensures exists i :: 0 <= i < |b| && Covers(b[i], k) {
      var i :| 0 <= i < |a| && Covers(a[i], k);
      assert a[i] in b;
      var j :| 0 <= j < |b| && b[j] == a[i];
      assert Covers(b[j], k);
    }
  }

  class Context {
    var nodes: seq<Master>
    var slots: Option<seq<Region>>
    var table: seq<int>
    var routeVersion: nat

    ghost predicate Valid()
      reads this
    {
      match slots
      case None => table == seq(SLOTS, _ => NONE)
      case Some(rs) => Legal(rs) && Disjoint(rs) && Sorted(rs) && Owned(rs, table)
    }

    constructor ()
      ensures Valid() && slots == None && routeVersion == 0
    {
      nodes, slots, table, routeVersion := [], None, seq(SLOTS, _ => NONE), 0;
    }

    /**
      cluster_update_route_by_addr, once the reply is parsed: the new route replaces the old
      one as a whole, or nothing changes.
      */
    method Update(ms: seq<Master>) returns (ok: bool)
      requires Valid()
      modifies this
      ensures Valid()
      ensures ok <==> AllMasters(ms) && Legal(Regions(ms)) && Disjoint(Regions(ms))
      ensures ok ==>
        && nodes == ms && routeVersion == old(routeVersion) + 1 && Owned(Regions(ms), table)
        && slots.Some? && multiset(slots.value) == multiset(Regions(ms))
      ensures !ok ==>
        nodes == old(nodes) && slots == old(slots) && table == old(table) && routeVersion == old(routeVersion)
    {
      hide Legal, Disjoint, Sorted, Owned, AllMasters, Regions;
      var collected, rs := Collect(ms);
      if !collected { return false; }
      var sorted := Sort(rs);
      LegalAnyOrder(rs, sorted);
      var filled, next := Fill(sorted);
      if Disjoint(rs) { DisjointAnyOrder(rs, sorted); }
      if !filled { return false; }
      DisjointAnyOrder(sorted, rs);
      OwnedAnyOrder(sorted, rs, next[..]);
      nodes, slots, table, routeVersion := ms, Some(sorted), next[..], routeVersion + 1;
      return true;
    }

    /** node_get_by_table. */
    method NodeByTable(slot: nat) returns (node: int)
      requires Valid()
      ensures slot >= SLOTS ==> node == NONE
      ensures slot < SLOTS && slots.Some? ==>
        && (forall i | 0 <= i < |slots.value| :: Covers(slots.value[i], slot) ==> node == slots.value[i].node)
        && (node != NONE ==> exists i :: 0 <= i < |slots.value| && Covers(slots.value[i], slot))
      ensures slot < SLOTS && slots.None? ==> node == NONE
    {
      node := if slot >= SLOTS then NONE else table[slot];
    }

    /**
      node_get_by_slot, the binary search; it can leave the array exactly when the slot lies before
      the first region.
      */
    method NodeBySlot(slot: nat) returns (found: Lookup)
      requires Valid()
      ensures found.OutOfRange? <==>
        slot < SLOTS && slots.Some? && (slots.value == [] || (slot < slots.value[0].start && Falls(|slots.value| - 1)))
      ensures !found.OutOfRange? ==>
        found == Found(if slot >= SLOTS || slots.None? then NONE else table[slot])
    {
      if slot >= SLOTS || slots.None? { return Found(NONE); }
      found := Search(slots.value, slot);
      if !found.OutOfRange? { SearchAgrees(slots.value, table, slot, found.node); }
    }
  }

  const WORD := 0x1_0000_0000

  datatype Lookup = Found(node: int) | OutOfRange

  /** Below the first region the search halves its upper bound; from 1 it goes to -1 and wraps. */
  predicate Falls(end: nat)
  {
    if end < 2 then end == 1 else Falls(end / 2 - 1)
  }

  function Pow2(k: nat): (p: nat)
    ensures p >= 1
  {
    if k == 0 then 1 else 2 * Pow2(k - 1)
  }

  lemma Pow2Grows(k: nat)
    ensures k > 0 ==> Pow2(k) == 2 * Pow2(k - 1) && Pow2(k) >= 2
  {}

  /** The search falls exactly for the array lengths whose successor is written 11... in binary. */
  lemma {:induction false} FallsClosed(end: nat, k: nat)
    requires 2 * Pow2(k) <= end + 2 < 4 * Pow2(k)
    ensures Falls(end) <==> 3 * Pow2(k) <= end + 2
    decreases end
  {
    Pow2Grows(k);
    if end >= 2 {
      FallsClosed(end / 2 - 1, k - 1);
    }
  }

  lemma Ordered(rs: seq<Region>, i: nat, j: nat)
    requires Legal(rs) && Disjoint(rs) && Sorted(rs) && i < j < |rs|
    ensures rs[i].start <= rs[i].end < rs[j].start <= rs[j].end
  {
    assert Apart(rs[i], rs[j]) && InRange(rs[i]) && InRange(rs[j]);
  }

  lemma {:induction false} FewRegions(rs: seq<Region>, i: nat)
    requires Legal(rs) && Disjoint(rs) && Sorted(rs) && i < |rs|
    ensures i <= rs[i].start < SLOTS
    decreases i
  {
    assert InRange(rs[i]);
    if i > 0 {
      FewRegions(rs, i - 1);
      Ordered(rs, i - 1, i);
    }
  }

  /** What is known of the search while it runs. */
  ghost predicate Searching(rs: seq<Region>, slot: nat, start: nat, end: nat) {
    if end < |rs| then
      && start <= end + 1
      && (forall i | 0 <= i < start :: rs[i].end < slot)
      && (forall i | end < i < |rs| :: rs[i].start > slot)
      && (slot < rs[0].start ==> start == 0 && Falls(|rs| - 1) == Falls(end))
    else
      && start == 0 && end == WORD - 1 && |rs| <= SLOTS
      && (rs == [] || (slot < rs[0].start && Falls(|rs| - 1)))
  }

  lemma GoLeft(rs: seq<Region>, slot: nat, start: nat, end: nat)
    requires Legal(rs) && Disjoint(rs) && Sorted(rs) && |rs| <= SLOTS && Searching(rs, slot, start, end)
    requires start < end < |rs|
    requires rs[start + (end - start) / 2].start > slot
    ensures Searching(rs, slot, start, (start + (end - start) / 2 - 1) % WORD)
  {
    var middle := start + (end - start) / 2;
    forall i | middle <= i < |rs| ensures rs[i].start > slot {
      if middle < i { Ordered(rs, middle, i); }
    }
    if slot < rs[0].start {
      assert middle == end / 2;
    } else if middle == 0 {
      assert false;
    } else {
      assert (middle - 1) % WORD == middle - 1;
    }
  }

  lemma GoRight(rs: seq<Region>, slot: nat, start: nat, end: nat)
    requires Legal(rs) && Disjoint(rs) && Sorted(rs) && Searching(rs, slot, start, end) && start < end < |rs|
    requires rs[start + (end - start) / 2].end < slot
    ensures Searching(rs, slot, start + (end - start) / 2 + 1, end)
  {
    var middle := start + (end - start) / 2;
    forall i | 0 <= i <= middle ensures rs[i].end < slot {
      if i < middle { Ordered(rs, i, middle); }
    }
    assert InRange(rs[0]) && rs[0].end < slot;
  }

  lemma SearchFalls(rs: seq<Region>, slot: nat, start: nat, end: nat)
    requires Searching(rs, slot, start, end) && start < end && start + (end - start) / 2 >= |rs|
    ensures rs == [] || (slot < rs[0].start && Falls(|rs| - 1))
  {
    hide Falls;
  }

  lemma SearchOn(rs: seq<Region>, slot: nat, start: nat, end: nat)
    requires Searching(rs, slot, start, end) && start < end && start + (end - start) / 2 < |rs| <= SLOTS
    ensures end < |rs|
  {
    hide Falls;
  }

  lemma SearchEnds(rs: seq<Region>, slot: nat, start: nat, end: nat)
    requires Searching(rs, slot, start, end) && start >= end
    ensures end < |rs| && (Covers(rs[end], slot) || forall i | 0 <= i < |rs| :: !Covers(rs[i], slot))
    ensures slot < rs[0].start ==> !Falls(|rs| - 1)
  {}

  /** node_get_by_slot on 32-bit unsigned indexes. */
  method Search(rs: seq<Region>, slot: nat) returns (found: Lookup)
    requires Legal(rs) && Disjoint(rs) && Sorted(rs)
    ensures found.OutOfRange? <==> rs == [] || (slot < rs[0].start && Falls(|rs| - 1))
    ensures !found.OutOfRange? ==>
      if found.node == NONE then forall i | 0 <= i < |rs| :: !Covers(rs[i], slot)
      else exists i :: 0 <= i < |rs| && Covers(rs[i], slot) && found.node == rs[i].node
  {
    hide Legal, Disjoint, Sorted, Searching, Falls;
    if rs != [] { FewRegions(rs, |rs| - 1); }
    var start, end := 0, (|rs| - 1) % WORD;
    SearchBegins(rs, slot);
    while start < end
      invariant 0 <= start && 0 <= end && Searching(rs, slot, start, end)
      decreases if end >= |rs| then 0 else end - start + 3
    {
      var middle := start + (end - start) / 2;
      if middle >= |rs| {
        SearchFalls(rs, slot, start, end);
        return OutOfRange;
      }
      SearchOn(rs, slot, start, end);
      if rs[middle].start > slot {
        GoLeft(rs, slot, start, end);
        end := (middle - 1) % WORD;
      } else if rs[middle].end < slot {
        GoRight(rs, slot, start, end);
        start := middle + 1;
      } else {
        HitMeansNotBefore(rs, slot, middle);
        return Found(rs[middle].node);
      }
    }
    SearchEnds(rs, slot, start, end);
    if rs[end].start <= slot <= rs[end].end {
      HitMeansNotBefore(rs, slot, end);
      return Found(rs[end].node);
    }
    return Found(NONE);
  }

  lemma SearchBegins(rs: seq<Region>, slot: nat)
    requires |rs| <= SLOTS
    ensures Searching(rs, slot, 0, (|rs| - 1) % WORD)
  {}

  lemma HitMeansNotBefore(rs: seq<Region>, slot: nat, i: nat)
    requires Legal(rs) && Disjoint(rs) && Sorted(rs) && i < |rs| && Covers(rs[i], slot)
    ensures rs[0].start <= slot
  {}

  lemma SearchAgrees(rs: seq<Region>, table: seq<int>, slot: nat, node: int)
    requires Owned(rs, table) && slot < SLOTS
    requires
      if node == NONE then forall i | 0 <= i < |rs| :: !Covers(rs[i], slot)
      else exists i :: 0 <= i < |rs| && Covers(rs[i], slot) && node == rs[i].node
    ensures node == table[slot]
  {}
}
