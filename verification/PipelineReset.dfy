/**
  redisClusterReset (hiredis-vip-master/hircluster.c): what it promises is an empty pipeline,
  and exactly when it leaves one.
  */
module PipelineReset {
  import opened Bytes
  import opened Resp
  import opened KeySlot
  import opened Pipeline
  import opened PipelineOrder
  import opened PipelineLoss

  /** redisCLusterClearAll: every connection is closed; and the queue goes. */
  function Cleared(st: Client): Client {
    Client(st.sent, map v | v in st.taken :: if v in st.sent then |st.sent[v]| else st.taken[v], [])
  }

  /** Takes until the queue is empty or one fails; fails tells for each take where connections fail. */
  function Drain(table: seq<int>, server: Server, st: Client, fails: nat -> set<nat>, i: nat): (Client, bool)
    decreases |st.requests|
  {
    if st.requests == [] then (st, true)
    else
      var next := Collected(table, st, fails(i));
      if Reported(table, server, st, fails(i)) == [None] then (next, false)
      else Drain(table, server, next, fails, i + 1)
  }

  /**
    The pipeline after a reset.  err tells whether a call has failed since the last take began, listed
    whether an append was tried since the last reset.
    */
  function ResetTo(table: seq<int>, server: Server, st: Client, err: bool, listed: bool, fails: nat -> set<nat>): Client
  {
    if err || !listed then Cleared(st)
    else
      var (rest, ok) := Drain(table, server, st, fails, 0);
      if ok then rest else Cleared(rest)
  }

  method ClearAll(cc: Context)
    requires cc.Valid()
    modifies cc
    ensures cc.Valid() && cc.Now() == Cleared(old(cc.Now()))
  {
    cc.taken := map v | v in cc.taken :: if v in cc.sent then |cc.sent[v]| else cc.taken[v];
    cc.requests := [];
  }

  /** redisClusterReset up to the update of the route table. */
  method Reset(cc: Context, err: bool, listed: bool, fails: nat -> set<nat>)
    requires cc.Valid()
    modifies cc
    ensures cc.Valid() && cc.Now() == ResetTo(cc.table, cc.server, old(cc.Now()), err, listed, fails)
  {
    hide Collected, Reported, Cleared, Coherent;
    if err || !listed {
      ClearAll(cc);
      return;
    }
    ghost var st := cc.Now();
    var i: nat := 0;
    while true
      invariant cc.Valid()
      invariant Drain(cc.table, cc.server, cc.Now(), fails, i) == Drain(cc.table, cc.server, st, fails, 0)
      decreases |cc.requests|
    {
      assert cc.Now().requests == cc.requests;
      CollectedShorter(cc.table, cc.Now(), fails(i));
      var some, reply := cc.GetReply(fails(i));
      if !some { break; }
      if reply.None? {
        ClearAll(cc);
        return;
      }
      i := i + 1;
    }
  }

  lemma CollectedShorter(table: seq<int>, st: Client, fails: set<nat>)
    ensures st.requests == [] ==> Collected(table, st, fails) == st
    ensures st.requests != [] ==> Collected(table, st, fails).requests == st.requests[1..]
  {
    hide Gets, TakenAfter, Lost;
  }

  lemma {:induction false} FetchedAtMost(table: seq<int>, server: Server, sent: Wires, taken: map<int, nat>,
      slots: seq<int>)
    ensures |Fetched(table, server, sent, taken, slots)| <= |slots|
    decreases |slots|
  {
    hide TakenAfter;
    if slots != [] { FetchedAtMost(table, server, sent, taken, slots[..|slots| - 1]); }
  }

  /** A take that succeeds has read one answer for every part. */
  lemma TakeBalance(table: seq<int>, server: Server, st: Client, fails: set<nat>, v: int)
    requires st.requests != [] && Reported(table, server, st, fails) != [None] && v in st.sent && v in st.taken
    ensures
      var next := Collected(table, st, fails);
      && next.sent == st.sent && next.taken.Keys == st.taken.Keys && next.requests == st.requests[1..]
      && Orphans(table, next, v) == Orphans(table, st, v)
  {
    hide TakenAfter, Fetched, Gets, Due, CountOn;
    var slots := SlotsOf(st.requests[0]);
    var n := Gets(table, st.sent, st.taken, slots, fails, 0);
    FetchedAtMost(table, server, st.sent, st.taken, slots[..n]);
    assert n == |slots| && slots[..n] == slots;
    TakenCounts(table, st.taken, slots, v);
    CountOnJoin(table, slots, Flat(st.requests[1..]), v);
  }

  lemma {:induction false} DrainBalance(table: seq<int>, server: Server, st: Client, fails: nat -> set<nat>, i: nat,
      v: int)
    requires v in st.sent && v in st.taken && Drain(table, server, st, fails, i).1
    ensures
      var rest := Drain(table, server, st, fails, i).0;
      && rest.sent == st.sent && rest.taken.Keys == st.taken.Keys && rest.requests == []
      && Orphans(table, rest, v) == Orphans(table, st, v)
    decreases |st.requests|
  {
    hide Collected, Reported, Orphans;
    if st.requests != [] {
      CollectedShorter(table, st, fails(i));
      TakeBalance(table, server, st, fails(i), v);
      DrainBalance(table, server, Collected(table, st, fails(i)), fails, i + 1, v);
    }
  }

  lemma {:induction false} DrainKeys(table: seq<int>, server: Server, st: Client, fails: nat -> set<nat>, i: nat)
    ensures
      var rest := Drain(table, server, st, fails, i).0;
      rest.sent == st.sent && (st.sent.Keys == st.taken.Keys ==> rest.taken.Keys == st.taken.Keys)
    decreases |st.requests|
  {
    hide Reported, Gets, TakenAfter, SlotsOf;
    if st.requests != [] {
      var n := Gets(table, st.sent, st.taken, SlotsOf(st.requests[0]), fails(i), 0);
      TakenCounts(table, st.taken, SlotsOf(st.requests[0])[..n], 0);
      DrainKeys(table, server, Collected(table, st, fails(i)), fails, i + 1);
    }
  }

  lemma ClearedIdle(table: seq<int>, st: Client)
    requires Routed(table, st.sent) && st.sent.Keys == st.taken.Keys
    ensures Idle(table, Cleared(st))
  {}

  /** No connection has answers that nobody waits for, or too few. */
  ghost predicate Balanced(table: seq<int>, st: Client) {
    forall v | v in st.sent :: v in st.taken && Orphans(table, st, v) == 0
  }

  lemma EmptyIsIdle(table: seq<int>, st: Client)
    requires Routed(table, st.sent) && st.sent.Keys == st.taken.Keys && st.requests == []
    ensures Idle(table, st) <==> Balanced(table, st)
  {
    assert Flat(st.requests) == [];
    forall v | v in st.sent ensures Orphans(table, st, v) == |st.sent[v]| - st.taken[v] {
      assert CountOn(table, [], v) == 0;
    }
  }

  /**
    A reset leaves an empty pipeline if and only if it closes the connections, because of an error
    or because nothing was queued since the last one, or no connection was out of balance.
    */
  lemma ResetExactly(table: seq<int>, server: Server, st: Client, err: bool, listed: bool, fails: nat -> set<nat>)
    requires Coherent(table, st)
    ensures Idle(table, ResetTo(table, server, st, err, listed, fails)) <==>
      err || !listed || !Drain(table, server, st, fails, 0).1 || Balanced(table, st)
  {
    hide Drain, Idle, Cleared, Queueable, Orphans;
    var (rest, ok) := Drain(table, server, st, fails, 0);
    DrainKeys(table, server, st, fails, 0);
    ClearedIdle(table, st);
    ClearedIdle(table, rest);
    if ok {
      forall v | v in st.sent ensures rest.requests == [] && Orphans(table, rest, v) == Orphans(table, st, v) {
        DrainBalance(table, server, st, fails, 0, v);
      }
      DrainEmpties(table, server, st, fails, 0);
      EmptyIsIdle(table, rest);
    }
  }

  lemma {:induction false} DrainEmpties(table: seq<int>, server: Server, st: Client, fails: nat -> set<nat>, i: nat)
    requires Drain(table, server, st, fails, i).1
    ensures Drain(table, server, st, fails, i).0.requests == []
    decreases |st.requests|
  {
    hide Collected, Reported;
    if st.requests != [] {
      CollectedShorter(table, st, fails(i));
      DrainEmpties(table, server, Collected(table, st, fails(i)), fails, i + 1);
    }
  }

  /** In step a reset always leaves an empty pipeline. */
  lemma InStepReset(table: seq<int>, server: Server, st: Client, parts: seq<Sent>, due: seq<Option<Reply>>,
                    err: bool, listed: bool, fails: nat -> set<nat>)
    requires InStep(table, server, st, parts, due)
    ensures Idle(table, ResetTo(table, server, st, err, listed, fails))
  {
    hide InStep, Idle, ResetTo, Drain, Coherent, Orphans;
    InStepCoherent(table, server, st, parts, due);
    ResetExactly(table, server, st, err, listed, fails);
  }

  lemma OneCollected(table: seq<int>, server: Server, st: Client, s: int)
    requires |table| == SLOTS && 0 <= s < SLOTS && Readable(st.sent, st.taken, table[s])
    requires |st.requests| == 1 && SlotsOf(st.requests[0]) == [s]
    ensures Collected(table, st, {}) == Client(st.sent, st.taken[table[s] := st.taken[table[s]] + 1], [])
  {
    hide Fetched;
    var slots := [s];
    FetchedNone(table, server, st.sent, st.taken, slots);
    FetchedSnoc(table, server, st.sent, st.taken, slots, 0);
    assert slots[..1] == slots && Gets(table, st.sent, st.taken, slots, {}, 0) == 1;
  }

  /**
    A reset that does not help: an MGET stops half way, a GET is appended and its reply, a wrong one,
    is taken without an error.  The reset then finds nothing to do, and the answer of the GET is still
    on its way.
    */
  lemma ResetMissesOrphan(table: seq<int>, server: Server, st: Client, s1: int, s2: int, part1: bytes, part2: bytes,
                          cmd: bytes, fails: nat -> set<nat>)
    requires Idle(table, st) && |table| == SLOTS && 0 <= s1 < s2 < SLOTS && table[s1] != -1 && table[s2] == -1
    ensures
      var ops := [Pair(s1, s2, part1, part2), Probe(s1, cmd), Take({})];
      WellCalls(ops) && !Idle(table, ResetTo(table, server, Play(table, st, ops), false, true, fails))
  {
    hide Handled, Play, Promised, Calm, Collected, Reported;
    var v, mget, get, take := table[s1], Pair(s1, s2, part1, part2), Probe(s1, cmd), Take({});
    HalfSent(table, server, st, s1, s2, part1, part2);
    var st1 := Handled(table, st, mget);
    ProbeHandled(table, server, st1, s1, cmd);
    var st2 := Handled(table, st1, get);
    assert st2.requests == [get.request];
    OneCollected(table, server, st2, s1);
    TakeHandled(table, st2, {});
    PlayThree(table, st, mget, get, take);
  }
}
