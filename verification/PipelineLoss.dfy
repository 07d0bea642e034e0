/**
  When a pipelined client loses the order of its replies: exactly after a call that is not
  clean.  Such a call leaves answers that nobody reads, or commands whose answers will not
  come, and then a later command can be handed the reply of another.
  */
module PipelineLoss {
  import opened Bytes
  import opened Resp
  import opened Commands
  import opened Format
  import opened KeySlot
  import opened Pipeline
  import opened PipelineOrder

  // Answers and who waits for them -----------------------------------

  /** How many more answers are to come from node v than queued commands wait for; negative when they are too few. */
  ghost function Orphans(table: seq<int>, st: Client, v: int): int
    requires v in st.sent && v in st.taken
  {
    |st.sent[v]| - st.taken[v] - CountOn(table, Flat(st.requests), v)
  }

  lemma {:induction false} SentCounts(sent: Wires, table: seq<int>, slots: seq<int>, cmds: seq<bytes>, v: int)
    requires |slots| == |cmds|
    ensures var after := SentAfter(sent, table, slots, cmds);
      after.Keys == sent.Keys && (v in sent ==> |after[v]| == |sent[v]| + CountOn(table, slots, v))
    decreases |slots|
  {
    if slots != [] {
      var n := |slots| - 1;
      SentCounts(sent, table, slots[..n], cmds[..n], v);
    }
  }

  lemma {:induction false} TakenCounts(table: seq<int>, taken: map<int, nat>, slots: seq<int>, v: int)
    ensures var after := TakenAfter(table, taken, slots);
      after.Keys == taken.Keys && (v in taken ==> after[v] == taken[v] + CountOn(table, slots, v))
    decreases |slots|
  {
    if slots != [] { TakenCounts(table, taken, slots[..|slots| - 1], v); }
  }

  lemma {:induction false} CountOnSome(table: seq<int>, slots: seq<int>, i: nat)
    requires i < |slots| && 0 <= slots[i] < |table|
    ensures CountOn(table, slots, table[slots[i]]) > 0
    decreases |slots|
  {
    if i < |slots| - 1 { CountOnSome(table, slots[..|slots| - 1], i); }
  }

  lemma {:induction false} CountOnNone(table: seq<int>, slots: seq<int>, v: int)
    requires NoneOn(table, slots, v)
    ensures CountOn(table, slots, v) == 0
    decreases |slots|
  {
    if slots != [] { CountOnNone(table, slots[..|slots| - 1], v); }
  }

  lemma {:induction false} FollowsCount(table: seq<int>, slots: seq<int>, parts: seq<Sent>, v: int)
    requires Follows(table, slots, parts)
    ensures OnNode(parts, v) == CountOn(table, slots, v)
    decreases |slots|
  {
    if slots != [] { FollowsCount(table, slots[..|slots| - 1], parts[..|parts| - 1], v); }
  }

  /** In step every answer to come has one waiting for it, and the other way round. */
  lemma InStepBalanced(table: seq<int>, server: Server, st: Client, parts: seq<Sent>, due: seq<Option<Reply>>, v: int)
    requires InStep(table, server, st, parts, due) && v in st.sent
    ensures v in st.taken && Orphans(table, st, v) == 0 && st.taken[v] <= |st.sent[v]|
  {
    hide Placed, OnNode, CountOn, Follows, Truthful, Owes, Flat, Queueable;
    assert Counted(parts, st.sent, st.taken, v);
    FollowsCount(table, Flat(st.requests), parts, v);
  }

  lemma InStepCoherent(table: seq<int>, server: Server, st: Client, parts: seq<Sent>, due: seq<Option<Reply>>)
    requires InStep(table, server, st, parts, due)
    ensures Coherent(table, st) && forall v | v in st.sent :: v in st.taken && Orphans(table, st, v) == 0
  {
    hide InStep, Orphans, Queueable;
    InStepParts(table, server, st, parts, due);
    forall v | v in st.sent ensures v in st.taken && Orphans(table, st, v) == 0 && st.taken[v] <= |st.sent[v]| {
      InStepBalanced(table, server, st, parts, due, v);
    }
  }

  lemma InStepParts(table: seq<int>, server: Server, st: Client, parts: seq<Sent>, due: seq<Option<Reply>>)
    requires InStep(table, server, st, parts, due)
    ensures Routed(table, st.sent) && st.sent.Keys == st.taken.Keys
    ensures forall i | 0 <= i < |st.requests| :: Queueable(table, st.requests[i])
  {
    hide Placed, Counted, Truthful, Follows, Owes, Flat;
  }

  /** One node, that of slot s, is out of step, and no other has too few answers. */
  ghost predicate Offbeat(table: seq<int>, st: Client, s: int) {
    && Coherent(table, st) && 0 <= s < SLOTS && table[s] != -1 && table[s] in st.taken
    && Orphans(table, st, table[s]) != 0
    && forall w | w in st.sent && w != table[s] :: w in st.taken && Orphans(table, st, w) >= 0
  }

  // A call that is not clean -----------------------------------------

  /** What a failing append leaves on node w, when the connection to u fails after n parts. */
  lemma AppendedOrphans(table: seq<int>, st: Client, r: Request, cmds: seq<bytes>, fails: set<nat>, w: int)
    requires Coherent(table, st) && Wellformed(r) && |cmds| == |SlotsOf(r)| && !Whole(table, r, fails)
    ensures
      var st', slots, n := Appended(table, st, r, cmds, fails), SlotsOf(r), Reach(table, SlotsOf(r), fails, 0);
      && st'.sent.Keys == st.sent.Keys == st'.taken.Keys && st'.requests == st.requests
      && (w in st.sent ==>
            && w in st.taken && st'.taken[w] <= |st'.sent[w]|
            && Orphans(table, st', w)
               == if w != -1 && w == table[slots[n]] then 0 - CountOn(table, Flat(st.requests), w)
                  else Orphans(table, st, w) + CountOn(table, slots[..n], w))
  {
    hide SentAfter, CountOn, Flat, Queueable;
    var slots, n := SlotsOf(r), Reach(table, SlotsOf(r), fails, 0);
    SentCounts(st.sent, table, slots[..n], cmds[..n], w);
  }

  lemma AppendedCoherent(table: seq<int>, st: Client, r: Request, cmds: seq<bytes>, fails: set<nat>)
    requires Coherent(table, st) && Wellformed(r) && |cmds| == |SlotsOf(r)| && !Whole(table, r, fails)
    ensures Coherent(table, Appended(table, st, r, cmds, fails))
  {
    hide Appended, Orphans, Queueable, Reach, CountOn, Flat;
    AppendedOrphans(table, st, r, cmds, fails, 0);
    var st' := Appended(table, st, r, cmds, fails);
    forall w | w in st.sent ensures st'.taken[w] <= |st'.sent[w]| {
      AppendedOrphans(table, st, r, cmds, fails, w);
    }
  }

  lemma UncleanAppend(table: seq<int>, st: Client, r: Request, cmds: seq<bytes>, fails: set<nat>) returns (s: int)
    requires Coherent(table, st) && (forall v | v in st.sent :: v in st.taken && Orphans(table, st, v) == 0)
    requires Wellformed(r) && |cmds| == |SlotsOf(r)| && !Clean(table, st, Do(r, cmds, fails))
    ensures Offbeat(table, Appended(table, st, r, cmds, fails), s)
  {
    hide Appended, Orphans, Queueable, CountOn, Flat;
    var slots, n, st' := SlotsOf(r), Reach(table, SlotsOf(r), fails, 0), Appended(table, st, r, cmds, fails);
    AppendedCoherent(table, st, r, cmds, fails);
    var u := table[slots[n]];
    if u != -1 && !NoneOn(table, Flat(st.requests), u) {
      s := slots[n];
      CountOnAny(table, Flat(st.requests), u);
    } else {
      var i :| 0 <= i < n && NodeOf(table, slots[..n][i]) != u;
      s := slots[i];
      CountOnSome(table, slots[..n], i);
      if u != -1 { CountOnNone(table, Flat(st.requests), u); }
    }
    AppendedOrphans(table, st, r, cmds, fails, 0);
    forall w | w in st.sent
      ensures w in st'.taken && (if w == table[s] then Orphans(table, st', w) != 0 else Orphans(table, st', w) >= 0)
    {
      AppendedOrphans(table, st, r, cmds, fails, w);
    }
  }

  lemma {:induction false} CountOnAny(table: seq<int>, slots: seq<int>, v: int)
    requires v != -1 && !NoneOn(table, slots, v)
    ensures CountOn(table, slots, v) > 0
  {
    var i :| 0 <= i < |slots| && NodeOf(table, slots[i]) == v;
    CountOnSome(table, slots, i);
  }

  /** What a failing take leaves on node w, when the connection to u fails after n parts. */
  lemma CollectedOrphans(table: seq<int>, st: Client, fails: set<nat>, n: nat, w: int)
    requires Coherent(table, st) && st.requests != [] && n < |SlotsOf(st.requests[0])|
    requires n == Gets(table, st.sent, st.taken, SlotsOf(st.requests[0]), fails, 0)
    ensures
      var st', slots := Collected(table, st, fails), SlotsOf(st.requests[0]);
      && st'.sent == st.sent && st'.taken.Keys == st.taken.Keys && st'.requests == st.requests[1..]
      && (w in st.sent ==>
            && w in st.taken
            && (w == NodeOf(table, slots[n]) ==> Orphans(table, st', w) == 0 - CountOn(table, Flat(st'.requests), w))
            && (w != NodeOf(table, slots[n]) ==>
                  Orphans(table, st', w) == Orphans(table, st, w) + CountOn(table, slots[n..], w)))
  {
    hide TakenAfter, CountOn, Queueable, Gets;
    var slots := SlotsOf(st.requests[0]);
    HeadNode(table, st, n);
    TakenCounts(table, st.taken, slots[..n], w);
    CountOnJoin(table, slots, Flat(st.requests[1..]), w);
    CountOnJoin(table, slots[..n], slots[n..], w);
    assert slots == slots[..n] + slots[n..];
  }

  lemma HeadNode(table: seq<int>, st: Client, n: nat)
    requires Coherent(table, st) && st.requests != [] && n < |SlotsOf(st.requests[0])|
    ensures
      var s := SlotsOf(st.requests[0])[n];
      0 <= s < SLOTS && NodeOf(table, s) == table[s] != -1 && table[s] in st.sent
  {
    assert Queueable(table, st.requests[0]);
  }

  lemma CollectedCoherent(table: seq<int>, st: Client, fails: set<nat>, n: nat)
    requires Coherent(table, st) && (forall v | v in st.sent :: v in st.taken && Orphans(table, st, v) >= 0)
    requires st.requests != [] && n < |SlotsOf(st.requests[0])|
    requires n == Gets(table, st.sent, st.taken, SlotsOf(st.requests[0]), fails, 0)
    ensures Coherent(table, Collected(table, st, fails))
  {
    hide Collected, Queueable, Gets, CountOn, Flat;
    CollectedOrphans(table, st, fails, n, 0);
    var st' := Collected(table, st, fails);
    forall w | w in st.sent ensures st'.taken[w] <= |st'.sent[w]| {
      CollectedOrphans(table, st, fails, n, w);
    }
  }

  lemma UncleanTake(table: seq<int>, st: Client, fails: set<nat>, n: nat) returns (s: int)
    requires Coherent(table, st) && (forall v | v in st.sent :: v in st.taken && Orphans(table, st, v) == 0)
    requires !Clean(table, st, Take(fails)) && n == FirstIn(fails, 0, |SlotsOf(st.requests[0])|)
    requires n == Gets(table, st.sent, st.taken, SlotsOf(st.requests[0]), fails, 0)
    ensures Offbeat(table, Collected(table, st, fails), s)
  {
    hide Collected, Orphans, Queueable, CountOn, Flat, Gets, FirstIn;
    var slots, st' := SlotsOf(st.requests[0]), Collected(table, st, fails);
    CollectedCoherent(table, st, fails, n);
    HeadNode(table, st, n);
    var u := table[slots[n]];
    if !NoneOn(table, Flat(st.requests[1..]), u) {
      s := slots[n];
      CountOnAny(table, Flat(st.requests[1..]), u);
    } else {
      var i :| 0 <= i < |slots| - n - 1 && NodeOf(table, slots[n + 1..][i]) != u;
      s := slots[n + 1 + i];
      HeadNode(table, st, n + 1 + i);
      CountOnSome(table, slots[n..], i + 1);
      CountOnNone(table, Flat(st.requests[1..]), u);
    }
    CollectedOrphans(table, st, fails, n, 0);
    forall w | w in st.sent
      ensures w in st'.taken && (if w == table[s] then Orphans(table, st', w) != 0 else Orphans(table, st', w) >= 0)
    {
      CollectedOrphans(table, st, fails, n, w);
    }
  }

  /** A call that is not clean, made in step, leaves a node out of step. */
  lemma UncleanStep(table: seq<int>, server: Server, st: Client, parts: seq<Sent>, due: seq<Option<Reply>>, op: Call)
    returns (s: int)
    requires |table| == SLOTS && InStep(table, server, st, parts, due) && WellCall(op) && !Clean(table, st, op)
    ensures 0 <= s < SLOTS && Offbeat(table, Handled(table, st, op), s)
  {
    hide InStep, Coherent, Orphans, Offbeat, Collected, Appended, Clean;
    InStepCoherent(table, server, st, parts, due);
    match op {
      case Do(r, cmds, fails) =>
        s := UncleanAppend(table, st, r, cmds, fails);
      case Take(fails) =>
        TakeStops(table, server, st, parts, due, fails);
        s := UncleanTake(table, st, fails, FirstIn(fails, 0, |SlotsOf(st.requests[0])|));
    }
    OffbeatParts(table, Handled(table, st, op), s);
  }

  lemma TakeStops(table: seq<int>, server: Server, st: Client, parts: seq<Sent>, due: seq<Option<Reply>>,
                  fails: set<nat>)
    requires |table| == SLOTS && InStep(table, server, st, parts, due) && !Clean(table, st, Take(fails))
    ensures st.requests != []
    ensures
      var slots := SlotsOf(st.requests[0]);
      Gets(table, st.sent, st.taken, slots, fails, 0) == FirstIn(fails, 0, |slots|)
  {
    hide Connected, OnRoute, Owes, TakenAfter, Gets, FirstIn;
    var slots := SlotsOf(st.requests[0]);
    OnRouteHead(table, st.requests, parts);
    FetchedNone(table, server, st.sent, st.taken, slots);
    GetsInStep(parts, st.sent, st.taken, table, server, slots, fails, 0);
  }

  // Two runs, one after the other ------------------------------------

  lemma {:induction false} PlayJoin(table: seq<int>, server: Server, st: Client, a: seq<Call>, b: seq<Call>)
    requires |table| == SLOTS && WellCalls(a) && WellCalls(b)
    ensures WellCalls(a + b) && Play(table, st, a + b) == Play(table, Play(table, st, a), b)
    ensures Heard(table, server, st, a + b) == Heard(table, server, st, a) + Heard(table, server, Play(table, st, a), b)
    decreases |b|
  {
    hide Handled, Said, WellCall, Play, Heard;
    var mid := Play(table, st, a);
    PlayNone(table, server, mid, b);
    if b == [] {
      assert a + b == a && b[..0] == b;
      assert Heard(table, server, st, a) + [] == Heard(table, server, st, a);
    } else {
      var n := |b| - 1;
      PlayJoin(table, server, st, a, b[..n]);
      JoinSplit(a, b);
      PlaySnoc(table, server, st, a + b, |a| + n);
      PlaySnoc(table, server, mid, b, n);
    }
  }

  lemma JoinSplit(a: seq<Call>, b: seq<Call>)
    requires b != []
    ensures
      var n := |b| - 1;
      && (a + b)[..|a| + n] == a + b[..n] && (a + b)[..|a| + n + 1] == a + b && b[..n + 1] == b
      && (a + b)[|a| + n] == b[n]
  {}

  lemma {:induction false} PromisesJoin(sent: Wires, table: seq<int>, server: Server, a: seq<Call>, b: seq<Call>)
    requires |table| == SLOTS && WellCalls(a) && WellCalls(b)
    ensures WellCalls(a + b) && Carried(sent, table, a + b) == Carried(Carried(sent, table, a), table, b)
    ensures Promises(sent, table, server, a + b)
         == Promises(sent, table, server, a) + Promises(Carried(sent, table, a), table, server, b)
    decreases |b|
  {
    hide Promised, SlotsOf, SentAfter, Reach, WellCall, Promises, Carried;
    var mid := Carried(sent, table, a);
    PromisesNone(mid, table, server, b);
    if b == [] {
      assert a + b == a && b[..0] == b;
      assert Promises(sent, table, server, a) + [] == Promises(sent, table, server, a);
    } else {
      var n := |b| - 1;
      PromisesJoin(sent, table, server, a, b[..n]);
      JoinSplit(a, b);
      PromisesSnoc(sent, table, server, a + b, |a| + n);
      PromisesSnoc(mid, table, server, b, n);
    }
  }

  lemma {:induction false} CarriedIsSent(table: seq<int>, st: Client, ops: seq<Call>)
    requires |table| == SLOTS && WellCalls(ops)
    ensures Play(table, st, ops).sent == Carried(st.sent, table, ops)
    decreases |ops|
  {
    hide SentAfter, Handled, SlotsOf, Reach;
    if ops != [] {
      var n := |ops| - 1;
      assert WellCalls(ops[..n]) && WellCall(ops[n]);
      CarriedIsSent(table, st, ops[..n]);
      HandledSent(table, Play(table, st, ops[..n]), ops[n]);
    }
  }

  /** Every queued command gets one reply or is still queued. */
  lemma {:induction false} ReplyCount(table: seq<int>, server: Server, st: Client, ops: seq<Call>)
    requires |table| == SLOTS && WellCalls(ops)
    ensures |Heard(table, server, st, ops)| + |Play(table, st, ops).requests|
         == |st.requests| + |Promises(st.sent, table, server, ops)|
    decreases |ops|
  {
    hide SentAfter, TakenAfter, Fetched, Deserved, Due, Carried, Gets, Reach, Lost;
    if ops != [] {
      var n := |ops| - 1;
      assert WellCalls(ops[..n]) && WellCall(ops[n]);
      ReplyCount(table, server, st, ops[..n]);
    }
  }

  // Taking while there are enough answers ----------------------------

  /** Every slot has a node, and every connection has as many unread answers as the slots want of it. */
  ghost predicate Enough(table: seq<int>, sent: Wires, taken: map<int, nat>, slots: seq<int>) {
    && Routed(table, sent) && sent.Keys == taken.Keys
    && Placeable(table, slots)
    && (forall v | v in sent :: taken[v] + CountOn(table, slots, v) <= |sent[v]|)
  }

  lemma EnoughRead(table: seq<int>, sent: Wires, taken: map<int, nat>, slots: seq<int>)
    requires Enough(table, sent, taken, slots) && slots != []
    ensures 0 <= slots[0] < |table| && Readable(sent, taken, table[slots[0]])
    ensures var v := table[slots[0]]; Enough(table, sent, taken[v := taken[v] + 1], slots[1..])
  {
    hide CountOn;
    forall v
      ensures CountOn(table, slots, v) == (if table[slots[0]] == v then 1 else 0) + CountOn(table, slots[1..], v)
    {
      CountOnHead(table, slots, v);
    }
  }

  lemma {:induction false} EnoughAfter(table: seq<int>, server: Server, sent: Wires, taken: map<int, nat>,
      slots: seq<int>, rest: seq<int>, i: nat)
    requires Enough(table, sent, taken, slots + rest) && i <= |slots|
    ensures
      var after := TakenAfter(table, taken, slots[..i]);
      && Enough(table, sent, after, slots[i..] + rest)
      && (i < |slots| ==>
            var v := NodeOf(table, slots[i]);
            Readable(sent, after, v) && TakenAfter(table, taken, slots[..i + 1]) == after[v := after[v] + 1])
    decreases i
  {
    hide Enough, Fetched, TakenAfter;
    if i == 0 {
      FetchedNone(table, server, sent, taken, slots);
      assert slots[0..] == slots;
    } else {
      EnoughAfter(table, server, sent, taken, slots, rest, i - 1);
      EnoughRead(table, sent, TakenAfter(table, taken, slots[..i - 1]), slots[i - 1..] + rest);
      assert (slots[i - 1..] + rest)[0] == slots[i - 1] && (slots[i - 1..] + rest)[1..] == slots[i..] + rest;
    }
    if i < |slots| {
      EnoughRead(table, sent, TakenAfter(table, taken, slots[..i]), slots[i..] + rest);
      assert (slots[i..] + rest)[0] == slots[i];
      FetchedSnoc(table, server, sent, taken, slots, i);
    }
  }

  lemma {:induction false} GetsAll(table: seq<int>, server: Server, sent: Wires, taken: map<int, nat>,
      slots: seq<int>, rest: seq<int>, i: nat)
    requires Enough(table, sent, taken, slots + rest) && i <= |slots|
    ensures Gets(table, sent, TakenAfter(table, taken, slots[..i]), slots, {}, i) == |slots|
    decreases |slots| - i
  {
    hide Enough, TakenAfter;
    if i < |slots| {
      EnoughAfter(table, server, sent, taken, slots, rest, i);
      GetsAll(table, server, sent, taken, slots, rest, i + 1);
    }
  }

  /** With enough answers a take reads all parts of the oldest command. */
  lemma TakeAll(table: seq<int>, server: Server, st: Client, rest: seq<int>)
    requires st.requests != [] && Enough(table, st.sent, st.taken, SlotsOf(st.requests[0]) + rest)
    ensures
      var slots := SlotsOf(st.requests[0]);
      var taken := TakenAfter(table, st.taken, slots);
      && Collected(table, st, {}) == Client(st.sent, taken, st.requests[1..]) && Enough(table, st.sent, taken, rest)
      && (var parts := Fetched(table, server, st.sent, st.taken, slots);
          |parts| == |slots| ==> Reported(table, server, st, {}) == [Due(st.requests[0], parts)])
  {
    hide Enough, Fetched, TakenAfter, Gets, Due;
    var slots := SlotsOf(st.requests[0]);
    FetchedNone(table, server, st.sent, st.taken, slots);
    GetsAll(table, server, st.sent, st.taken, slots, rest, 0);
    EnoughAfter(table, server, st.sent, st.taken, slots, rest, |slots|);
    assert slots[..|slots|] == slots && slots[|slots|..] + rest == rest;
  }

  function Copies<T>(x: T, n: nat): (s: seq<T>)
    ensures |s| == n && forall i | 0 <= i < n :: s[i] == x
  {
    seq(n, _ => x)
  }

  lemma CopiesWell(op: Call, n: nat)
    requires WellCall(op)
    ensures WellCalls(Copies(op, n)) && (n > 0 ==> Copies(op, n)[..n - 1] == Copies(op, n - 1))
  {}

  /** Takes that empty the queue of the requests a. */
  lemma {:induction false} Drained(table: seq<int>, server: Server, st: Client, a: seq<Request>, b: seq<Request>,
      rest: seq<int>, k: nat)
    requires st.requests == a + b && k <= |a| && Enough(table, st.sent, st.taken, Flat(a) + rest)
    ensures |table| == SLOTS && WellCalls(Copies(Take({}), k))
    ensures
      var st' := Play(table, st, Copies(Take({}), k));
      && st'.sent == st.sent && st'.requests == a[k..] + b
      && Enough(table, st.sent, st'.taken, Flat(a[k..]) + rest)
      && forall v | v in st.sent :: Spent(table, st, st', a, k, v)
    decreases k
  {
    hide Enough, Flat, TakenAfter, Spent, Collected;
    CopiesWell(Take({}), k);
    EnoughKeys(table, st.sent, st.taken, Flat(a) + rest);
    if k == 0 {
      assert a[0..] == a;
      forall v | v in st.sent ensures Spent(table, st, st, a, 0, v) { SpentNone(table, st, a, v); }
    } else {
      Drained(table, server, st, a, b, rest, k - 1);
      var mid := Play(table, st, Copies(Take({}), k - 1));
      DrainedOne(table, server, st, mid, a, b, rest, k);
    }
  }

  lemma EnoughKeys(table: seq<int>, sent: Wires, taken: map<int, nat>, slots: seq<int>)
    requires Enough(table, sent, taken, slots)
    ensures |table| == SLOTS && sent.Keys == taken.Keys
  {
    hide CountOn;
  }

  /** What is read from node v while the first k of the requests are taken. */
  ghost predicate Spent(table: seq<int>, st: Client, st': Client, a: seq<Request>, k: nat, v: int)
    requires k <= |a|
  {
    v in st.taken && v in st'.taken &&
    st'.taken[v] + CountOn(table, Flat(a[k..]), v) == st.taken[v] + CountOn(table, Flat(a), v)
  }

  lemma SpentNone(table: seq<int>, st: Client, a: seq<Request>, v: int)
    requires v in st.taken
    ensures Spent(table, st, st, a, 0, v)
  {
    hide CountOn, Flat;
    assert a[0..] == a;
  }

  lemma DrainedOne(table: seq<int>, server: Server, st: Client, mid: Client, a: seq<Request>, b: seq<Request>,
                   rest: seq<int>, k: nat)
    requires 0 < k <= |a| && mid.sent == st.sent && mid.requests == a[k - 1..] + b
    requires Enough(table, st.sent, mid.taken, Flat(a[k - 1..]) + rest)
    requires forall v | v in st.sent :: Spent(table, st, mid, a, k - 1, v)
    ensures
      var st' := Collected(table, mid, {});
      && st'.sent == st.sent && st'.requests == a[k..] + b
      && Enough(table, st.sent, st'.taken, Flat(a[k..]) + rest)
      && forall v | v in st.sent :: Spent(table, st, st', a, k, v)
  {
    hide Enough, TakenAfter, Collected, Spent;
    var r := a[k - 1];
    assert mid.requests[0] == r && mid.requests[1..] == a[k..] + b;
    assert a[k - 1..][0] == r && a[k - 1..][1..] == a[k..];
    assert Flat(a[k - 1..]) == SlotsOf(r) + Flat(a[k..]);
    assert Flat(a[k - 1..]) + rest == SlotsOf(r) + (Flat(a[k..]) + rest);
    TakeAll(table, server, mid, Flat(a[k..]) + rest);
    var st' := Collected(table, mid, {});
    forall v | v in st.sent ensures Spent(table, st, st', a, k, v) {
      SpentOne(table, st, mid, st', a, k, v);
    }
  }

  lemma SpentOne(table: seq<int>, st: Client, mid: Client, st': Client, a: seq<Request>, k: nat, v: int)
    requires 0 < k <= |a| && Spent(table, st, mid, a, k - 1, v)
    requires Flat(a[k - 1..]) == SlotsOf(a[k - 1]) + Flat(a[k..])
    requires st'.taken == TakenAfter(table, mid.taken, SlotsOf(a[k - 1]))
    ensures Spent(table, st, st', a, k, v)
  {
    hide TakenAfter, CountOn, Flat;
    TakenCounts(table, mid.taken, SlotsOf(a[k - 1]), v);
    CountOnJoin(table, SlotsOf(a[k - 1]), Flat(a[k..]), v);
  }

  // A wrong reply ----------------------------------------------------

  /** A server that answers with the number of commands it has seen. */
  function Counting(): Server {
    (v, cmds) => Integer(|cmds|)
  }

  /** A command of one key in slot s, over working connections. */
  function Probe(s: int, cmd: bytes): Call {
    Do(Request(GET, s, [], []), [cmd], {})
  }

  lemma OneSent(table: seq<int>, server: Server, sent: Wires, s: int, cmd: bytes)
    requires 0 <= s < |table| && table[s] in sent
    ensures var v := table[s];
      && SentAfter(sent, table, [s], [cmd]) == sent[v := sent[v] + [cmd]]
      && Delivered(sent, table, server, [s], [cmd]) == [Sent(v, |sent[v]|, server(v, sent[v] + [cmd]))]
  {
    assert [s][..0] == [] && [cmd][..0] == [];
  }

  lemma ProbeHandled(table: seq<int>, server: Server, st: Client, s: int, cmd: bytes)
    requires |table| == SLOTS && 0 <= s < SLOTS && table[s] != -1 && table[s] in st.sent
    ensures WellCall(Probe(s, cmd)) && Calm(table, Probe(s, cmd))
    ensures
      var v := table[s];
      && Handled(table, st, Probe(s, cmd))
         == Client(st.sent[v := st.sent[v] + [cmd]], st.taken, st.requests + [Request(GET, s, [], [])])
      && Promised(st.sent, table, server, Probe(s, cmd)) == [Some(server(v, st.sent[v] + [cmd]))]
  {
    hide SentAfter, Delivered, Lost;
    ReachIs(table, [s], {}, 1);
    assert [s][..1] == [s] && [cmd][..1] == [cmd];
    OneSent(table, server, st.sent, s, cmd);
  }

  /** n probes go out whole, one behind the other. */
  lemma {:induction false} ProbesPlay(table: seq<int>, server: Server, st: Client, s: int, cmd: bytes, n: nat)
    requires |table| == SLOTS && 0 <= s < SLOTS && table[s] != -1 && table[s] in st.sent
    ensures WellCalls(Copies(Probe(s, cmd), n))
    ensures Play(table, st, Copies(Probe(s, cmd), n))
         == Client(st.sent[table[s] := st.sent[table[s]] + Copies(cmd, n)], st.taken,
                   st.requests + Copies(Request(GET, s, [], []), n))
    decreases n
  {
    hide Handled, Calm, Promised;
    var v, op, r := table[s], Probe(s, cmd), Request(GET, s, [], []);
    ProbeHandled(table, server, st, s, cmd);
    CopiesWell(op, n);
    if n == 0 {
      assert st.sent[v] + Copies(cmd, 0) == st.sent[v] && st.requests + Copies(r, 0) == st.requests;
    } else {
      ProbesPlay(table, server, st, s, cmd, n - 1);
      var mid := Play(table, st, Copies(op, n - 1));
      ProbeHandled(table, server, mid, s, cmd);
      assert st.sent[v] + Copies(cmd, n - 1) + [cmd] == st.sent[v] + Copies(cmd, n);
      assert st.requests + Copies(r, n - 1) + [r] == st.requests + Copies(r, n);
    }
  }

  /** No connection fails, and a command goes out whole or not at all. */
  predicate Calm(table: seq<int>, op: Call) {
    && |table| == SLOTS && WellCall(op) && Up(op)
    && (op.Do? ==> Whole(table, op.request, {}) || NodeOf(table, SlotsOf(op.request)[0]) == -1)
  }

  predicate AllCalm(table: seq<int>, ops: seq<Call>) {
    forall i | 0 <= i < |ops| :: Calm(table, ops[i])
  }

  /** The replies handed out are those promised, in order, or errors. */
  ghost predicate Honest(table: seq<int>, server: Server, st0: Client, ops: seq<Call>) {
    && |table| == SLOTS && WellCalls(ops)
    && var heard, promises := Heard(table, server, st0, ops), Promises(st0.sent, table, server, ops);
       |heard| <= |promises| && forall k | 0 <= k < |heard| :: heard[k].None? || heard[k] == promises[k]
  }

  /** After enough probes everything queued can be answered, and one probe more. */
  lemma ProbesEnough(table: seq<int>, st: Client, s: int, cmd: bytes, n: nat)
    requires Offbeat(table, st, s) && n >= 1 - Orphans(table, st, table[s]) && n >= 0
    ensures
      var v := table[s];
      v in st.sent && Enough(table, st.sent[v := st.sent[v] + Copies(cmd, n)], st.taken, Flat(st.requests) + [s])
  {
    hide CountOn, Flat, Queueable;
    var v, slots := table[s], Flat(st.requests) + [s];
    var sent := st.sent[v := st.sent[v] + Copies(cmd, n)];
    FlatRouted(table, st.requests);
    forall w | w in st.sent ensures st.taken[w] + CountOn(table, slots, w) <= |sent[w]| {
      CountOnJoin(table, Flat(st.requests), [s], w);
      CountOnOne(table, s, w);
    }
  }

  lemma CountOnOne(table: seq<int>, s: int, w: int)
    requires 0 <= s < |table|
    ensures CountOn(table, [s], w) == if table[s] == w then 1 else 0
  {
    assert [s][..0] == [];
  }

  /** Every slot has a node. */
  ghost predicate Placeable(table: seq<int>, slots: seq<int>) {
    |table| == SLOTS && forall i | 0 <= i < |slots| :: 0 <= slots[i] < SLOTS && table[slots[i]] != -1
  }

  lemma {:induction false} FlatRouted(table: seq<int>, requests: seq<Request>)
    requires |table| == SLOTS && forall i | 0 <= i < |requests| :: Queueable(table, requests[i])
    ensures Placeable(table, Flat(requests))
    decreases |requests|
  {
    hide Queueable, Placeable;
    if requests == [] {
      PlaceableNone(table);
    } else {
      FlatRouted(table, requests[1..]);
      QueueablePlaceable(table, requests[0]);
      PlaceableJoin(table, SlotsOf(requests[0]), Flat(requests[1..]));
    }
  }

  lemma PlaceableNone(table: seq<int>)
    requires |table| == SLOTS
    ensures Placeable(table, [])
  {}

  lemma QueueablePlaceable(table: seq<int>, r: Request)
    requires Queueable(table, r)
    ensures Placeable(table, SlotsOf(r))
  {}

  lemma PlaceableJoin(table: seq<int>, a: seq<int>, b: seq<int>)
    requires Placeable(table, a) && Placeable(table, b)
    ensures Placeable(table, a + b)
  {}

  /** The reply of the first probe comes from the place the counts give, which is not its own. */
  lemma ProbeTaken(table: seq<int>, st: Client, s: int, more: seq<Request>)
    requires st.requests == [Request(GET, s, [], [])] + more && Enough(table, st.sent, st.taken, [s])
    ensures 0 <= s < |table| && table[s] in st.taken
    ensures Reported(table, Counting(), st, {}) == [Some(Integer(st.taken[table[s]] + 1))]
  {
    hide TakenAfter, Enough, Gets;
    assert [s] + [] == [s];
    EnoughRead(table, st.sent, st.taken, [s]);
    assert SlotsOf(st.requests[0]) == [s];
    TakeAll(table, Counting(), st, []);
    FetchedNone(table, Counting(), st.sent, st.taken, [s]);
    FetchedSnoc(table, Counting(), st.sent, st.taken, [s], 0);
    assert [s][..1] == [s];
  }

  /** From an offbeat client on, a probe gets a reply that is not its own. */
  lemma WrongProbe(table: seq<int>, st: Client, s: int, cmd: bytes, n: nat)
    returns (place: nat)
    requires Offbeat(table, st, s) && n > 0 && n >= 1 - Orphans(table, st, table[s])
    ensures |table| == SLOTS && table[s] in st.sent
    ensures
      var ops := Copies(Probe(s, cmd), n) + Copies(Take({}), |st.requests|);
      && WellCalls(ops) && place != |st.sent[table[s]]|
      && |Play(table, st, ops).requests| == n
      && Reported(table, Counting(), Play(table, st, ops), {}) == [Some(Integer(place + 1))]
  {
    hide Play, Offbeat, Enough, Reported, Flat, CountOn;
    OffbeatParts(table, st, s);
    var v, r := table[s], Request(GET, s, [], []);
    ProbesPlay(table, Counting(), st, s, cmd, n);
    ProbesEnough(table, st, s, cmd, n);
    var probed := Play(table, st, Copies(Probe(s, cmd), n));
    Drained(table, Counting(), probed, st.requests, Copies(r, n), [s], |st.requests|);
    PlayJoin(table, Counting(), st, Copies(Probe(s, cmd), n), Copies(Take({}), |st.requests|));
    var st' := Play(table, probed, Copies(Take({}), |st.requests|));
    assert st.requests[|st.requests|..] == [] && Flat([]) + [s] == [s] by { FlatNone(); }
    assert [] + Copies(r, n) == [r] + Copies(r, n - 1);
    ProbeTaken(table, st', s, Copies(r, n - 1));
    place := st'.taken[v];
    assert Spent(table, probed, st', st.requests, |st.requests|, v);
    PlaceOff(table, st, probed, st', s);
  }

  lemma FlatNone()
    ensures Flat([]) == []
  {}

  lemma OffbeatParts(table: seq<int>, st: Client, s: int)
    requires Offbeat(table, st, s)
    ensures |table| == SLOTS && 0 <= s < SLOTS && table[s] != -1 && table[s] in st.sent && table[s] in st.taken
  {
    hide Queueable, Orphans;
  }

  lemma PlaceOff(table: seq<int>, st: Client, probed: Client, st': Client, s: int)
    requires Offbeat(table, st, s) && probed.taken == st.taken
    requires Spent(table, probed, st', st.requests, |st.requests|, table[s])
    ensures st'.taken[table[s]] != |st.sent[table[s]]|
  {
    hide Queueable;
    assert st.requests[|st.requests|..] == [];
  }

  // The exact condition ----------------------------------------------

  lemma CalmClean(table: seq<int>, st: Client, op: Call)
    requires Calm(table, op)
    ensures Clean(table, st, op)
  {
    match op {
      case Do(r, _, _) =>
        if !Whole(table, r, {}) {
          ReachIs(table, SlotsOf(r), {}, 0);
        }
      case Take(_) =>
        if st.requests != [] {
          assert FirstIn({}, 0, |SlotsOf(st.requests[0])|) == |SlotsOf(st.requests[0])|;
        }
    }
  }

  lemma CalmWell(table: seq<int>, ops: seq<Call>)
    requires AllCalm(table, ops)
    ensures WellCalls(ops)
  {
    hide WellCall, Whole;
  }

  /** Calm calls after clean ones are clean. */
  lemma CleanThenCalm(table: seq<int>, st0: Client, ops: seq<Call>, tail: seq<Call>)
    requires AllClean(table, st0, ops) && AllCalm(table, tail)
    ensures AllClean(table, st0, ops + tail)
  {
    hide Clean, Calm, WellCall, Play;
    CalmWell(table, tail);
    var all := ops + tail;
    assert WellCalls(all);
    forall i | 0 <= i < |all| ensures CleanAt(table, st0, all, i) {
      assert WellCalls(all[..i]) && WellCall(all[i]);
      if i < |ops| {
        assert all[..i] == ops[..i] && all[i] == ops[i] && CleanAt(table, st0, ops, i);
      } else {
        assert all[i] == tail[i - |ops|];
        CalmClean(table, Play(table, st0, all[..i]), all[i]);
      }
    }
  }

  lemma CleanIsHonest(table: seq<int>, server: Server, st0: Client, ops: seq<Call>)
    requires Idle(table, st0) && AllClean(table, st0, ops)
    ensures Honest(table, server, st0, ops)
  {
    hide Idle, InStep, Play, Heard, Promises, CleanAt, WellCall;
    var parts, due := OrderKept(table, server, st0, ops);
  }

  lemma {:induction false} ProbesPromised(sent: Wires, table: seq<int>, server: Server, s: int, cmd: bytes, n: nat)
    requires |table| == SLOTS && 0 <= s < SLOTS && table[s] != -1
    ensures WellCalls(Copies(Probe(s, cmd), n)) && |Promises(sent, table, server, Copies(Probe(s, cmd), n))| == n
    decreases n
  {
    hide Carried, Deserved;
    CopiesWell(Probe(s, cmd), n);
    if n > 0 {
      ProbesPromised(sent, table, server, s, cmd, n - 1);
      ReachIs(table, [s], {}, 1);
    }
  }

  lemma {:induction false} TakesPromised(sent: Wires, table: seq<int>, server: Server, n: nat)
    requires |table| == SLOTS
    ensures WellCalls(Copies(Take({}), n)) && Promises(sent, table, server, Copies(Take({}), n)) == []
    decreases n
  {
    hide Carried;
    CopiesWell(Take({}), n);
    if n > 0 { TakesPromised(sent, table, server, n - 1); }
  }

  lemma PromisedFirst(sent: Wires, table: seq<int>, server: Server, op: Call, rest: seq<Call>)
    requires |table| == SLOTS && WellCall(op) && WellCalls(rest) && |Promised(sent, table, server, op)| == 1
    ensures WellCalls([op] + rest) && Promised(sent, table, server, op) <= Promises(sent, table, server, [op] + rest)
  {
    hide Promised, Carried, Promises, WellCall;
    PromisesJoin(sent, table, server, [op], rest);
    PromisesNone(sent, table, server, [op]);
    PromisesSnoc(sent, table, server, [op], 0);
    assert [op][..1] == [op];
  }

  /** Probes enough for all to be answered, and then takes until the first of them. */
  function Tail(s: int, cmd: bytes, n: nat, k: nat): seq<Call> {
    Copies(Probe(s, cmd), n) + Copies(Take({}), k)
  }

  lemma TailCalm(table: seq<int>, s: int, cmd: bytes, n: nat, k: nat)
    requires |table| == SLOTS && 0 <= s < SLOTS && table[s] != -1
    ensures AllCalm(table, Tail(s, cmd, n, k)) && WellCalls(Tail(s, cmd, n, k))
    ensures Tail(s, cmd, n, k + 1) == Tail(s, cmd, n, k) + [Take({})]
    ensures n > 0 ==> Tail(s, cmd, n, k) == [Probe(s, cmd)] + Tail(s, cmd, n - 1, k)
  {
    ReachIs(table, [s], {}, 1);
    assert Calm(table, Probe(s, cmd)) && Calm(table, Take({}));
    CopiesWell(Probe(s, cmd), n);
    CopiesWell(Take({}), k);
  }

  /** The last reply heard is that of the first probe, and its place is not its own. */
  lemma TailHeard(table: seq<int>, st: Client, s: int, cmd: bytes, n: nat) returns (place: nat)
    requires Offbeat(table, st, s) && n > 0 && n >= 1 - Orphans(table, st, table[s])
    ensures |table| == SLOTS && WellCalls(Tail(s, cmd, n, |st.requests| + 1)) && table[s] in st.sent
    ensures
      var heard := Heard(table, Counting(), st, Tail(s, cmd, n, |st.requests| + 1));
      |heard| == |st.requests| + 1 && heard[|st.requests|] == Some(Integer(place + 1)) && place != |st.sent[table[s]]|
  {
    hide Play, Heard, Promises, Carried, Offbeat, Orphans, Reported, WellCall, AllCalm;
    var k, server := |st.requests|, Counting();
    OffbeatParts(table, st, s);
    place := WrongProbe(table, st, s, cmd, n);
    TailCalm(table, s, cmd, n, k);
    TailCalm(table, s, cmd, n, k + 1);
    var pre, tail := Tail(s, cmd, n, k), Tail(s, cmd, n, k + 1);
    assert tail[..k + n] == pre && tail[..k + n + 1] == tail;
    PlaySnoc(table, server, st, tail, k + n);
    ReplyCount(table, server, st, pre);
    ProbesPromised(st.sent, table, server, s, cmd, n);
    TakesPromised(Carried(st.sent, table, Copies(Probe(s, cmd), n)), table, server, k);
    PromisesJoin(st.sent, table, server, Copies(Probe(s, cmd), n), Copies(Take({}), k));
  }

  lemma NotHonest(table: seq<int>, server: Server, st0: Client, ops: seq<Call>, k: nat)
    requires |table| == SLOTS && WellCalls(ops) && k < |Heard(table, server, st0, ops)|
    requires k < |Promises(st0.sent, table, server, ops)| && Heard(table, server, st0, ops)[k].Some?
    requires Heard(table, server, st0, ops)[k] != Promises(st0.sent, table, server, ops)[k]
    ensures !Honest(table, server, st0, ops)
  {}

  /** After a call that leaves a node out of step, a later command of that node gets a reply that is not its own. */
  lemma LateReply(table: seq<int>, st0: Client, ops: seq<Call>, s: int, cmd: bytes) returns (tail: seq<Call>)
    requires |table| == SLOTS && st0.requests == [] && WellCalls(ops) && Offbeat(table, Play(table, st0, ops), s)
    ensures AllCalm(table, tail) && (forall op | op in tail :: op == Probe(s, cmd) || op == Take({}))
    ensures !Honest(table, Counting(), st0, ops + tail)
  {
    hide Play, Heard, Promises, Carried, Offbeat, Orphans, WellCall, Promised, AllCalm, Honest, Probe;
    var st, server := Play(table, st0, ops), Counting();
    OffbeatParts(table, st, s);
    var o, k := Orphans(table, st, table[s]), |st.requests|;
    var n := if o > 0 then 1 else 1 - o;
    tail := Tail(s, cmd, n, k + 1);
    var place := TailHeard(table, st, s, cmd, n);
    TailCalm(table, s, cmd, n, k + 1);
    TailCalm(table, s, cmd, n - 1, k + 1);
    ProbeHandled(table, server, st, s, cmd);
    PromisedFirst(st.sent, table, server, Probe(s, cmd), Tail(s, cmd, n - 1, k + 1));
    PlayJoin(table, server, st0, ops, tail);
    PromisesJoin(st0.sent, table, server, ops, tail);
    CarriedIsSent(table, st0, ops);
    ReplyCount(table, server, st0, ops);
    NotHonest(table, server, st0, ops + tail, |Promises(st0.sent, table, server, ops)|);
  }

  /** The first call of a run that is not clean. */
  lemma {:induction false} FirstUnclean(table: seq<int>, st0: Client, ops: seq<Call>) returns (i: nat)
    requires |table| == SLOTS && WellCalls(ops) && !AllClean(table, st0, ops)
    ensures i < |ops| && AllClean(table, st0, ops[..i]) && WellCalls(ops[..i]) && WellCall(ops[i])
    ensures !Clean(table, Play(table, st0, ops[..i]), ops[i])
    decreases |ops|
  {
    hide Clean, WellCall, Play;
    i :| 0 <= i < |ops| && !CleanAt(table, st0, ops, i);
    assert WellCalls(ops[..i]) && WellCall(ops[i]);
    if !AllClean(table, st0, ops[..i]) {
      var j := FirstUnclean(table, st0, ops[..i]);
      assert ops[..i][..j] == ops[..j] && ops[..i][j] == ops[j];
      i := j;
    }
  }

  /** GET of a key of slot s, formatted. */
  function GetIn(s: nat): bytes
    requires s < SLOTS
  {
    FormatArgv([[103, 101, 116], KeyIn(s)])
  }

  /**
    A call that is not clean is seen: from there on, GETs of a key and takes over working connections
    hand some GET a reply that is not its own.
    */
  lemma UncleanIsSeen(table: seq<int>, st0: Client, ops: seq<Call>) returns (i: nat, s: nat, tail: seq<Call>)
    requires Idle(table, st0) && WellCalls(ops) && !AllClean(table, st0, ops)
    ensures i <= |ops| && s < SLOTS && Slot(KeyIn(s)) == s && AllCalm(table, tail)
    ensures forall op | op in tail :: op == Probe(s, GetIn(s)) || op == Take({})
    ensures !Honest(table, Counting(), st0, ops[..i] + tail)
  {
    hide Honest, Idle, AllCalm, Clean, WellCall, Play, InStep, Offbeat, Handled, Probe, GetIn;
    IdleTable(table, st0);
    i := FirstUnclean(table, st0, ops);
    var parts, due := OrderKept(table, Counting(), st0, ops[..i]);
    s := UncleanStep(table, Counting(), Play(table, st0, ops[..i]), parts, due, ops[i]);
    PlaySnoc(table, Counting(), st0, ops, i);
    i := i + 1;
    EverySlotHasAKey(s);
    tail := LateReply(table, st0, ops[..i], s, GetIn(s));
  }

  /**
    At every point of a run, for every server and every calm continuation, the replies handed out are
    those promised in order, or errors, if and only if every call of the run was clean when it was made.
    */
  lemma OrderIffClean(table: seq<int>, st0: Client, ops: seq<Call>)
    requires Idle(table, st0) && WellCalls(ops)
    ensures (forall i: nat, server: Server, tail: seq<Call> | i <= |ops| && AllCalm(table, tail) ::
               Honest(table, server, st0, ops[..i] + tail))
       <==> AllClean(table, st0, ops)
  {
    hide Honest, Idle, AllCalm, CleanAt, WellCall;
    if AllClean(table, st0, ops) {
      forall i: nat, server: Server, tail: seq<Call> | i <= |ops| && AllCalm(table, tail)
        ensures Honest(table, server, st0, ops[..i] + tail)
      {
        CleanPrefix(table, st0, ops, i);
        CleanThenCalm(table, st0, ops[..i], tail);
        CleanIsHonest(table, server, st0, ops[..i] + tail);
      }
    } else {
      var i, s, tail := UncleanIsSeen(table, st0, ops);
      assert !Honest(table, Counting(), st0, ops[..i] + tail);
    }
  }

  // Two runs that go wrong -------------------------------------------

  lemma RunFirst(table: seq<int>, server: Server, st: Client, op: Call, rest: seq<Call>)
    requires |table| == SLOTS && WellCall(op) && WellCalls(rest)
    ensures WellCalls([op] + rest)
    ensures Heard(table, server, st, [op] + rest)
         == Said(table, server, st, op) + Heard(table, server, Handled(table, st, op), rest)
    ensures Promises(st.sent, table, server, [op] + rest)
         == Promised(st.sent, table, server, op) + Promises(Handled(table, st, op).sent, table, server, rest)
  {
    hide Promised, Carried, Promises, WellCall, Handled, Said, Play, Heard, SlotsOf, Reach;
    var ops := [op];
    PlayJoin(table, server, st, ops, rest);
    PlayNone(table, server, st, ops);
    PlaySnoc(table, server, st, ops, 0);
    PromisesJoin(st.sent, table, server, ops, rest);
    PromisesNone(st.sent, table, server, ops);
    PromisesSnoc(st.sent, table, server, ops, 0);
    assert ops[..1] == ops;
    CarriedIsSent(table, st, ops);
  }

  /** The parts of an MGET over two slots. */
  function Pair(s1: int, s2: int, part1: bytes, part2: bytes): Call {
    Do(Request(MGET, -1, [s1, s2], [s1, s2]), [part1, part2], {})
  }

  lemma PairReach(table: seq<int>, s1: int, s2: int, part1: bytes, part2: bytes)
    requires |table| == SLOTS && 0 <= s1 < SLOTS && 0 <= s2 < SLOTS && table[s1] != -1
    ensures WellCall(Pair(s1, s2, part1, part2))
    ensures Reach(table, [s1, s2], {}, 0) == if table[s2] == -1 then 1 else 2
    ensures [s1, s2][..1] == [s1] && [part1, part2][..1] == [part1]
    ensures [s1, s2][..2] == [s1, s2] && [part1, part2][..2] == [part1, part2]
  {
    ReachIs(table, [s1, s2], {}, if table[s2] == -1 then 1 else 2);
  }

  /** The MGET stops half way: its second slot has no node, and its first part is on the way. */
  lemma HalfSent(table: seq<int>, server: Server, st: Client, s1: int, s2: int, part1: bytes, part2: bytes)
    requires |table| == SLOTS && 0 <= s1 < SLOTS && 0 <= s2 < SLOTS && table[s1] != -1 && table[s2] == -1
    requires table[s1] in st.sent
    ensures WellCall(Pair(s1, s2, part1, part2))
    ensures
      var v, op := table[s1], Pair(s1, s2, part1, part2);
      && Handled(table, st, op) == Client(st.sent[v := st.sent[v] + [part1]], st.taken, st.requests)
      && Promised(st.sent, table, server, op) == []
  {
    hide SentAfter;
    PairReach(table, s1, s2, part1, part2);
    OneSent(table, server, st.sent, s1, part1);
  }

  /** A single command is taken: the next answer of its connection, whosever it is. */
  lemma OneTaken(table: seq<int>, server: Server, st: Client, s: int)
    requires |table| == SLOTS && 0 <= s < SLOTS && Readable(st.sent, st.taken, table[s])
    requires st.requests == [Request(GET, s, [], [])]
    ensures
      var v := table[s];
      Reported(table, server, st, {}) == [Some(server(v, st.sent[v][..st.taken[v] + 1]))]
  {
    hide TakenAfter;
    var slots := [s];
    FetchedNone(table, server, st.sent, st.taken, slots);
    FetchedSnoc(table, server, st.sent, st.taken, slots, 0);
    assert slots[..1] == slots && SlotsOf(st.requests[0]) == slots;
    assert Gets(table, st.sent, st.taken, slots, {}, 0) == 1;
  }

  /**
    An MGET whose second slot has no node fails after its first part is sent; the next command for
    the first slot then gets the answer of that part.
    */
  lemma OrphanAnswer(table: seq<int>, server: Server, st: Client, s1: int, s2: int, part1: bytes, part2: bytes,
                     cmd: bytes)
    requires Idle(table, st) && |table| == SLOTS && 0 <= s1 < s2 < SLOTS && table[s1] != -1 && table[s2] == -1
    ensures
      var ops, wire := [Pair(s1, s2, part1, part2), Probe(s1, cmd), Take({})], st.sent[table[s1]];
      && WellCalls(ops)
      && Heard(table, server, st, ops) == [Some(server(table[s1], wire + [part1]))]
      && Promises(st.sent, table, server, ops) == [Some(server(table[s1], wire + [part1, cmd]))]
  {
    hide Handled, Said, Heard, Promises, Promised, Reported, Calm;
    var v, mget, get, take := table[s1], Pair(s1, s2, part1, part2), Probe(s1, cmd), Take({});
    HalfSent(table, server, st, s1, s2, part1, part2);
    var st1 := Handled(table, st, mget);
    ProbeHandled(table, server, st1, s1, cmd);
    var st2 := Handled(table, st1, get);
    var wire := st.sent[v];
    assert wire + [part1] + [cmd] == wire + [part1, cmd] && (wire + [part1, cmd])[..|wire| + 1] == wire + [part1];
    assert st.requests + [] + [get.request] == [get.request];
    OneTaken(table, server, st2, s1);
    RunThree(table, server, st, mget, get, take);
  }

  lemma RunThree(table: seq<int>, server: Server, st: Client, a: Call, b: Call, c: Call)
    requires |table| == SLOTS && WellCall(a) && WellCall(b) && WellCall(c) && a.Do? && b.Do? && c.Take?
    ensures WellCalls([a, b, c])
    ensures
      var st1 := Handled(table, st, a);
      && Heard(table, server, st, [a, b, c]) == Reported(table, server, Handled(table, st1, b), c.fails)
      && Promises(st.sent, table, server, [a, b, c])
         == Promised(st.sent, table, server, a) + Promised(st1.sent, table, server, b)
  {
    hide Handled, Promised, Reported, Promises, Heard, WellCall;
    var st1 := Handled(table, st, a);
    var st2 := Handled(table, st1, b);
    RunFirst(table, server, st2, c, []);
    RunFirst(table, server, st1, b, [c]);
    RunFirst(table, server, st, a, [b, c]);
    assert [c] + [] == [c] && [b] + [c] == [b, c] && [a] + [b, c] == [a, b, c];
    PlayNone(table, server, Handled(table, st2, c), [c]);
    PromisesNone(Handled(table, st2, c).sent, table, server, [c]);
    assert [c][..0] == [];
    NoTakePromise(st2.sent, table, server, c);
    assert Reported(table, server, st2, c.fails) + [] == Reported(table, server, st2, c.fails);
  }

  lemma NoTakePromise(sent: Wires, table: seq<int>, server: Server, op: Call)
    requires |table| == SLOTS && op.Take?
    ensures Promised(sent, table, server, op) == []
  {}

  lemma PairSent(table: seq<int>, server: Server, st: Client, s1: int, s2: int, part1: bytes, part2: bytes)
    requires |table| == SLOTS && 0 <= s1 < SLOTS && 0 <= s2 < SLOTS && table[s1] != -1 && table[s2] != -1
    requires table[s1] in st.sent && table[s2] in st.sent && table[s1] != table[s2]
    ensures WellCall(Pair(s1, s2, part1, part2))
    ensures
      var v1, v2, op := table[s1], table[s2], Pair(s1, s2, part1, part2);
      && Handled(table, st, op)
         == Client(st.sent[v1 := st.sent[v1] + [part1]][v2 := st.sent[v2] + [part2]], st.taken,
                   st.requests + [op.request])
      && |Promised(st.sent, table, server, op)| == 1
  {
    hide SentAfter, Deserved;
    PairReach(table, s1, s2, part1, part2);
    OneSent(table, server, st.sent, s1, part1);
    SentSnoc(st.sent, table, server, [s1, s2], [part1, part2], 1);
  }

  /** The first part of the MGET is asked for when its connection fails: nothing of it is read. */
  lemma PairMissed(table: seq<int>, server: Server, st: Client, s1: int, s2: int, r: Request)
    requires |table| == SLOTS && 0 <= s1 < SLOTS && table[s1] != -1 && table[s1] in st.sent && table[s1] in st.taken
    requires st.requests == [Request(MGET, -1, [s1, s2], [s1, s2]), r]
    ensures
      && Collected(table, st, {0}) == Client(st.sent, st.taken[table[s1] := |st.sent[table[s1]]|], [r])
      && Reported(table, server, st, {0}) == [None]
  {
    var slots := [s1, s2];
    FetchedNone(table, server, st.sent, st.taken, slots);
    assert SlotsOf(st.requests[0]) == slots && Gets(table, st.sent, st.taken, slots, {0}, 0) == 0;
  }

  /**
    The connection fails when the first part of an MGET over two nodes is read.  The command leaves
    the queue with its second part unread, and a command for the second node gets the answer of that part.
    */
  lemma MissedAnswer(table: seq<int>, server: Server, st: Client, s1: int, s2: int, part1: bytes, part2: bytes,
                     cmd: bytes)
    requires Idle(table, st) && |table| == SLOTS && 0 <= s1 < s2 < SLOTS
    requires table[s1] != -1 && table[s2] != -1 && table[s1] != table[s2]
    ensures
      var ops := [Pair(s1, s2, part1, part2), Probe(s2, cmd), Take({0}), Take({})];
      var wire := st.sent[table[s2]];
      && WellCalls(ops)
      && Heard(table, server, st, ops) == [None, Some(server(table[s2], wire + [part2]))]
      && |Promises(st.sent, table, server, ops)| == 2
      && Promises(st.sent, table, server, ops)[1] == Some(server(table[s2], wire + [part2, cmd]))
  {
    hide Handled, Said, Heard, Promises, Promised, Reported, Calm, Collected;
    var v1, v2, mget, get := table[s1], table[s2], Pair(s1, s2, part1, part2), Probe(s2, cmd);
    PairSent(table, server, st, s1, s2, part1, part2);
    var st1 := Handled(table, st, mget);
    ProbeHandled(table, server, st1, s2, cmd);
    var st2 := Handled(table, st1, get);
    assert st.requests + [mget.request] + [get.request] == [mget.request, get.request];
    PairMissed(table, server, st2, s1, s2, get.request);
    var st3 := Collected(table, st2, {0});
    var wire := st.sent[v2];
    assert wire + [part2] + [cmd] == wire + [part2, cmd] && (wire + [part2, cmd])[..|wire| + 1] == wire + [part2];
    OneTaken(table, server, st3, s2);
    RunFour(table, server, st, mget, get, {0}, {});
  }

  lemma RunFour(table: seq<int>, server: Server, st: Client, a: Call, b: Call, f: set<nat>, g: set<nat>)
    requires |table| == SLOTS && WellCall(a) && WellCall(b) && a.Do? && b.Do?
    ensures WellCalls([a, b, Take(f), Take(g)])
    ensures
      var st1 := Handled(table, st, a);
      var st2 := Handled(table, st1, b);
      && Heard(table, server, st, [a, b, Take(f), Take(g)])
         == Reported(table, server, st2, f) + Reported(table, server, Collected(table, st2, f), g)
      && Promises(st.sent, table, server, [a, b, Take(f), Take(g)])
         == Promised(st.sent, table, server, a) + Promised(st1.sent, table, server, b)
  {
    hide Handled, Promised, Reported, Promises, Heard, WellCall;
    var c, d := Take(f), Take(g);
    assert WellCall(c) && WellCall(d) by { TakeIsWell(f); TakeIsWell(g); }
    RunThree(table, server, st, a, b, c);
    var ops := [a, b, c, d];
    assert WellCalls(ops) && ops[..3] == [a, b, c] && ops[..4] == ops;
    PlaySnoc(table, server, st, ops, 3);
    PromisesSnoc(st.sent, table, server, ops, 3);
    assert Play(table, st, [a, b, c]) == Collected(table, Handled(table, Handled(table, st, a), b), f) by {
      PlayThree(table, st, a, b, c);
      TakeHandled(table, Handled(table, Handled(table, st, a), b), f);
    }
    NoTakePromise(Carried(st.sent, table, ops[..3]), table, server, d);
  }

  lemma TakeIsWell(f: set<nat>)
    ensures WellCall(Take(f))
  {}

  lemma TakeHandled(table: seq<int>, st: Client, f: set<nat>)
    requires |table| == SLOTS
    ensures Handled(table, st, Take(f)) == Collected(table, st, f)
  {}

  lemma PlayThree(table: seq<int>, st: Client, a: Call, b: Call, c: Call)
    requires |table| == SLOTS && WellCall(a) && WellCall(b) && WellCall(c)
    ensures WellCalls([a, b, c])
    ensures Play(table, st, [a, b, c]) == Handled(table, Handled(table, Handled(table, st, a), b), c)
  {
    hide Handled, WellCall, Play, Heard, Said;
    var ops := [a, b, c];
    assert WellCalls(ops) && ops[..3] == ops;
    PlayNone(table, Counting(), st, ops);
    PlaySnoc(table, Counting(), st, ops, 0);
    PlaySnoc(table, Counting(), st, ops, 1);
    PlaySnoc(table, Counting(), st, ops, 2);
  }
}
