/**
  Following redirections (redis_cluster_command_execute and redisClusterFormattedCommand in
  hiredis-vip-master/hircluster.c).

  The network, the nodes and the route updates are arbitrary: at every tick the world says
  what a question asked then is answered.
  */
module Redirect {
  import opened Bytes
  import opened Resp
  import opened KeySlot
  import opened Merge
  import Pipeline

  const MOVED: bytes := Ascii("MOVED")
  const ASK: bytes := Ascii("ASK")
  const TRYAGAIN: bytes := Ascii("TRYAGAIN")
  const CROSSSLOT: bytes := Ascii("CROSSSLOT")
  const CLUSTERDOWN: bytes := Ascii("CLUSTERDOWN")

  datatype ErrorType = NotErr | Moved | Ask | TryAgain | CrossSlot | ClusterDown | Sentinel

  /** cluster_reply_error_type. */
  function TypeOfReply(r: Reply): ErrorType {
    if !r.Error? then NotErr
    else if MOVED < r.str then Moved
    else if ASK < r.str then Ask
    else if TRYAGAIN < r.str then TryAgain
    else if CROSSSLOT < r.str then CrossSlot
    else if CLUSTERDOWN < r.str then ClusterDown
    else Sentinel
  }

  /** An error reply that begins with the word and goes on. */
  predicate Says(r: Reply, word: bytes) {
    r.Error? && |r.str| > |word| && r.str[..|word|] == word
  }

  /** MOVED, ASK, TRYAGAIN, CROSSSLOT and CLUSTERDOWN are told apart by their letters, and from every other reply. */
  lemma TypesByText(r: Reply)
    ensures TypeOfReply(r).NotErr? <==> !r.Error?
    ensures TypeOfReply(r).Moved? <==> Says(r, [77, 79, 86, 69, 68])
    ensures TypeOfReply(r).Ask? <==> Says(r, [65, 83, 75])
    ensures TypeOfReply(r).TryAgain? <==> Says(r, [84, 82, 89, 65, 71, 65, 73, 78])
    ensures TypeOfReply(r).CrossSlot? <==> Says(r, [67, 82, 79, 83, 83, 83, 76, 79, 84])
    ensures TypeOfReply(r).ClusterDown? <==> Says(r, [67, 76, 85, 83, 84, 69, 82, 68, 79, 87, 78])
    ensures Redirects(r) <==>
      || Says(r, [77, 79, 86, 69, 68]) || Says(r, [65, 83, 75]) || Says(r, [84, 82, 89, 65, 71, 65, 73, 78])
      || Says(r, [67, 82, 79, 83, 83, 83, 76, 79, 84])
      || Says(r, [67, 76, 85, 83, 84, 69, 82, 68, 79, 87, 78])
  {
    Words();
    if r.Error? && |r.str| > 3 {
      SaysPrefix(r, MOVED);
      SaysPrefix(r, ASK);
      SaysPrefix(r, TRYAGAIN);
      SaysPrefix(r, CROSSSLOT);
      SaysPrefix(r, CLUSTERDOWN);
    }
  }

  lemma SaysPrefix(r: Reply, word: bytes)
    requires r.Error? && word != []
    ensures Says(r, word) <==> word < r.str
    ensures Says(r, word) ==> r.str[0] == word[0] && (|word| > 1 ==> r.str[1] == word[1])
  {
    if word < r.str { assert r.str[..|word|] == word; }
    if Says(r, word) { assert r.str[..|word|][0] == word[0]; }
  }

  lemma Words()
    ensures MOVED == [77, 79, 86, 69, 68] && ASK == [65, 83, 75]
    ensures TRYAGAIN == [84, 82, 89, 65, 71, 65, 73, 78] && CROSSSLOT == [67, 82, 79, 83, 83, 83, 76, 79, 84]
    ensures CLUSTERDOWN == [67, 76, 85, 83, 84, 69, 82, 68, 79, 87, 78]
  {}

  predicate Redirects(r: Reply) {
    !TypeOfReply(r).NotErr? && !TypeOfReply(r).Sentinel?
  }

  datatype Link = NoContext | Broken | Up

  /** What the world answers at a tick, whichever question is asked. */
  datatype Tick = Tick(link: Link, reachable: Option<int>, accepts: bool, reply: Option<Reply>,
                       route: Option<seq<int>>, asked: Option<int>)

  /** How a command came to its node. */
  datatype How = ByTable | ByChance | ByAsk

  /** What is done for a command, and at which tick. */
  datatype Event =
    | Tried(slot: int, cmd: bytes, node: int, how: How, reply: Option<Reply>, at: nat)
    | Unlinked(node: int, other: int, at: nat)
    | Asking(node: int, at: nat)
    | Route(table: seq<int>, at: nat)

  /** The world did answer as the event says. */
  predicate Witnessed(world: nat -> Tick, e: Event) {
    match e
    case Tried(_, _, _, how, reply, at) =>
      at >= 2 && world(at).reply == reply && world(at - 1).accepts && (!how.ByAsk? ==> world(at - 2).link.Up?)
    case Unlinked(_, other, at) => world(at).link.Broken? && world(at + 1).reachable == Some(other)
    case Asking(node, at) => world(at).asked == Some(node) && world(at + 1).link.Up? && world(at + 2).reply.Some?
    case Route(table, at) => world(at).route == Some(table)
  }

  predicate Honest(world: nat -> Tick, log: seq<Event>) {
    forall i | 0 <= i < |log| :: Witnessed(world, log[i])
  }

  /** The table in force after a log that began under `table`. */
  function Current(table: seq<int>, log: seq<Event>): seq<int>
  {
    if log == [] then table
    else if log[|log| - 1].Route? then log[|log| - 1].table
    else Current(table, log[..|log| - 1])
  }

  function Sends(log: seq<Event>): nat
  {
    if log == [] then 0 else Sends(log[..|log| - 1]) + if log[|log| - 1].Tried? then 1 else 0
  }

  predicate Redirected(e: Event) {
    e.Tried? && e.reply.Some? && Redirects(e.reply.value)
  }

  /** The redirections and the broken connections. */
  function Retries(log: seq<Event>): nat
  {
    if log == [] then 0
    else Retries(log[..|log| - 1]) + if Redirected(log[|log| - 1]) || log[|log| - 1].Unlinked? then 1 else 0
  }

  /** The last event was one of these. */
  predicate Costly(log: seq<Event>) {
    log != [] && (Redirected(log[|log| - 1]) || log[|log| - 1].Unlinked?)
  }

  /** The type of the error that ended the log, if a reply did. */
  function LastType(log: seq<Event>): ErrorType {
    if log != [] && log[|log| - 1].Tried? && log[|log| - 1].reply.Some? then TypeOfReply(log[|log| - 1].reply.value)
    else NotErr
  }

  /** The table is consulted at the start, after a new one came, and after errors that just ask to try again. */
  predicate LooksUp(log: seq<Event>) {
    log == [] || log[|log| - 1].Route? || LastType(log) in {TryAgain, CrossSlot, ClusterDown}
  }

  predicate Owner(table: seq<int>, slot: int, n: int) {
    0 <= slot < |table| && n == table[slot] != -1
  }

  predicate Owned(table: seq<int>, slot: int) {
    0 <= slot < |table| && table[slot] != -1
  }

  /** The node the command may go to next. */
  predicate NextNode(slot: int, table: seq<int>, log: seq<Event>, n: int, how: How) {
    match how
    case ByTable => LooksUp(log) && Owner(Current(table, log), slot, n)
    case ByChance => log != [] && log[|log| - 1].Unlinked? && log[|log| - 1].other == n
    case ByAsk => log != [] && log[|log| - 1].Asking? && log[|log| - 1].node == n
  }

  /** What may happen next while a command is executed, `log` being what happened since it began. */
  predicate MayFollow(slot: int, cmd: bytes, table: seq<int>, log: seq<Event>, e: Event) {
    match e
    case Tried(s, c, n, how, _, _) => s == slot && c == cmd && NextNode(slot, table, log, n, how)
    case Unlinked(n, _, _) => LooksUp(log) && Owner(Current(table, log), slot, n)
    case Asking(_, _) => LastType(log) == Ask
    case Route(next, _) => LastType(log) == Moved && |next| == SLOTS
  }

  /** A log that executing the command may leave. */
  predicate Episode(slot: int, cmd: bytes, table: seq<int>, log: seq<Event>)
  {
    log == [] ||
    var n := |log| - 1;
    Episode(slot, cmd, table, log[..n]) && MayFollow(slot, cmd, table, log[..n], log[n])
  }

  /** The reply that ends the execution: the answer to the last event, unless it redirects. */
  function Settled(log: seq<Event>): Option<Reply> {
    if log != [] && log[|log| - 1].Tried? && log[|log| - 1].reply.Some? && !Redirects(log[|log| - 1].reply.value)
    then log[|log| - 1].reply else None
  }

  /** Only the last time it was sent can the command have been carried out: every earlier node redirected it. */
  lemma {:induction false} OnlyTheLastCounts(slot: int, cmd: bytes, table: seq<int>, log: seq<Event>, i: nat)
    requires Episode(slot, cmd, table, log) && i < |log| && log[i].Tried?
    ensures log[i].slot == slot && log[i].cmd == cmd
    ensures i < |log| - 1 ==> Redirected(log[i])
    decreases |log|
  {
    var n := |log| - 1;
    if i < n {
      OnlyTheLastCounts(slot, cmd, table, log[..n], i);
      assert log[..n][i] == log[i];
    }
  }

  /** Every copy sent but the last was paid for with a retry. */
  lemma {:induction false} SendsAreBounded(slot: int, cmd: bytes, table: seq<int>, log: seq<Event>)
    requires Episode(slot, cmd, table, log)
    ensures Sends(log) <= Retries(log) + 1
    ensures log == [] || !log[|log| - 1].Tried? || Redirected(log[|log| - 1]) ==> Sends(log) <= Retries(log)
    decreases |log|
  {
    hide TypeOfReply, Owner, Current;
    if log != [] {
      SendsAreBounded(slot, cmd, table, log[..|log| - 1]);
    }
  }

  /** A node that was asked to take over was named by the reply before, and gets the command right after. */
  lemma {:induction false} AskedNodeIsAnnounced(slot: int, cmd: bytes, table: seq<int>, log: seq<Event>, i: nat)
    requires Episode(slot, cmd, table, log) && i < |log|
    ensures log[i].Tried? && log[i].how.ByAsk? ==>
      && i >= 2 && log[i - 1].Asking? && log[i - 1].node == log[i].node
      && log[i - 2].Tried? && log[i - 2].reply.Some? && TypeOfReply(log[i - 2].reply.value).Ask?
    ensures log[i].Asking? && i + 1 < |log| ==>
      log[i + 1].Tried? && log[i + 1].how.ByAsk? && log[i + 1].node == log[i].node
    decreases |log|
  {
    hide TypeOfReply, Owner, Current;
    var n := |log| - 1;
    if i < n {
      AskedNodeIsAnnounced(slot, cmd, table, log[..n], i);
      if i == n - 1 { assert log[..n][n - 1] == log[i]; }
    } else if log[i].Tried? && log[i].how.ByAsk? {
      assert log[..n][n - 1] == log[n - 1];
      assert log[..n][..n - 1] == log[..n - 1];
      assert MayFollow(slot, cmd, table, log[..n - 1], log[n - 1]);
    }
  }

  // Why it ends ------------------------------------------------------

  datatype Failure = NoNode | NoLink | Unreachable | TooMany | LinkError | NoReply | NoRoute | NoAskNode

  datatype Result = Got(reply: Reply) | Failed(failure: Failure)

  /** The tick at which the execution of a command begins, the retries used up by then, and their limit. */
  datatype Span = Span(from: nat, before: nat, max: nat)

  /** The tick after an event. */
  function Past(e: Event): nat {
    e.at +
    match e
    case Tried(_, _, _, _, _, _) => 1
    case Unlinked(_, _, _) => 2
    case Asking(_, _) => 3
    case Route(_, _) => 1
  }

  /** The tick after a log that began at `from`. */
  function Clock(from: nat, log: seq<Event>): nat {
    if log == [] then from else Past(log[|log| - 1])
  }

  /** An event follows the log without a tick between; a command sent to the node of its slot asked for its link. */
  predicate OnTime(from: nat, log: seq<Event>, e: Event) {
    e.at == Clock(from, log) + if !e.Tried? then 0 else if e.how.ByAsk? then 1 else 2
  }

  /** All ticks are used, and there is a retry left before every event. */
  predicate Paced(span: Span, log: seq<Event>)
  {
    log == [] ||
    var n := |log| - 1;
    Paced(span, log[..n]) && OnTime(span.from, log[..n], log[n]) && span.before + Retries(log[..n]) <= span.max
  }

  predicate LastUnlinked(log: seq<Event>) {
    log != [] && log[|log| - 1].Unlinked?
  }

  predicate LastAsking(log: seq<Event>) {
    log != [] && log[|log| - 1].Asking?
  }

  /** The next thing to ask is the connection to the node of the slot, or to the node found by chance. */
  predicate Connecting(slot: int, table: seq<int>, log: seq<Event>) {
    (LooksUp(log) && Owned(Current(table, log), slot)) || LastUnlinked(log)
  }

  /** The reply before names a node, and t0 is the tick that tells which. */
  predicate Named(log: seq<Event>, t0: Tick) {
    LastType(log).Ask? && t0.asked.Some?
  }

  /** Why a command fails after this log, t0, t1 and t2 being the next ticks. */
  predicate Grounds(f: Failure, slot: int, table: seq<int>, log: seq<Event>, t0: Tick, t1: Tick, t2: Tick) {
    match f
    case NoNode => LooksUp(log) && !Owned(Current(table, log), slot)
    case NoLink => (Connecting(slot, table, log) && t0.link.NoContext?) || (Named(log, t0) && t1.link.NoContext?)
    case Unreachable =>
      LooksUp(log) && Owned(Current(table, log), slot) && t0.link.Broken? && t1.reachable.None?
    case TooMany => Costly(log)
    case LinkError =>
      || (LastUnlinked(log) && t0.link.Broken?)
      || (Connecting(slot, table, log) && t0.link.Up? && !t1.accepts)
      || (LastAsking(log) && !t0.accepts)
      || (Named(log, t0) && t1.link.Broken?)
    case NoReply =>
      || (log != [] && log[|log| - 1].Tried? && log[|log| - 1].reply.None?)
      || (Named(log, t0) && t1.link.Up? && t2.reply.None?)
    case NoRoute => LastType(log).Moved? && (t0.route.None? || |t0.route.value| != SLOTS)
    case NoAskNode => LastType(log).Ask? && t0.asked.None?
  }

  predicate Fails(world: nat -> Tick, from: nat, f: Failure, slot: int, table: seq<int>, log: seq<Event>) {
    var now := Clock(from, log);
    Grounds(f, slot, table, log, world(now), world(now + 1), world(now + 2))
  }

  /** The log and the result of executing a command. */
  ghost predicate Executed(world: nat -> Tick, span: Span, slot: int, cmd: bytes, table: seq<int>, log: seq<Event>,
                          r: Result) {
    && Episode(slot, cmd, table, log) && Honest(world, log) && Paced(span, log)
    && (span.before + Retries(log) > span.max <==> r == Failed(TooMany))
    && Settled(log) == (if r.Got? then Some(r.reply) else None)
    && (r.Failed? ==> Fails(world, span.from, r.failure, slot, table, log))
  }

  /** What happens next is determined. */
  lemma NextIsUnique(world: nat -> Tick, from: nat, slot: int, cmd: bytes, table: seq<int>, log: seq<Event>, d: Event,
                     e: Event)
    requires MayFollow(slot, cmd, table, log, d) && Witnessed(world, d) && OnTime(from, log, d)
    requires MayFollow(slot, cmd, table, log, e) && Witnessed(world, e) && OnTime(from, log, e)
    ensures d == e
  {
    hide TypeOfReply, Current;
  }

  /** A settled command is not touched again. */
  lemma SettledIsFinal(slot: int, cmd: bytes, table: seq<int>, log: seq<Event>, e: Event)
    requires Settled(log).Some?
    ensures !MayFollow(slot, cmd, table, log, e)
  {
    hide Current;
  }

  /** Nor is one that has failed, unless for want of retries. */
  lemma FailedIsFinal(world: nat -> Tick, from: nat, f: Failure, slot: int, cmd: bytes, table: seq<int>,
                      log: seq<Event>, e: Event)
    requires !f.TooMany? && Fails(world, from, f, slot, table, log)
    requires MayFollow(slot, cmd, table, log, e) && Witnessed(world, e)
    ensures !OnTime(from, log, e)
  {
    hide TypeOfReply, Current;
  }

  lemma GroundsAreUnique(f: Failure, g: Failure, slot: int, table: seq<int>, log: seq<Event>,
                         t0: Tick, t1: Tick, t2: Tick)
    requires Grounds(f, slot, table, log, t0, t1, t2) && Grounds(g, slot, table, log, t0, t1, t2)
    requires !f.TooMany? && !g.TooMany?
    ensures f == g
  {
    hide TypeOfReply, Current;
  }

  lemma {:induction false} StepAt(slot: int, cmd: bytes, table: seq<int>, world: nat -> Tick, span: Span,
                                  log: seq<Event>, k: nat)
    requires Episode(slot, cmd, table, log) && Paced(span, log) && Honest(world, log) && k < |log|
    ensures MayFollow(slot, cmd, table, log[..k], log[k]) && Witnessed(world, log[k])
    ensures OnTime(span.from, log[..k], log[k]) && span.before + Retries(log[..k]) <= span.max
    decreases |log|
  {
    hide MayFollow, Witnessed, OnTime, Retries;
    var n := |log| - 1;
    if k < n {
      StepAt(slot, cmd, table, world, span, log[..n], k);
      assert log[..n][..k] == log[..k] && log[..n][k] == log[k];
    }
  }

  lemma {:induction false} SamePrefix(slot: int, cmd: bytes, table: seq<int>, world: nat -> Tick, span: Span,
      a: seq<Event>, b: seq<Event>, k: nat)
    requires Episode(slot, cmd, table, a) && Paced(span, a) && Honest(world, a) && k <= |a|
    requires Episode(slot, cmd, table, b) && Paced(span, b) && Honest(world, b) && k <= |b|
    ensures a[..k] == b[..k]
    decreases k
  {
    hide MayFollow, Witnessed, OnTime, Retries, Episode, Paced, Honest;
    if k > 0 {
      SamePrefix(slot, cmd, table, world, span, a, b, k - 1);
      StepAt(slot, cmd, table, world, span, a, k - 1);
      StepAt(slot, cmd, table, world, span, b, k - 1);
      NextIsUnique(world, span.from, slot, cmd, table, a[..k - 1], a[k - 1], b[k - 1]);
      assert a[..k] == a[..k - 1] + [a[k - 1]] && b[..k] == b[..k - 1] + [b[k - 1]];
    }
  }

  /** Nothing happens after the end of an execution. */
  lemma NoLonger(slot: int, cmd: bytes, table: seq<int>, world: nat -> Tick, span: Span, a: seq<Event>, r: Result,
                 b: seq<Event>)
    requires Executed(world, span, slot, cmd, table, a, r)
    requires Episode(slot, cmd, table, b) && Paced(span, b) && Honest(world, b)
    ensures |b| <= |a|
  {
    hide MayFollow, Witnessed, OnTime, Retries, Episode, Paced, Honest, Settled, Fails;
    var k := |a|;
    if k < |b| {
      SamePrefix(slot, cmd, table, world, span, a, b, k);
      StepAt(slot, cmd, table, world, span, b, k);
      assert a[..k] == a;
      if r.Got? {
        SettledIsFinal(slot, cmd, table, a, b[k]);
      } else {
        FailedIsFinal(world, span.from, r.failure, slot, cmd, table, a, b[k]);
      }
    }
  }

  /** The world decides what an execution does and how it ends. */
  lemma Determined(slot: int, cmd: bytes, table: seq<int>, world: nat -> Tick, span: Span, a: seq<Event>, r: Result,
                   b: seq<Event>, q: Result)
    requires Executed(world, span, slot, cmd, table, a, r) && Executed(world, span, slot, cmd, table, b, q)
    ensures a == b && r == q
  {
    hide Retries, Episode, Paced, Honest, Settled, Grounds;
    NoLonger(slot, cmd, table, world, span, a, r, b);
    NoLonger(slot, cmd, table, world, span, b, q, a);
    SamePrefix(slot, cmd, table, world, span, a, b, |a|);
    assert a[..|a|] == a && b[..|b|] == b;
    var now := Clock(span.from, a);
    if r.Failed? && q.Failed? && !r.failure.TooMany? && !q.failure.TooMany? {
      GroundsAreUnique(r.failure, q.failure, slot, table, a, world(now), world(now + 1), world(now + 2));
    }
  }

  /** A node that is up, takes the command and answers without redirecting: one send, and that answer. */
  lemma OneSend(slot: int, cmd: bytes, table: seq<int>, world: nat -> Tick, span: Span, n: int, v: Reply,
                ep: seq<Event>, r: Result)
    requires Executed(world, span, slot, cmd, table, ep, r) && span.before <= span.max
    requires Owner(table, slot, n) && world(span.from).link.Up? && world(span.from + 1).accepts
    requires world(span.from + 2).reply == Some(v) && !Redirects(v)
    ensures r == Got(v) && ep == [Tried(slot, cmd, n, ByTable, Some(v), span.from + 2)]
  {
    hide TypeOfReply, Redirects, Current;
    var e := Tried(slot, cmd, n, ByTable, Some(v), span.from + 2);
    assert Current(table, []) == table && Retries([]) == 0 by { NothingYet(table); }
    assert MayFollow(slot, cmd, table, [], e) && Witnessed(world, e) && OnTime(span.from, [], e);
    assert [e][..0] == [] && [e][0] == e;
    assert Episode(slot, cmd, table, []) && Paced(span, []);
    assert Retries([e]) == 0 && Settled([e]) == Some(v);
    hide Executed;
    OneIsExecuted(slot, cmd, table, world, span, e, v);
    Determined(slot, cmd, table, world, span, ep, r, [e], Got(v));
  }

  lemma NothingYet(table: seq<int>)
    ensures Current(table, []) == table && Retries([]) == 0
  {}

  lemma OneIsExecuted(slot: int, cmd: bytes, table: seq<int>, world: nat -> Tick, span: Span, e: Event, v: Reply)
    requires MayFollow(slot, cmd, table, [], e) && Witnessed(world, e) && OnTime(span.from, [], e)
    requires span.before <= span.max && Retries([e]) == 0 && Settled([e]) == Some(v)
    ensures Executed(world, span, slot, cmd, table, [e], Got(v))
  {
    hide MayFollow, Witnessed, OnTime, Settled, Fails, Redirected;
    NothingYet(table);
    assert [e][..0] == [] && Episode(slot, cmd, table, []) && Paced(span, []);
  }

  /** The answer handed out is that to the last copy sent; all before it were redirections. */
  lemma FirstAnswer(slot: int, cmd: bytes, table: seq<int>, world: nat -> Tick, span: Span, ep: seq<Event>, r: Result)
    requires Executed(world, span, slot, cmd, table, ep, r) && r.Got?
    ensures !Redirects(r.reply) && ep != [] && ep[|ep| - 1].Tried? && ep[|ep| - 1].reply == Some(r.reply)
    ensures forall i | 0 <= i < |ep| - 1 && ep[i].Tried? :: Redirected(ep[i])
  {
    hide Episode, Paced, Honest, Retries, Redirects, Fails;
    forall i | 0 <= i < |ep| - 1 && ep[i].Tried? ensures Redirected(ep[i]) {
      OnlyTheLastCounts(slot, cmd, table, ep, i);
    }
  }

  /** A world in which every question has a good answer, and every route table it gives knows the slot. */
  ghost predicate Healthy(world: nat -> Tick, slot: int) {
    forall at: nat :: Sane(world(at), slot)
  }

  predicate Sane(t: Tick, slot: int) {
    && t.link.Up? && t.accepts && t.reply.Some? && t.asked.Some?
    && t.route.Some? && |t.route.value| == SLOTS && Owned(t.route.value, slot)
  }

  lemma {:induction false} StaysOwned(slot: int, table: seq<int>, world: nat -> Tick, log: seq<Event>)
    requires Healthy(world, slot) && Honest(world, log) && Owned(table, slot)
    ensures Owned(Current(table, log), slot) && (log != [] ==> !log[|log| - 1].Unlinked?)
    decreases |log|
  {
    if log != [] {
      var n := |log| - 1;
      var e := log[n];
      assert Witnessed(world, e) && Sane(world(e.at), slot);
      StaysOwned(slot, table, world, log[..n]);
    }
  }

  /** In such a world a command is answered, or redirected more often than the limit allows. */
  lemma HealthyIsAnswered(slot: int, cmd: bytes, table: seq<int>, world: nat -> Tick, span: Span, ep: seq<Event>,
                          r: Result)
    requires Executed(world, span, slot, cmd, table, ep, r) && Healthy(world, slot) && Owned(table, slot)
    ensures r.Got? || (r == Failed(TooMany) && span.before + Retries(ep) > span.max)
  {
    hide TypeOfReply, Episode, Paced, Retries, Current, LooksUp;
    StaysOwned(slot, table, world, ep);
    var now := Clock(span.from, ep);
    assert Sane(world(now), slot) && Sane(world(now + 1), slot) && Sane(world(now + 2), slot);
    if ep != [] {
      var e := ep[|ep| - 1];
      assert Witnessed(world, e) && Sane(world(e.at), slot);
    }
  }

  lemma Extend(slot: int, cmd: bytes, table: seq<int>, world: nat -> Tick, log: seq<Event>, e: Event)
    requires Episode(slot, cmd, table, log) && MayFollow(slot, cmd, table, log, e) && Honest(world, log)
    requires Witnessed(world, e)
    ensures Episode(slot, cmd, table, log + [e]) && Honest(world, log + [e])
    ensures Retries(log + [e]) == Retries(log) + if Redirected(e) || e.Unlinked? then 1 else 0
    ensures Current(table, log + [e]) == if e.Route? then e.table else Current(table, log)
    ensures LastType(log + [e]) == if e.Tried? && e.reply.Some? then TypeOfReply(e.reply.value) else NotErr
  {
    hide TypeOfReply, MayFollow, Redirects, Witnessed;
    assert (log + [e])[..|log|] == log;
  }

  /** What is known of a log under way, and of the table and retries it led to. */
  ghost predicate Underway(slot: int, cmd: bytes, start: seq<int>, world: nat -> Tick, span: Span, log: seq<Event>,
                           table: seq<int>, retries: nat) {
    && Episode(slot, cmd, start, log) && Honest(world, log) && Paced(span, log)
    && table == Current(start, log) && |table| == SLOTS && retries == Retries(log)
  }

  lemma Begins(slot: int, cmd: bytes, table: seq<int>, world: nat -> Tick, span: Span)
    requires |table| == SLOTS
    ensures Underway(slot, cmd, table, world, span, [], table, 0) && Settled([]) == None && LooksUp([])
    ensures Clock(span.from, []) == span.from
  {}

  lemma UnderwayTable(slot: int, cmd: bytes, start: seq<int>, world: nat -> Tick, span: Span, log: seq<Event>,
                      table: seq<int>, retries: nat)
    requires Underway(slot, cmd, start, world, span, log, table, retries)
    ensures table == Current(start, log) && |table| == SLOTS
  {
    hide Episode, Honest, Paced, Current, Retries;
  }

  lemma PacedMore(span: Span, log: seq<Event>, e: Event)
    requires Paced(span, log) && OnTime(span.from, log, e) && span.before + Retries(log) <= span.max
    ensures Paced(span, log + [e])
  {
    hide OnTime, Retries;
    assert (log + [e])[..|log|] == log;
  }

  /** Why the search for a node fails. */
  lemma LookupFails(world: nat -> Tick, from: nat, f: Failure, slot: int, table: seq<int>, log: seq<Event>)
    requires LooksUp(log)
    requires
      var now, owned := Clock(from, log), Owned(Current(table, log), slot);
      || (f.NoNode? && !owned) || (f.NoLink? && owned && world(now).link.NoContext?)
      || (f.Unreachable? && owned && world(now).link.Broken? && world(now + 1).reachable.None?)
    ensures Fails(world, from, f, slot, table, log)
  {
    hide LooksUp, Owned, Current;
  }

  lemma ChanceFails(world: nat -> Tick, from: nat, f: Failure, slot: int, table: seq<int>, log: seq<Event>)
    requires LastUnlinked(log)
    requires
      var now := Clock(from, log);
      f.TooMany? || (f.NoLink? && world(now).link.NoContext?) || (f.LinkError? && world(now).link.Broken?)
    ensures Fails(world, from, f, slot, table, log)
  {
    hide LooksUp, Owned, Current;
  }

  lemma OnTry(slot: int, cmd: bytes, start: seq<int>, world: nat -> Tick, span: Span, log: seq<Event>, table: seq<int>,
              retries: nat, e: Event)
    requires Underway(slot, cmd, start, world, span, log, table, retries) && e.Tried? && Witnessed(world, e)
    requires e.slot == slot && e.cmd == cmd && NextNode(slot, start, log, e.node, e.how)
    requires OnTime(span.from, log, e) && span.before + retries <= span.max
    ensures Underway(slot, cmd, start, world, span, log + [e], table, retries + if Redirected(e) then 1 else 0)
    ensures LastType(log + [e]) == if e.reply.Some? then TypeOfReply(e.reply.value) else NotErr
    ensures Settled(log + [e]) == if e.reply.Some? && !Redirects(e.reply.value) then e.reply else None
  {
    hide TypeOfReply, NextNode, Witnessed, Redirects, Honest, Episode, Current, Retries, LastType, OnTime, Paced;
    Extend(slot, cmd, start, world, log, e);
    PacedMore(span, log, e);
  }

  lemma OnOther(slot: int, cmd: bytes, start: seq<int>, world: nat -> Tick, span: Span, log: seq<Event>,
                table: seq<int>, retries: nat, e: Event)
    requires Underway(slot, cmd, start, world, span, log, table, retries) && !e.Tried? && Witnessed(world, e)
    requires MayFollow(slot, cmd, start, log, e) && OnTime(span.from, log, e) && span.before + retries <= span.max
    ensures
      var table', n := if e.Route? then e.table else table, if e.Unlinked? then 1 else 0;
      Underway(slot, cmd, start, world, span, log + [e], table', retries + n)
    ensures Settled(log + [e]) == None && (e.Route? ==> LooksUp(log + [e]))
  {
    hide TypeOfReply, Witnessed, Redirects, Honest, Episode, Current, Retries, LastType, OnTime;
    assert e.Route? ==> |e.table| == SLOTS;
    hide MayFollow, Paced;
    Extend(slot, cmd, start, world, log, e);
    PacedMore(span, log, e);
  }

  class Context {
    const world: nat -> Tick
    const max: nat
    var table: seq<int>
    var retryCount: nat
    var clock: nat
    ghost var log: seq<Event>

    ghost predicate Valid()
      reads this
    {
      |table| == SLOTS && retryCount <= max
    }

    constructor (world: nat -> Tick, table: seq<int>, max: nat)
      requires |table| == SLOTS
      ensures Valid() && this.world == world && this.table == table && this.max == max
      ensures retryCount == 0 && log == []
    {
      this.world, this.table, this.max := world, table, max;
      retryCount, clock, log := 0, 0, [];
    }

    /** One question to the world. */
    method Ask() returns (t: Tick)
      modifies this`clock
      ensures t == world(old(clock)) && clock == old(clock) + 1
    {
      t := world(clock);
      clock := clock + 1;
    }

    /** The `retry` label: the node of the slot, or any reachable one when its connection is broken. */
    method FindNode(slot: int, cmd: bytes, ghost start: seq<int>, ghost span: Span, ghost base: seq<Event>,
                    ghost ep: seq<Event>)
      returns (failure: Option<Failure>, n: int, how: How, ghost more: seq<Event>)
      requires Valid() && span.max == max && retryCount >= span.before && LooksUp(ep) && Settled(ep) == None
      requires log == base + ep && clock == Clock(span.from, ep)
      requires Underway(slot, cmd, start, world, span, ep, table, retryCount - span.before)
      modifies this`clock, this`retryCount, this`log
      ensures old(retryCount) <= retryCount <= max + 1 && (retryCount > max <==> failure == Some(TooMany))
      ensures Underway(slot, cmd, start, world, span, more, table, retryCount - span.before) && Settled(more) == None
      ensures log == base + more
      ensures failure.Some? ==> Fails(world, span.from, failure.value, slot, start, more)
      ensures failure.None? ==>
        && NextNode(slot, start, more, n, how) && !how.ByAsk?
        && clock == Clock(span.from, more) + 1 && world(clock - 1).link.Up? && Connecting(slot, start, more)
    {
      hide Episode, Honest, Retries, Current, LastType, Paced, Fails, Underway, Witnessed, Settled, LooksUp;
      UnderwayTable(slot, cmd, start, world, span, ep, table, retryCount - span.before);
      n, how, failure, more := if 0 <= slot < SLOTS then table[slot] else -1, ByTable, None, ep;
      if n == -1 {
        LookupFails(world, span.from, NoNode, slot, start, ep);
        failure := Some(NoNode);
        return;
      }
      var t := Ask();
      if t.link.NoContext? {
        LookupFails(world, span.from, NoLink, slot, start, ep);
        failure := Some(NoLink);
        return;
      }
      if t.link.Broken? {
        failure, n, more := FindOther(slot, cmd, n, start, span, base, ep);
        how := ByChance;
      }
    }

    /** Any node that can be reached, in place of the one whose connection is broken. */
    method FindOther(slot: int, cmd: bytes, broken: int, ghost start: seq<int>, ghost span: Span,
                     ghost base: seq<Event>, ghost ep: seq<Event>)
      returns (failure: Option<Failure>, n: int, ghost more: seq<Event>)
      requires Valid() && span.max == max && retryCount >= span.before && LooksUp(ep) && Settled(ep) == None
      requires log == base + ep && clock == Clock(span.from, ep) + 1 && world(clock - 1).link.Broken?
      requires Owner(Current(start, ep), slot, broken)
      requires Underway(slot, cmd, start, world, span, ep, table, retryCount - span.before)
      modifies this`clock, this`retryCount, this`log
      ensures old(retryCount) <= retryCount <= max + 1 && (retryCount > max <==> failure == Some(TooMany))
      ensures Underway(slot, cmd, start, world, span, more, table, retryCount - span.before) && Settled(more) == None
      ensures log == base + more
      ensures failure.Some? ==> Fails(world, span.from, failure.value, slot, start, more)
      ensures failure.None? ==>
        && NextNode(slot, start, more, n, ByChance) && LastUnlinked(more)
        && clock == Clock(span.from, more) + 1 && world(clock - 1).link.Up?
    {
      hide Episode, Honest, Retries, Current, LastType, Paced, Fails, Underway, Settled, LooksUp;
      n, failure, more := -1, None, ep;
      ghost var at := clock - 1;
      var t := Ask();
      if t.reachable.None? {
        LookupFails(world, span.from, Unreachable, slot, start, ep);
        failure := Some(Unreachable);
        return;
      }
      n := t.reachable.value;
      ghost var e := Unlinked(broken, n, at);
      OnOther(slot, cmd, start, world, span, ep, table, retryCount - span.before, e);
      retryCount := retryCount + 1;
      more, log := ep + [e], log + [e];
      if retryCount > max {
        ChanceFails(world, span.from, TooMany, slot, start, more);
        failure := Some(TooMany);
        return;
      }
      t := Ask();
      if t.link.NoContext? {
        ChanceFails(world, span.from, NoLink, slot, start, more);
        failure := Some(NoLink);
      } else if t.link.Broken? {
        ChanceFails(world, span.from, LinkError, slot, start, more);
        failure := Some(LinkError);
      }
    }

    /** The ASK branch: the named node is connected and told ASKING. */
    method AskNode(ghost slot: int, ghost start: seq<int>, ghost ep: seq<Event>)
      returns (failure: Option<Failure>, n: int)
      requires LastType(ep).Ask?
      modifies this`clock
      ensures clock >= old(clock) && failure != Some(TooMany)
      ensures failure.Some? ==>
        Grounds(failure.value, slot, start, ep, world(old(clock)), world(old(clock) + 1), world(old(clock) + 2))
      ensures failure.None? ==> clock == old(clock) + 3 && Witnessed(world, Asking(n, old(clock)))
    {
      hide TypeOfReply, LastType, Current;
      n := -1;
      var t := Ask();
      if t.asked.None? { return Some(NoAskNode), n; }
      n := t.asked.value;
      t := Ask();
      if t.link.NoContext? { return Some(NoLink), n; }
      if t.link.Broken? { return Some(LinkError), n; }
      t := Ask();
      if t.reply.None? { return Some(NoReply), n; }
      failure := None;
    }

    /** The switch over the error types: update the route, turn to the named node, or just try again. */
    method Follow(slot: int, cmd: bytes, reply: Reply, ghost start: seq<int>, ghost span: Span, ghost retries: nat,
                  ghost base: seq<Event>, ghost ep: seq<Event>)
      returns (failure: Option<Failure>, asked: Option<int>, ghost more: seq<Event>)
      requires Redirects(reply) && LastType(ep) == TypeOfReply(reply) && Settled(ep) == None
      requires log == base + ep && clock == Clock(span.from, ep) && span.before + retries <= span.max
      requires Underway(slot, cmd, start, world, span, ep, table, retries)
      modifies this`clock, this`table, this`log
      ensures Underway(slot, cmd, start, world, span, more, table, retries) && Settled(more) == None
      ensures log == base + more && failure != Some(TooMany) && |table| == SLOTS
      ensures failure.Some? ==> Fails(world, span.from, failure.value, slot, start, more)
      ensures failure.None? ==>
        && clock == Clock(span.from, more)
        && if asked.Some? then NextNode(slot, start, more, asked.value, ByAsk) && LastAsking(more) else LooksUp(more)
    {
      hide Episode, Honest, Retries, Current, TypeOfReply, Paced;
      failure, asked, more := None, None, ep;
      match TypeOfReply(reply) {
        case Moved =>
          var t := Ask();
          if t.route.None? || |t.route.value| != SLOTS { failure := Some(NoRoute); return; }
          ghost var e := Route(t.route.value, clock - 1);
          OnOther(slot, cmd, start, world, span, ep, table, retries, e);
          table := t.route.value;
          more, log := ep + [e], log + [e];
        case Ask =>
          var n;
          ghost var at := clock;
          failure, n := AskNode(slot, start, ep);
          if failure.Some? { return; }
          ghost var e := Asking(n, at);
          OnOther(slot, cmd, start, world, span, ep, table, retries, e);
          asked, more, log := Some(n), ep + [e], log + [e];
        case _ =>
      }
    }

    /** The `ask_retry` label: the command goes to the node; a redirection costs a retry. */
    method Transmit(slot: int, cmd: bytes, n: int, how: How, ghost start: seq<int>, ghost span: Span,
                    ghost base: seq<Event>, ghost ep: seq<Event>)
      returns (r: Result, ghost more: seq<Event>)
      requires Valid() && span.max == max && retryCount >= span.before
      requires Settled(ep) == None && NextNode(slot, start, ep, n, how)
      requires if how.ByAsk? then LastAsking(ep) && clock == Clock(span.from, ep)
        else Connecting(slot, start, ep) && clock == Clock(span.from, ep) + 1 && world(clock - 1).link.Up?
      requires log == base + ep && Underway(slot, cmd, start, world, span, ep, table, retryCount - span.before)
      modifies this`clock, this`retryCount, this`log
      ensures old(retryCount) <= retryCount <= max + 1 && (retryCount > max <==> r == Failed(TooMany))
      ensures Underway(slot, cmd, start, world, span, more, table, retryCount - span.before)
      ensures log == base + more
      ensures Settled(more) == if r.Got? && !Redirects(r.reply) then Some(r.reply) else None
      ensures r.Got? ==> LastType(more) == TypeOfReply(r.reply) && clock == Clock(span.from, more)
      ensures r.Got? && Redirects(r.reply) ==> retryCount > old(retryCount)
      ensures r.Failed? ==> Fails(world, span.from, r.failure, slot, start, more)
    {
      hide Episode, Honest, Current, Retries, TypeOfReply, NextNode, LastType, Underway, Settled, Paced, Connecting;
      more := ep;
      var t := Ask();
      if !t.accepts { return Failed(LinkError), ep; }
      t := Ask();
      ghost var e := Tried(slot, cmd, n, how, t.reply, clock - 1);
      OnTry(slot, cmd, start, world, span, ep, table, retryCount - span.before, e);
      more, log := ep + [e], log + [e];
      if t.reply.None? { return Failed(NoReply), more; }
      r := Got(t.reply.value);
      if Redirects(r.reply) {
        retryCount := retryCount + 1;
        if retryCount > max { r := Failed(TooMany); }
      }
    }

    /** redis_cluster_command_execute; ep is what it did. */
    method Execute(slot: int, cmd: bytes) returns (r: Result, ghost ep: seq<Event>)
      requires Valid()
      modifies this
      ensures |table| == SLOTS && log == old(log) + ep && table == Current(old(table), ep)
      ensures retryCount == old(retryCount) + Retries(ep) <= max + 1
      ensures Executed(world, Span(old(clock), old(retryCount), max), slot, cmd, old(table), ep, r)
      ensures r.Got? ==> clock == Clock(old(clock), ep)
      ensures Sends(ep) <= Retries(ep) + if r == Failed(TooMany) then 0 else 1
    {
      hide Episode, Honest, Current, Retries, Sends, TypeOfReply, Settled, Redirects, LooksUp, NextNode, LastType,
        Underway, Paced, Fails, Connecting;
      ep := [];
      ghost var span, start := Span(clock, retryCount, max), table;
      Begins(slot, cmd, table, world, span);
      var asked, failure := None, None;
      while true
        invariant Valid() && retryCount >= span.before && log == old(log) + ep && Settled(ep) == None
        invariant Underway(slot, cmd, start, world, span, ep, table, retryCount - span.before)
        invariant clock == Clock(span.from, ep)
        invariant if asked.Some? then NextNode(slot, start, ep, asked.value, ByAsk) && LastAsking(ep) else LooksUp(ep)
        decreases max + 1 - retryCount
      {
        var n, how := -1, ByAsk;
        if asked.Some? {
          n := asked.value;
        } else {
          failure, n, how, ep := FindNode(slot, cmd, start, span, old(log), ep);
          if failure.Some? { r := Failed(failure.value); break; }
        }
        r, ep := Transmit(slot, cmd, n, how, start, span, old(log), ep);
        if r.Failed? || !Redirects(r.reply) { break; }
        failure, asked, ep := Follow(slot, cmd, r.reply, start, span, retryCount - span.before, old(log), ep);
        if failure.Some? { r := Failed(failure.value); break; }
      }
      Ends(slot, cmd, start, world, span, ep, table, retryCount - span.before);
      if r == Failed(TooMany) { CostlyAtLast(world, span.from, slot, start, ep); }
    }

    /**
      redisClusterFormattedCommand, once the command is split; eps is what was done for each part, and
      failure why the last one failed, if it did.
      */
    method FormattedCommand(r: Pipeline.Request, cmds: seq<bytes>)
      returns (reply: Option<Reply>, ghost eps: seq<seq<Event>>, ghost failure: Option<Failure>)
      requires Valid() && Pipeline.Wellformed(r) && |cmds| == |Pipeline.SlotsOf(r)|
      modifies this
      ensures Valid() && retryCount == 0
      ensures log == old(log) + Flat(eps) && table == Current(old(table), Flat(eps))
      ensures Story(r, cmds, old(table), eps) && Honest(world, Flat(eps))
      ensures Acted(world, Span(old(clock), old(retryCount), max), Pipeline.SlotsOf(r), cmds, old(table), eps, failure)
      ensures reply == Delivers(r, eps)
      ensures Sends(Flat(eps)) <= |Pipeline.SlotsOf(r)| + max - old(retryCount)
    {
      hide Episode, Honest, Current, Sends, Retries, Settled, Story, Flat, MergeReplies, Collected, Goes, Executed,
        PartDone, Clock;
      var slots := Pipeline.SlotsOf(r);
      ghost var span := Span(clock, retryCount, max);
      eps, failure := [], None;
      EmptyStory(r, cmds, table);
      EmptyPace(clock);
      var cs: seq<Answer> := [];
      for i := 0 to |slots|
        invariant Valid() && |eps| == i && retryCount == old(retryCount) + Retries(Flat(eps))
        invariant clock == Clock(old(clock), Flat(eps)) && failure.None?
        invariant log == old(log) + Flat(eps) && table == Current(old(table), Flat(eps))
        invariant Story(r, cmds, old(table), eps) && Goes(eps) && Honest(world, Flat(eps))
        invariant forall j | 0 <= j < i :: PartDone(world, span, slots, cmds, old(table), eps, None, j)
        invariant i > 0 ==> r.slotNum < 0
        invariant Sends(Flat(eps)) <= i + Retries(Flat(eps))
        invariant cs == Collected(r.subs, eps, i)
      {
        var result, ep := Execute(slots[i], cmds[i]);
        ExecutedParts(world, Span(Clock(old(clock), Flat(eps)), old(retryCount) + Retries(Flat(eps)), max), slots[i],
                      cmds[i], Current(old(table), Flat(eps)), ep, result);
        StoryMore(r, cmds, old(table), eps, ep);
        PartsDoneMore(world, span, slots, cmds, old(table), eps, ep, result);
        FlatMore(old(table), old(clock), eps, ep);
        HonestJoin(world, Flat(eps), ep);
        eps := eps + [ep];
        if r.slotNum >= 0 || result.Failed? || result.reply.Error? {
          reply := if result.Got? then Some(result.reply) else None;
          failure := if result.Got? then None else Some(result.failure);
          retryCount := 0;
          return;
        }
        cs := cs + [Answer(slots[i], Some(result.reply))];
        GoesMore(r.subs, eps, i);
      }
      CollectedSlots(r.subs, eps);
      if eps != [] { LastGoes(eps); }
      reply := PostFragment(r.typ, r.fragSeq, cs);
      retryCount := 0;
    }
  }

  /** How part i ended: only the last one may have failed. */
  ghost function ResultAt(eps: seq<seq<Event>>, failure: Option<Failure>, i: nat): Result
    requires i < |eps|
  {
    if i == |eps| - 1 && failure.Some? then Failed(failure.value)
    else if Settled(eps[i]).Some? then Got(Settled(eps[i]).value)
    else Failed(NoReply)
  }

  /** Part i was executed right after the parts before it, under the table and with the retries they left. */
  ghost predicate PartDone(world: nat -> Tick, span: Span, slots: seq<int>, cmds: seq<bytes>, table: seq<int>,
                           eps: seq<seq<Event>>, failure: Option<Failure>, i: nat)
    requires i < |eps| <= |cmds| == |slots|
  {
    var done := Flat(eps[..i]);
    Executed(world, Span(Clock(span.from, done), span.before + Retries(done), span.max), slots[i], cmds[i],
             Current(table, done), eps[i], ResultAt(eps, failure, i))
  }

  /** The parts are executed one after the other, and all of them unless one fails or is answered with an error. */
  ghost predicate Acted(world: nat -> Tick, span: Span, slots: seq<int>, cmds: seq<bytes>, table: seq<int>,
                        eps: seq<seq<Event>>, failure: Option<Failure>) {
    && |eps| <= |cmds| == |slots| && (failure.Some? ==> eps != [])
    && (forall i | 0 <= i < |eps| :: PartDone(world, span, slots, cmds, table, eps, failure, i))
    && (|eps| < |slots| ==>
          failure.Some? || (eps != [] && Settled(eps[|eps| - 1]).Some? && Settled(eps[|eps| - 1]).value.Error?))
  }

  lemma EmptyPace(from: nat)
    ensures Clock(from, []) == from && Retries([]) == 0
  {}

  lemma ExecutedParts(world: nat -> Tick, span: Span, slot: int, cmd: bytes, table: seq<int>, ep: seq<Event>, r: Result)
    requires Executed(world, span, slot, cmd, table, ep, r)
    ensures Episode(slot, cmd, table, ep) && Honest(world, ep)
    ensures span.before + Retries(ep) > span.max <==> r == Failed(TooMany)
    ensures Settled(ep) == if r.Got? then Some(r.reply) else None
  {
    hide Episode, Honest, Paced, Settled, Retries, Fails;
  }

  lemma PartsDoneMore(world: nat -> Tick, span: Span, slots: seq<int>, cmds: seq<bytes>, table: seq<int>,
                      eps: seq<seq<Event>>, ep: seq<Event>, r: Result)
    requires |eps| < |cmds| == |slots| && Goes(eps)
    requires forall i | 0 <= i < |eps| :: PartDone(world, span, slots, cmds, table, eps, None, i)
    requires
      var done := Flat(eps);
      Executed(world, Span(Clock(span.from, done), span.before + Retries(done), span.max), slots[|eps|], cmds[|eps|],
               Current(table, done), ep, r)
    ensures
      var failure := if r.Got? then None else Some(r.failure);
      forall i | 0 <= i <= |eps| :: PartDone(world, span, slots, cmds, table, eps + [ep], failure, i)
  {
    hide Executed, Flat, Clock, Retries, Current, Settled;
    var n, failure := |eps|, if r.Got? then None else Some(r.failure);
    ExecutedParts(world, Span(Clock(span.from, Flat(eps)), span.before + Retries(Flat(eps)), span.max),
                  slots[n], cmds[n], Current(table, Flat(eps)), ep, r);
    forall i | 0 <= i <= n ensures PartDone(world, span, slots, cmds, table, eps + [ep], failure, i) {
      assert (eps + [ep])[..i] == eps[..i] && eps[..n] == eps;
      if i < n { assert PartDone(world, span, slots, cmds, table, eps, None, i); }
    }
  }

  /** In a healthy world a command fails only for want of retries. */
  lemma HealthyCommand(world: nat -> Tick, span: Span, slots: seq<int>, cmds: seq<bytes>, table: seq<int>,
                       eps: seq<seq<Event>>, failure: Option<Failure>)
    requires Acted(world, span, slots, cmds, table, eps, failure) && Honest(world, Flat(eps))
    requires forall i | 0 <= i < |slots| :: Healthy(world, slots[i]) && Owned(table, slots[i])
    ensures failure.None? || failure == Some(TooMany)
  {
    hide Executed, Clock, Retries, Current, Settled, Healthy, Honest, Flat;
    if failure.Some? {
      var n := |eps| - 1;
      var done := Flat(eps[..n]);
      assert PartDone(world, span, slots, cmds, table, eps, failure, n);
      HonestInit(world, eps);
      StaysOwned(slots[n], table, world, done);
      HealthyIsAnswered(slots[n], cmds[n], Current(table, done), world,
                        Span(Clock(span.from, done), span.before + Retries(done), span.max),
                        eps[n], Failed(failure.value));
    }
  }

  lemma HonestInit(world: nat -> Tick, eps: seq<seq<Event>>)
    requires eps != [] && Honest(world, Flat(eps))
    ensures Honest(world, Flat(eps[..|eps| - 1]))
  {
    hide Witnessed;
    var a := Flat(eps[..|eps| - 1]);
    assert forall i | 0 <= i < |a| :: Flat(eps)[i] == a[i];
  }

  lemma CostlyAtLast(world: nat -> Tick, from: nat, slot: int, table: seq<int>, log: seq<Event>)
    requires Fails(world, from, TooMany, slot, table, log)
    ensures Costly(log)
  {}

  lemma Ends(slot: int, cmd: bytes, start: seq<int>, world: nat -> Tick, span: Span, log: seq<Event>, table: seq<int>,
             retries: nat)
    requires Underway(slot, cmd, start, world, span, log, table, retries)
    ensures Episode(slot, cmd, start, log) && Honest(world, log) && Paced(span, log)
    ensures table == Current(start, log) && |table| == SLOTS
    ensures retries == Retries(log) && Sends(log) <= Retries(log) + 1
    ensures Costly(log) ==> Sends(log) <= Retries(log)
  {
    hide Episode, Honest, Current, Paced;
    SendsAreBounded(slot, cmd, start, log);
  }

  function Flat(eps: seq<seq<Event>>): seq<Event>
  {
    if eps == [] then [] else Flat(eps[..|eps| - 1]) + eps[|eps| - 1]
  }

  /** Each part is executed once, in order, under the table its predecessors left; only the last may fail. */
  predicate Story(r: Pipeline.Request, cmds: seq<bytes>, table: seq<int>, eps: seq<seq<Event>>)
    requires |cmds| == |Pipeline.SlotsOf(r)|
  {
    && |eps| <= |cmds|
    && (forall i | 0 <= i < |eps| :: Part(Pipeline.SlotsOf(r), cmds, table, eps, i))
    && (forall i | 0 <= i < |eps| - 1 :: Settled(eps[i]).Some? && !Settled(eps[i]).value.Error?)
  }

  /** Part i was executed under the table the parts before it left. */
  predicate Part(slots: seq<int>, cmds: seq<bytes>, table: seq<int>, eps: seq<seq<Event>>, i: nat)
    requires i < |eps| <= |cmds| == |slots|
  {
    Episode(slots[i], cmds[i], Current(table, Flat(eps[..i])), eps[i])
  }

  /** What the caller gets: the first failure or error reply, or the merged replies. */
  function Delivers(r: Pipeline.Request, eps: seq<seq<Event>>): Option<Reply>
  {
    if r.slotNum >= 0 then if eps == [] then None else Settled(eps[|eps| - 1])
    else if eps != [] && (Settled(eps[|eps| - 1]).None? || Settled(eps[|eps| - 1]).value.Error?)
    then Settled(eps[|eps| - 1])
    else if |eps| != |r.subs| then None
    else MergeReplies(r.typ, r.fragSeq, Collected(r.subs, eps, |eps|))
  }

  function Collected(subs: seq<int>, eps: seq<seq<Event>>, n: nat): seq<Answer>
    requires n <= |subs| && n <= |eps|
  {
    seq(n, i requires 0 <= i < n => Answer(subs[i], Settled(eps[i])))
  }

  predicate Goes(eps: seq<seq<Event>>) {
    forall i | 0 <= i < |eps| :: Settled(eps[i]).Some? && !Settled(eps[i]).value.Error?
  }

  lemma EmptyStory(r: Pipeline.Request, cmds: seq<bytes>, table: seq<int>)
    requires |cmds| == |Pipeline.SlotsOf(r)|
    ensures Story(r, cmds, table, []) && Goes([]) && Collected(r.subs, [], 0) == []
    ensures Flat([]) == [] && Current(table, []) == table && Sends([]) == 0
    ensures forall world: nat -> Tick :: Honest(world, [])
  {}

  lemma HonestJoin(world: nat -> Tick, a: seq<Event>, b: seq<Event>)
    requires Honest(world, a) && Honest(world, b)
    ensures Honest(world, a + b)
  {
    hide Witnessed;
  }

  lemma {:induction false} AppendLogs(table: seq<int>, from: nat, a: seq<Event>, b: seq<Event>)
    ensures Current(table, a + b) == Current(Current(table, a), b)
    ensures Sends(a + b) == Sends(a) + Sends(b) && Retries(a + b) == Retries(a) + Retries(b)
    ensures Clock(from, a + b) == Clock(Clock(from, a), b)
    decreases |b|
  {
    if b == [] {
      assert a + b == a;
    } else {
      var n := |b| - 1;
      AppendLogs(table, from, a, b[..n]);
      assert (a + b)[..|a + b| - 1] == a + b[..n];
    }
  }

  lemma PartMore(slots: seq<int>, cmds: seq<bytes>, table: seq<int>, eps: seq<seq<Event>>, ep: seq<Event>, i: nat)
    requires i <= |eps| < |cmds| == |slots|
    requires if i < |eps| then Part(slots, cmds, table, eps, i)
      else Episode(slots[i], cmds[i], Current(table, Flat(eps)), ep)
    ensures Part(slots, cmds, table, eps + [ep], i)
  {
    hide Episode, Current, Flat;
    assert (eps + [ep])[..i] == eps[..i];
    if i == |eps| { assert eps[..i] == eps; }
  }

  lemma FlatMore(table: seq<int>, from: nat, eps: seq<seq<Event>>, ep: seq<Event>)
    ensures Flat(eps + [ep]) == Flat(eps) + ep
    ensures Current(table, Flat(eps + [ep])) == Current(Current(table, Flat(eps)), ep)
    ensures Sends(Flat(eps + [ep])) == Sends(Flat(eps)) + Sends(ep)
    ensures Retries(Flat(eps + [ep])) == Retries(Flat(eps)) + Retries(ep)
    ensures Clock(from, Flat(eps + [ep])) == Clock(Clock(from, Flat(eps)), ep)
  {
    hide Current, Sends, Retries, Clock;
    assert (eps + [ep])[..|eps|] == eps;
    AppendLogs(table, from, Flat(eps), ep);
  }

  lemma StoryMore(r: Pipeline.Request, cmds: seq<bytes>, table: seq<int>, eps: seq<seq<Event>>, ep: seq<Event>)
    requires |cmds| == |Pipeline.SlotsOf(r)| && Story(r, cmds, table, eps) && Goes(eps) && |eps| < |cmds|
    requires Episode(Pipeline.SlotsOf(r)[|eps|], cmds[|eps|], Current(table, Flat(eps)), ep)
    ensures Story(r, cmds, table, eps + [ep])
  {
    hide Episode, Current, Settled, Pipeline.SlotsOf, Part, Flat;
    var more := eps + [ep];
    forall i | 0 <= i < |more| ensures Part(Pipeline.SlotsOf(r), cmds, table, more, i) {
      PartMore(Pipeline.SlotsOf(r), cmds, table, eps, ep, i);
    }
  }

  lemma GoesMore(subs: seq<int>, eps: seq<seq<Event>>, i: nat)
    requires |eps| == i + 1 && i < |subs| && Goes(eps[..i]) && Settled(eps[i]).Some? && !Settled(eps[i]).value.Error?
    ensures Goes(eps)
    ensures Collected(subs, eps, i + 1) == Collected(subs, eps[..i], i) + [Answer(subs[i], Settled(eps[i]))]
  {
    hide Settled;
    assert forall j | 0 <= j < i :: eps[..i][j] == eps[j];
  }

  lemma LastGoes(eps: seq<seq<Event>>)
    requires Goes(eps) && eps != []
    ensures Settled(eps[|eps| - 1]).Some? && !Settled(eps[|eps| - 1]).value.Error?
  {
    hide Settled;
  }

  lemma CollectedSlots(subs: seq<int>, eps: seq<seq<Event>>)
    requires |eps| == |subs|
    ensures forall s | s in subs :: s in Slots(Collected(subs, eps, |eps|))
  {
    hide Settled;
    var cs := Collected(subs, eps, |eps|);
    assert forall i | 0 <= i < |subs| :: cs[i].slot == subs[i];
  }
}
