/**
  When a pipelined client gets its replies in order (redisClusterAppendFormattedCommand and
  redisClusterGetReply in hiredis-vip-master/hircluster.c): as long as a call that fails half
  way leaves no answer that nobody reads, and no queued command whose answer is lost.
  */
module PipelineOrder {
  import opened Bytes
  import opened Resp
  import opened KeySlot
  import opened Pipeline

  // Counting slots ---------------------------------------------------

  /** The slots of all requests, one after the other. */
  function Flat(requests: seq<Request>): seq<int>
  {
    if requests == [] then [] else SlotsOf(requests[0]) + Flat(requests[1..])
  }

  lemma {:induction false} FlatSnoc(requests: seq<Request>, r: Request)
    ensures Flat(requests + [r]) == Flat(requests) + SlotsOf(r)
    decreases |requests|
  {
    if requests == [] {
      assert (requests + [r])[1..] == [];
    } else {
      assert (requests + [r])[1..] == requests[1..] + [r];
      FlatSnoc(requests[1..], r);
    }
  }

  /** How many of the slots are served by node v. */
  function CountOn(table: seq<int>, slots: seq<int>, v: int): nat
  {
    if slots == [] then 0
    else
      var s := slots[|slots| - 1];
      CountOn(table, slots[..|slots| - 1], v) + if 0 <= s < |table| && table[s] == v then 1 else 0
  }

  lemma {:induction false} CountOnJoin(table: seq<int>, a: seq<int>, b: seq<int>, v: int)
    ensures CountOn(table, a + b, v) == CountOn(table, a, v) + CountOn(table, b, v)
    decreases |b|
  {
    if b == [] {
      assert a + b == a;
    } else {
      CountOnJoin(table, a, b[..|b| - 1], v);
      assert (a + b)[..|a + b| - 1] == a + b[..|b| - 1];
    }
  }

  lemma CountOnHead(table: seq<int>, slots: seq<int>, v: int)
    requires slots != [] && 0 <= slots[0] < |table|
    ensures CountOn(table, slots, v) == (if table[slots[0]] == v then 1 else 0) + CountOn(table, slots[1..], v)
  {
    assert slots == slots[..1] + slots[1..];
    CountOnJoin(table, slots[..1], slots[1..], v);
    assert slots[..1][..0] == [];
  }

  // What is on the way -----------------------------------------------

  /** The parts on the way, request by request, and the replies due for them. */
  ghost predicate Owes(requests: seq<Request>, parts: seq<Sent>, due: seq<Option<Reply>>)
    decreases |requests|
  {
    if requests == [] then parts == [] && due == []
    else
      var n := |SlotsOf(requests[0])|;
      && n <= |parts| && due != []
      && due[0] == Due(requests[0], parts[..n])
      && Owes(requests[1..], parts[n..], due[1..])
  }

  lemma {:induction false} OwesMore(requests: seq<Request>, parts: seq<Sent>, due: seq<Option<Reply>>,
                                    r: Request, more: seq<Sent>)
    requires Owes(requests, parts, due) && |more| == |SlotsOf(r)|
    ensures Owes(requests + [r], parts + more, due + [Due(r, more)])
    decreases |requests|
  {
    hide Due;
    if requests == [] {
      OwesOne(parts, r, more);
    } else {
      var n := |SlotsOf(requests[0])|;
      OwesMore(requests[1..], parts[n..], due[1..], r, more);
      OwesCons(requests, parts, due, r, more);
    }
  }

  lemma OwesOne(parts: seq<Sent>, r: Request, more: seq<Sent>)
    requires parts == [] && |more| == |SlotsOf(r)|
    ensures Owes([r], parts + more, [Due(r, more)])
  {
    hide Due, SlotsOf;
    assert parts + more == more && more[..|more|] == more;
    assert Owes([], [], []);
    assert [r][1..] == [] && [Due(r, more)][1..] == [] && more[|more|..] == [];
  }

  lemma OwesIntro(requests: seq<Request>, parts: seq<Sent>, due: seq<Option<Reply>>)
    requires requests != [] && |SlotsOf(requests[0])| <= |parts| && due != []
    requires due[0] == Due(requests[0], parts[..|SlotsOf(requests[0])|])
    requires Owes(requests[1..], parts[|SlotsOf(requests[0])|..], due[1..])
    ensures Owes(requests, parts, due)
  {
    hide Due, SlotsOf;
  }

  lemma OwesCons(requests: seq<Request>, parts: seq<Sent>, due: seq<Option<Reply>>, r: Request, more: seq<Sent>)
    requires requests != [] && Owes(requests, parts, due) && |more| == |SlotsOf(r)|
    requires Owes(requests[1..] + [r], parts[|SlotsOf(requests[0])|..] + more, due[1..] + [Due(r, more)])
    ensures Owes(requests + [r], parts + more, due + [Due(r, more)])
  {
    hide Due, SlotsOf, Owes;
    OwesHead(requests, parts, due);
    var n, last := |SlotsOf(requests[0])|, Due(r, more);
    assert (requests + [r])[1..] == requests[1..] + [r];
    assert (parts + more)[..n] == parts[..n];
    assert (parts + more)[n..] == parts[n..] + more;
    assert (due + [last])[1..] == due[1..] + [last];
    OwesIntro(requests + [r], parts + more, due + [last]);
  }

  /** How many of the parts went to node v. */
  function OnNode(parts: seq<Sent>, v: int): nat
  {
    if parts == [] then 0 else OnNode(parts[..|parts| - 1], v) + if parts[|parts| - 1].node == v then 1 else 0
  }

  lemma {:induction false} OnNodeHead(parts: seq<Sent>, v: int)
    requires parts != []
    ensures OnNode(parts, v) == (if parts[0].node == v then 1 else 0) + OnNode(parts[1..], v)
    decreases |parts|
  {
    if |parts| == 1 {
      assert parts[..0] == [] && parts[1..] == [];
    } else {
      OnNodeHead(parts[..|parts| - 1], v);
      assert parts[1..][..|parts| - 2] == parts[..|parts| - 1][1..];
    }
  }

  /** The parts on the way are, connection by connection, the unread answers in their order. */
  ghost predicate InOrder(parts: seq<Sent>, sent: Wires, taken: map<int, nat>)
  {
    && sent.Keys == taken.Keys
    && (forall i | 0 <= i < |parts| :: Placed(parts, taken, i))
    && (forall v | v in sent :: Counted(parts, sent, taken, v))
  }

  ghost predicate Placed(parts: seq<Sent>, taken: map<int, nat>, i: nat)
    requires i < |parts|
  {
    parts[i].node in taken && parts[i].place == taken[parts[i].node] + OnNode(parts[..i], parts[i].node)
  }

  ghost predicate Counted(parts: seq<Sent>, sent: Wires, taken: map<int, nat>, v: int)
  {
    v in sent && v in taken && |sent[v]| == taken[v] + OnNode(parts, v)
  }

  lemma InOrderSend(parts: seq<Sent>, sent: Wires, taken: map<int, nat>, v: int, cmd: bytes, reply: Reply)
    requires InOrder(parts, sent, taken) && v in sent
    ensures InOrder(parts + [Sent(v, |sent[v]|, reply)], sent[v := sent[v] + [cmd]], taken)
  {
    var more := parts + [Sent(v, |sent[v]|, reply)];
    var sent' := sent[v := sent[v] + [cmd]];
    assert more[..|parts|] == parts;
    assert Counted(parts, sent, taken, v);
    forall i | 0 <= i < |more| ensures Placed(more, taken, i) {
      assert more[..i] == parts[..i];
      if i < |parts| { assert Placed(parts, taken, i); }
    }
    forall w | w in sent' ensures Counted(more, sent', taken, w) {
      assert Counted(parts, sent, taken, w);
    }
  }

  lemma HeadCount(parts: seq<Sent>, i: nat, v: int)
    requires 0 < i <= |parts|
    ensures OnNode(parts[..i], v) == (if parts[0].node == v then 1 else 0) + OnNode(parts[1..][..i - 1], v)
  {
    hide OnNode;
    OnNodeHead(parts[..i], v);
    assert parts[..i][1..] == parts[1..][..i - 1];
  }

  lemma PlacedTake(parts: seq<Sent>, taken: map<int, nat>, i: nat)
    requires i + 1 < |parts| && Placed(parts, taken, i + 1) && parts[0].node in taken
    ensures Placed(parts[1..], taken[parts[0].node := taken[parts[0].node] + 1], i)
  {
    hide OnNode;
    assert parts[1..][i] == parts[i + 1];
    HeadCount(parts, i + 1, parts[i + 1].node);
  }

  lemma CountedTake(parts: seq<Sent>, sent: Wires, taken: map<int, nat>, w: int)
    requires parts != [] && Counted(parts, sent, taken, w) && parts[0].node in taken
    ensures Counted(parts[1..], sent, taken[parts[0].node := taken[parts[0].node] + 1], w)
  {
    hide OnNode;
    OnNodeHead(parts, w);
  }

  lemma InOrderTake(parts: seq<Sent>, sent: Wires, taken: map<int, nat>)
    requires InOrder(parts, sent, taken) && parts != []
    ensures var v := parts[0].node;
      && v in taken && v in sent && parts[0].place == taken[v] < |sent[v]|
      && InOrder(parts[1..], sent, taken[v := taken[v] + 1])
  {
    hide Placed, Counted;
    var v := parts[0].node;
    FirstPlace(parts, sent, taken);
    var taken' := taken[v := taken[v] + 1];
    forall i | 0 <= i < |parts[1..]| ensures Placed(parts[1..], taken', i) {
      PlacedTake(parts, taken, i);
    }
    forall w | w in sent ensures Counted(parts[1..], sent, taken', w) {
      CountedTake(parts, sent, taken, w);
    }
  }

  lemma FirstPlace(parts: seq<Sent>, sent: Wires, taken: map<int, nat>)
    requires InOrder(parts, sent, taken) && parts != []
    ensures var v := parts[0].node; v in taken && v in sent && parts[0].place == taken[v] < |sent[v]|
  {
    var v := parts[0].node;
    assert Placed(parts, taken, 0) && parts[..0] == [];
    assert Counted(parts, sent, taken, v);
    OnNodeHead(parts, v);
  }

  /** A part carries what the server says to the commands of its connection up to it. */
  ghost predicate Truth(p: Sent, sent: Wires, server: Server) {
    p.node in sent && p.place < |sent[p.node]| && p.reply == server(p.node, sent[p.node][..p.place + 1])
  }

  ghost predicate Truthful(parts: seq<Sent>, sent: Wires, server: Server) {
    forall i | 0 <= i < |parts| :: Truth(parts[i], sent, server)
  }

  lemma TruthfulSend(parts: seq<Sent>, sent: Wires, server: Server, v: int, cmd: bytes)
    requires Truthful(parts, sent, server) && v in sent
    ensures Truthful(parts + [Sent(v, |sent[v]|, server(v, sent[v] + [cmd]))], sent[v := sent[v] + [cmd]], server)
  {
    var more := parts + [Sent(v, |sent[v]|, server(v, sent[v] + [cmd]))];
    var sent' := sent[v := sent[v] + [cmd]];
    forall i | 0 <= i < |more| ensures Truth(more[i], sent', server) {
      if i < |parts| {
        var p := parts[i];
        assert Truth(p, sent, server);
        assert sent'[p.node][..p.place + 1] == sent[p.node][..p.place + 1];
      } else {
        assert sent'[v][..|sent[v]| + 1] == sent[v] + [cmd];
      }
    }
  }

  lemma TruthfulTake(parts: seq<Sent>, sent: Wires, server: Server)
    requires Truthful(parts, sent, server) && parts != []
    ensures Truth(parts[0], sent, server) && Truthful(parts[1..], sent, server)
  {
    hide Truth;
  }

  /** What holds of the connections between any two calls. */
  ghost predicate Connected(parts: seq<Sent>, sent: Wires, taken: map<int, nat>, table: seq<int>, server: Server) {
    InOrder(parts, sent, taken) && Truthful(parts, sent, server) && Routed(table, sent)
  }

  /** The parts went to the nodes of the slots. */
  ghost predicate Follows(table: seq<int>, slots: seq<int>, parts: seq<Sent>) {
    && |parts| == |slots|
    && forall i | 0 <= i < |parts| :: 0 <= slots[i] < |table| && parts[i].node == table[slots[i]]
  }

  lemma FollowsLength(table: seq<int>, slots: seq<int>, parts: seq<Sent>)
    requires Follows(table, slots, parts)
    ensures |parts| == |slots|
  {}

  lemma FollowsJoin(table: seq<int>, s: seq<int>, t: seq<int>, p: seq<Sent>, q: seq<Sent>)
    requires Follows(table, s, p) && Follows(table, t, q)
    ensures Follows(table, s + t, p + q)
  {}

  lemma FollowsSplit(table: seq<int>, s: seq<int>, t: seq<int>, p: seq<Sent>)
    requires Follows(table, s + t, p)
    ensures Follows(table, s, p[..|s|]) && Follows(table, t, p[|s|..])
  {
    var u := s + t;
    assert forall i | 0 <= i < |s| :: u[i] == s[i];
    assert forall i | 0 <= i < |t| :: u[|s| + i] == t[i] && p[|s|..][i] == p[|s| + i];
  }

  /** The parts follow the slots of the requests. */
  ghost predicate OnRoute(table: seq<int>, requests: seq<Request>, parts: seq<Sent>) {
    && |table| == SLOTS
    && (forall i | 0 <= i < |requests| :: Queueable(table, requests[i]))
    && Follows(table, Flat(requests), parts)
  }

  lemma OnRouteMore(table: seq<int>, requests: seq<Request>, parts: seq<Sent>, r: Request, more: seq<Sent>)
    requires OnRoute(table, requests, parts) && Queueable(table, r) && Follows(table, SlotsOf(r), more)
    ensures OnRoute(table, requests + [r], parts + more)
  {
    hide Flat, Follows, Queueable;
    FlatSnoc(requests, r);
    FollowsJoin(table, Flat(requests), SlotsOf(r), parts, more);
  }

  lemma OnRouteHead(table: seq<int>, requests: seq<Request>, parts: seq<Sent>)
    requires OnRoute(table, requests, parts) && requests != []
    ensures var n := |SlotsOf(requests[0])|;
      && n <= |parts| && Queueable(table, requests[0]) && OnRoute(table, requests[1..], parts[n..])
      && Follows(table, SlotsOf(requests[0]), parts[..n])
  {
    hide Queueable, SlotsOf, Follows;
    FollowsLength(table, Flat(requests), parts);
    FollowsSplit(table, SlotsOf(requests[0]), Flat(requests[1..]), parts);
  }

  lemma OwesHead(requests: seq<Request>, parts: seq<Sent>, due: seq<Option<Reply>>)
    requires Owes(requests, parts, due) && requests != []
    ensures var n := |SlotsOf(requests[0])|;
      n <= |parts| && due != [] && due[0] == Due(requests[0], parts[..n]) && Owes(requests[1..], parts[n..], due[1..])
  {
    hide Due;
  }

  /** What holds of an orderly client: the parts on the way, and the replies owed for them. */
  ghost predicate InStep(table: seq<int>, server: Server, st: Client, parts: seq<Sent>, due: seq<Option<Reply>>) {
    && Connected(parts, st.sent, st.taken, table, server)
    && OnRoute(table, st.requests, parts)
    && Owes(st.requests, parts, due)
  }

  // Appending --------------------------------------------------------

  lemma ConnectedSend(parts: seq<Sent>, sent: Wires, taken: map<int, nat>, table: seq<int>, server: Server, v: int,
                      cmd: bytes)
    requires Connected(parts, sent, taken, table, server) && v in sent
    ensures
      var wire := sent[v] + [cmd];
      Connected(parts + [Sent(v, |sent[v]|, server(v, wire))], sent[v := wire], taken, table, server)
  {
    hide InOrder, Truthful;
    InOrderSend(parts, sent, taken, v, cmd, server(v, sent[v] + [cmd]));
    TruthfulSend(parts, sent, server, v, cmd);
  }

  lemma {:induction false} ConnectedAppend(parts: seq<Sent>, sent: Wires, taken: map<int, nat>, table: seq<int>,
      server: Server, slots: seq<int>, cmds: seq<bytes>, n: nat)
    requires Connected(parts, sent, taken, table, server) && n <= |slots| == |cmds|
    requires forall i | 0 <= i < n :: 0 <= slots[i] < |table| && table[slots[i]] in sent
    ensures
      var more := Delivered(sent, table, server, slots[..n], cmds[..n]);
      && Connected(parts + more, SentAfter(sent, table, slots[..n], cmds[..n]), taken, table, server)
      && SentAfter(sent, table, slots[..n], cmds[..n]).Keys == sent.Keys
      && Follows(table, slots[..n], more)
    decreases n
  {
    hide Connected, Delivered, SentAfter;
    if n == 0 {
      SentNone(sent, table, server, slots, cmds);
      assert parts + [] == parts;
    } else {
      ConnectedAppend(parts, sent, taken, table, server, slots, cmds, n - 1);
      SentSnoc(sent, table, server, slots, cmds, n - 1);
      var before := SentAfter(sent, table, slots[..n - 1], cmds[..n - 1]);
      var more := Delivered(sent, table, server, slots[..n - 1], cmds[..n - 1]);
      ConnectedSend(parts + more, before, taken, table, server, table[slots[n - 1]], cmds[n - 1]);
      var part := Sent(table[slots[n - 1]], |before[table[slots[n - 1]]]|,
                       server(table[slots[n - 1]], before[table[slots[n - 1]]] + [cmds[n - 1]]));
      assert parts + (more + [part]) == parts + more + [part];
      assert slots[..n] == slots[..n - 1] + [slots[n - 1]];
    }
  }

  /** Every part of the command goes out. */
  predicate Whole(table: seq<int>, r: Request, fails: set<nat>)
    requires |table| == SLOTS && Wellformed(r)
  {
    Reach(table, SlotsOf(r), fails, 0) == |SlotsOf(r)|
  }

  lemma AppendInStep(table: seq<int>, server: Server, st: Client, parts: seq<Sent>, due: seq<Option<Reply>>,
                     r: Request, cmds: seq<bytes>, fails: set<nat>)
    requires |table| == SLOTS && InStep(table, server, st, parts, due)
    requires Wellformed(r) && |cmds| == |SlotsOf(r)| && Whole(table, r, fails)
    ensures
      var more := Delivered(st.sent, table, server, SlotsOf(r), cmds);
      && |more| == |SlotsOf(r)|
      && InStep(table, server, Appended(table, st, r, cmds, fails), parts + more, due + [Due(r, more)])
  {
    hide Connected, Delivered, SentAfter, Owes, OnRoute, Due, Follows;
    var slots := SlotsOf(r);
    assert slots[..|slots|] == slots && cmds[..|cmds|] == cmds;
    ConnectedRouted(parts, st.sent, st.taken, table, server);
    ConnectedAppend(parts, st.sent, st.taken, table, server, slots, cmds, |slots|);
    var more := Delivered(st.sent, table, server, slots, cmds);
    FollowsLength(table, slots, more);
    OwesMore(st.requests, parts, due, r, more);
    OnRouteMore(table, st.requests, parts, r, more);
  }

  lemma ConnectedRouted(parts: seq<Sent>, sent: Wires, taken: map<int, nat>, table: seq<int>, server: Server)
    requires Connected(parts, sent, taken, table, server)
    ensures Routed(table, sent) && sent.Keys == taken.Keys
  {
    hide Placed, Counted, Truthful;
  }

  // Losing a connection ----------------------------------------------

  /** All of these slots are served by node v. */
  predicate AllOn(table: seq<int>, slots: seq<int>, v: int) {
    forall i | 0 <= i < |slots| :: NodeOf(table, slots[i]) == v
  }

  /** None of them is. */
  predicate NoneOn(table: seq<int>, slots: seq<int>, v: int) {
    forall i | 0 <= i < |slots| :: NodeOf(table, slots[i]) != v
  }

  ghost predicate To(parts: seq<Sent>, v: int) {
    forall i | 0 <= i < |parts| :: parts[i].node == v
  }

  ghost predicate Apart(parts: seq<Sent>, v: int) {
    forall i | 0 <= i < |parts| :: parts[i].node != v
  }

  lemma FollowsTo(table: seq<int>, slots: seq<int>, parts: seq<Sent>, v: int)
    requires Follows(table, slots, parts)
    ensures AllOn(table, slots, v) ==> To(parts, v)
    ensures NoneOn(table, slots, v) ==> Apart(parts, v)
  {
    assert forall i | 0 <= i < |parts| :: parts[i].node == NodeOf(table, slots[i]);
  }

  lemma {:induction false} OnNodeJoin(a: seq<Sent>, b: seq<Sent>, v: int)
    ensures OnNode(a + b, v) == OnNode(a, v) + OnNode(b, v)
    decreases |b|
  {
    if b == [] {
      assert a + b == a;
    } else {
      OnNodeJoin(a, b[..|b| - 1], v);
      assert (a + b)[..|a + b| - 1] == a + b[..|b| - 1];
    }
  }

  lemma {:induction false} OnNodeNone(parts: seq<Sent>, v: int)
    requires Apart(parts, v)
    ensures OnNode(parts, v) == 0
    decreases |parts|
  {
    if parts != [] { OnNodeNone(parts[..|parts| - 1], v); }
  }

  /** The parts are what is left when those on node v, around them, are gone. */
  lemma LostPlaced(a: seq<Sent>, parts: seq<Sent>, b: seq<Sent>, taken: map<int, nat>, v: int, n: nat, i: nat)
    requires To(a, v) && Apart(parts, v) && i < |parts| && Placed(a + parts + b, taken, |a| + i)
    ensures Placed(parts, taken[v := n], i)
  {
    hide OnNode;
    var whole := a + parts + b;
    var w := parts[i].node;
    assert whole[|a| + i] == parts[i] && whole[..|a| + i] == a + parts[..i];
    OnNodeJoin(a, parts[..i], w);
    OnNodeNone(a, w);
  }

  lemma LostCounted(a: seq<Sent>, parts: seq<Sent>, b: seq<Sent>, sent: Wires, taken: map<int, nat>, v: int, w: int)
    requires To(a, v) && Apart(parts, v) && To(b, v) && v in sent && Counted(a + parts + b, sent, taken, w)
    ensures Counted(parts, sent, taken[v := |sent[v]|], w)
  {
    hide OnNode;
    if w == v {
      OnNodeNone(parts, v);
    } else {
      OnNodeJoin(a + parts, b, w);
      OnNodeJoin(a, parts, w);
      OnNodeNone(a, w);
      OnNodeNone(b, w);
    }
  }

  lemma LostConnected(a: seq<Sent>, parts: seq<Sent>, b: seq<Sent>, sent: Wires, taken: map<int, nat>,
                      table: seq<int>, server: Server, v: int)
    requires Connected(a + parts + b, sent, taken, table, server)
    requires To(a, v) && Apart(parts, v) && To(b, v) && v in sent && v != -1
    ensures Connected(parts, sent, Lost(sent, taken, v), table, server)
  {
    hide Placed, Counted, Truth, To, Apart;
    var whole := a + parts + b;
    var taken' := Lost(sent, taken, v);
    forall i | 0 <= i < |parts| ensures Placed(parts, taken', i) {
      LostPlaced(a, parts, b, taken, v, |sent[v]|, i);
    }
    forall w | w in sent ensures Counted(parts, sent, taken', w) {
      LostCounted(a, parts, b, sent, taken, v, w);
    }
    forall i | 0 <= i < |parts| ensures Truth(parts[i], sent, server) {
      assert whole[|a| + i] == parts[i];
    }
  }

  /** An append that fails, when what was sent went over the connection that failed and nobody waits for it. */
  lemma AppendLostInStep(table: seq<int>, server: Server, st: Client, parts: seq<Sent>, due: seq<Option<Reply>>,
                         r: Request, cmds: seq<bytes>, fails: set<nat>)
    requires |table| == SLOTS && InStep(table, server, st, parts, due)
    requires Wellformed(r) && |cmds| == |SlotsOf(r)| && !Whole(table, r, fails)
    requires Clean(table, st, Do(r, cmds, fails))
    ensures InStep(table, server, Appended(table, st, r, cmds, fails), parts, due)
  {
    hide Connected, Delivered, SentAfter, Owes, Follows, To, Apart;
    var slots := SlotsOf(r);
    var n := Reach(table, slots, fails, 0);
    var v := table[slots[n]];
    ConnectedRouted(parts, st.sent, st.taken, table, server);
    ConnectedAppend(parts, st.sent, st.taken, table, server, slots, cmds, n);
    var more := Delivered(st.sent, table, server, slots[..n], cmds[..n]);
    if v == -1 {
      NothingOnNoNode(table, slots, fails);
      SentNone(st.sent, table, server, slots, cmds);
    } else {
      FollowsTo(table, slots[..n], more, v);
      FollowsTo(table, Flat(st.requests), parts, v);
      assert [] + parts + more == parts + more;
      NothingTo(v);
      LostConnected([], parts, more, SentAfter(st.sent, table, slots[..n], cmds[..n]), st.taken, table, server, v);
    }
  }

  lemma NothingTo(v: int)
    ensures To([], v) && Apart([], v)
  {}

  lemma NothingOnNoNode(table: seq<int>, slots: seq<int>, fails: set<nat>)
    requires |table| == SLOTS && Slotted(slots) && AllOn(table, slots[..Reach(table, slots, fails, 0)], -1)
    ensures Reach(table, slots, fails, 0) == 0
  {
    var n := Reach(table, slots, fails, 0);
    assert n > 0 ==> NodeOf(table, slots[..n][0]) == -1;
  }

  // Taking -----------------------------------------------------------

  lemma ConnectedTake(parts: seq<Sent>, sent: Wires, taken: map<int, nat>, table: seq<int>, server: Server)
    requires Connected(parts, sent, taken, table, server) && parts != []
    ensures
      var v := parts[0].node;
      && Readable(sent, taken, v) && parts[0] == Sent(v, taken[v], server(v, sent[v][..taken[v] + 1]))
      && Connected(parts[1..], sent, taken[v := taken[v] + 1], table, server)
  {
    hide InOrder, Truthful;
    InOrderTake(parts, sent, taken);
    TruthfulTake(parts, sent, server);
  }

  /** The first place from i on that fails, or n. */
  function FirstIn(fails: set<nat>, i: nat, n: nat): (k: nat)
    requires i <= n
    ensures i <= k <= n && (k < n ==> k in fails) && forall j | i <= j < k :: j !in fails
    decreases n - i
  {
    if i == n || i in fails then i else FirstIn(fails, i + 1, n)
  }

  /** Reading for the slots of the oldest parts gives just these parts. */
  lemma {:induction false} FetchedInStep(parts: seq<Sent>, sent: Wires, taken: map<int, nat>, table: seq<int>,
      server: Server, slots: seq<int>, n: nat)
    requires Connected(parts, sent, taken, table, server) && n <= |slots| <= |parts|
    requires Follows(table, slots, parts[..|slots|])
    ensures Fetched(table, server, sent, taken, slots[..n]) == parts[..n]
    ensures Connected(parts[n..], sent, TakenAfter(table, taken, slots[..n]), table, server)
    ensures n > 0 ==>
      var before, v := TakenAfter(table, taken, slots[..n - 1]), NodeOf(table, slots[n - 1]);
      Readable(sent, before, v) && TakenAfter(table, taken, slots[..n]) == before[v := before[v] + 1]
    decreases n
  {
    hide Connected, Fetched, TakenAfter;
    if n == 0 {
      FetchedNone(table, server, sent, taken, slots);
      assert parts[0..] == parts;
    } else {
      FetchedInStep(parts, sent, taken, table, server, slots, n - 1);
      var before := TakenAfter(table, taken, slots[..n - 1]);
      assert parts[n - 1..][0] == parts[n - 1] == parts[..|slots|][n - 1] && parts[n - 1..][1..] == parts[n..];
      ConnectedTake(parts[n - 1..], sent, before, table, server);
      FetchedSnoc(table, server, sent, taken, slots, n - 1);
    }
  }

  /** In step, reading stops only where a connection fails. */
  lemma {:induction false} GetsInStep(parts: seq<Sent>, sent: Wires, taken: map<int, nat>, table: seq<int>,
      server: Server, slots: seq<int>, fails: set<nat>, i: nat)
    requires Connected(parts, sent, taken, table, server) && i <= |slots| <= |parts|
    requires Follows(table, slots, parts[..|slots|])
    ensures Gets(table, sent, TakenAfter(table, taken, slots[..i]), slots, fails, i) == FirstIn(fails, i, |slots|)
    decreases |slots| - i
  {
    hide Connected, Fetched, TakenAfter, Follows;
    if i < |slots| && i !in fails {
      FetchedInStep(parts, sent, taken, table, server, slots, i + 1);
      GetsInStep(parts, sent, taken, table, server, slots, fails, i + 1);
    }
  }

  lemma TakeInStep(table: seq<int>, server: Server, st: Client, parts: seq<Sent>, due: seq<Option<Reply>>,
                   fails: set<nat>)
    requires InStep(table, server, st, parts, due) && st.requests != []
    requires FirstIn(fails, 0, |SlotsOf(st.requests[0])|) == |SlotsOf(st.requests[0])|
    ensures
      var k := |SlotsOf(st.requests[0])|;
      && k <= |parts| && due != [] && Reported(table, server, st, fails) == [due[0]]
      && InStep(table, server, Collected(table, st, fails), parts[k..], due[1..])
  {
    hide Connected, Fetched, TakenAfter, Owes, OnRoute, Due, Gets, FirstIn;
    var slots := SlotsOf(st.requests[0]);
    OwesHead(st.requests, parts, due);
    OnRouteHead(table, st.requests, parts);
    FetchedInStep(parts, st.sent, st.taken, table, server, slots, |slots|);
    FetchedNone(table, server, st.sent, st.taken, slots);
    GetsInStep(parts, st.sent, st.taken, table, server, slots, fails, 0);
    assert slots[..|slots|] == slots;
  }

  /** A take that fails, when the parts not read are all on the connection that failed and nobody else waits for it. */
  lemma TakeLostInStep(table: seq<int>, server: Server, st: Client, parts: seq<Sent>, due: seq<Option<Reply>>,
                       fails: set<nat>)
    requires |table| == SLOTS && InStep(table, server, st, parts, due) && st.requests != []
    requires FirstIn(fails, 0, |SlotsOf(st.requests[0])|) < |SlotsOf(st.requests[0])|
    requires Clean(table, st, Take(fails))
    ensures
      var k := |SlotsOf(st.requests[0])|;
      && k <= |parts| && due != [] && Reported(table, server, st, fails) == [None]
      && InStep(table, server, Collected(table, st, fails), parts[k..], due[1..])
  {
    hide Connected, Fetched, TakenAfter, Owes, OnRoute, Due, Gets, FirstIn, To, Apart;
    var slots := SlotsOf(st.requests[0]);
    var k, n := |slots|, FirstIn(fails, 0, |slots|);
    OwesHead(st.requests, parts, due);
    OnRouteHead(table, st.requests, parts);
    FetchedInStep(parts, st.sent, st.taken, table, server, slots, n);
    FetchedNone(table, server, st.sent, st.taken, slots);
    GetsInStep(parts, st.sent, st.taken, table, server, slots, fails, 0);
    RestLost(table, st, parts, server, slots, n, TakenAfter(table, st.taken, slots[..n]));
  }

  lemma RestLost(table: seq<int>, st: Client, parts: seq<Sent>, server: Server, slots: seq<int>, n: nat,
                 taken: map<int, nat>)
    requires n < |slots| <= |parts| && Connected(parts[n..], st.sent, taken, table, server)
    requires st.requests != [] && Follows(table, slots, parts[..|slots|])
    requires OnRoute(table, st.requests[1..], parts[|slots|..]) && NodeOf(table, slots[n]) != -1
    requires AllOn(table, slots[n + 1..], NodeOf(table, slots[n]))
    requires NoneOn(table, Flat(st.requests[1..]), NodeOf(table, slots[n]))
    ensures Connected(parts[|slots|..], st.sent, Lost(st.sent, taken, NodeOf(table, slots[n])), table, server)
  {
    hide Connected, Follows, To, Apart, Flat;
    var k, v := |slots|, NodeOf(table, slots[n]);
    var a, b := parts[n..k], parts[k..];
    assert AllOn(table, slots[n..], v) by {
      forall i | 0 <= i < |slots[n..]| ensures NodeOf(table, slots[n..][i]) == v {
        if i > 0 { assert slots[n..][i] == slots[n + 1..][i - 1]; }
      }
    }
    FollowsSuffix(table, slots, parts[..k], n);
    assert parts[..k][n..] == a;
    FollowsTo(table, slots[n..], a, v);
    FollowsTo(table, Flat(st.requests[1..]), b, v);
    assert parts[n..] == a + b + [];
    NothingTo(v);
    ConnectedTake(parts[n..], st.sent, taken, table, server);
    FollowsNode(table, slots, parts[..k], n);
    LostConnected(a, b, [], st.sent, taken, table, server, v);
  }

  lemma FollowsNode(table: seq<int>, slots: seq<int>, parts: seq<Sent>, i: nat)
    requires Follows(table, slots, parts) && i < |slots|
    ensures parts[i].node == NodeOf(table, slots[i])
  {}

  lemma FollowsSuffix(table: seq<int>, slots: seq<int>, parts: seq<Sent>, n: nat)
    requires Follows(table, slots, parts) && n <= |slots|
    ensures Follows(table, slots[n..], parts[n..])
  {}

  // The exact condition ----------------------------------------------

  /**
    A call puts nothing out of step: it does not fail half way; or what it leaves behind was all on
    the connection that failed, and no queued command waits for an answer of that connection.
    */
  predicate Clean(table: seq<int>, st: Client, op: Call)
    requires |table| == SLOTS && WellCall(op)
  {
    match op
    case Do(r, _, fails) =>
      var slots, n := SlotsOf(r), Reach(table, SlotsOf(r), fails, 0);
      n == |slots| ||
      var v := table[slots[n]];
      AllOn(table, slots[..n], v) && (v == -1 || NoneOn(table, Flat(st.requests), v))
    case Take(fails) =>
      st.requests == [] ||
      var slots, n := SlotsOf(st.requests[0]), FirstIn(fails, 0, |SlotsOf(st.requests[0])|);
      n == |slots| ||
      var v := NodeOf(table, slots[n]);
      AllOn(table, slots[n + 1..], v) && NoneOn(table, Flat(st.requests[1..]), v)
  }

  // Whole runs -------------------------------------------------------

  /** What was sent after ops, the parts of failed commands included. */
  function Carried(sent: Wires, table: seq<int>, ops: seq<Call>): Wires
    requires |table| == SLOTS && WellCalls(ops)
  {
    if ops == [] then sent
    else
      var n := |ops| - 1;
      assert WellCalls(ops[..n]) && WellCall(ops[n]);
      var before, op := Carried(sent, table, ops[..n]), ops[n];
      if op.Take? then before
      else
        var k := Reach(table, SlotsOf(op.request), op.fails, 0);
        SentAfter(before, table, SlotsOf(op.request)[..k], op.cmds[..k])
  }

  /** The reply a command deserves: what the server says to its own bytes, merged. */
  function Deserved(sent: Wires, table: seq<int>, server: Server, r: Request, cmds: seq<bytes>): Option<Reply>
    requires |cmds| == |SlotsOf(r)|
  {
    var answers := Delivered(sent, table, server, SlotsOf(r), cmds);
    if |answers| == |SlotsOf(r)| then Due(r, answers) else None
  }

  /** The replies the queued commands deserve, in the order of appending. */
  function Promises(sent: Wires, table: seq<int>, server: Server, ops: seq<Call>): seq<Option<Reply>>
    requires |table| == SLOTS && WellCalls(ops)
  {
    if ops == [] then []
    else
      var n := |ops| - 1;
      assert WellCalls(ops[..n]) && WellCall(ops[n]);
      Promises(sent, table, server, ops[..n]) + Promised(Carried(sent, table, ops[..n]), table, server, ops[n])
  }

  function Promised(sent: Wires, table: seq<int>, server: Server, op: Call): seq<Option<Reply>>
    requires |table| == SLOTS && WellCall(op)
  {
    if op.Do? && Whole(table, op.request, op.fails) then [Deserved(sent, table, server, op.request, op.cmds)] else []
  }

  lemma PromisesNone(sent: Wires, table: seq<int>, server: Server, ops: seq<Call>)
    requires |table| == SLOTS
    ensures WellCalls(ops[..0])
    ensures Carried(sent, table, ops[..0]) == sent && Promises(sent, table, server, ops[..0]) == []
  {}

  lemma PromisesSnoc(sent: Wires, table: seq<int>, server: Server, ops: seq<Call>, i: nat)
    requires |table| == SLOTS && WellCalls(ops) && i < |ops|
    ensures WellCalls(ops[..i]) && WellCalls(ops[..i + 1]) && WellCall(ops[i])
    ensures
      var op, before := ops[i], Carried(sent, table, ops[..i]);
      && Promises(sent, table, server, ops[..i + 1])
         == Promises(sent, table, server, ops[..i]) + Promised(before, table, server, op)
      && (op.Take? ==> Carried(sent, table, ops[..i + 1]) == before)
      && (op.Do? ==>
            var k := Reach(table, SlotsOf(op.request), op.fails, 0);
            Carried(sent, table, ops[..i + 1]) == SentAfter(before, table, SlotsOf(op.request)[..k], op.cmds[..k]))
  {
    hide Promised, SentAfter, SlotsOf, Reach, WellCall;
    var more := ops[..i + 1];
    assert more[..i] == ops[..i] && more[i] == ops[i];
    assert WellCalls(more) && WellCalls(ops[..i]) && WellCall(ops[i]);
  }

  /** Nothing is queued and nothing is on the way. */
  ghost predicate Idle(table: seq<int>, st: Client) {
    && st.requests == [] && Routed(table, st.sent) && st.sent.Keys == st.taken.Keys
    && forall v | v in st.sent :: |st.sent[v]| == st.taken[v]
  }

  lemma IdleInStep(table: seq<int>, server: Server, st: Client)
    requires Idle(table, st)
    ensures InStep(table, server, st, [], [])
  {}

  lemma IdleTable(table: seq<int>, st: Client)
    requires Idle(table, st)
    ensures |table| == SLOTS && st.requests == []
  {}

  /** No connection fails during the call. */
  predicate Up(op: Call) {
    op.fails == {}
  }

  /** The replies heard are those promised, or errors; the others are still due. */
  ghost predicate Abides(heard: seq<Option<Reply>>, due: seq<Option<Reply>>, promises: seq<Option<Reply>>, up: bool) {
    && |heard| <= |promises| && due == promises[|heard|..]
    && (forall k | 0 <= k < |heard| :: heard[k].None? || heard[k] == promises[k])
    && (up ==> heard == promises[..|heard|])
  }

  lemma AbidesDo(heard: seq<Option<Reply>>, due: seq<Option<Reply>>, promises: seq<Option<Reply>>, up: bool,
                 more: seq<Option<Reply>>)
    requires Abides(heard, due, promises, up)
    ensures Abides(heard + [], due + more, promises + more, up)
  {
    assert heard + [] == heard;
    assert (promises + more)[..|heard|] == promises[..|heard|];
  }

  lemma AbidesTake(heard: seq<Option<Reply>>, due: seq<Option<Reply>>, promises: seq<Option<Reply>>, up: bool,
                   x: Option<Reply>)
    requires Abides(heard, due, promises, up) && due != [] && (x == due[0] || (!up && x.None?))
    ensures Abides(heard + [x], due[1..], promises + [], up)
  {
    assert promises + [] == promises && due[0] == promises[|heard|];
    assert promises[..|heard| + 1] == promises[..|heard|] + [promises[|heard|]];
  }

  /** One clean call. */
  lemma StepKept(table: seq<int>, server: Server, st: Client, parts: seq<Sent>, due: seq<Option<Reply>>, op: Call,
                 heard: seq<Option<Reply>>, promises: seq<Option<Reply>>, up: bool)
    returns (parts': seq<Sent>, due': seq<Option<Reply>>)
    requires |table| == SLOTS && WellCall(op) && InStep(table, server, st, parts, due) && Clean(table, st, op)
    requires Abides(heard, due, promises, up)
    ensures InStep(table, server, Handled(table, st, op), parts', due')
    ensures
      var promised := Promised(st.sent, table, server, op);
      Abides(heard + Said(table, server, st, op), due', promises + promised, up && Up(op))
  {
    hide InStep, Abides, Collected, Appended, Reported, Clean, Due, Delivered;
    AbidesLess(heard, due, promises, up, up && Up(op));
    if op.Take? {
      if st.requests == [] {
        NothingTaken(table, server, st, op.fails);
        parts', due' := parts, due;
        AbidesDo(heard, due, promises, up && Up(op), []);
        assert due + [] == due;
      } else {
        var k := |SlotsOf(st.requests[0])|;
        if FirstIn(op.fails, 0, k) == k {
          TakeInStep(table, server, st, parts, due, op.fails);
        } else {
          TakeLostInStep(table, server, st, parts, due, op.fails);
        }
        parts', due' := parts[k..], due[1..];
        AbidesTake(heard, due, promises, up && Up(op), Reported(table, server, st, op.fails)[0]);
      }
    } else if Whole(table, op.request, op.fails) {
      AppendInStep(table, server, st, parts, due, op.request, op.cmds, op.fails);
      var more := Delivered(st.sent, table, server, SlotsOf(op.request), op.cmds);
      parts', due' := parts + more, due + [Due(op.request, more)];
      AbidesDo(heard, due, promises, up && Up(op), [Due(op.request, more)]);
    } else {
      AppendLostInStep(table, server, st, parts, due, op.request, op.cmds, op.fails);
      parts', due' := parts, due;
      AbidesDo(heard, due, promises, up && Up(op), []);
      assert due + [] == due;
    }
  }

  lemma AbidesLess(heard: seq<Option<Reply>>, due: seq<Option<Reply>>, promises: seq<Option<Reply>>, up: bool,
                   less: bool)
    requires Abides(heard, due, promises, up) && (less ==> up)
    ensures Abides(heard, due, promises, less)
  {}

  lemma NothingTaken(table: seq<int>, server: Server, st: Client, fails: set<nat>)
    requires st.requests == []
    ensures Collected(table, st, fails) == st && Reported(table, server, st, fails) == []
  {}

  /** Every call of the run is clean when it is made. */
  ghost predicate AllClean(table: seq<int>, st0: Client, ops: seq<Call>) {
    && |table| == SLOTS && WellCalls(ops)
    && forall i | 0 <= i < |ops| :: CleanAt(table, st0, ops, i)
  }

  ghost predicate CleanAt(table: seq<int>, st0: Client, ops: seq<Call>, i: nat)
    requires |table| == SLOTS && WellCalls(ops) && i < |ops|
  {
    WellCalls(ops[..i]) && WellCall(ops[i]) && Clean(table, Play(table, st0, ops[..i]), ops[i])
  }

  predicate AllUp(ops: seq<Call>) {
    forall i | 0 <= i < |ops| :: Up(ops[i])
  }

  lemma CleanPrefix(table: seq<int>, st0: Client, ops: seq<Call>, n: nat)
    requires AllClean(table, st0, ops) && n <= |ops|
    ensures WellCalls(ops[..n]) && AllClean(table, st0, ops[..n])
  {
    hide Clean, WellCall, Play;
    var some := ops[..n];
    assert forall i | 0 <= i < n :: some[i] == ops[i];
    forall i | 0 <= i < n ensures CleanAt(table, st0, some, i) {
      assert some[..i] == ops[..i] && CleanAt(table, st0, ops, i);
    }
  }

  /**
    As long as calls are clean, the replies handed out are those promised, or errors, in order, and the
    others are still due; when no connection fails they are exactly those promised.
    */
  lemma {:induction false} OrderKept(table: seq<int>, server: Server, st0: Client, ops: seq<Call>)
    returns (parts: seq<Sent>, due: seq<Option<Reply>>)
    requires Idle(table, st0) && AllClean(table, st0, ops)
    ensures
      var st := Play(table, st0, ops);
      && InStep(table, server, st, parts, due) && st.sent == Carried(st0.sent, table, ops)
      && Abides(Heard(table, server, st0, ops), due, Promises(st0.sent, table, server, ops), AllUp(ops))
    decreases |ops|
  {
    hide InStep, Idle, Handled, Said, Promises, Carried, Promised, Clean, Abides, Play, Heard, WellCall, Up;
    PromisesNone(st0.sent, table, server, ops);
    PlayNone(table, server, st0, ops);
    if ops == [] {
      IdleInStep(table, server, st0);
      assert ops[..0] == ops;
      parts, due := [], [];
      AbidesNone();
    } else {
      var n := |ops| - 1;
      CleanPrefix(table, st0, ops, n);
      parts, due := OrderKept(table, server, st0, ops[..n]);
      PromisesSnoc(st0.sent, table, server, ops, n);
      PlaySnoc(table, server, st0, ops, n);
      assert ops[..n + 1] == ops && CleanAt(table, st0, ops, n);
      var st := Play(table, st0, ops[..n]);
      HandledSent(table, st, ops[n]);
      AllUpSnoc(ops);
      parts, due := StepKept(table, server, st, parts, due, ops[n], Heard(table, server, st0, ops[..n]),
                             Promises(st0.sent, table, server, ops[..n]), AllUp(ops[..n]));
    }
  }

  lemma AbidesNone()
    ensures Abides([], [], [], true)
  {}

  lemma AllUpSnoc(ops: seq<Call>)
    requires ops != []
    ensures AllUp(ops) <==> AllUp(ops[..|ops| - 1]) && Up(ops[|ops| - 1])
  {
    hide Up;
    var n := |ops| - 1;
    assert forall i | 0 <= i < n :: ops[..n][i] == ops[i];
  }

  lemma HandledSent(table: seq<int>, st: Client, op: Call)
    requires |table| == SLOTS && WellCall(op)
    ensures op.Take? ==> Handled(table, st, op).sent == st.sent
    ensures op.Do? ==>
      var k := Reach(table, SlotsOf(op.request), op.fails, 0);
      Handled(table, st, op).sent == SentAfter(st.sent, table, SlotsOf(op.request)[..k], op.cmds[..k])
  {
    hide SentAfter, Lost, Gets, TakenAfter;
  }
}
