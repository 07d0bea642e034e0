/**
  Pipelining over many connections (redisClusterAppendFormattedCommand and
  redisClusterGetReply in hiredis-vip-master/hircluster.c).

  Each node has one connection, which answers in the order of sending; commands and the
  parts of split commands interleave over all of them.  A connection may fail whenever it is
  used; it is then opened anew, and what was on the way over it never comes.  The server is
  arbitrary: what it answers may depend on everything it was sent so far.
  */
module Pipeline {
  import opened Bytes
  import opened Resp
  import opened Commands
  import opened KeySlot
  import opened Store
  import opened Merge

  /** What has been sent to each node, over all the connections it had. */
  type Wires = map<int, seq<bytes>>

  /** What a node says to the last of the commands it was sent. */
  type Server = (int, seq<bytes>) -> Reply

  /** A command waiting for its reply: one slot, or the slots of its sub-commands in list order. */
  datatype Request = Request(typ: Cmd, slotNum: int, fragSeq: seq<int>, subs: seq<int>)

  function SlotsOf(r: Request): seq<int> {
    if r.slotNum >= 0 then [r.slotNum] else r.subs
  }

  predicate Slotted(slots: seq<int>) {
    forall i | 0 <= i < |slots| :: 0 <= slots[i] < SLOTS
  }

  predicate Wellformed(r: Request) {
    && Slotted(SlotsOf(r))
    && (r.slotNum < 0 ==> Multi(r.typ) && forall i | 0 <= i < |r.fragSeq| :: r.fragSeq[i] in r.subs)
  }

  /** A part of a command: its connection, its place on it, and the server's answer there. */
  datatype Sent = Sent(node: int, place: nat, reply: Reply)

  function Answers(subs: seq<int>, parts: seq<Sent>): seq<Answer>
    requires |subs| == |parts|
  {
    seq(|subs|, i requires 0 <= i < |subs| => Answer(subs[i], Some(parts[i].reply)))
  }

  /** The reply of a command whose parts are answered so. */
  function Due(r: Request, parts: seq<Sent>): Option<Reply>
    requires |parts| == |SlotsOf(r)|
  {
    if r.slotNum >= 0 then Some(parts[0].reply)
    else MergeReplies(r.typ, r.fragSeq, Answers(r.subs, parts))
  }

  lemma AnsweredSlots(subs: seq<int>, parts: seq<Sent>)
    requires |subs| == |parts|
    ensures forall s | s in subs :: s in Slots(Answers(subs, parts))
  {
    var cs := Answers(subs, parts);
    assert forall i | 0 <= i < |subs| :: cs[i].slot == subs[i];
  }

  // Sending ----------------------------------------------------------

  /** The connections after sending cmds to slots, and what the server says to each. */
  function SentAfter(sent: Wires, table: seq<int>, slots: seq<int>, cmds: seq<bytes>): Wires
    requires |slots| == |cmds|
  {
    if slots == [] then sent
    else
      var n := |slots| - 1;
      var before := SentAfter(sent, table, slots[..n], cmds[..n]);
      if !(0 <= slots[n] < |table|) || table[slots[n]] !in before then before
      else before[table[slots[n]] := before[table[slots[n]]] + [cmds[n]]]
  }

  function Delivered(sent: Wires, table: seq<int>, server: Server, slots: seq<int>, cmds: seq<bytes>): seq<Sent>
    requires |slots| == |cmds|
  {
    if slots == [] then []
    else
      var n := |slots| - 1;
      var before := SentAfter(sent, table, slots[..n], cmds[..n]);
      Delivered(sent, table, server, slots[..n], cmds[..n]) +
      if !(0 <= slots[n] < |table|) || table[slots[n]] !in before then []
      else
        var v := table[slots[n]];
        [Sent(v, |before[v]|, server(v, before[v] + [cmds[n]]))]
  }

  lemma SentNone(sent: Wires, table: seq<int>, server: Server, slots: seq<int>, cmds: seq<bytes>)
    requires |slots| == |cmds|
    ensures SentAfter(sent, table, slots[..0], cmds[..0]) == sent
    ensures Delivered(sent, table, server, slots[..0], cmds[..0]) == []
  {}

  lemma SentSnoc(sent: Wires, table: seq<int>, server: Server, slots: seq<int>, cmds: seq<bytes>, i: nat)
    requires |slots| == |cmds| && i < |slots| && 0 <= slots[i] < |table|
    requires table[slots[i]] in SentAfter(sent, table, slots[..i], cmds[..i])
    ensures
      var before := SentAfter(sent, table, slots[..i], cmds[..i]);
      var v := table[slots[i]];
      && SentAfter(sent, table, slots[..i + 1], cmds[..i + 1]) == before[v := before[v] + [cmds[i]]]
      && Delivered(sent, table, server, slots[..i + 1], cmds[..i + 1])
         == Delivered(sent, table, server, slots[..i], cmds[..i])
          + [Sent(v, |before[v]|, server(v, before[v] + [cmds[i]]))]
  {
    assert slots[..i + 1][..i] == slots[..i] && cmds[..i + 1][..i] == cmds[..i];
  }

  /** How many of the parts go out: those before the first without a node or with a failing connection. */
  function Reach(table: seq<int>, slots: seq<int>, fails: set<nat>, i: nat): (n: nat)
    requires |table| == SLOTS && Slotted(slots) && i <= |slots|
    ensures i <= n <= |slots| && forall j | i <= j < n :: table[slots[j]] != -1 && j !in fails
    ensures n < |slots| ==> table[slots[n]] == -1 || n in fails
    decreases |slots| - i
  {
    if i == |slots| || table[slots[i]] == -1 || i in fails then i else Reach(table, slots, fails, i + 1)
  }

  lemma ReachIs(table: seq<int>, slots: seq<int>, fails: set<nat>, n: nat)
    requires |table| == SLOTS && Slotted(slots) && n <= |slots|
    requires forall j | 0 <= j < n :: table[slots[j]] != -1 && j !in fails
    requires n < |slots| ==> table[slots[n]] == -1 || n in fails
    ensures Reach(table, slots, fails, 0) == n
  {}

  // Reading ----------------------------------------------------------

  function NodeOf(table: seq<int>, slot: int): int {
    if 0 <= slot < |table| then table[slot] else -1
  }

  /** The read positions after one answer is read for each slot. */
  function TakenAfter(table: seq<int>, taken: map<int, nat>, slots: seq<int>): map<int, nat>
  {
    if slots == [] then taken
    else
      var n := |slots| - 1;
      var before := TakenAfter(table, taken, slots[..n]);
      if !(0 <= slots[n] < |table|) || table[slots[n]] !in before then before
      else before[table[slots[n]] := before[table[slots[n]]] + 1]
  }

  /** The answers read. */
  function Fetched(table: seq<int>, server: Server, sent: Wires, taken: map<int, nat>, slots: seq<int>): seq<Sent>
  {
    if slots == [] then []
    else
      var n := |slots| - 1;
      var before := TakenAfter(table, taken, slots[..n]);
      Fetched(table, server, sent, taken, slots[..n]) +
      if !(0 <= slots[n] < |table|) || !Readable(sent, before, table[slots[n]]) then []
      else
        var v := table[slots[n]];
        [Sent(v, before[v], server(v, sent[v][..before[v] + 1]))]
  }

  predicate Readable(sent: Wires, taken: map<int, nat>, v: int) {
    v in sent && v in taken && taken[v] < |sent[v]|
  }

  lemma FetchedNone(table: seq<int>, server: Server, sent: Wires, taken: map<int, nat>, slots: seq<int>)
    ensures TakenAfter(table, taken, slots[..0]) == taken && Fetched(table, server, sent, taken, slots[..0]) == []
  {}

  lemma FetchedSnoc(table: seq<int>, server: Server, sent: Wires, taken: map<int, nat>, slots: seq<int>, i: nat)
    requires i < |slots| && 0 <= slots[i] < |table|
    requires Readable(sent, TakenAfter(table, taken, slots[..i]), table[slots[i]])
    ensures
      var before := TakenAfter(table, taken, slots[..i]);
      var v := table[slots[i]];
      && TakenAfter(table, taken, slots[..i + 1]) == before[v := before[v] + 1]
      && Fetched(table, server, sent, taken, slots[..i + 1])
         == Fetched(table, server, sent, taken, slots[..i]) + [Sent(v, before[v], server(v, sent[v][..before[v] + 1]))]
  {
    assert slots[..i + 1][..i] == slots[..i];
  }

  /** How many of the parts are answered: those before the first whose connection fails or has nothing to come. */
  function Gets(table: seq<int>, sent: Wires, taken: map<int, nat>, slots: seq<int>, fails: set<nat>, i: nat): (n: nat)
    requires i <= |slots|
    ensures i <= n <= |slots|
    decreases |slots| - i
  {
    if i == |slots| || i in fails || !Readable(sent, taken, NodeOf(table, slots[i])) then i
    else
      var v := NodeOf(table, slots[i]);
      Gets(table, sent, taken[v := taken[v] + 1], slots, fails, i + 1)
  }

  /** A connection is lost: nothing that was on the way over it will come. */
  function Lost(sent: Wires, taken: map<int, nat>, v: int): map<int, nat> {
    if v != -1 && v in sent && v in taken then taken[v := |sent[v]|] else taken
  }

  // The client -------------------------------------------------------

  /** What the client keeps: what was sent, the read positions, and the commands without a reply. */
  datatype Client = Client(sent: Wires, taken: map<int, nat>, requests: seq<Request>)

  /** A call, with the parts of its command at which the connection fails. */
  datatype Call = Do(request: Request, cmds: seq<bytes>, fails: set<nat>) | Take(fails: set<nat>)

  predicate WellCall(op: Call) {
    op.Do? ==> Wellformed(op.request) && |op.cmds| == |SlotsOf(op.request)|
  }

  predicate WellCalls(ops: seq<Call>) {
    forall i | 0 <= i < |ops| :: WellCall(ops[i])
  }

  /** redisClusterAppendFormattedCommand, once the command is split; an incomplete one is not queued. */
  function Appended(table: seq<int>, st: Client, r: Request, cmds: seq<bytes>, fails: set<nat>): Client
    requires |table| == SLOTS && Wellformed(r) && |cmds| == |SlotsOf(r)|
  {
    var slots := SlotsOf(r);
    var n := Reach(table, slots, fails, 0);
    var sent := SentAfter(st.sent, table, slots[..n], cmds[..n]);
    if n == |slots| then Client(sent, st.taken, st.requests + [r])
    else Client(sent, Lost(sent, st.taken, table[slots[n]]), st.requests)
  }

  /** redisClusterGetReply: the oldest command leaves the queue, also when its answers are not all read. */
  function Collected(table: seq<int>, st: Client, fails: set<nat>): Client {
    if st.requests == [] then st
    else
      var slots := SlotsOf(st.requests[0]);
      var n := Gets(table, st.sent, st.taken, slots, fails, 0);
      var taken := TakenAfter(table, st.taken, slots[..n]);
      Client(st.sent, if n == |slots| then taken else Lost(st.sent, taken, NodeOf(table, slots[n])), st.requests[1..])
  }

  /** The reply it hands out, None for an error, if a command is queued. */
  function Reported(table: seq<int>, server: Server, st: Client, fails: set<nat>): seq<Option<Reply>> {
    if st.requests == [] then []
    else
      var r := st.requests[0];
      var n := Gets(table, st.sent, st.taken, SlotsOf(r), fails, 0);
      var parts := Fetched(table, server, st.sent, st.taken, SlotsOf(r)[..n]);
      [if |parts| == |SlotsOf(r)| then Due(r, parts) else None]
  }

  function Handled(table: seq<int>, st: Client, op: Call): Client
    requires |table| == SLOTS && WellCall(op)
  {
    if op.Take? then Collected(table, st, op.fails) else Appended(table, st, op.request, op.cmds, op.fails)
  }

  function Said(table: seq<int>, server: Server, st: Client, op: Call): seq<Option<Reply>> {
    if op.Take? then Reported(table, server, st, op.fails) else []
  }

  /** Any sequence of calls, failed ones included. */
  function Play(table: seq<int>, st: Client, ops: seq<Call>): Client
    requires |table| == SLOTS && WellCalls(ops)
  {
    if ops == [] then st
    else
      var n := |ops| - 1;
      assert WellCalls(ops[..n]) && WellCall(ops[n]);
      Handled(table, Play(table, st, ops[..n]), ops[n])
  }

  /** The replies they hand out. */
  function Heard(table: seq<int>, server: Server, st: Client, ops: seq<Call>): seq<Option<Reply>>
    requires |table| == SLOTS && WellCalls(ops)
  {
    if ops == [] then []
    else
      var n := |ops| - 1;
      assert WellCalls(ops[..n]);
      Heard(table, server, st, ops[..n]) + Said(table, server, Play(table, st, ops[..n]), ops[n])
  }

  lemma PlaySnoc(table: seq<int>, server: Server, st: Client, ops: seq<Call>, i: nat)
    requires |table| == SLOTS && WellCalls(ops) && i < |ops|
    ensures WellCalls(ops[..i]) && WellCalls(ops[..i + 1]) && WellCall(ops[i])
    ensures
      var before := Play(table, st, ops[..i]);
      && Play(table, st, ops[..i + 1]) == Handled(table, before, ops[i])
      && Heard(table, server, st, ops[..i + 1])
         == Heard(table, server, st, ops[..i]) + Said(table, server, before, ops[i])
  {
    hide Handled, Said, WellCall;
    var more := ops[..i + 1];
    assert more[..i] == ops[..i] && more[i] == ops[i];
    assert WellCalls(more) && WellCalls(ops[..i]);
  }

  // What every call keeps --------------------------------------------

  /** Slots have a node that may be sent to, or none (-1). */
  ghost predicate Routed(table: seq<int>, sent: Wires) {
    |table| == SLOTS && forall s | 0 <= s < SLOTS :: table[s] == -1 || table[s] in sent
  }

  /** A queued command is well formed and its slots have nodes; nothing is read before it is sent. */
  ghost predicate Coherent(table: seq<int>, st: Client) {
    && Routed(table, st.sent) && st.sent.Keys == st.taken.Keys
    && (forall v | v in st.sent :: st.taken[v] <= |st.sent[v]|)
    && (forall i | 0 <= i < |st.requests| :: Queueable(table, st.requests[i]))
  }

  predicate Queueable(table: seq<int>, r: Request) {
    |table| == SLOTS && Wellformed(r) && forall i | 0 <= i < |SlotsOf(r)| :: table[SlotsOf(r)[i]] != -1
  }

  lemma CoherentTable(table: seq<int>, st: Client)
    requires Coherent(table, st)
    ensures |table| == SLOTS && Routed(table, st.sent)
  {
    hide Queueable;
  }

  class Context {
    const server: Server
    const table: seq<int>
    var requests: seq<Request>
    var sent: Wires
    var taken: map<int, nat>

    function Now(): Client
      reads this
    {
      Client(sent, taken, requests)
    }

    ghost predicate Valid()
      reads this
    {
      Coherent(table, Now())
    }

    constructor (table: seq<int>, nodes: set<int>, server: Server)
      requires |table| == SLOTS && forall s | 0 <= s < SLOTS :: table[s] == -1 || table[s] in nodes
      ensures Valid() && this.table == table && this.server == server
      ensures Now() == Client(map v | v in nodes :: [], map v | v in nodes :: 0, [])
    {
      this.table, this.server := table, server;
      requests := [];
      sent := map v | v in nodes :: [];
      taken := map v | v in nodes :: 0;
    }

    /** __redisClusterAppendCommand: false when the slot has no node or its connection fails, which is then lost. */
    method Send(slot: int, cmd: bytes, fails: bool) returns (ok: bool)
      requires Valid() && 0 <= slot < SLOTS
      modifies this`sent, this`taken
      ensures Valid() && |table| == SLOTS && ok == (table[slot] != -1 && !fails)
      ensures !ok ==> sent == old(sent) && taken == Lost(sent, old(taken), table[slot])
      ensures ok ==> table[slot] in old(sent) && sent == old(sent)[table[slot] := old(sent)[table[slot]] + [cmd]]
      ensures ok ==> taken == old(taken)
    {
      hide Queueable;
      var v := table[slot];
      if v == -1 { return false; }
      if fails {
        taken := taken[v := |sent[v]|];
        return false;
      }
      sent := sent[v := sent[v] + [cmd]];
      return true;
    }

    /** __redisClusterGetReply: the next answer of the connection; None when it fails or nothing is to come. */
    method Receive(slot: int, fails: bool) returns (part: Option<Sent>)
      requires Valid() && 0 <= slot < SLOTS && NodeOf(table, slot) != -1
      modifies this`taken
      ensures Valid() && |table| == SLOTS
      ensures
        var v := table[slot];
        var good := !fails && Readable(sent, old(taken), v);
        && part == (if good then Some(Sent(v, old(taken)[v], server(v, sent[v][..old(taken)[v] + 1]))) else None)
        && taken == if good then old(taken)[v := old(taken)[v] + 1] else Lost(sent, old(taken), v)
    {
      hide Queueable;
      var v := table[slot];
      if fails || taken[v] >= |sent[v]| {
        taken := taken[v := |sent[v]|];
        return None;
      }
      part := Some(Sent(v, taken[v], server(v, sent[v][..taken[v] + 1])));
      taken := taken[v := taken[v] + 1];
    }

    /** Sends the parts in order, up to the first that fails. */
    method SendAll(slots: seq<int>, cmds: seq<bytes>, fails: set<nat>) returns (n: nat)
      requires Valid() && |cmds| == |slots| && Slotted(slots)
      modifies this`sent, this`taken
      ensures Valid() && |table| == SLOTS && n == Reach(table, slots, fails, 0)
      ensures sent == SentAfter(old(sent), table, slots[..n], cmds[..n])
      ensures taken == if n == |slots| then old(taken) else Lost(sent, old(taken), table[slots[n]])
    {
      hide SentAfter, Reach, Coherent, Lost;
      CoherentTable(table, Now());
      SentNone(sent, table, server, slots, cmds);
      n := 0;
      while n < |slots|
        invariant n <= |slots| && forall j | 0 <= j < n :: table[slots[j]] != -1 && j !in fails
        invariant sent == SentAfter(old(sent), table, slots[..n], cmds[..n])
        invariant Valid() && taken == old(taken)
      {
        var ok := Send(slots[n], cmds[n], n in fails);
        if !ok { break; }
        SentSnoc(old(sent), table, server, slots, cmds, n);
        n := n + 1;
      }
      ReachIs(table, slots, fails, n);
    }

    /** redisClusterAppendFormattedCommand; the parts sent before a failure stay with their connections. */
    method Append(r: Request, cmds: seq<bytes>, fails: set<nat>) returns (ok: bool)
      requires Valid() && Wellformed(r) && |cmds| == |SlotsOf(r)|
      modifies this`sent, this`taken, this`requests
      ensures Valid() && |table| == SLOTS && Now() == Appended(table, old(Now()), r, cmds, fails)
      ensures ok == forall i | 0 <= i < |SlotsOf(r)| :: table[SlotsOf(r)[i]] != -1 && i !in fails
    {
      hide SentAfter, Lost;
      var slots := SlotsOf(r);
      var n := SendAll(slots, cmds, fails);
      if n < |slots| { return false; }
      requests := requests + [r];
      return true;
    }

    /** Reads one answer for each slot, up to the first that fails. */
    method ReceiveAll(slots: seq<int>, fails: set<nat>) returns (parts: seq<Sent>)
      requires Valid() && Slotted(slots) && forall i | 0 <= i < |slots| :: NodeOf(table, slots[i]) != -1
      modifies this`taken
      ensures
        var n := |parts|;
        && Valid() && n == Gets(table, sent, old(taken), slots, fails, 0)
        && parts == Fetched(table, server, sent, old(taken), slots[..n])
        && taken == var after := TakenAfter(table, old(taken), slots[..n]);
                    if n == |slots| then after else Lost(sent, after, NodeOf(table, slots[n]))
    {
      hide Fetched, TakenAfter, Coherent, Lost;
      CoherentTable(table, Now());
      parts := [];
      FetchedNone(table, server, sent, taken, slots);
      while |parts| < |slots|
        invariant |parts| <= |slots| && parts == Fetched(table, server, sent, old(taken), slots[..|parts|])
        invariant Valid() && taken == TakenAfter(table, old(taken), slots[..|parts|])
        invariant Gets(table, sent, taken, slots, fails, |parts|) == Gets(table, sent, old(taken), slots, fails, 0)
        decreases |slots| - |parts|
      {
        var i := |parts|;
        var part := Receive(slots[i], i in fails);
        if part.None? { break; }
        FetchedSnoc(table, server, sent, old(taken), slots, i);
        parts := parts + [part.value];
      }
    }

    /** redisClusterGetReply: the reply of the oldest command, None for an error; false when none is queued. */
    method GetReply(fails: set<nat>) returns (some: bool, reply: Option<Reply>)
      requires Valid()
      modifies this`taken, this`requests
      ensures Valid() && some == (old(requests) != []) && Now() == Collected(table, old(Now()), fails)
      ensures (if some then [reply] else []) == Reported(table, server, old(Now()), fails)
    {
      hide Fetched, TakenAfter, MergeReplies, Gets;
      if |requests| == 0 {
        return false, None;
      }
      var r := requests[0];
      assert Queueable(table, r);
      var parts := ReceiveAll(SlotsOf(r), fails);
      requests := requests[1..];
      if |parts| < |SlotsOf(r)| {
        return true, None;
      }
      if r.slotNum >= 0 {
        return true, Some(parts[0].reply);
      }
      var cs := Answers(r.subs, parts);
      AnsweredSlots(r.subs, parts);
      var merged := PostFragment(r.typ, r.fragSeq, cs);
      return true, merged;
    }
  }

  /** A client that appends and takes in any order gets the replies of the run, whatever fails on the way. */
  method Drive(cc: Context, ops: seq<Call>) returns (replies: seq<Option<Reply>>)
    requires cc.Valid() && WellCalls(ops)
    modifies cc
    ensures cc.Valid() && |cc.table| == SLOTS && cc.Now() == Play(cc.table, old(cc.Now()), ops)
    ensures replies == Heard(cc.table, cc.server, old(cc.Now()), ops)
  {
    hide Appended, Collected, Reported, WellCall, Play, Heard;
    ghost var st := cc.Now();
    replies := [];
    PlayNone(cc.table, cc.server, st, ops);
    for i := 0 to |ops|
      invariant cc.Valid() && WellCalls(ops[..i])
      invariant cc.Now() == Play(cc.table, st, ops[..i]) && replies == Heard(cc.table, cc.server, st, ops[..i])
    {
      PlaySnoc(cc.table, cc.server, st, ops, i);
      CallIsWell(ops[i]);
      match ops[i] {
        case Do(r, cmds, fails) =>
          var _ := cc.Append(r, cmds, fails);
          assert replies + [] == replies;
        case Take(fails) =>
          var some, reply := cc.GetReply(fails);
          if some { replies := replies + [reply]; } else { assert replies + [] == replies; }
      }
    }
    assert ops[..|ops|] == ops;
  }

  lemma PlayNone(table: seq<int>, server: Server, st: Client, ops: seq<Call>)
    requires |table| == SLOTS
    ensures WellCalls(ops[..0]) && Play(table, st, ops[..0]) == st && Heard(table, server, st, ops[..0]) == []
  {}

  lemma CallIsWell(op: Call)
    requires WellCall(op)
    ensures op.Do? ==> Wellformed(op.request) && |op.cmds| == |SlotsOf(op.request)|
  {}
}
