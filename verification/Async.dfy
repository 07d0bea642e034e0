/**
  The callback discipline of the asynchronous client (hiredis-vip-master/async.c) for a
  context that neither subscribes nor monitors: what a connection may do, as a machine.

  A callback may itself issue commands, disconnect or free the context; which of these it
  does is arbitrary and told by `behave`, asked once for every reply handed out.
  */
module Async {
  import opened Bytes
  import opened Resp

  /** A registered callback; None is a null function pointer. */
  type Callback = Option<int>

  datatype Action = Issue(fn: Callback, cmd: bytes) | FreeIt | DisconnectIt

  type Behaviour = nat -> seq<Action>

  /** A redisAsyncContext, with the history of commands accepted, replies taken and callbacks run. */
  datatype Connection = Connection(
    replies: seq<Callback>, obuf: bytes, disconnecting: bool, freeing: bool, err: bool, freed: bool,
    aborted: bool, clock: nat,
    issued: seq<Callback>, received: seq<Reply>, answered: seq<(Callback, Option<Reply>)>)

  const Start := Connection([], [], false, false, false, false, false, 0, [], [], [])

  /** No new command is accepted. */
  predicate Closed(a: Connection) {
    a.disconnecting || a.freeing
  }

  /** __redisAsyncCommand. */
  function Command(a: Connection, fn: Callback, cmd: bytes): Connection {
    if Closed(a) then a else a.(replies := a.replies + [fn], issued := a.issued + [fn], obuf := a.obuf + cmd)
  }

  /** What a callback does; both ways to end the connection are deferred. */
  function Act(a: Connection, x: Action): Connection {
    match x
    case Issue(fn, cmd) => Command(a, fn, cmd)
    case FreeIt => a.(freeing := true)
    case DisconnectIt => a.(disconnecting := true)
  }

  function Acts(a: Connection, xs: seq<Action>): Connection
  {
    if xs == [] then a else Act(Acts(a, xs[..|xs| - 1]), xs[|xs| - 1])
  }

  /** The first callback is taken for a reply, None for a null one. */
  function Shift(a: Connection, reply: Option<Reply>): Connection
    requires a.replies != []
  {
    a.(replies := a.replies[1..], clock := a.clock + 1, answered := a.answered + [(a.replies[0], reply)],
       received := if reply.Some? then a.received + [reply.value] else a.received)
  }

  /** It is taken and run. */
  function Hand(behave: Behaviour, a: Connection, reply: Option<Reply>): Connection
    requires a.replies != []
  {
    if a.replies[0].Some? then Acts(Shift(a, reply), behave(a.clock)) else Shift(a, reply)
  }

  /** What actions of callbacks leave alone. */
  ghost predicate Kept(a: Connection, b: Connection) {
    && b.err == a.err && b.freed == a.freed && b.aborted == a.aborted && b.clock == a.clock
    && b.received == a.received && b.answered == a.answered
    && (a.disconnecting ==> b.disconnecting) && (a.freeing ==> b.freeing)
    && (Closed(a) ==> b.replies == a.replies && b.issued == a.issued && b.obuf == a.obuf)
  }

  lemma {:induction false} ActsKeep(a: Connection, xs: seq<Action>)
    ensures Kept(a, Acts(a, xs))
    ensures Acts(a, xs).freeing <==> a.freeing || FreeIt in xs
    decreases |xs|
  {
    hide Kept, Act;
    if xs == [] {
      KeptSame(a);
    } else {
      ActsKeep(a, xs[..|xs| - 1]);
      KeptNext(a, Acts(a, xs[..|xs| - 1]), xs[|xs| - 1]);
      assert xs == xs[..|xs| - 1] + [xs[|xs| - 1]];
    }
  }

  lemma KeptSame(a: Connection)
    ensures Kept(a, a)
  {}

  lemma KeptNext(a: Connection, b: Connection, x: Action)
    requires Kept(a, b)
    ensures Kept(a, Act(b, x)) && (Act(b, x).freeing <==> b.freeing || x.FreeIt?)
  {}

  /** The callbacks and the bytes of commands issued in a row. */
  function Fns(xs: seq<Action>): seq<Callback>
    requires forall i | 0 <= i < |xs| :: xs[i].Issue?
  {
    if xs == [] then [] else Fns(xs[..|xs| - 1]) + [xs[|xs| - 1].fn]
  }

  function Cmds(xs: seq<Action>): bytes
    requires forall i | 0 <= i < |xs| :: xs[i].Issue?
  {
    if xs == [] then [] else Cmds(xs[..|xs| - 1]) + xs[|xs| - 1].cmd
  }

  /** With the commands of these actions queued. */
  function Joined(a: Connection, xs: seq<Action>): Connection
    requires forall i | 0 <= i < |xs| :: xs[i].Issue?
  {
    a.(replies := a.replies + Fns(xs), issued := a.issued + Fns(xs), obuf := a.obuf + Cmds(xs))
  }

  lemma {:induction false} IssuesJoin(a: Connection, xs: seq<Action>)
    requires !Closed(a) && forall i | 0 <= i < |xs| :: xs[i].Issue?
    ensures Acts(a, xs) == Joined(a, xs)
    decreases |xs|
  {
    if xs != [] {
      IssuesJoin(a, xs[..|xs| - 1]);
    }
  }

  /**
    What a callback does to an open context: the commands it issues before it first frees or disconnects
    join the queue and the buffer, in order; both requests are noted.
    */
  lemma {:induction false} CallbackEffect(a: Connection, xs: seq<Action>, k: nat)
    requires !Closed(a) && k <= |xs| && forall i | 0 <= i < k :: xs[i].Issue?
    requires k < |xs| ==> !xs[k].Issue?
    ensures Acts(a, xs) == Joined(a, xs[..k]).(freeing := FreeIt in xs, disconnecting := DisconnectIt in xs)
    decreases |xs|
  {
    hide Fns, Cmds, Joined, Act;
    var c := Joined(a, xs[..k]);
    if k == |xs| {
      IssuesJoin(a, xs);
      JoinedStaysOpen(a, xs);
      assert xs[..k] == xs;
      assert FreeIt !in xs && DisconnectIt !in xs;
    } else {
      var n := |xs| - 1;
      var init := xs[..n];
      CallbackEffect(a, init, k);
      assert init[..k] == xs[..k];
      InSnoc(xs, FreeIt);
      InSnoc(xs, DisconnectIt);
      if k < n { assert init[k] == xs[k]; }
      NoteNext(c, xs[n], FreeIt in init, DisconnectIt in init);
    }
  }

  lemma NoteNext(a: Connection, x: Action, freeing: bool, disconnecting: bool)
    requires x.Issue? ==> freeing || disconnecting
    ensures Act(a.(freeing := freeing, disconnecting := disconnecting), x)
         == a.(freeing := freeing || x.FreeIt?, disconnecting := disconnecting || x.DisconnectIt?)
  {}

  lemma InSnoc(xs: seq<Action>, x: Action)
    requires xs != []
    ensures x in xs <==> x in xs[..|xs| - 1] || x == xs[|xs| - 1]
  {}

  lemma {:induction false} JoinedStaysOpen(a: Connection, xs: seq<Action>)
    requires !Closed(a) && forall i | 0 <= i < |xs| :: xs[i].Issue?
    ensures !Closed(Joined(a, xs))
  {}

  lemma HandKeeps(behave: Behaviour, a: Connection, reply: Option<Reply>)
    requires a.replies != []
    ensures var b := Hand(behave, a, reply);
      && b.err == a.err && b.freed == a.freed && b.aborted == a.aborted && b.clock == a.clock + 1
      && b.answered == a.answered + [(a.replies[0], reply)]
      && b.received == (if reply.Some? then a.received + [reply.value] else a.received)
      && (a.disconnecting ==> b.disconnecting) && (a.freeing ==> b.freeing)
      && (Closed(a) ==> b.replies == a.replies[1..] && b.issued == a.issued && b.obuf == a.obuf)
      && (b.freeing <==> a.freeing || (a.replies[0].Some? && FreeIt in behave(a.clock)))
  {
    hide Acts;
    ActsKeep(Shift(a, reply), behave(a.clock));
  }

  /** __redisAsyncFree: all pending callbacks run with a null reply. */
  function Teardown(behave: Behaviour, a: Connection): Connection
    requires Closed(a) || a.replies == []
    decreases |a.replies|
  {
    if a.replies == [] then a.(freed := true)
    else
      HandKeeps(behave, a, None);
      Teardown(behave, Hand(behave, a, None))
  }

  /** __redisAsyncDisconnect: a disconnect without an error asserts that nothing is pending. */
  function Drop(behave: Behaviour, a: Connection): Connection {
    if a.err then Teardown(behave, a.(disconnecting := true))
    else if a.replies != [] then a.(aborted := true)
    else Teardown(behave, a)
  }

  /** redisProcessCallbacks on the replies the reader has, after which it has none or is broken. */
  function Process(behave: Behaviour, a: Connection, incoming: seq<Reply>, broken: bool): Connection
    decreases |incoming|
  {
    if incoming == [] then
      if broken then Drop(behave, a.(err := true))
      else if a.disconnecting && a.obuf == [] then Drop(behave, a)
      else a
    else if a.replies == [] then
      if incoming[0].Error? then Drop(behave, a.(err := true)) else a.(aborted := true)
    else
      var b := Hand(behave, a, Some(incoming[0]));
      if a.replies[0].Some? && b.freeing then Teardown(behave, b)
      else Process(behave, b, incoming[1..], broken)
  }

  /** What the program and the event loop do to a context. */
  datatype Event =
    | DoCommand(fn: Callback, cmd: bytes)
    | DoDisconnect
    | DoFree
    | Readable(incoming: seq<Reply>, broken: bool)
    | ReadFails
    | Writable(written: nat)
    | WriteFails

  function Exec(behave: Behaviour, a: Connection, e: Event): Connection
  {
    if a.freed || a.aborted then a
    else match e
      case DoCommand(fn, cmd) => Command(a, fn, cmd)
      case DoDisconnect =>
        var b := a.(disconnecting := true);
        if b.replies == [] then Drop(behave, b) else b
      case DoFree => Teardown(behave, a.(freeing := true))
      case Readable(incoming, broken) => Process(behave, a, incoming, broken)
      case ReadFails => Drop(behave, a.(err := true))
      case Writable(n) => a.(obuf := a.obuf[if n <= |a.obuf| then n else |a.obuf|..])
      case WriteFails => Drop(behave, a.(err := true))
  }

  function Run(behave: Behaviour, a: Connection, es: seq<Event>): Connection
  {
    if es == [] then a else Exec(behave, Run(behave, a, es[..|es| - 1]), es[|es| - 1])
  }

  function Names(answered: seq<(Callback, Option<Reply>)>): seq<Callback> {
    seq(|answered|, i requires 0 <= i < |answered| => answered[i].0)
  }

  /**
    First come, first served: the callbacks run are the oldest issued, each once; the k-th
    reply went to the k-th of them; null replies only come at the end, when all run.
    */
  ghost predicate Fair(a: Connection) {
    && Names(a.answered) + a.replies == a.issued
    && |a.received| <= |a.answered|
    && (forall i | 0 <= i < |a.received| :: a.answered[i].1 == Some(a.received[i]))
    && (forall i | |a.received| <= i < |a.answered| :: a.answered[i].1 == None)
  }

  /** Nobody got a null reply yet. */
  ghost predicate Live(a: Connection) {
    Fair(a) && |a.answered| == |a.received|
  }

  lemma {:induction false} ActsFair(a: Connection, xs: seq<Action>)
    requires Live(a)
    ensures Live(Acts(a, xs))
    decreases |xs|
  {
    if xs != [] {
      ActsFair(a, xs[..|xs| - 1]);
      CommandFair(Acts(a, xs[..|xs| - 1]), xs[|xs| - 1]);
    }
  }

  lemma CommandFair(a: Connection, x: Action)
    requires Live(a)
    ensures Live(Act(a, x))
  {
    if x.Issue? && !Closed(a) {
      assert Names(a.answered) + (a.replies + [x.fn]) == a.issued + [x.fn];
    }
  }

  lemma NamesSnoc(answered: seq<(Callback, Option<Reply>)>, fn: Callback, reply: Option<Reply>)
    ensures Names(answered + [(fn, reply)]) == Names(answered) + [fn]
  {}

  lemma HandFair(behave: Behaviour, a: Connection, reply: Option<Reply>)
    requires Fair(a) && a.replies != [] && (reply.Some? ==> Live(a)) && (reply.None? ==> Closed(a))
    ensures Fair(Hand(behave, a, reply)) && (reply.Some? ==> Live(Hand(behave, a, reply)))
  {
    hide Acts, Names;
    var b := Shift(a, reply);
    NamesSnoc(a.answered, a.replies[0], reply);
    assert Names(a.answered) + [a.replies[0]] + a.replies[1..] == Names(a.answered) + a.replies;
    if reply.Some? {
      ActsFair(b, behave(a.clock));
    } else {
      ActsKeep(b, behave(a.clock));
    }
  }

  /** Freeing runs every pending callback once, in order, with a null reply, and accepts no command meanwhile. */
  lemma {:induction false} TeardownRunsAll(behave: Behaviour, a: Connection)
    requires Closed(a) || a.replies == []
    requires Fair(a)
    ensures var b := Teardown(behave, a);
      && Fair(b) && b.freed && b.aborted == a.aborted && b.replies == [] && b.issued == a.issued
      && b.received == a.received
      && |b.answered| == |a.issued|
    decreases |a.replies|
  {
    hide Acts, Hand;
    if a.replies != [] {
      HandKeeps(behave, a, None);
      HandFair(behave, a, None);
      TeardownRunsAll(behave, Hand(behave, a, None));
    }
  }

  /** What holds of a context at any time: nobody is skipped, and a freed one has called everybody back. */
  ghost predicate Good(a: Connection) {
    && Fair(a)
    && (a.freed ==> a.replies == [] && Names(a.answered) == a.issued)
    && (!a.freed ==> Live(a) && !a.freeing)
  }

  lemma DropGood(behave: Behaviour, a: Connection)
    requires Live(a) && !a.freed && !a.freeing
    ensures Good(Drop(behave, a))
  {
    hide Teardown;
    if a.err {
      TeardownRunsAll(behave, a.(disconnecting := true));
    } else if a.replies == [] {
      TeardownRunsAll(behave, a);
    }
    if a.err || a.replies == [] { NamesAll(Drop(behave, a)); }
  }

  lemma NamesAll(a: Connection)
    requires Fair(a) && a.replies == []
    ensures Names(a.answered) == a.issued
  {
    hide Names;
    assert Names(a.answered) + [] == Names(a.answered);
  }

  lemma {:induction false} ProcessGood(behave: Behaviour, a: Connection, incoming: seq<Reply>, broken: bool)
    requires Live(a) && !a.freed && !a.freeing
    ensures Good(Process(behave, a, incoming, broken))
    decreases |incoming|
  {
    hide Teardown, Drop, Hand, Fair;
    if incoming == [] {
      LiveErr(a);
      DropGood(behave, a.(err := true));
      DropGood(behave, a);
      LiveFair(a);
    } else if a.replies == [] {
      LiveErr(a);
      DropGood(behave, a.(err := true));
    } else {
      LiveFair(a);
      var b := Hand(behave, a, Some(incoming[0]));
      HandKeeps(behave, a, Some(incoming[0]));
      HandFair(behave, a, Some(incoming[0]));
      if b.freeing {
        TeardownRunsAll(behave, b);
        NamesAll(Teardown(behave, b));
      } else {
        ProcessGood(behave, b, incoming[1..], broken);
      }
    }
  }

  lemma LiveErr(a: Connection)
    requires Live(a)
    ensures Live(a.(err := true)) && Live(a.(aborted := true)) && Fair(a.(aborted := true))
  {}

  lemma LiveFair(a: Connection)
    requires Live(a)
    ensures Fair(a)
  {}

  lemma ExecGood(behave: Behaviour, a: Connection, e: Event)
    requires Good(a)
    ensures Good(Exec(behave, a, e))
  {
    hide Teardown, Drop, Process;
    if a.freed || a.aborted { return; }
    LiveErr(a);
    DropGood(behave, a.(err := true));
    match e
    case DoCommand(fn, cmd) => CommandFair(a, Issue(fn, cmd));
    case DoDisconnect => DropGood(behave, a.(disconnecting := true));
    case DoFree =>
      TeardownRunsAll(behave, a.(freeing := true));
      NamesAll(Teardown(behave, a.(freeing := true)));
    case Readable(incoming, broken) => ProcessGood(behave, a, incoming, broken);
    case _ =>
  }

  /** Every run of commands, reads, writes, errors, disconnects and frees is fair, whatever the callbacks do. */
  lemma {:induction false} EveryRunIsFair(behave: Behaviour, es: seq<Event>)
    ensures Good(Run(behave, Start, es))
    decreases |es|
  {
    if es != [] {
      EveryRunIsFair(behave, es[..|es| - 1]);
      ExecGood(behave, Run(behave, Start, es[..|es| - 1]), es[|es| - 1]);
    }
  }

  // What ends a context ----------------------------------------------

  /** Callbacks answered with a null reply, in order. */
  function Nulls(fns: seq<Callback>): seq<(Callback, Option<Reply>)> {
    seq(|fns|, i requires 0 <= i < |fns| => (fns[i], None))
  }

  /** The context is freed: everybody pending was called back with a null reply, and nothing else was said or asked. */
  ghost predicate Ended(a: Connection, b: Connection) {
    && b.freed && b.aborted == a.aborted && b.replies == [] && b.issued == a.issued && b.received == a.received
    && b.answered == a.answered + Nulls(a.replies)
  }

  lemma NullsCons(fns: seq<Callback>)
    requires fns != []
    ensures Nulls(fns) == [(fns[0], None)] + Nulls(fns[1..])
  {}

  lemma {:induction false} TeardownEnds(behave: Behaviour, a: Connection)
    requires Closed(a) || a.replies == []
    ensures Ended(a, Teardown(behave, a))
    decreases |a.replies|
  {
    hide Hand, Nulls;
    if a.replies == [] {
      assert Nulls(a.replies) == [] by { NoNulls(); }
    } else {
      HandKeeps(behave, a, None);
      var b := Hand(behave, a, None);
      TeardownEnds(behave, b);
      NullsCons(a.replies);
      var one := [(a.replies[0], None)];
      assert a.answered + one + Nulls(b.replies) == a.answered + (one + Nulls(b.replies));
    }
  }

  lemma NoNulls()
    ensures Nulls([]) == []
  {}

  lemma DropEnds(behave: Behaviour, a: Connection)
    requires a.err || a.replies == []
    ensures Ended(a, Drop(behave, a))
  {
    hide Teardown, Nulls;
    TeardownEnds(behave, if a.err then a.(disconnecting := true) else a);
  }

  /**
    A failed read or write, a free, and a disconnect with nothing pending end every context that is
    still there: each pending callback is run once with a null reply, in order, and no more is asked.
    */
  lemma EndingEvents(behave: Behaviour, a: Connection, e: Event)
    requires !a.freed && !a.aborted
    requires e.ReadFails? || e.WriteFails? || e.DoFree? || (e.DoDisconnect? && a.replies == [])
    ensures Ended(a, Exec(behave, a, e))
  {
    hide Teardown, Drop, Nulls;
    match e
    case DoFree => TeardownEnds(behave, a.(freeing := true));
    case DoDisconnect => DropEnds(behave, a.(disconnecting := true));
    case _ => DropEnds(behave, a.(err := true));
  }

  /** The other events: a command joins the queue unless the context is closing; what is written leaves the buffer. */
  lemma QuietEvents(behave: Behaviour, a: Connection, e: Event)
    requires !a.freed && !a.aborted
    ensures e.DoCommand? && (a.disconnecting || a.freeing) ==> Exec(behave, a, e) == a
    ensures e.DoCommand? && !a.disconnecting && !a.freeing ==>
      var more := a.(replies := a.replies + [e.fn], issued := a.issued + [e.fn], obuf := a.obuf + e.cmd);
      Exec(behave, a, e) == more
    ensures e.DoDisconnect? && a.replies != [] ==> Exec(behave, a, e) == a.(disconnecting := true)
    ensures e.Writable? ==>
      var b := Exec(behave, a, e);
      && b == a.(obuf := b.obuf)
      && (if e.written <= |a.obuf| then a.obuf == a.obuf[..e.written] + b.obuf else b.obuf == [])
  {}

  lemma {:induction false} TeardownIssuesNothing(behave: Behaviour, a: Connection)
    requires Closed(a) || a.replies == []
    ensures var b := Teardown(behave, a); b.issued == a.issued && b.freed && (Closed(a) ==> Closed(b))
    decreases |a.replies|
  {
    hide Hand;
    if a.replies != [] {
      HandKeeps(behave, a, None);
      TeardownIssuesNothing(behave, Hand(behave, a, None));
    }
  }

  lemma DropIssuesNothing(behave: Behaviour, a: Connection)
    requires Closed(a)
    ensures Drop(behave, a).issued == a.issued && Closed(Drop(behave, a))
  {
    hide Teardown;
    if a.err || a.replies == [] {
      TeardownIssuesNothing(behave, if a.err then a.(disconnecting := true) else a);
    }
  }

  lemma {:induction false} ProcessIssuesNothing(behave: Behaviour, a: Connection, incoming: seq<Reply>, broken: bool)
    requires Closed(a)
    ensures var b := Process(behave, a, incoming, broken); b.issued == a.issued && Closed(b)
    decreases |incoming|
  {
    hide Teardown, Drop, Hand;
    DropIssuesNothing(behave, a);
    DropIssuesNothing(behave, a.(err := true));
    if incoming != [] && a.replies != [] {
      HandKeeps(behave, a, Some(incoming[0]));
      var b := Hand(behave, a, Some(incoming[0]));
      TeardownIssuesNothing(behave, b);
      ProcessIssuesNothing(behave, b, incoming[1..], broken);
    }
  }

  /** Once a disconnect or free is requested no later command is accepted, from callbacks or from outside. */
  lemma {:induction false} ClosedForGood(behave: Behaviour, a: Connection, es: seq<Event>)
    requires Closed(a)
    ensures Run(behave, a, es).issued == a.issued && Closed(Run(behave, a, es))
    decreases |es|
  {
    hide Teardown, Drop, Process;
    if es != [] {
      ClosedForGood(behave, a, es[..|es| - 1]);
      var b := Run(behave, a, es[..|es| - 1]);
      match es[|es| - 1]
      case DoDisconnect => DropIssuesNothing(behave, b.(disconnecting := true));
      case DoFree => TeardownIssuesNothing(behave, b.(freeing := true));
      case Readable(incoming, broken) => ProcessIssuesNothing(behave, b, incoming, broken);
      case _ => DropIssuesNothing(behave, b.(err := true));
    }
  }

  /** None of the first n callbacks frees the context. */
  ghost predicate NoneFrees(behave: Behaviour, a: Connection, n: nat)
    requires n <= |a.replies|
  {
    forall i | 0 <= i < n :: a.replies[i].Some? ==> FreeIt !in behave(a.clock + i)
  }

  lemma {:induction false} TeardownSurvives(behave: Behaviour, a: Connection)
    requires Closed(a) || a.replies == []
    ensures Teardown(behave, a).aborted == a.aborted
    decreases |a.replies|
  {
    hide Hand;
    if a.replies != [] {
      HandKeeps(behave, a, None);
      TeardownSurvives(behave, Hand(behave, a, None));
    }
  }

  lemma DropAborts(behave: Behaviour, a: Connection)
    requires !a.aborted
    ensures Drop(behave, a).aborted <==> !a.err && a.replies != []
  {
    hide Teardown;
    if a.err {
      TeardownSurvives(behave, a.(disconnecting := true));
    } else if a.replies == [] {
      TeardownSurvives(behave, a);
    }
  }

  lemma NoneFreesNext(behave: Behaviour, a: Connection, b: Connection, n: nat)
    requires 0 < n <= |a.replies| && b.replies == a.replies[1..] && b.clock == a.clock + 1
    ensures NoneFrees(behave, a, n) <==>
      (a.replies[0].Some? ==> FreeIt !in behave(a.clock)) && NoneFrees(behave, b, n - 1)
  {
    assert forall i | 0 <= i < n - 1 :: b.replies[i] == a.replies[i + 1] && b.clock + i == a.clock + (i + 1);
    if NoneFrees(behave, b, n - 1) {
      forall i | 0 < i < n && a.replies[i].Some?
        ensures (a.replies[0].Some? ==> FreeIt !in behave(a.clock)) ==> FreeIt !in behave(a.clock + i)
      {
        assert b.replies[i - 1] == a.replies[i] && b.clock + (i - 1) == a.clock + i;
      }
    }
  }

  /** The context after i of the replies are handed out. */
  function After(behave: Behaviour, a: Connection, incoming: seq<Reply>, i: nat): Connection
    requires i <= |incoming|
    decreases i
  {
    if i == 0 || a.replies == [] then a else After(behave, Hand(behave, a, Some(incoming[0])), incoming[1..], i - 1)
  }

  /**
    The client gets to hand out i of the replies: somebody waits for each and none of the callbacks
    frees the context.
    */
  ghost predicate Reaches(behave: Behaviour, a: Connection, incoming: seq<Reply>, i: nat)
    requires i <= |incoming|
  {
    forall j | 0 <= j < i ::
      var b := After(behave, a, incoming, j);
      b.replies != [] && (b.replies[0].Some? ==> FreeIt !in behave(b.clock))
  }

  /** A read asserts: a clean disconnect with callbacks pending, or a reply nobody asked for, errors excepted. */
  predicate Asserts(a: Connection, rest: seq<Reply>, broken: bool) {
    if rest == [] then !broken && !a.err && a.disconnecting && a.obuf == [] && a.replies != []
    else a.replies == [] && !rest[0].Error?
  }

  ghost predicate AssertsAt(behave: Behaviour, a: Connection, incoming: seq<Reply>, broken: bool, i: nat) {
    i <= |incoming| && Reaches(behave, a, incoming, i) && Asserts(After(behave, a, incoming, i), incoming[i..], broken)
  }

  lemma ReachesNext(behave: Behaviour, a: Connection, incoming: seq<Reply>, i: nat)
    requires 0 < i <= |incoming|
    ensures Reaches(behave, a, incoming, i) <==>
      && a.replies != [] && (a.replies[0].Some? ==> FreeIt !in behave(a.clock))
      && Reaches(behave, Hand(behave, a, Some(incoming[0])), incoming[1..], i - 1)
  {
    hide Hand;
    if a.replies != [] {
      var b := Hand(behave, a, Some(incoming[0]));
      assert After(behave, a, incoming, 0) == a;
      forall j | 0 < j < i ensures After(behave, a, incoming, j) == After(behave, b, incoming[1..], j - 1) {}
      if Reaches(behave, a, incoming, i) {
        forall j | 0 <= j < i - 1
          ensures var c := After(behave, b, incoming[1..], j);
            c.replies != [] && (c.replies[0].Some? ==> FreeIt !in behave(c.clock))
        {
          assert After(behave, a, incoming, j + 1) == After(behave, b, incoming[1..], j);
        }
      }
    } else {
      assert After(behave, a, incoming, 0) == a;
    }
  }

  lemma AssertsNext(behave: Behaviour, a: Connection, incoming: seq<Reply>, broken: bool, i: nat)
    requires incoming != [] && a.replies != []
    ensures !AssertsAt(behave, a, incoming, broken, 0)
    ensures AssertsAt(behave, a, incoming, broken, i + 1) <==>
      && (a.replies[0].Some? ==> FreeIt !in behave(a.clock))
      && AssertsAt(behave, Hand(behave, a, Some(incoming[0])), incoming[1..], broken, i)
  {
    hide Hand, Reaches;
    if i + 1 <= |incoming| {
      ReachesNext(behave, a, incoming, i + 1);
      assert incoming[1..][i..] == incoming[i + 1..];
    }
  }

  lemma AssertsFirst(behave: Behaviour, a: Connection, incoming: seq<Reply>, broken: bool, i: nat)
    requires incoming == [] || a.replies == []
    ensures AssertsAt(behave, a, incoming, broken, i) <==> i == 0 && Asserts(a, incoming, broken)
  {
    assert incoming[0..] == incoming;
    if 0 < i <= |incoming| {
      assert After(behave, a, incoming, 0) == a;
    }
  }

  lemma {:induction false} AfterReads(behave: Behaviour, a: Connection, incoming: seq<Reply>, i: nat)
    requires i <= |incoming| && Reaches(behave, a, incoming, i)
    ensures After(behave, a, incoming, i).received == a.received + incoming[..i]
    decreases i
  {
    hide Hand, Reaches;
    if i == 0 {
      assert a.received + incoming[..0] == a.received;
    } else {
      ReachesNext(behave, a, incoming, i);
      HandKeeps(behave, a, Some(incoming[0]));
      AfterReads(behave, Hand(behave, a, Some(incoming[0])), incoming[1..], i - 1);
      assert a.received + [incoming[0]] + incoming[1..][..i - 1] == a.received + incoming[..i];
    }
  }

  /** What is left to do once i of the replies are handed out. */
  lemma {:induction false} ProcessGoesOn(behave: Behaviour, a: Connection, incoming: seq<Reply>, broken: bool, i: nat)
    requires i <= |incoming| && Reaches(behave, a, incoming, i) && !a.freeing
    ensures Process(behave, a, incoming, broken)
         == Process(behave, After(behave, a, incoming, i), incoming[i..], broken)
    ensures !After(behave, a, incoming, i).freeing && After(behave, a, incoming, i).freed == a.freed
    ensures After(behave, a, incoming, i).err == a.err && After(behave, a, incoming, i).aborted == a.aborted
    decreases i
  {
    hide Hand, Reaches, Teardown, Drop;
    if i == 0 {
      assert incoming[0..] == incoming;
    } else {
      ReachesNext(behave, a, incoming, i);
      HandKeeps(behave, a, Some(incoming[0]));
      ProcessGoesOn(behave, Hand(behave, a, Some(incoming[0])), incoming[1..], broken, i - 1);
      assert incoming[1..][i - 1..] == incoming[i..];
    }
  }

  /**
    A connection that breaks behind the replies it brought ends the context once they are handed out:
    whoever is then still pending is run with a null reply.
    */
  lemma BrokenReadEnds(behave: Behaviour, a: Connection, incoming: seq<Reply>)
    requires !a.freed && !a.aborted && !a.freeing && Reaches(behave, a, incoming, |incoming|)
    ensures
      var c := After(behave, a, incoming, |incoming|);
      && Ended(c, Exec(behave, a, Readable(incoming, true))) && c.received == a.received + incoming
  {
    hide Teardown, Drop, Hand, Reaches, Nulls;
    var n := |incoming|;
    ProcessGoesOn(behave, a, incoming, true, n);
    AfterReads(behave, a, incoming, n);
    assert incoming[n..] == [] && incoming[..n] == incoming;
    DropEnds(behave, After(behave, a, incoming, n).(err := true));
  }

  /** The end of a read over a connection that holds. */
  lemma ReadToTheEnd(behave: Behaviour, a: Connection, incoming: seq<Reply>)
    requires !a.freed && !a.aborted && !a.freeing && Reaches(behave, a, incoming, |incoming|)
    ensures
      var b, c := Exec(behave, a, Readable(incoming, false)), After(behave, a, incoming, |incoming|);
      && c.received == a.received + incoming
      && (if !c.disconnecting || c.obuf != [] then b == c
          else if c.err || c.replies == [] then Ended(c, b) else b == c.(aborted := true))
  {
    hide Teardown, Hand, Reaches, Nulls;
    var n := |incoming|;
    ProcessGoesOn(behave, a, incoming, false, n);
    AfterReads(behave, a, incoming, n);
    assert incoming[n..] == [] && incoming[..n] == incoming;
    var c := After(behave, a, incoming, n);
    if c.err || c.replies == [] { DropEnds(behave, c); }
  }

  /** A read hands out the first of the incoming replies, up to a callback that frees or the last that was asked for. */
  lemma {:induction false} ReadTakesPrefix(behave: Behaviour, a: Connection, incoming: seq<Reply>, broken: bool)
    returns (k: nat)
    requires !a.freeing
    ensures k <= |incoming| && Process(behave, a, incoming, broken).received == a.received + incoming[..k]
    ensures k < |incoming| ==>
      || (Reaches(behave, a, incoming, k) && After(behave, a, incoming, k).replies == [])
      || (k > 0 && Reaches(behave, a, incoming, k - 1) && Frees(behave, After(behave, a, incoming, k - 1)))
    decreases |incoming|
  {
    hide Teardown, Drop, Hand, Reaches, Nulls;
    ReachesNone(behave, a, incoming);
    DropEnds(behave, a.(err := true));
    if incoming == [] || a.replies == [] {
      k := 0;
      assert a.received + incoming[..0] == a.received;
      if a.replies == [] { DropEnds(behave, a); } else { DropSaysNothing(behave, a); }
    } else {
      HandKeeps(behave, a, Some(incoming[0]));
      var b := Hand(behave, a, Some(incoming[0]));
      if b.freeing {
        k := 1;
        TeardownEnds(behave, b);
        assert incoming[..1] == [incoming[0]];
      } else {
        k := ReadTakesPrefix(behave, b, incoming[1..], broken);
        assert a.received + [incoming[0]] + incoming[1..][..k] == a.received + incoming[..k + 1];
        if k < |incoming[1..]| {
          ReachesNext(behave, a, incoming, k + 1);
          if k > 0 { ReachesNext(behave, a, incoming, k); }
        }
        k := k + 1;
      }
    }
  }

  /** The next callback frees the context. */
  predicate Frees(behave: Behaviour, a: Connection) {
    a.replies != [] && a.replies[0].Some? && FreeIt in behave(a.clock)
  }

  /** A read in which a callback frees the context ends with that callback. */
  lemma FreeingReadEnds(behave: Behaviour, a: Connection, incoming: seq<Reply>, broken: bool, i: nat)
    requires !a.freed && !a.aborted && !a.freeing && i < |incoming| && Reaches(behave, a, incoming, i)
    requires Frees(behave, After(behave, a, incoming, i))
    ensures
      var c := Hand(behave, After(behave, a, incoming, i), Some(incoming[i]));
      Ended(c, Exec(behave, a, Readable(incoming, broken))) && c.received == a.received + incoming[..i + 1]
  {
    hide Teardown, Drop, Hand, Reaches, Nulls;
    ProcessGoesOn(behave, a, incoming, broken, i);
    AfterReads(behave, a, incoming, i);
    var b := After(behave, a, incoming, i);
    HandKeeps(behave, b, Some(incoming[i]));
    assert incoming[i..][0] == incoming[i] && incoming[..i + 1] == incoming[..i] + [incoming[i]];
    TeardownEnds(behave, Hand(behave, b, Some(incoming[i])));
  }

  /** So does one that comes to an error nobody asked for. */
  lemma UnaskedErrorEnds(behave: Behaviour, a: Connection, incoming: seq<Reply>, broken: bool, i: nat)
    requires !a.freed && !a.aborted && !a.freeing && i < |incoming| && Reaches(behave, a, incoming, i)
    requires After(behave, a, incoming, i).replies == [] && incoming[i].Error?
    ensures
      var c := After(behave, a, incoming, i);
      Ended(c, Exec(behave, a, Readable(incoming, broken))) && c.received == a.received + incoming[..i]
  {
    hide Teardown, Drop, Hand, Reaches, Nulls;
    ProcessGoesOn(behave, a, incoming, broken, i);
    AfterReads(behave, a, incoming, i);
    assert incoming[i..][0] == incoming[i];
    DropEnds(behave, After(behave, a, incoming, i).(err := true));
  }

  lemma ReachesNone(behave: Behaviour, a: Connection, incoming: seq<Reply>)
    ensures Reaches(behave, a, incoming, 0) && After(behave, a, incoming, 0) == a
  {}

  lemma DropSaysNothing(behave: Behaviour, a: Connection)
    ensures Drop(behave, a).received == a.received
  {
    hide Teardown, Nulls;
    if a.err || a.replies == [] { DropEnds(behave, a); }
  }

  /** The read gets to a point where the context asserts. */
  ghost predicate Dies(behave: Behaviour, a: Connection, incoming: seq<Reply>, broken: bool) {
    exists i: nat :: AssertsAt(behave, a, incoming, broken, i)
  }

  lemma DiesFirst(behave: Behaviour, a: Connection, incoming: seq<Reply>, broken: bool)
    requires incoming == [] || a.replies == []
    ensures Dies(behave, a, incoming, broken) <==> Asserts(a, incoming, broken)
  {
    hide AssertsAt, Asserts;
    AssertsFirst(behave, a, incoming, broken, 0);
    if Dies(behave, a, incoming, broken) {
      var i: nat :| AssertsAt(behave, a, incoming, broken, i);
      AssertsFirst(behave, a, incoming, broken, i);
    }
  }

  lemma DiesNext(behave: Behaviour, a: Connection, incoming: seq<Reply>, broken: bool)
    requires incoming != [] && a.replies != []
    ensures Dies(behave, a, incoming, broken) <==>
      && (a.replies[0].Some? ==> FreeIt !in behave(a.clock))
      && Dies(behave, Hand(behave, a, Some(incoming[0])), incoming[1..], broken)
  {
    hide AssertsAt, Hand;
    var b := Hand(behave, a, Some(incoming[0]));
    if Dies(behave, a, incoming, broken) {
      var i: nat :| AssertsAt(behave, a, incoming, broken, i);
      AssertsNext(behave, a, incoming, broken, if i == 0 then 0 else i - 1);
      assert i - 1 + 1 == i;
    }
    if Dies(behave, b, incoming[1..], broken) {
      var i: nat :| AssertsAt(behave, b, incoming[1..], broken, i);
      AssertsNext(behave, a, incoming, broken, i);
    }
  }

  /**
    A read runs into an assertion exactly when it gets to a point where the context asserts,
    whatever the callbacks do.
    */
  lemma {:induction false} AbortsExactly(behave: Behaviour, a: Connection, incoming: seq<Reply>, broken: bool)
    requires !a.freeing && !a.aborted
    ensures Process(behave, a, incoming, broken).aborted <==> Dies(behave, a, incoming, broken)
    decreases |incoming|
  {
    hide Teardown, Drop, Hand, Dies;
    DropAborts(behave, a);
    DropAborts(behave, a.(err := true));
    if incoming == [] || a.replies == [] {
      DiesFirst(behave, a, incoming, broken);
    } else {
      HandKeeps(behave, a, Some(incoming[0]));
      var b := Hand(behave, a, Some(incoming[0]));
      DiesNext(behave, a, incoming, broken);
      if b.freeing {
        TeardownSurvives(behave, b);
      } else {
        AbortsExactly(behave, b, incoming[1..], broken);
      }
    }
  }

  /** The j-th event is a read at which the context asserts. */
  ghost predicate FatalRead(behave: Behaviour, es: seq<Event>, j: nat)
    requires j < |es|
  {
    var a := Run(behave, Start, es[..j]);
    !a.freed && !a.aborted && es[j].Readable? && Dies(behave, a, es[j].incoming, es[j].broken)
  }

  lemma OnlyReadsAbort(behave: Behaviour, a: Connection, e: Event)
    requires Good(a) && !a.aborted
    ensures Exec(behave, a, e).aborted <==> !a.freed && e.Readable? && Dies(behave, a, e.incoming, e.broken)
  {
    hide Teardown, Drop, Process, Dies, Fair;
    if a.freed { return; }
    DropAborts(behave, a.(err := true));
    match e
    case DoDisconnect => DropAborts(behave, a.(disconnecting := true));
    case DoFree => TeardownSurvives(behave, a.(freeing := true));
    case Readable(incoming, broken) => AbortsExactly(behave, a, incoming, broken);
    case _ =>
  }

  lemma LastAborts(behave: Behaviour, es: seq<Event>)
    requires es != []
    ensures
      var n := |es| - 1;
      Run(behave, Start, es).aborted <==> Run(behave, Start, es[..n]).aborted || FatalRead(behave, es, n)
  {
    hide Exec, Dies, Good;
    var n := |es| - 1;
    var a := Run(behave, Start, es[..n]);
    if a.aborted {
      StillAborted(behave, a, es[n]);
    } else {
      EveryRunIsFair(behave, es[..n]);
      OnlyReadsAbort(behave, a, es[n]);
    }
  }

  lemma StillAborted(behave: Behaviour, a: Connection, e: Event)
    requires a.aborted
    ensures Exec(behave, a, e) == a
  {}

  lemma FatalPrefix(behave: Behaviour, es: seq<Event>, n: nat, j: nat)
    requires j < n <= |es|
    ensures FatalRead(behave, es[..n], j) <==> FatalRead(behave, es, j)
  {
    hide Run, Dies;
    assert es[..n][..j] == es[..j];
  }

  /** A run dies at an assertion exactly when one of its reads asserts. */
  lemma {:induction false} RunAborts(behave: Behaviour, es: seq<Event>)
    ensures Run(behave, Start, es).aborted <==> exists j | 0 <= j < |es| :: FatalRead(behave, es, j)
    decreases |es|
  {
    hide FatalRead;
    if es != [] {
      hide Run;
      var n := |es| - 1;
      RunAborts(behave, es[..n]);
      LastAborts(behave, es);
      forall j | 0 <= j < n ensures FatalRead(behave, es[..n], j) <==> FatalRead(behave, es, j) {
        FatalPrefix(behave, es, n, j);
      }
    }
  }

  // Programs that never run into an assertion ------------------------

  /** A disconnect waits for nobody. */
  predicate Quiet(a: Connection) {
    a.disconnecting ==> a.replies == []
  }

  /** What a callback does from here on: it asks for a disconnect only with nothing pending. */
  predicate Prudent(a: Connection, xs: seq<Action>) {
    forall i | 0 <= i < |xs| && xs[i].DisconnectIt? :: Acts(a, xs[..i]).replies == []
  }

  lemma {:induction false} ActsQuiet(a: Connection, xs: seq<Action>)
    requires Quiet(a) && Prudent(a, xs)
    ensures Quiet(Acts(a, xs))
    decreases |xs|
  {
    if xs != [] {
      var n := |xs| - 1;
      forall i | 0 <= i < n && xs[..n][i].DisconnectIt? ensures Acts(a, xs[..n][..i]).replies == [] {
        assert xs[..n][..i] == xs[..i];
      }
      ActsQuiet(a, xs[..n]);
    }
  }

  /**
    A read in good order: at every reply the server has sent fewer replies than it was sent commands,
    and the callback that gets it is prudent.
    */
  predicate Orderly(behave: Behaviour, a: Connection, incoming: seq<Reply>)
    decreases |incoming|
  {
    incoming == [] ||
    (&& |a.received| < |a.issued|
     && (a.replies != [] ==>
           var b := Hand(behave, a, Some(incoming[0]));
           && (a.replies[0].Some? ==> Prudent(Shift(a, Some(incoming[0])), behave(a.clock)))
           && (b.freeing || Orderly(behave, b, incoming[1..]))))
  }

  lemma Asked(a: Connection)
    requires Live(a)
    ensures |a.received| < |a.issued| <==> a.replies != []
  {
    assert |Names(a.answered) + a.replies| == |a.answered| + |a.replies|;
  }

  lemma HandQuiet(behave: Behaviour, a: Connection, reply: Option<Reply>)
    requires a.replies != [] && Quiet(a) && (a.replies[0].Some? ==> Prudent(Shift(a, reply), behave(a.clock)))
    ensures Quiet(Hand(behave, a, reply))
  {
    hide Acts, Prudent;
    if a.replies[0].Some? { ActsQuiet(Shift(a, reply), behave(a.clock)); }
  }

  lemma {:induction false} OrderlyRead(behave: Behaviour, a: Connection, incoming: seq<Reply>, broken: bool)
    requires Live(a) && Quiet(a) && !a.freed && !a.freeing && !a.aborted && Orderly(behave, a, incoming)
    ensures var b := Process(behave, a, incoming, broken); !b.aborted && (b.freed || Quiet(b))
    decreases |incoming|
  {
    hide Teardown, Drop, Hand, Fair, Prudent;
    DropAborts(behave, a);
    DropAborts(behave, a.(err := true));
    Asked(a);
    if incoming == [] {
      LiveErr(a);
      DropFrees(behave, a.(err := true));
      if a.disconnecting { DropFrees(behave, a); }
    } else {
      LiveFair(a);
      var b := Hand(behave, a, Some(incoming[0]));
      HandKeeps(behave, a, Some(incoming[0]));
      HandFair(behave, a, Some(incoming[0]));
      HandQuiet(behave, a, Some(incoming[0]));
      if b.freeing {
        TeardownSurvives(behave, b);
        TeardownRunsAll(behave, b);
      } else {
        OrderlyRead(behave, b, incoming[1..], broken);
      }
    }
  }

  lemma DropFrees(behave: Behaviour, a: Connection)
    requires Live(a) && !a.freeing && (a.err || a.replies == [])
    ensures Drop(behave, a).freed
  {
    hide Teardown, Fair;
    LiveFair(a);
    if a.err {
      DisconnectingFair(a);
      TeardownRunsAll(behave, a.(disconnecting := true));
    } else {
      TeardownRunsAll(behave, a);
    }
  }

  lemma DisconnectingFair(a: Connection)
    requires Fair(a)
    ensures Fair(a.(disconnecting := true))
  {}

  /** The program and the server behave at event e: no disconnect while something is pending, only orderly reads. */
  predicate Civil(behave: Behaviour, a: Connection, e: Event) {
    match e
    case DoDisconnect => a.replies == []
    case Readable(incoming, _) => Orderly(behave, a, incoming)
    case _ => true
  }

  lemma CivilStep(behave: Behaviour, a: Connection, e: Event)
    requires Good(a) && !a.aborted && (a.freed || (Quiet(a) && Civil(behave, a, e)))
    ensures var b := Exec(behave, a, e); !b.aborted && (b.freed || Quiet(b))
  {
    hide Teardown, Drop, Process, Orderly, Fair;
    if a.freed { return; }
    LiveErr(a);
    DropAborts(behave, a.(err := true));
    DropFrees(behave, a.(err := true));
    match e
    case DoDisconnect =>
      LiveDisconnecting(a);
      DropAborts(behave, a.(disconnecting := true));
      DropFrees(behave, a.(disconnecting := true));
    case DoFree =>
      TeardownSurvives(behave, a.(freeing := true));
      FreeingFair(a);
      TeardownRunsAll(behave, a.(freeing := true));
    case Readable(incoming, broken) => OrderlyRead(behave, a, incoming, broken);
    case _ =>
  }

  lemma LiveDisconnecting(a: Connection)
    requires Live(a)
    ensures Live(a.(disconnecting := true))
  {}

  lemma FreeingFair(a: Connection)
    requires Fair(a)
    ensures Fair(a.(freeing := true))
  {}

  /**
    No run aborts in which a disconnect is asked for only with nothing pending, in callbacks and
    outside, and the server never sends more replies than it was sent commands.
    */
  lemma {:induction false} CivilRunsSurvive(behave: Behaviour, es: seq<Event>)
    requires forall j | 0 <= j < |es| :: Civil(behave, Run(behave, Start, es[..j]), es[j])
    ensures var a := Run(behave, Start, es); !a.aborted && (a.freed || Quiet(a))
    decreases |es|
  {
    hide Exec, Civil, Good;
    if es != [] {
      var n := |es| - 1;
      forall j | 0 <= j < n ensures Civil(behave, Run(behave, Start, es[..n][..j]), es[..n][j]) {
        assert es[..n][..j] == es[..j];
      }
      CivilRunsSurvive(behave, es[..n]);
      EveryRunIsFair(behave, es[..n]);
      CivilStep(behave, Run(behave, Start, es[..n]), es[n]);
    }
  }

  /** A callback that disconnects while another waits: the read that ran it dies. */
  lemma CallbackDisconnectDies(behave: Behaviour, a: Connection, r: Reply)
    requires a.replies == [Some(0), Some(1)] && behave(a.clock) == [DisconnectIt]
    requires a.obuf == [] && !a.disconnecting && !a.freeing && !a.err && !a.aborted
    ensures Process(behave, a, [r], false).aborted
  {
    hide Drop, Process, Dies;
    var b := Hand(behave, a, Some(r));
    var c, xs := Shift(a, Some(r)), behave(a.clock);
    assert xs[..0] == [] && Acts(c, xs[..0]) == c && xs[0] == DisconnectIt;
    assert b == Shift(a, Some(r)).(disconnecting := true);
    assert [r][1..] == [];
    DiesFirst(behave, b, [], false);
    DiesNext(behave, a, [r], false);
    AbortsExactly(behave, a, [r], false);
  }

  /**
    A disconnect that waits for its replies runs into the assertion exactly when the socket
    becomes readable too early: with fewer complete replies than are pending and nothing left
    to write; or when the server sends more replies than were asked for, errors excepted.
    */
  lemma {:induction false} DisconnectAborts(behave: Behaviour, a: Connection, incoming: seq<Reply>, broken: bool)
    requires a.disconnecting && !a.freeing && !a.freed && !a.aborted && !a.err
    ensures
      var n, k := |a.replies|, |incoming|;
      Process(behave, a, incoming, broken).aborted <==>
        && NoneFrees(behave, a, if k < n then k else n)
        && (if k > n then !incoming[n].Error? else k < n && !broken && a.obuf == [])
    decreases |incoming|
  {
    hide Teardown, Drop, Hand, NoneFrees;
    DropAborts(behave, a);
    DropAborts(behave, a.(err := true));
    NoneFreesNone(behave, a);
    if incoming != [] && a.replies != [] {
      HandKeeps(behave, a, Some(incoming[0]));
      var b := Hand(behave, a, Some(incoming[0]));
      NoneFreesNext(behave, a, b, if |incoming| < |a.replies| then |incoming| else |a.replies|);
      if b.freeing {
        TeardownSurvives(behave, b);
      } else {
        DisconnectAborts(behave, b, incoming[1..], broken);
      }
    }
  }

  lemma NoneFreesNone(behave: Behaviour, a: Connection)
    ensures NoneFrees(behave, a, 0)
  {}

  /**
    The promised clean disconnect, when the replies come together: each callback gets its reply,
    then the context goes.
    */
  lemma {:induction false} CleanDisconnect(behave: Behaviour, a: Connection, incoming: seq<Reply>)
    requires a.disconnecting && !a.freeing && !a.freed && !a.aborted && !a.err
    requires a.obuf == [] && |incoming| == |a.replies| && NoneFrees(behave, a, |a.replies|)
    ensures var b := Process(behave, a, incoming, false); b.freed && !b.aborted && b.received == a.received + incoming
    decreases |incoming|
  {
    hide Hand, NoneFrees;
    if incoming == [] {
      assert a.received + incoming == a.received;
    } else {
      HandKeeps(behave, a, Some(incoming[0]));
      var b := Hand(behave, a, Some(incoming[0]));
      NoneFreesNext(behave, a, b, |a.replies|);
      CleanDisconnect(behave, b, incoming[1..]);
      assert a.received + [incoming[0]] + incoming[1..] == a.received + incoming;
    }
  }

  /** A program that sends one command, flushes it and disconnects dies at the next read that brings no reply yet. */
  lemma WaitingDisconnectDies(behave: Behaviour, cmd: bytes)
    ensures Run(behave, Start, [DoCommand(Some(0), cmd), Writable(|cmd|), DoDisconnect, Readable([], false)]).aborted
  {
    hide Teardown, Drop, Process, Exec;
    var es := [DoCommand(Some(0), cmd), Writable(|cmd|), DoDisconnect, Readable([], false)];
    var a1 := Start.(replies := [Some(0)], issued := [Some(0)], obuf := cmd);
    Exec1(behave, cmd, a1);
    assert es[..4] == es && es[..4][..3] == es[..3] && es[..3][..2] == es[..2];
    assert es[..2][..1] == es[..1] && es[..1][..0] == [];
    assert Run(behave, Start, es[..1]) == Exec(behave, Start, es[0]);
    assert Run(behave, Start, es[..2]) == Exec(behave, Run(behave, Start, es[..1]), es[1]);
    assert Run(behave, Start, es[..3]) == Exec(behave, Run(behave, Start, es[..2]), es[2]);
  }

  lemma Exec1(behave: Behaviour, cmd: bytes, a: Connection)
    requires a == Start.(replies := [Some(0)], issued := [Some(0)], obuf := cmd)
    ensures Exec(behave, Start, DoCommand(Some(0), cmd)) == a
    ensures Exec(behave, a, Writable(|cmd|)) == a.(obuf := [])
    ensures Exec(behave, a.(obuf := []), DoDisconnect) == a.(obuf := [], disconnecting := true)
    ensures Exec(behave, a.(obuf := [], disconnecting := true), Readable([], false)).aborted
  {
    hide Teardown;
    assert [] + [Some(0)] == [Some(0)] && [] + cmd == cmd;
  }
}
