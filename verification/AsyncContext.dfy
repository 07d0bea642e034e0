/**
  The asynchronous client of hiredis-vip-master/async.c as it runs, method by method a step of the
  machine in Async.
  */
module AsyncContexts {
  import opened Bytes
  import opened Resp
  import opened Async
  import A = Async

  class AsyncContext {
    const behave: Behaviour
    var replies: seq<Callback>
    var obuf: bytes
    var disconnecting: bool
    var freeing: bool
    var inCallback: bool
    var err: bool
    var freed: bool
    var aborted: bool
    var clock: nat

    ghost var issued: seq<Callback>
    ghost var received: seq<Reply>
    ghost var answered: seq<(Callback, Option<Reply>)>

    ghost function State(): Connection
      reads this
    {
      Connection(replies, obuf, disconnecting, freeing, err, freed, aborted, clock, issued, received, answered)
    }

    constructor (behave: Behaviour)
      ensures State() == Start && !inCallback && this.behave == behave
    {
      this.behave := behave;
      replies, obuf, clock := [], [], 0;
      disconnecting, freeing, inCallback, err, freed, aborted := false, false, false, false, false, false;
      issued, received, answered := [], [], [];
    }

    /** __redisAsyncCommand; false is REDIS_ERR. */
    method Command(fn: Callback, cmd: bytes) returns (ok: bool)
      modifies this
      ensures ok == !Closed(old(State()))
      ensures State() == A.Command(old(State()), fn, cmd) && inCallback == old(inCallback)
    {
      if disconnecting || freeing { return false; }
      replies, issued, obuf := replies + [fn], issued + [fn], obuf + cmd;
      ok := true;
    }

    /** redisAsyncFree. */
    method Free()
      requires !inCallback ==> !freed && !aborted
      modifies this
      ensures State() == (if old(inCallback) then Act(old(State()), FreeIt) else Exec(behave, old(State()), DoFree))
      ensures inCallback == old(inCallback)
      decreases if inCallback then 0 else 4
    {
      freeing := true;
      if !inCallback { Teardown(); }
    }

    /** redisAsyncDisconnect. */
    method Disconnect()
      requires !inCallback ==> !freed && !aborted
      modifies this
      ensures State() ==
        (if old(inCallback) then Act(old(State()), DisconnectIt) else Exec(behave, old(State()), DoDisconnect))
      ensures inCallback == old(inCallback)
      decreases if inCallback then 0 else 5
    {
      disconnecting := true;
      if !inCallback && replies == [] { Drop(); }
    }

    /** The body of a callback, calling back into this context. */
    method RunActions(actions: seq<Action>)
      requires inCallback
      modifies this
      ensures inCallback && State() == Acts(old(State()), actions)
      decreases 1
    {
      hide Act, Exec;
      for i := 0 to |actions|
        invariant inCallback && State() == Acts(old(State()), actions[..i])
      {
        assert actions[..i + 1][..i] == actions[..i];
        match actions[i] {
          case Issue(f, cmd) =>
            var _ := Command(f, cmd);
            ActIssue(Acts(old(State()), actions[..i]), f, cmd);
          case FreeIt => Free();
          case DisconnectIt => Disconnect();
        }
      }
      assert actions[..|actions|] == actions;
    }

    /** __redisShiftCallback, for a reply. */
    method Shift(reply: Option<Reply>) returns (fn: Callback)
      requires replies != []
      modifies this
      ensures fn == old(replies)[0] && inCallback == old(inCallback)
      ensures State() == A.Shift(old(State()), reply)
    {
      fn := replies[0];
      replies, clock, answered := replies[1..], clock + 1, answered + [(fn, reply)];
      if reply.Some? { received := received + [reply.value]; }
    }

    /** __redisRunCallback on the callback shifted. */
    method Hand(reply: Option<Reply>) returns (fn: Callback)
      requires !inCallback && replies != []
      modifies this
      ensures fn == old(replies)[0] && !inCallback
      ensures State() == A.Hand(behave, old(State()), reply)
      decreases 2
    {
      hide Acts, A.Shift;
      var actions := behave(clock);
      fn := Shift(reply);
      if fn.None? { return; }
      inCallback := true;
      RunActions(actions);
      inCallback := false;
    }

    /** __redisAsyncFree. */
    method Teardown()
      requires !inCallback && (Closed(State()) || replies == [])
      modifies this
      ensures !inCallback && State() == A.Teardown(behave, old(State()))
      decreases 3
    {
      while replies != []
        invariant !inCallback && (Closed(State()) || replies == [])
        invariant A.Teardown(behave, State()) == A.Teardown(behave, old(State()))
        decreases |replies|
      {
        HandKeeps(behave, State(), None);
        var _ := Hand(None);
      }
      freed := true;
    }

    /** __redisAsyncDisconnect. */
    method Drop()
      requires !inCallback
      modifies this
      ensures !inCallback && State() == A.Drop(behave, old(State()))
      decreases 4
    {
      if !err {
        if replies != [] { aborted := true; return; }
      } else {
        disconnecting := true;
      }
      Teardown();
    }

    /** redisProcessCallbacks. */
    method Process(incoming: seq<Reply>, broken: bool)
      requires !inCallback
      modifies this
      ensures !inCallback && State() == A.Process(behave, old(State()), incoming, broken)
    {
      assert incoming[0..] == incoming;
      for i := 0 to |incoming|
        invariant !inCallback
        invariant A.Process(behave, State(), incoming[i..], broken) == A.Process(behave, old(State()), incoming, broken)
      {
        assert incoming[i..][1..] == incoming[i + 1..];
        if replies == [] {
          if incoming[i].Error? {
            err := true;
            Drop();
          } else {
            aborted := true;
          }
          return;
        }
        var fn := Hand(Some(incoming[i]));
        if fn.Some? && freeing {
          Teardown();
          return;
        }
      }
      if broken {
        err := true;
        Drop();
      } else if disconnecting && obuf == [] {
        Drop();
      }
    }

    /** redisAsyncHandleRead once connected; None when reading the socket fails. */
    method HandleRead(incoming: Option<seq<Reply>>, broken: bool)
      requires !inCallback && !freed && !aborted
      modifies this
      ensures !inCallback && State() == Exec(behave, old(State()),
                match incoming case None => ReadFails case Some(replies) => Readable(replies, broken))
    {
      match incoming {
        case None =>
          err := true;
          Drop();
        case Some(replies) => Process(replies, broken);
      }
    }

    /** redisAsyncHandleWrite once connected; None when writing fails. */
    method HandleWrite(written: Option<nat>)
      requires !inCallback && !freed && !aborted
      modifies this
      ensures !inCallback
      ensures State() == Exec(behave, old(State()), match written case None => WriteFails case Some(n) => Writable(n))
    {
      match written {
        case None =>
          err := true;
          Drop();
        case Some(n) => obuf := obuf[if n <= |obuf| then n else |obuf|..];
      }
    }

    /** Any program over any connection, until the context is gone. */
    method Drive(es: seq<Event>)
      requires !inCallback && State() == Start
      modifies this
      ensures State() == A.Run(behave, Start, es) && Good(State())
    {
      hide Good, Exec;
      for i := 0 to |es|
        invariant !inCallback && State() == A.Run(behave, Start, es[..i])
      {
        assert es[..i + 1][..i] == es[..i];
        if freed || aborted {
          ExecDone(behave, State(), es[i]);
        } else {
          match es[i] {
            case DoCommand(fn, cmd) =>
              ExecCommand(behave, State(), fn, cmd);
              var _ := Command(fn, cmd);
            case DoDisconnect => Disconnect();
            case DoFree => Free();
            case Readable(incoming, broken) => HandleRead(Some(incoming), broken);
            case ReadFails => HandleRead(None, false);
            case Writable(n) => HandleWrite(Some(n));
            case WriteFails => HandleWrite(None);
          }
        }
      }
      assert es[..|es|] == es;
      EveryRunIsFair(behave, es);
    }
  }

  lemma ActIssue(a: Connection, fn: Callback, cmd: bytes)
    ensures Act(a, Issue(fn, cmd)) == A.Command(a, fn, cmd)
  {}

  lemma ExecDone(behave: Behaviour, a: Connection, e: Event)
    requires a.freed || a.aborted
    ensures Exec(behave, a, e) == a
  {}

  lemma ExecCommand(behave: Behaviour, a: Connection, fn: Callback, cmd: bytes)
    requires !a.freed && !a.aborted
    ensures Exec(behave, a, DoCommand(fn, cmd)) == A.Command(a, fn, cmd)
  {}
}
