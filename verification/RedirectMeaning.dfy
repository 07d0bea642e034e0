/**
  What a command that is redirected does to the data.

  A node that answers with a redirection has not touched the data; one that answers otherwise has
  carried the command out.  When an answer is lost nobody knows: `lost` tells for every tick.
  */
module RedirectMeaning {
  import opened Bytes
  import opened Resp
  import opened Commands
  import opened Format
  import opened KeySlot
  import opened Store
  import opened Merge
  import opened FragmentMeaning
  import opened FragmentBytes
  import opened Fragment
  import opened ClusterCommand
  import opened ClientPlan
  import P = Pipeline
  import R = Redirect

  type Lost = nat -> bool

  predicate CarriedOut(lost: Lost, e: R.Event) {
    e.Tried? && if e.reply.Some? then !R.Redirects(e.reply.value) else lost(e.at)
  }

  /** The data after what a log says was carried out. */
  function Effect(g: Store, lost: Lost, log: seq<R.Event>): Store
  {
    if log == [] then g
    else
      var n := |log| - 1;
      var st := Effect(g, lost, log[..n]);
      if CarriedOut(lost, log[n]) then Serve(log[n].cmd, st).1 else st
  }

  function Times(lost: Lost, log: seq<R.Event>): nat
  {
    if log == [] then 0 else Times(lost, log[..|log| - 1]) + if CarriedOut(lost, log[|log| - 1]) then 1 else 0
  }

  /** An answer that redirects nowhere is the server's. */
  predicate Answered(g: Store, lost: Lost, log: seq<R.Event>, i: nat)
    requires i < |log|
  {
    var e := log[i];
    e.Tried? && e.reply.Some? && !R.Redirects(e.reply.value) ==>
      e.reply.value == Serve(e.cmd, Effect(g, lost, log[..i])).0
  }

  predicate Served(g: Store, lost: Lost, log: seq<R.Event>) {
    forall i | 0 <= i < |log| :: Answered(g, lost, log, i)
  }

  lemma {:induction false} Untouched(g: Store, lost: Lost, log: seq<R.Event>)
    requires forall i | 0 <= i < |log| && log[i].Tried? :: R.Redirected(log[i])
    ensures Effect(g, lost, log) == g && Times(lost, log) == 0
    decreases |log|
  {
    hide Serve, R.Redirects;
    if log != [] {
      var n := |log| - 1;
      assert forall i | 0 <= i < n :: log[..n][i] == log[i];
      Untouched(g, lost, log[..n]);
      assert log[n].Tried? ==> R.Redirected(log[n]);
    }
  }

  /**
    However often a command is sent, it takes effect at most once; when it settles, exactly once,
    and with the server's reply.
    */
  lemma AtMostOnce(slot: int, cmd: bytes, table: seq<int>, lost: Lost, g: Store, log: seq<R.Event>)
    requires R.Episode(slot, cmd, table, log)
    ensures Times(lost, log) <= 1
    ensures Effect(g, lost, log) == if Times(lost, log) == 1 then Serve(cmd, g).1 else g
    ensures R.Settled(log).Some? ==> Times(lost, log) == 1
    ensures R.Settled(log).Some? && Served(g, lost, log) ==> R.Settled(log) == Some(Serve(cmd, g).0)
  {
    hide Serve, R.Redirects, R.Episode;
    if log != [] {
      var n := |log| - 1;
      forall i | 0 <= i < n && log[..n][i].Tried? ensures R.Redirected(log[..n][i]) {
        R.OnlyTheLastCounts(slot, cmd, table, log, i);
      }
      Untouched(g, lost, log[..n]);
      if log[n].Tried? { R.OnlyTheLastCounts(slot, cmd, table, log, n); }
      assert Served(g, lost, log) ==> Answered(g, lost, log, n);
    }
  }

  lemma {:induction false} EffectJoin(g: Store, lost: Lost, a: seq<R.Event>, b: seq<R.Event>)
    ensures Effect(g, lost, a + b) == Effect(Effect(g, lost, a), lost, b)
    decreases |b|
  {
    hide Serve, CarriedOut;
    if b == [] {
      assert a + b == a;
    } else {
      var n := |b| - 1;
      EffectJoin(g, lost, a, b[..n]);
      assert (a + b)[..|a + b| - 1] == a + b[..n];
    }
  }

  lemma ServedJoin(g: Store, lost: Lost, a: seq<R.Event>, b: seq<R.Event>)
    requires Served(g, lost, a + b)
    ensures Served(g, lost, a) && Served(Effect(g, lost, a), lost, b)
  {
    hide Serve, R.Redirects;
    forall i | 0 <= i < |a| ensures Answered(g, lost, a, i) {
      assert Answered(g, lost, a + b, i) && (a + b)[..i] == a[..i];
    }
    forall i | 0 <= i < |b| ensures Answered(Effect(g, lost, a), lost, b, i) {
      assert Answered(g, lost, a + b, |a| + i) && (a + b)[..|a| + i] == a + b[..i];
      EffectJoin(g, lost, a, b[..i]);
    }
  }

  // Several parts ----------------------------------------------------

  /** The data after some commands, each served once. */
  function ServeAll(g: Store, cmds: seq<bytes>): Store
  {
    if cmds == [] then g else Serve(cmds[|cmds| - 1], ServeAll(g, cmds[..|cmds| - 1])).1
  }

  /** What the i-th of the commands, served in order, is answered. */
  function ReplyTo(g: Store, cmds: seq<bytes>, i: nat): Reply
    requires i < |cmds|
  {
    Serve(cmds[i], ServeAll(g, cmds[..i])).0
  }

  /** The parts done so far: all of them carried out, perhaps except the last when it did not settle. */
  ghost predicate Progress(g: Store, lost: Lost, cmds: seq<bytes>, eps: seq<seq<R.Event>>, j: nat) {
    && j <= |eps| <= j + 1 && |eps| <= |cmds|
    && Effect(g, lost, R.Flat(eps)) == ServeAll(g, cmds[..j])
    && (eps != [] && R.Settled(eps[|eps| - 1]).Some? ==> j == |eps|)
    && (Served(g, lost, R.Flat(eps)) ==>
          forall i | 0 <= i < |eps| && R.Settled(eps[i]).Some? :: R.Settled(eps[i]) == Some(ReplyTo(g, cmds, i)))
  }

  lemma StoryInit(r: P.Request, cmds: seq<bytes>, table: seq<int>, eps: seq<seq<R.Event>>)
    requires |cmds| == |P.SlotsOf(r)| && R.Story(r, cmds, table, eps) && eps != []
    ensures var n := |eps| - 1;
      && R.Story(r, cmds, table, eps[..n])
      && R.Episode(P.SlotsOf(r)[n], cmds[n], R.Current(table, R.Flat(eps[..n])), eps[n])
      && forall i | 0 <= i < n :: R.Settled(eps[i]).Some?
  {
    hide R.Episode, R.Current, R.Flat, R.Settled, P.SlotsOf;
    var n := |eps| - 1;
    var init := eps[..n];
    forall i | 0 <= i < n ensures R.Part(P.SlotsOf(r), cmds, table, init, i) {
      assert R.Part(P.SlotsOf(r), cmds, table, eps, i) && init[..i] == eps[..i];
    }
    assert R.Part(P.SlotsOf(r), cmds, table, eps, n);
  }

  /** One part more. */
  lemma ProgressMore(g: Store, lost: Lost, cmds: seq<bytes>, eps: seq<seq<R.Event>>, slot: int, table: seq<int>,
                     ep: seq<R.Event>)
    returns (j: nat)
    requires Progress(g, lost, cmds, eps, |eps|) && |eps| < |cmds| && R.Episode(slot, cmds[|eps|], table, ep)
    ensures Progress(g, lost, cmds, eps + [ep], j)
  {
    hide Serve, R.Episode, R.Settled, Served, Effect, ReplyTo, R.Flat, Times;
    var n := |eps|;
    var more, st := eps + [ep], ServeAll(g, cmds[..n]);
    R.FlatMore(table, 0, eps, ep);
    EffectJoin(g, lost, R.Flat(eps), ep);
    AtMostOnce(slot, cmds[n], table, lost, st, ep);
    assert cmds[..n + 1][..n] == cmds[..n];
    j := n + Times(lost, ep);
    if Served(g, lost, R.Flat(more)) {
      ServedJoin(g, lost, R.Flat(eps), ep);
      ReplyHere(g, cmds, n);
    }
  }

  lemma ReplyHere(g: Store, cmds: seq<bytes>, i: nat)
    requires i < |cmds|
    ensures ReplyTo(g, cmds, i) == Serve(cmds[i], ServeAll(g, cmds[..i])).0
  {
    hide Serve;
  }

  /**
    Whatever was redirected on the way, the parts take effect in order, each at most once, and only
    the last can be in doubt.
    */
  lemma {:induction false} StoryEffect(r: P.Request, cmds: seq<bytes>, table: seq<int>, eps: seq<seq<R.Event>>,
                                       lost: Lost, g: Store)
    returns (j: nat)
    requires |cmds| == |P.SlotsOf(r)| && R.Story(r, cmds, table, eps)
    ensures Progress(g, lost, cmds, eps, j)
    decreases |eps|
  {
    hide R.Episode, R.Current, R.Settled, R.Story, P.SlotsOf, Progress;
    StoryLength(r, cmds, table, eps);
    if eps == [] {
      j := 0;
      ProgressNone(g, lost, cmds);
    } else {
      var n := |eps| - 1;
      StoryInit(r, cmds, table, eps);
      var init := eps[..n];
      var k := StoryEffect(r, cmds, table, init, lost, g);
      if n > 0 { assert init[n - 1] == eps[n - 1]; }
      ProgressEnd(g, lost, cmds, init, k);
      assert eps == init + [eps[n]];
      j := ProgressMore(g, lost, cmds, init, P.SlotsOf(r)[n], R.Current(table, R.Flat(init)), eps[n]);
    }
  }

  lemma ProgressNone(g: Store, lost: Lost, cmds: seq<bytes>)
    ensures Progress(g, lost, cmds, [], 0)
  {
    hide Serve;
    EffectNone(g, lost);
    assert cmds[..0] == [];
  }

  lemma ProgressEnd(g: Store, lost: Lost, cmds: seq<bytes>, eps: seq<seq<R.Event>>, j: nat)
    requires Progress(g, lost, cmds, eps, j) && (eps != [] ==> R.Settled(eps[|eps| - 1]).Some?)
    ensures j == |eps|
  {
    hide R.Settled, Effect, ServeAll, Served, ReplyTo;
  }

  lemma EffectNone(g: Store, lost: Lost)
    ensures Effect(g, lost, []) == g && R.Flat([]) == []
  {}

  lemma StoryLength(r: P.Request, cmds: seq<bytes>, table: seq<int>, eps: seq<seq<R.Event>>)
    requires |cmds| == |P.SlotsOf(r)| && R.Story(r, cmds, table, eps)
    ensures |eps| <= |cmds|
  {
    hide R.Part, R.Settled;
  }

  // A whole command --------------------------------------------------

  /** Commands served in order: the data they leave and the answers they get. */
  ghost predicate Tally(g: Store, cs: seq<Answer>, st: Store, slots: seq<int>, cmds: seq<bytes>) {
    && st == ServeAll(g, cmds) && |cs| == |slots| == |cmds|
    && forall i | 0 <= i < |cs| :: cs[i] == Answer(slots[i], Some(ReplyTo(g, cmds, i)))
  }

  lemma TallyMore(g: Store, cs: seq<Answer>, st: Store, slots: seq<int>, cmds: seq<bytes>, s: int, cmd: bytes)
    requires Tally(g, cs, st, slots, cmds)
    ensures Tally(g, cs + [Answer(s, Some(Serve(cmd, st).0))], Serve(cmd, st).1, slots + [s], cmds + [cmd])
  {
    hide Serve;
    var more := cmds + [cmd];
    assert more[..|cmds|] == cmds;
    forall i | 0 <= i < |cmds| ensures ReplyTo(g, more, i) == ReplyTo(g, cmds, i) {
      assert more[..i] == cmds[..i];
    }
  }

  /** The answers of the slots, in order, are the replies to their sub-commands. */
  lemma {:induction false} SlotsAsCmds(t: Cmd, g: Store, es: seq<Entry>, n: nat)
    ensures Tally(g, ServeSlots(t, g, es, n).0, ServeSlots(t, g, es, n).1, UsedSlots(es, n), Cmds(t, es, n))
    decreases n
  {
    hide InSlot, Serve, Written, Tally, ServeAll;
    if n == 0 {
      TallyNone(g);
    } else {
      SlotsAsCmds(t, g, es, n - 1);
      var (cs, st) := ServeSlots(t, g, es, n - 1);
      var fs := InSlot(es, n - 1);
      var slots, cmds := UsedSlots(es, n - 1), Cmds(t, es, n - 1);
      if fs == [] {
        assert slots + [] == slots && cmds + [] == cmds;
      } else {
        TallyMore(g, cs, st, slots, cmds, n - 1, Written(t, fs));
      }
    }
  }

  lemma TallyNone(g: Store)
    ensures Tally(g, [], g, [], [])
  {}

  lemma ExecNoError(t: Cmd, store: Store, es: seq<Entry>)
    requires Multi(t)
    ensures !Exec(t, store, es).0.Error?
  {}

  /** No part is answered with an error. */
  lemma PartNoError(t: Cmd, argv: seq<bytes>, g: Store, i: nat)
    requires Splittable(t, argv) && Neat(t, Entries(t, argv)) && |argv| >= 1 && i < |CmdsOf(t, argv)|
    ensures !ReplyTo(g, CmdsOf(t, argv), i).Error?
  {
    hide Serve, Exec, InSlot, Written, Clean, FormatArgv, UsedSlots, TypeOf, Entries, ServeAll, Cmds, SubArgv,
      Means;
    var es, cmds := Entries(t, argv), CmdsOf(t, argv);
    SplittableMulti(t, argv);
    var st := ServeAll(g, cmds[..i]);
    if |UsedSlots(es, SLOTS)| == 1 {
      ServeFormat(t, argv, st);
      ExecNoError(t, st, es);
    } else {
      CmdsAt(t, es, SLOTS, i);
      UsedSlotsRange(es, SLOTS);
      var s := UsedSlots(es, SLOTS)[i];
      UsedNotEmpty(es, SLOTS, i);
      ProperEntries(t, argv);
      ProperInSlot(t, es, s);
      WrittenMeans(t, InSlot(es, s));
      MeansHere(Written(t, InSlot(es, s)), t, InSlot(es, s), st);
      ExecNoError(t, st, InSlot(es, s));
    }
  }

  lemma MeansHere(cmd: bytes, t: Cmd, es: seq<Entry>, store: Store)
    requires Multi(t) && Means(cmd, t, es)
    ensures Serve(cmd, store) == Exec(t, store, es)
  {
    hide Serve, Exec;
  }

  lemma {:induction false} UsedNotEmpty(es: seq<Entry>, n: nat, i: nat)
    requires i < |UsedSlots(es, n)|
    ensures InSlot(es, UsedSlots(es, n)[i]) != []
    decreases n
  {
    hide InSlot;
    if n > 0 && i < |UsedSlots(es, n - 1)| { UsedNotEmpty(es, n - 1, i); }
  }

  /** What the caller may conclude from the reply. */
  ghost predicate Faithful(t: Cmd, argv: seq<bytes>, g: Store, after: Store, reply: Option<Reply>)
    requires |argv| >= 1
  {
    match reply
    case Some(r) => (r, after) == Serve(FormatArgv(argv), g)
    case None => exists j: nat :: j <= |CmdsOf(t, argv)| && after == ServeAll(g, CmdsOf(t, argv)[..j])
  }

  /**
    Through any redirections: a command that gets a reply gets the reply, and has had the effect, of
    being served once and whole; one that gets none has had the effect of its first parts, in order.
    */
  lemma RedirectedCommand(t: Cmd, argv: seq<bytes>, table: seq<int>, eps: seq<seq<R.Event>>, lost: Lost, g: Store)
    requires Splittable(t, argv) && Neat(t, Entries(t, argv)) && |argv| >= 1
    requires |CmdsOf(t, argv)| == |P.SlotsOf(RequestOf(t, Entries(t, argv)))|
    requires R.Story(RequestOf(t, Entries(t, argv)), CmdsOf(t, argv), table, eps) && Served(g, lost, R.Flat(eps))
    ensures Faithful(t, argv, g, Effect(g, lost, R.Flat(eps)), R.Delivers(RequestOf(t, Entries(t, argv)), eps))
  {
    hide Serve, FormatArgv, Effect, Served, R.Settled, R.Story, R.Flat, UsedSlots, Entries, Neat, Splittable,
      MergeReplies, FragSeq, ReplyTo, ServeAll, Cmds;
    var es, cmds := Entries(t, argv), CmdsOf(t, argv);
    var r := RequestOf(t, es);
    SomeEntries(t, argv);
    SomeSlotIsUsed(es, SLOTS);
    var j := StoryEffect(r, cmds, table, eps, lost, g);
    if eps != [] && R.Settled(eps[|eps| - 1]).Some? {
      PartNoError(t, argv, g, |eps| - 1);
      if |eps| == |cmds| {
        assert cmds[..j] == cmds;
        StoryGoes(r, cmds, table, eps);
        AllServed(t, argv, g, eps);
      }
    }
  }

  lemma StoryGoes(r: P.Request, cmds: seq<bytes>, table: seq<int>, eps: seq<seq<R.Event>>)
    requires |cmds| == |P.SlotsOf(r)| && R.Story(r, cmds, table, eps)
    ensures forall i | 0 <= i < |eps| - 1 :: R.Settled(eps[i]).Some? && !R.Settled(eps[i]).value.Error?
  {
    hide R.Part, R.Settled;
  }

  /** All parts settled: together they are the command. */
  lemma AllServed(t: Cmd, argv: seq<bytes>, g: Store, eps: seq<seq<R.Event>>)
    requires Splittable(t, argv) && Neat(t, Entries(t, argv)) && |argv| >= 1
    requires |eps| == |CmdsOf(t, argv)| > 0
    requires forall i | 0 <= i < |eps| && R.Settled(eps[i]).Some? ::
      R.Settled(eps[i]) == Some(ReplyTo(g, CmdsOf(t, argv), i))
    ensures ServeAll(g, CmdsOf(t, argv)) == Serve(FormatArgv(argv), g).1
    ensures
      var r := RequestOf(t, Entries(t, argv));
      r.slotNum >= 0 && R.Settled(eps[|eps| - 1]).Some? ==> R.Delivers(r, eps) == Some(Serve(FormatArgv(argv), g).0)
    ensures
      var r := RequestOf(t, Entries(t, argv));
      r.slotNum < 0 && (forall i | 0 <= i < |eps| :: R.Settled(eps[i]).Some? && !R.Settled(eps[i]).value.Error?) ==>
        R.Delivers(r, eps) == Some(Serve(FormatArgv(argv), g).0)
  {
    hide Serve, FormatArgv, R.Settled, UsedSlots, Entries, CleanSlots, Splittable, MergeReplies, FragSeq, ServeSlots,
      Cmds;
    var es, cmds := Entries(t, argv), CmdsOf(t, argv);
    SplittableMulti(t, argv);
    UsedSlotsRange(es, SLOTS);
    if |UsedSlots(es, SLOTS)| == 1 {
      assert cmds[..0] == [];
    } else {
      SlotsAsCmds(t, g, es, SLOTS);
      SplitCommandIsTheCommand(t, argv, g);
      var r := RequestOf(t, es);
      if forall i | 0 <= i < |eps| :: R.Settled(eps[i]).Some? && !R.Settled(eps[i]).value.Error? {
        assert R.Collected(r.subs, eps, |eps|) == ServeSlots(t, g, es, SLOTS).0;
      }
    }
  }

  /** A refused command sends nothing and gets an error; an MGET, DEL or MSET that is answered is done. */
  ghost predicate Handled(argv: seq<bytes>, lost: Lost, g: Store, eps: seq<seq<R.Event>>, reply: Option<Reply>) {
    if Want(argv).None? then eps == [] && reply.None?
    else argv != [] && (var t := TypeOf(argv[0]);
         Splittable(t, argv) && Neat(t, Entries(t, argv)) && Served(g, lost, R.Flat(eps)) ==>
           Faithful(t, argv, g, Effect(g, lost, R.Flat(eps)), reply))
  }

  /** redisClusterCommandArgv: from the arguments, through any redirections, to the reply. */
  method Perform(cc: R.Context, argv: seq<bytes>, ghost lost: Lost, ghost g: Store)
    returns (reply: Option<Reply>, ghost eps: seq<seq<R.Event>>, ghost failure: Option<R.Failure>)
    requires cc.Valid() && |FormatArgv(argv)| < MAX_INT
    modifies cc
    ensures cc.Valid() && cc.log == old(cc.log) + R.Flat(eps) && Handled(argv, lost, g, eps, reply)
    ensures Want(argv).Some? ==>
      var r, cmds := Want(argv).value.request, Want(argv).value.cmds;
      && R.Acted(cc.world, R.Span(old(cc.clock), old(cc.retryCount), cc.max), P.SlotsOf(r), cmds, old(cc.table), eps,
                 failure)
      && reply == R.Delivers(r, eps)
  {
    hide Serve, FormatArgv, Effect, Served, R.Story, R.Flat, R.Honest, R.Sends, R.Current, R.Delivers, Entries,
      Neat, Splittable, Faithful, Want, TypeOf, R.Acted;
    var want := Prepare(argv);
    if want.None? {
      NoStory();
      return None, [], None;
    }
    WantSome(argv);
    WantWellformed(argv);
    ghost var table := cc.table;
    reply, eps, failure := cc.FormattedCommand(want.value.request, want.value.cmds);
    ghost var t := TypeOf(argv[0]);
    if Splittable(t, argv) && Neat(t, Entries(t, argv)) && Served(g, lost, R.Flat(eps)) {
      SplittableMulti(t, argv);
      WantSplittable(t, argv);
      RedirectedCommand(t, argv, table, eps, lost, g);
    }
  }

  lemma NoStory()
    ensures R.Flat([]) == []
  {}
}
