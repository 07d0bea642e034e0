/**
  What the cluster client sends for a command (redisClusterAppendCommandArgv and
  command_format_by_slot in hiredis-vip-master/hircluster.c): from the argument vector to the
  queued request and the bytes of its parts.
  */
module ClientPlan {
  import opened Bytes
  import opened Commands
  import opened CommandParser
  import opened CommandRoundTrip
  import opened CommandArity
  import opened Format
  import opened KeySlot
  import opened Store
  import opened FragmentMeaning
  import opened FragmentBytes
  import opened Fragment
  import opened ClusterCommand
  import opened Resp
  import P = Pipeline

  /** The bytes for the slots below n that have a sub-command, in order. */
  function Cmds(t: Cmd, es: seq<Entry>, n: nat): (cmds: seq<bytes>)
    ensures |cmds| == |UsedSlots(es, n)|
  {
    if n == 0 then []
    else Cmds(t, es, n - 1) + if InSlot(es, n - 1) == [] then [] else [Written(t, InSlot(es, n - 1))]
  }

  /** The bytes of a command mean MGET, DEL or MSET of these entries, on every store. */
  ghost predicate Means(cmd: bytes, t: Cmd, es: seq<Entry>)
    requires Multi(t)
  {
    forall store: Store :: Serve(cmd, store) == Exec(t, store, es)
  }

  lemma WrittenMeans(t: Cmd, es: seq<Entry>)
    requires Multi(t) && es != [] && Proper(t, es) && Clean(|SubArgv(t, es)|, es)
    ensures Means(Written(t, es), t, es)
  {
    hide Written, Clean, FormatArgv, SubArgv, Serve, Exec, Entries, Splittable;
    SubEntries(t, es);
    WrittenExact(t, es);
    forall store: Store ensures Serve(Written(t, es), store) == Exec(t, store, es) {
      ServeFormat(t, SubArgv(t, es), store);
    }
  }

  lemma WholeMeans(t: Cmd, argv: seq<bytes>)
    requires Splittable(t, argv)
    ensures Means(FormatArgv(argv), t, Entries(t, argv))
  {
    hide Serve, FormatArgv, Exec, Entries;
    forall store: Store ensures Serve(FormatArgv(argv), store) == Exec(t, store, Entries(t, argv)) {
      ServeFormat(t, argv, store);
    }
  }

  /** How a command goes out: whole when one slot has all its keys, else split. */
  function RequestOf(t: Cmd, es: seq<Entry>): P.Request {
    var slots := UsedSlots(es, SLOTS);
    if |slots| == 1 then P.Request(t, slots[0], [], []) else P.Request(t, -1, FragSeq(es), slots)
  }

  function CmdsOf(t: Cmd, argv: seq<bytes>): seq<bytes>
    requires |argv| >= 1
  {
    var es := Entries(t, argv);
    if |UsedSlots(es, SLOTS)| == 1 then [FormatArgv(argv)] else Cmds(t, es, SLOTS)
  }

  /** What is sent is the command: one part, or parts without an empty key behind a longer number. */
  ghost predicate Neat(t: Cmd, es: seq<Entry>) {
    |UsedSlots(es, SLOTS)| == 1 || CleanSlots(t, es)
  }

  lemma {:induction false} UsedSlotsRange(es: seq<Entry>, n: nat)
    ensures forall i | 0 <= i < |UsedSlots(es, n)| :: 0 <= UsedSlots(es, n)[i] < n
    decreases n
  {
    hide InSlot;
    if n > 0 { UsedSlotsRange(es, n - 1); }
  }

  lemma {:induction false} UsedSlotsAll(es: seq<Entry>, n: nat, s: int)
    requires 0 <= s < n && InSlot(es, s) != []
    ensures s in UsedSlots(es, n)
    decreases n
  {
    hide InSlot;
    if s < n - 1 { UsedSlotsAll(es, n - 1, s); }
  }

  /** Every key is in a slot that has a part. */
  lemma KeySlotUsed(es: seq<Entry>, i: nat)
    requires i < |es|
    ensures Slot(es[i].key) in UsedSlots(es, SLOTS)
  {
    hide Slot, InSlot, UsedSlots;
    HasSlot(es, i);
    UsedSlotsAll(es, SLOTS, Slot(es[i].key));
  }

  lemma RequestWellformed(t: Cmd, argv: seq<bytes>)
    requires Multi(t) && |argv| >= 1
    ensures var r := RequestOf(t, Entries(t, argv));
      P.Wellformed(r) && P.SlotsOf(r) == UsedSlots(Entries(t, argv), SLOTS) && |CmdsOf(t, argv)| == |P.SlotsOf(r)|
  {
    hide UsedSlots, Slot, Entries;
    var es := Entries(t, argv);
    UsedSlotsRange(es, SLOTS);
    forall i | 0 <= i < |es| ensures Slot(es[i].key) in UsedSlots(es, SLOTS) {
      KeySlotUsed(es, i);
    }
  }

  lemma SplittableMulti(t: Cmd, argv: seq<bytes>)
    requires Splittable(t, argv)
    ensures Multi(t) && |argv| >= 1
  {}

  lemma ProperEntries(t: Cmd, argv: seq<bytes>)
    requires |argv| >= 1
    ensures Proper(t, Entries(t, argv))
  {}

  lemma JudgedSplittable(t: Cmd, argv: seq<bytes>)
    requires Splittable(t, argv)
    ensures var j := Judgement(t, argv);
      && j.End? && j.v.Finished? && |j.keys| == |Entries(t, argv)| >= 1 && j.keys[0] == KeyAt(argv, 1)
  {
    hide TypeOf, KeyList, Legal, KeysOf, KeyAt, Entries;
    KeysAreEntries(t, argv);
    SomeEntries(t, argv);
    KeyListOf(t, argv, 0);
  }

  lemma SomeEntries(t: Cmd, argv: seq<bytes>)
    requires Splittable(t, argv)
    ensures |Entries(t, argv)| >= 1 && Entries(t, argv)[0].key == argv[1]
  {
    hide TypeOf;
  }

  lemma NoneElsewhere(es: seq<Entry>, s: int, x: int)
    requires x != s && forall i | 0 <= i < |es| :: Slot(es[i].key) == s
    ensures InSlot(es, x) == []
  {
    hide Slot, InSlot;
    KeySetInSlot(es, x);
    var fs := InSlot(es, x);
    assert forall k | k in KeySet(es) :: Slot(k) == s;
    assert |fs| > 0 ==> fs[0].key in KeySet(fs);
  }

  lemma {:induction false} OneSlot(es: seq<Entry>, s: nat, n: nat)
    requires es != [] && forall i | 0 <= i < |es| :: Slot(es[i].key) == s
    ensures UsedSlots(es, n) == if s < n then [s] else []
    decreases n
  {
    hide Slot, InSlot;
    if n > 0 {
      OneSlot(es, s, n - 1);
      HasSlot(es, 0);
      if s != n - 1 { NoneElsewhere(es, s, n - 1); }
    }
  }

  lemma {:induction false} CmdsAt(t: Cmd, es: seq<Entry>, n: nat, j: nat)
    requires j < |UsedSlots(es, n)|
    ensures Cmds(t, es, n)[j] == Written(t, InSlot(es, UsedSlots(es, n)[j]))
    decreases n
  {
    hide InSlot, Written;
    if n > 0 && j < |UsedSlots(es, n - 1)| { CmdsAt(t, es, n - 1, j); }
  }

  lemma BuiltCommands(commands: seq<Sub>, t: Cmd, es: seq<Entry>, n: nat)
    requires AllBuilt(commands, t, es, n)
    ensures |commands| == |UsedSlots(es, n)|
    ensures forall j | 0 <= j < |commands| ::
      commands[j].slot == UsedSlots(es, n)[j] && commands[j].cmd == Cmds(t, es, n)[j]
  {
    hide InSlot, Written, UsedSlots, Cmds, FormatArgv;
    forall j | 0 <= j < |commands|
      ensures commands[j].slot == UsedSlots(es, n)[j] && commands[j].cmd == Cmds(t, es, n)[j]
    {
      CmdsAt(t, es, n, j);
    }
  }

  /** The plan the client makes is the request of the theorem above: the same slots, bytes and key order. */
  lemma PlanIsRequest(t: Cmd, argv: seq<bytes>, plan: Plan)
    requires Splittable(t, argv) && GoodPlan(argv, plan)
    ensures
      var r, cmds := RequestOf(t, Entries(t, argv)), CmdsOf(t, argv);
      match plan
      case Refused => false
      case Escaped => false
      case Single(_, slot) => r == P.Request(t, slot, [], []) && cmds == [FormatArgv(argv)]
      case Split(_, commands, fragSeq, _) =>
        && r == P.Request(t, -1, fragSeq, r.subs) && |commands| == |r.subs| == |cmds|
        && forall j | 0 <= j < |commands| :: commands[j].slot == r.subs[j] && commands[j].cmd == cmds[j]
  {
    hide TypeOf, KeyList, Legal, KeysOf, KeyAt, Entries, UsedSlots, InSlot, Slot, FormatArgv, FragSeq, AllBuilt,
      Judgement, Written;
    var es := Entries(t, argv);
    JudgedSplittable(t, argv);
    SomeEntries(t, argv);
    if |es| == 1 {
      var i :| 0 <= i < |argv| && Judgement(t, argv).keys[0] == KeyAt(argv, i) && plan.slot == Slot(argv[i]);
      KeyBytes(argv, i);
      KeyBytes(argv, 1);
      OneSlot(es, Slot(argv[1]), SLOTS);
    } else if plan.Single? {
      KeySlotUsed(es, |es| - 1);
    } else {
      BuiltCommands(plan.commands, t, es, SLOTS);
    }
  }

  // From the argument vector -----------------------------------------

  datatype Wanted = Wanted(request: P.Request, cmds: seq<bytes>)

  /** What is queued and sent for the arguments; None when the command is refused. */
  function Want(argv: seq<bytes>): Option<Wanted> {
    if argv == [] then None
    else
      var t := TypeOf(argv[0]);
      var j := Judgement(t, argv);
      if j.v.Rejected? || j.keys == [] then None
      else if |j.keys| == 1 then
        var cmd := FormatArgv(argv);
        Some(Wanted(P.Request(t, Slot(KeyOf(cmd, j.keys[0])), [], []), [cmd]))
      else Some(Wanted(RequestOf(t, Entries(t, argv)), CmdsOf(t, argv)))
  }

  /** An MGET, DEL or MSET is wanted whole or split, as its keys fall. */
  lemma WantSplittable(t: Cmd, argv: seq<bytes>)
    requires Splittable(t, argv)
    ensures Want(argv) == Some(Wanted(RequestOf(t, Entries(t, argv)), CmdsOf(t, argv)))
  {
    hide TypeOf, KeyAt, Entries, UsedSlots, Slot, FormatArgv, FragSeq, Judgement, Cmds;
    JudgedSplittable(t, argv);
    SomeEntries(t, argv);
    if |Entries(t, argv)| == 1 {
      KeyBytes(argv, 1);
      OneSlot(Entries(t, argv), Slot(argv[1]), SLOTS);
    }
  }

  lemma WantWhole(argv: seq<bytes>)
    requires Want(argv).Some? && !Splittable(TypeOf(argv[0]), argv)
    ensures
      var want := Want(argv).value;
      && want.request == P.Request(TypeOf(argv[0]), want.request.slotNum, [], [])
      && 0 <= want.request.slotNum < SLOTS && want.cmds == [FormatArgv(argv)]
  {
    hide TypeOf, Slot, FormatArgv, KeyAt, Judgement, RequestOf, CmdsOf, Splittable;
    EveryCaseOfJudgement(argv);
  }

  lemma WantWellformed(argv: seq<bytes>)
    requires Want(argv).Some?
    ensures P.Wellformed(Want(argv).value.request) && |Want(argv).value.cmds| == |P.SlotsOf(Want(argv).value.request)|
  {
    hide Want, Splittable, RequestOf, CmdsOf, TypeOf;
    WantSome(argv);
    var t := TypeOf(argv[0]);
    if Splittable(t, argv) {
      SplittableMulti(t, argv);
      WantSplittable(t, argv);
      RequestWellformed(t, argv);
    } else {
      WantWhole(argv);
    }
  }

  lemma WantSome(argv: seq<bytes>)
    requires Want(argv).Some?
    ensures argv != []
  {
    hide TypeOf, Slot, FormatArgv, Judgement, RequestOf, CmdsOf;
  }

  function SubSlots(commands: seq<Sub>): seq<int> {
    seq(|commands|, i requires 0 <= i < |commands| => commands[i].slot)
  }

  function SubCmds(commands: seq<Sub>): seq<bytes> {
    seq(|commands|, i requires 0 <= i < |commands| => commands[i].cmd)
  }

  /** The plan the client makes is what is wanted. */
  lemma PlanIsWanted(argv: seq<bytes>, plan: Plan)
    requires argv != [] && GoodPlan(argv, plan)
    ensures
      match plan
      case Refused => Want(argv).None?
      case Escaped => false
      case Single(typ, slot) => Want(argv) == Some(Wanted(P.Request(typ, slot, [], []), [FormatArgv(argv)]))
      case Split(typ, commands, fragSeq, _) =>
        Want(argv) == Some(Wanted(P.Request(typ, -1, fragSeq, SubSlots(commands)), SubCmds(commands)))
  {
    hide TypeOf, KeyAt, Entries, UsedSlots, Slot, FormatArgv, FragSeq, Judgement, AllBuilt, RequestOf, CmdsOf,
      Splittable;
    var t := TypeOf(argv[0]);
    var j := Judgement(t, argv);
    JudgementEnds(t, argv);
    if !j.v.Rejected? && |j.keys| == 1 {
      var i :| 0 <= i < |argv| && j.keys[0] == KeyAt(argv, i) && plan.slot == Slot(argv[i]);
      KeyBytes(argv, i);
    } else if !j.v.Rejected? && |j.keys| > 1 {
      PlanIsRequest(t, argv, plan);
      if plan.Split? {
        var r := RequestOf(t, Entries(t, argv));
        assert SubSlots(plan.commands) == r.subs && SubCmds(plan.commands) == CmdsOf(t, argv);
      }
    }
  }

  lemma JudgementEnds(t: Cmd, argv: seq<bytes>)
    requires argv != []
    ensures Judgement(t, argv).End?
  {
    hide Legal, KeysOf;
  }

  lemma NoArguments()
    ensures CommandParser.Run(FormatArgv([]), 0, INITIAL).ending.Rejected?
  {
    hide CommandParser.Run, FormatArgv;
    var cmd, m := FormatArgv([]), INITIAL.(token := 0, state := Narg);
    EmptyBytes();
    assert Turn(cmd, 0, INITIAL) == Go(0, m) && Turn(cmd, 1, m) == Go(1, m) && Turn(cmd, 2, m).Fail?;
    RunFails(cmd, 2, m);
    RunGoes(cmd, 1, m);
    RunGoes(cmd, 0, INITIAL);
  }

  lemma EmptyBytes()
    ensures FormatArgv([]) == [STAR, 48, CR, LF]
  {}

  lemma RunGoes(cmd: bytes, p: nat, m: Fsm)
    requires p < |cmd| && Turn(cmd, p, m).Go?
    ensures var next := Turn(cmd, p, m); CommandParser.Run(cmd, p, m) == CommandParser.Run(cmd, next.p + 1, next.m)
  {
    hide Turn;
  }

  lemma RunFails(cmd: bytes, p: nat, m: Fsm)
    requires p < |cmd| && Turn(cmd, p, m).Fail?
    ensures CommandParser.Run(cmd, p, m).ending.Rejected?
  {
    hide Turn;
  }

  lemma {:induction false} BulksShort(argv: seq<bytes>, i: nat)
    requires i < |argv|
    ensures |argv[i]| < |Bulks(argv)| && |argv| <= |Bulks(argv)|
    decreases |argv|
  {
    if |argv| > 1 {
      BulksShort(argv[1..], if i == 0 then 0 else i - 1);
    }
  }

  lemma FormattedIsShort(argv: seq<bytes>)
    requires |FormatArgv(argv)| < MAX_INT
    ensures Short(argv)
  {
    hide Bulks, Digits;
    assert |Bulks(argv)| <= |FormatArgv(argv)|;
    if argv != [] { BulksShort(argv, 0); }
    forall i | 0 <= i < |argv| ensures |argv[i]| < U32 {
      BulksShort(argv, i);
    }
  }

  /** redisClusterAppendCommandArgv up to the sending: format the arguments, parse them, split the command. */
  method Prepare(argv: seq<bytes>) returns (want: Option<Wanted>)
    requires |FormatArgv(argv)| < MAX_INT
    ensures want == Want(argv)
  {
    hide FormatArgv, Want, CommandParser.Run, GoodPlan;
    var buf, totlen := FormatCommandArgv(argv);
    var cmd := buf[..totlen];
    var plan := FormatBySlot(cmd);
    if |argv| == 0 {
      NoArguments();
      WantNothing();
      return None;
    }
    FormattedIsShort(argv);
    FormattedPlan(argv, plan);
    PlanIsWanted(argv, plan);
    match plan {
      case Refused => want := None;
      case Single(typ, slot) => want := Some(Wanted(P.Request(typ, slot, [], []), [cmd]));
      case Split(typ, commands, fragSeq, _) =>
        want := Some(Wanted(P.Request(typ, -1, fragSeq, SubSlots(commands)), SubCmds(commands)));
    }
  }

  lemma WantNothing()
    ensures Want([]).None?
  {}
}
