/**
  From the bytes of a command to its sub-commands (command_format_by_slot and
  command_pre_fragment in hiredis-vip-master/hircluster.c), end to end: parsing, splitting,
  the bytes on the wire, their execution and the merged reply.
  */
module ClusterCommand {
  import opened Bytes
  import opened Resp
  import opened Commands
  import opened CommandParser
  import opened CommandRoundTrip
  import opened CommandArity
  import opened Format
  import opened KeySlot
  import opened Store
  import opened Merge
  import opened FragmentMeaning
  import opened FragmentBytes
  import opened Fragment
  import opened Scan
  import opened ScanSafety

  /** An MGET, DEL or MSET with at least one key, every MSET key with its value. */
  predicate Splittable(t: Cmd, argv: seq<bytes>) {
    Multi(t) && |argv| >= 2 && TypeOf(argv[0]) == t && (t == MSET ==> |argv| % 2 == 1)
  }

  function Pairs(argv: seq<bytes>, n: nat): (es: seq<Entry>)
    requires 2 * n < |argv|
    ensures |es| == n
  {
    seq(n, i requires 0 <= i < n => Entry(argv[1 + 2 * i], argv[2 + 2 * i]))
  }

  function Singles(argv: seq<bytes>): (es: seq<Entry>)
    requires |argv| >= 1
    ensures |es| == |argv| - 1
  {
    seq(|argv| - 1, i requires 0 <= i < |argv| - 1 => Entry(argv[1 + i], []))
  }

  /** The keys of the command, with their values in an MSET. */
  function Entries(t: Cmd, argv: seq<bytes>): seq<Entry>
    requires |argv| >= 1
  {
    if t == MSET then Pairs(argv, (|argv| - 1) / 2) else Singles(argv)
  }

  function Step(t: Cmd): nat {
    if t == MSET then 2 else 1
  }

  // Parsing ----------------------------------------------------------

  /** The argument that is key j. */
  function KeyArg(t: Cmd, j: nat): nat {
    if t == MSET then 1 + 2 * j else 1 + j
  }

  lemma {:induction false} KeyListAt1(argv: seq<bytes>, i: nat, j: nat)
    requires i + j < |argv|
    ensures j < |KeyList(argv, i, 1)| && KeyList(argv, i, 1)[j] == KeyAt(argv, i + j)
    ensures |KeyList(argv, i, 1)| == |argv| - i
    decreases |argv| - i
  {
    hide KeyAt;
    if i + 1 < |argv| {
      KeyListAt1(argv, i + 1, if j == 0 then 0 else j - 1);
    }
  }

  lemma {:induction false} KeyListAt2(argv: seq<bytes>, i: nat, j: nat)
    requires i + 2 * j < |argv| && (|argv| - i) % 2 == 0
    ensures j < |KeyList(argv, i, 2)| && KeyList(argv, i, 2)[j] == KeyAt(argv, i + 2 * j)
    ensures |KeyList(argv, i, 2)| == (|argv| - i) / 2
    decreases |argv| - i
  {
    hide KeyAt;
    if i + 2 < |argv| {
      KeyListAt2(argv, i + 2, if j == 0 then 0 else j - 1);
    }
  }

  lemma EntriesAt(t: Cmd, argv: seq<bytes>, j: nat)
    requires |argv| >= 1 && j < |Entries(t, argv)|
    ensures |Entries(t, argv)| == if t == MSET then (|argv| - 1) / 2 else |argv| - 1
    ensures t != MSET ==> KeyArg(t, j) < |argv| && Entries(t, argv)[j] == Entry(argv[KeyArg(t, j)], [])
    ensures t == MSET ==>
      KeyArg(t, j) + 1 < |argv| && Entries(t, argv)[j] == Entry(argv[KeyArg(t, j)], argv[KeyArg(t, j) + 1])
  {
    hide Pairs, Singles;
    if t == MSET {
      PairAt(argv, (|argv| - 1) / 2, j);
    } else {
      SingleAt(argv, j);
    }
  }

  lemma PairAt(argv: seq<bytes>, n: nat, j: nat)
    requires 2 * n < |argv| && j < n
    ensures 2 * j + 2 < |argv| && Pairs(argv, n)[j] == Entry(argv[1 + 2 * j], argv[2 + 2 * j])
  {}

  lemma SingleAt(argv: seq<bytes>, j: nat)
    requires 1 + j < |argv|
    ensures Singles(argv)[j] == Entry(argv[1 + j], [])
  {}

  /** The parser's key list, key by key. */
  lemma KeyListOf(t: Cmd, argv: seq<bytes>, j: nat)
    requires Splittable(t, argv) && j < |Entries(t, argv)|
    ensures |KeyList(argv, 1, Step(t))| == |Entries(t, argv)|
    ensures KeyArg(t, j) < |argv| && KeyList(argv, 1, Step(t))[j] == KeyAt(argv, KeyArg(t, j))
  {
    hide TypeOf, KeyList, KeyAt, Entries;
    EntriesAt(t, argv, j);
    if t == MSET {
      KeyListAt2(argv, 1, j);
    } else {
      KeyListAt1(argv, 1, j);
    }
  }

  /** The parser finds exactly the keys of the entries, in order. */
  lemma KeysAreEntries(t: Cmd, argv: seq<bytes>)
    requires Splittable(t, argv)
    ensures Legal(t, argv) && KeysOf(t, argv) == KeyList(argv, 1, Step(t))
    ensures |KeyList(argv, 1, Step(t))| == |Entries(t, argv)|
  {
    hide TypeOf, KeyList, Legal, KeysOf;
    LegalKeys(t, argv);
    KeyListOf(t, argv, 0);
  }

  lemma LegalKeys(t: Cmd, argv: seq<bytes>)
    requires Splittable(t, argv)
    ensures Legal(t, argv) && KeysOf(t, argv) == KeyList(argv, 1, Step(t))
  {
    hide TypeOf, KeyList, KeyAt, CountsKeys;
  }

  /** The key position kp of the command holds entry e. */
  ghost predicate Holds(cmd: bytes, t: Cmd, kp: KeyPos, e: Entry) {
    && kp.start <= kp.end < |cmd|
    && cmd[kp.start..kp.end] == e.key
    && (t == MSET ==> Has(cmd, kp.end, CRLF + Bulk(e.value)))
  }

  /** Key position j holds entry j: its key, and behind it the value of an MSET. */
  lemma KeyHolds(t: Cmd, argv: seq<bytes>, j: nat)
    requires Splittable(t, argv) && j < |Entries(t, argv)|
    ensures j < |KeyList(argv, 1, Step(t))|
    ensures Holds(FormatArgv(argv), t, KeyList(argv, 1, Step(t))[j], Entries(t, argv)[j])
  {
    hide TypeOf, KeyList, FormatArgv, Has, Bulk, KeyAt, Entries;
    KeyListOf(t, argv, j);
    EntriesAt(t, argv, j);
    KeyBytes(argv, KeyArg(t, j));
    if t == MSET {
      ValueBehind(argv, KeyArg(t, j));
    }
  }

  lemma ValueBehind(argv: seq<bytes>, i: nat)
    requires i + 1 < |argv|
    ensures Has(FormatArgv(argv), KeyAt(argv, i).end, CRLF + Bulk(argv[i + 1]))
  {
    hide Digits, FormatArgv;
    var cmd, a := FormatArgv(argv), argv[i];
    FormatHas(argv, i);
    FormatHas(argv, i + 1);
    PosNext(argv, i);
    assert Bulk(a) == ([DOLLAR] + Digits(|a|) + CRLF + a) + CRLF;
    HasParts(cmd, Pos(argv, i), [DOLLAR] + Digits(|a|) + CRLF + a, CRLF);
    var end := KeyAt(argv, i).end;
    HasJoined(cmd, end, CRLF, Bulk(argv[i + 1]));
  }

  lemma HasJoined(cmd: bytes, p: nat, s: bytes, t: bytes)
    requires Has(cmd, p, s) && Has(cmd, p + |s|, t)
    ensures Has(cmd, p, s + t)
  {
    assert cmd[p..p + |s + t|] == cmd[p..p + |s|] + cmd[p + |s|..p + |s| + |t|];
  }

  // Sub-commands -----------------------------------------------------

  lemma NameType(t: Cmd)
    requires Multi(t)
    ensures TypeOf(Name(t)) == t
  {
  }

  lemma {:induction false} ArgsAt(t: Cmd, es: seq<Entry>, i: nat)
    requires i < |es|
    ensures KeyArg(t, i) <= |Args(t, es)| && Args(t, es)[KeyArg(t, i) - 1] == es[i].key
    ensures t == MSET ==> KeyArg(t, i) < |Args(t, es)| && Args(t, es)[KeyArg(t, i)] == es[i].value
    decreases |es|
  {
    ArgsLength(t, es);
    ArgsLength(t, es[..|es| - 1]);
    if i < |es| - 1 {
      ArgsAt(t, es[..|es| - 1], i);
    }
  }

  /** Entries without values, unless the command is an MSET. */
  ghost predicate Proper(t: Cmd, es: seq<Entry>) {
    t != MSET ==> forall i | 0 <= i < |es| :: es[i].value == []
  }

  /** The entries of a sub-command are the entries it was made of. */
  lemma SubEntries(t: Cmd, es: seq<Entry>)
    requires Multi(t) && es != [] && Proper(t, es)
    ensures Splittable(t, SubArgv(t, es)) && Entries(t, SubArgv(t, es)) == es
  {
    hide TypeOf, Args, Entries, SubArgv;
    NameType(t);
    ArgsLength(t, es);
    var argv := SubArgv(t, es);
    SubArgvAt(t, es);
    EntriesLength(t, argv);
    forall i | 0 <= i < |es| ensures Entries(t, argv)[i] == es[i] {
      ArgsAt(t, es, i);
      EntriesAt(t, argv, i);
    }
  }

  lemma EntriesLength(t: Cmd, argv: seq<bytes>)
    requires |argv| >= 1
    ensures |Entries(t, argv)| == if t == MSET then (|argv| - 1) / 2 else |argv| - 1
  {}

  lemma SubArgvAt(t: Cmd, es: seq<Entry>)
    ensures
      var argv := SubArgv(t, es);
      && |argv| == |Args(t, es)| + 1 && argv[0] == Name(t)
      && forall i | 0 <= i < |Args(t, es)| :: argv[1 + i] == Args(t, es)[i]
  {
    hide Args;
  }

  /** A sub-command parses to the type of the whole, with exactly its slot's keys in their order. */
  lemma SubCommandParses(t: Cmd, es: seq<Entry>)
    requires Multi(t) && es != [] && Proper(t, es) && Short(SubArgv(t, es))
    ensures var bytes := FormatArgv(SubArgv(t, es));
      var v := CommandParser.Run(bytes, 0, INITIAL);
      && v.ending.Finished? && v.m.typ == t && |v.m.keys| == |es|
      && forall j | 0 <= j < |es| ::
        v.m.keys[j].start <= v.m.keys[j].end <= |bytes| && bytes[v.m.keys[j].start..v.m.keys[j].end] == es[j].key
  {
    hide TypeOf, Named, Args, FormatArgv, CommandParser.Run, KeyList, Legal, KeysOf;
    var argv := SubArgv(t, es);
    SubEntries(t, es);
    TypeIsNamed(argv[0], TypeOf(argv[0]));
    ParserInvertsFormatter(TypeOf(argv[0]), argv);
    KeysAreEntries(t, argv);
    forall j | 0 <= j < |es|
      ensures var k := KeyList(argv, 1, Step(t))[j];
        k.start <= k.end <= |FormatArgv(argv)| && FormatArgv(argv)[k.start..k.end] == es[j].key
    {
      KeyHolds(t, argv, j);
    }
  }

  // A server ---------------------------------------------------------

  function StrsBack(rs: seq<Reply>): Option<seq<bytes>>
  {
    if rs == [] then Some([])
    else if !rs[0].Str? then None
    else match StrsBack(rs[1..])
      case None => None
      case Some(rest) => Some([rs[0].str] + rest)
  }

  /** A request as a server reads it from its connection. */
  function Decode(request: bytes): Option<seq<bytes>> {
    var s := Resp.Run(Parse(request, None, []));
    if |s.replies| == 1 && s.fault.None? && s.rest == FRESH && s.replies[0].Array? then StrsBack(s.replies[0].element)
    else None
  }

  lemma StrsHead(argv: seq<bytes>)
    ensures argv == [] ==> Strs(argv) == []
    ensures argv != [] ==> |Strs(argv)| > 0 && Strs(argv)[0] == Str(argv[0]) && Strs(argv)[1..] == Strs(argv[1..])
  {
  }

  lemma {:induction false} StrsRoundTrip(argv: seq<bytes>)
    ensures StrsBack(Strs(argv)) == Some(argv)
    decreases |argv|
  {
    hide Strs;
    StrsHead(argv);
    if argv != [] {
      StrsRoundTrip(argv[1..]);
      assert [argv[0]] + argv[1..] == argv;
    }
  }

  lemma DecodeFormat(argv: seq<bytes>)
    ensures Decode(FormatArgv(argv)) == Some(argv)
  {
    hide Resp.Run, FormatArgv, StrsBack, Strs;
    FormatReadsBack(argv, []);
    assert FormatArgv(argv) + [] == FormatArgv(argv);
    assert Resp.Run(FRESH) == Summary([], None, FRESH) by { NothingRuns(); }
    StrsRoundTrip(argv);
  }

  lemma NothingRuns()
    ensures Resp.Run(FRESH) == Summary([], None, FRESH)
  {
  }

  /** A server that executes the requests it understands. */
  function Serve(request: bytes, store: Store): (Reply, Store)
  {
    match Decode(request)
    case None => (Error([]), store)
    case Some(argv) =>
      if |argv| >= 2 && Splittable(TypeOf(argv[0]), argv)
      then Exec(TypeOf(argv[0]), store, Entries(TypeOf(argv[0]), argv))
      else (Error([]), store)
  }

  lemma ServeFormat(t: Cmd, argv: seq<bytes>, store: Store)
    requires Splittable(t, argv)
    ensures Serve(FormatArgv(argv), store) == Exec(t, store, Entries(t, argv))
  {
    hide Decode, FormatArgv, TypeOf, Exec;
    DecodeFormat(argv);
  }

  /** The bytes built for each slot, served in slot order. */
  function ServeSlots(t: Cmd, store: Store, es: seq<Entry>, n: nat): (seq<Answer>, Store)
    decreases n
  {
    if n == 0 then ([], store)
    else
      var (cs, st) := ServeSlots(t, store, es, n - 1);
      var fs := InSlot(es, n - 1);
      if fs == [] then (cs, st)
      else
        var (r, st') := Serve(Written(t, fs), st);
        (cs + [Answer(n - 1, Some(r))], st')
  }

  /** No slot has an empty key behind a number of two or more digits. */
  ghost predicate CleanSlots(t: Cmd, es: seq<Entry>) {
    forall s | 0 <= s < SLOTS :: Clean(|SubArgv(t, InSlot(es, s))|, InSlot(es, s))
  }

  lemma {:induction false} ProperInSlot(t: Cmd, es: seq<Entry>, s: int)
    requires Proper(t, es)
    ensures Proper(t, InSlot(es, s))
    decreases |es|
  {
    hide Slot;
    if es != [] { ProperInSlot(t, es[..|es| - 1], s); }
  }

  lemma {:induction false} ServeSlotsIsRunSlots(t: Cmd, store: Store, es: seq<Entry>, n: nat)
    requires Multi(t) && Proper(t, es) && CleanSlots(t, es) && n <= SLOTS
    ensures ServeSlots(t, store, es, n) == RunSlots(t, store, es, n)
    decreases n
  {
    hide InSlot, Serve, Exec, Written, Clean, FormatArgv, SubArgv, Splittable, Entries;
    if n > 0 {
      ServeSlotsIsRunSlots(t, store, es, n - 1);
      var fs := InSlot(es, n - 1);
      var st := RunSlots(t, store, es, n - 1).1;
      if fs != [] {
        ProperInSlot(t, es, n - 1);
        SubEntries(t, fs);
        WrittenExact(t, fs);
        ServeFormat(t, SubArgv(t, fs), st);
      }
    }
  }

  /**
    End to end.  For every store and every MGET, DEL or MSET: the bytes the client sends for
    the slots, served in slot order, and the merge of the answers come to the reply and the
    store that the command itself, served whole, would have given.
    */
  lemma SplitCommandIsTheCommand(t: Cmd, argv: seq<bytes>, store: Store)
    requires Splittable(t, argv) && CleanSlots(t, Entries(t, argv))
    ensures var es := Entries(t, argv);
      var (cs, st) := ServeSlots(t, store, es, SLOTS);
      var (r, st') := Serve(FormatArgv(argv), store);
      MergeReplies(t, FragSeq(es), cs) == Some(r) && st == st'
  {
    hide ServeSlots, Serve, FormatArgv, RunSlots, MergeReplies, FragSeq, Exec, CleanSlots, TypeOf;
    var es := Entries(t, argv);
    ServeFormat(t, argv, store);
    ServeSlotsIsRunSlots(t, store, es, SLOTS);
    FragmentationPreservesMeaning(t, store, es);
  }

  // The client -------------------------------------------------------

  /** What command_format_by_slot makes of a command. */
  datatype Plan =
    | Refused
    | Single(typ: Cmd, slot: nat)
    | Split(typ: Cmd, commands: seq<Sub>, fragSeq: seq<int>, slot: nat)
    | Escaped

  /** The plan for any bytes; Escaped is reading past them. */
  ghost predicate PlanOf(cmd: bytes, plan: Plan) {
    var v := CommandParser.Run(cmd, 0, INITIAL);
    var t, ks := v.m.typ, v.m.keys;
    if v.ending.Rejected? || ks == [] then plan.Refused?
    else if |ks| == 1 then plan == Single(t, Slot(KeyOf(cmd, ks[0])))
    else if !AllContained(cmd, t, ks) then plan.Escaped?
    else
      var rs := RawsOf(cmd, t, ks);
      var last := Slot(rs[|rs| - 1].key);
      if |UsedSlots(rs, SLOTS)| == 1 then plan == Single(t, last)
      else
        && plan.Split? && plan.typ == t && AllRawBuilt(plan.commands, t, rs, SLOTS)
        && plan.fragSeq == FragSeq(rs) && plan.slot == last
  }

  ghost predicate GoodPlan(argv: seq<bytes>, plan: Plan)
    requires argv != []
  {
    var j := Judgement(TypeOf(argv[0]), argv);
    var t := TypeOf(argv[0]);
    if j.v.Rejected? || j.keys == [] then plan.Refused?
    else if |j.keys| == 1 then
      && plan.Single? && plan.typ == t
      && exists i | 0 <= i < |argv| :: j.keys[0] == KeyAt(argv, i) && plan.slot == Slot(argv[i])
    else
      var es := Entries(t, argv);
      && Splittable(t, argv)
      && (if |UsedSlots(es, SLOTS)| == 1 then plan.Single?
          else plan.Split? && AllBuilt(plan.commands, t, es, SLOTS) && plan.fragSeq == FragSeq(es))
      && (plan.Single? || plan.Split?) && plan.typ == t && plan.slot == Slot(es[|es| - 1].key)
  }

  lemma EveryCaseOfJudgement(argv: seq<bytes>)
    requires argv != [] && Judgement(TypeOf(argv[0]), argv).v != Rejected
    ensures Judgement(TypeOf(argv[0]), argv).typ == TypeOf(argv[0])
    ensures var ks := Judgement(TypeOf(argv[0]), argv).keys;
      && (|ks| == 1 ==> exists i | 0 <= i < |argv| :: ks[0] == KeyAt(argv, i))
      && (|ks| > 1 ==> Splittable(TypeOf(argv[0]), argv) && ks == KeyList(argv, 1, Step(TypeOf(argv[0]))))
  {
    hide TypeOf, KeyAt, CountsKeys;
    var t := TypeOf(argv[0]);
    if t != UNKNOWN && !ArgZ(t) && |argv| > 1 {
      if ArgX(t) {
        KeyListHead(argv, 1, 1);
      } else if ArgKvx(t) {
        KeyListHead(argv, 1, 2);
        if |argv| == 2 { assert KeyList(argv, 3, 2) == []; }
      }
    }
  }

  lemma KeyListHead(argv: seq<bytes>, i: nat, step: nat)
    requires step > 0 && i < |argv|
    ensures KeyList(argv, i, step) != [] && KeyList(argv, i, step)[0] == KeyAt(argv, i)
  {
    hide KeyAt;
  }

  /** command_format_by_slot, on any bytes. */
  method FormatBySlot(cmd: bytes) returns (plan: Plan)
    requires |cmd| < MAX_INT
    ensures PlanOf(cmd, plan)
  {
    hide CommandParser.Run, Slot, AllRawBuilt, InSlot, FragSeq, AllContained, RawsOf, UsedSlots;
    var result, typ, keys := RedisParseCmd(cmd);
    if result.ParseError? || |keys| == 0 {
      return Refused;
    }
    if |keys| == 1 {
      var slot := KeyHashSlot(cmd[keys[0].start..keys[0].end]);
      return Single(typ, slot);
    }
    var ok, commands, fragSeq, slot := PreFragment(cmd, typ, keys);
    if !ok {
      return Escaped;
    }
    ghost var rs := RawsOf(cmd, typ, keys);
    SomeSlotIsUsed(rs, SLOTS);
    assert |commands| == 0 ==> |UsedSlots(rs, SLOTS)| == 1 by { BuiltCount(commands, typ, rs); }
    if |commands| == 0 {
      return Single(typ, slot);
    } else {
      return Split(typ, commands, fragSeq, slot);
    }
  }

  /**
    The client reads past the bytes of a command exactly when it is an MSET of several keys that was cut
    short and the scan behind the last of them, or what it measures, does not fit.
    */
  lemma EscapesExactly(cmd: bytes, plan: Plan)
    requires |cmd| < MAX_INT && PlanOf(cmd, plan)
    ensures
      var v := CommandParser.Run(cmd, 0, INITIAL);
      var k := |v.m.keys|;
      plan.Escaped? <==> v.ending.CutShort? && v.m.typ == MSET && k >= 2 && !Contained(cmd, MSET, v.m.keys[k - 1])
  {
    hide CommandParser.Run, Slot, AllRawBuilt, FragSeq, RawsOf, UsedSlots, Contained;
    ParsedKeysContained(cmd);
  }

  /** The scan behind a value that is there. */
  lemma HeldIsRaw(cmd: bytes, t: Cmd, kp: KeyPos, e: Entry)
    requires Holds(cmd, t, kp, e) && |cmd| < MAX_INT
    ensures Contained(cmd, t, kp) && RawAt(cmd, t, kp) == Raw(t, e)
  {
    hide ScanLen, Bulk;
    if t == MSET { ScanOfValue(cmd, kp.end, e.value); }
  }

  lemma ScanOfValue(cmd: bytes, end: nat, v: bytes)
    requires Has(cmd, end, CRLF + Bulk(v)) && |cmd| < MAX_INT
    ensures end < |cmd| && ScanLen(cmd, end) == Some(|CRLF + Bulk(v)|)
  {
    hide ScanLen, Digits, LenLine, Has;
    var d := Digits(|v|);
    var line := CRLF + [DOLLAR] + d + CRLF;
    assert CRLF + Bulk(v) == line + (v + CRLF);
    assert |line| == |d| + 5 && |CRLF + Bulk(v)| == |d| + 7 + |v|;
    HasParts(cmd, end, line, v + CRLF);
    HasLength(cmd, end, CRLF + Bulk(v));
    HasLength(cmd, end, line);
    hide Bulk;
    FoldDigits(|v|);
    LineIsLenLine(d, |v|);
    LenLineScan(cmd, end, |line|, |v|);
  }

  lemma HasLength(cmd: bytes, p: nat, s: bytes)
    requires Has(cmd, p, s)
    ensures p + |s| <= |cmd| && cmd[p..p + |s|] == s
  {}

  lemma LineIsLenLine(d: bytes, n: nat)
    requires d != [] && AllDigits(d) && FoldU32(d, 0) == n
    ensures LenLine(CRLF + [DOLLAR] + d + CRLF, n)
  {
    hide FoldU32;
    var s := CRLF + [DOLLAR] + d + CRLF;
    assert s[..|s| - 1][..|s| - 2] == CRLF + [DOLLAR] + d;
    assert (CRLF + [DOLLAR] + d)[3..] == d && (CRLF + [DOLLAR] + d)[..3] == [CR, LF, DOLLAR];
  }

  /** On a formatted command the plan is that of its argument vector. */
  lemma FormattedPlan(argv: seq<bytes>, plan: Plan)
    requires argv != [] && Short(argv) && |FormatArgv(argv)| < MAX_INT && PlanOf(FormatArgv(argv), plan)
    ensures GoodPlan(argv, plan)
  {
    hide FormatArgv, CommandParser.Run, TypeOf, Named, Judgement, KeyList, KeyAt, Slot, AllBuilt, AllRawBuilt,
      InSlot, FragSeq, Contained, UsedSlots;
    var cmd, t := FormatArgv(argv), TypeOf(argv[0]);
    var v := CommandParser.Run(cmd, 0, INITIAL);
    TypeIsNamed(argv[0], t);
    ParserInvertsFormatter(t, argv);
    if !v.ending.Rejected? {
      var keys := v.m.keys;
      EveryCaseOfJudgement(argv);
      if |keys| == 1 {
        var i :| 0 <= i < |argv| && keys[0] == KeyAt(argv, i);
        KeyBytes(argv, i);
      } else if |keys| > 1 {
        FormattedRaws(t, argv, keys);
        var es := Entries(t, argv);
        RawUsedSlots(t, es, SLOTS);
        RawFragSeq(t, es);
        if plan.Split? { RawBuiltIsBuilt(plan.commands, t, es, SLOTS); }
      }
    }
  }

  lemma FormattedRaws(t: Cmd, argv: seq<bytes>, keys: seq<KeyPos>)
    requires Splittable(t, argv) && keys == KeyList(argv, 1, Step(t)) && |FormatArgv(argv)| < MAX_INT
    ensures AllContained(FormatArgv(argv), t, keys) && RawsOf(FormatArgv(argv), t, keys) == RawAll(t, Entries(t, argv))
    ensures |keys| == |Entries(t, argv)|
  {
    hide FormatArgv, TypeOf, KeyList, Entries, Holds, Contained, RawAt, Raw;
    var cmd, es := FormatArgv(argv), Entries(t, argv);
    KeysAreEntries(t, argv);
    forall j | 0 <= j < |es| ensures Contained(cmd, t, keys[j]) && RawAt(cmd, t, keys[j]) == Raw(t, es[j]) {
      KeyHolds(t, argv, j);
      HeldIsRaw(cmd, t, keys[j], es[j]);
    }
  }

  lemma BuiltCount(commands: seq<Sub>, t: Cmd, rs: seq<Entry>)
    ensures AllRawBuilt(commands, t, rs, SLOTS) ==> |commands| == |UsedSlots(rs, SLOTS)|
  {
    hide RawBuilt, UsedSlots;
  }

  lemma SomeSlotIsUsed(es: seq<Entry>, n: nat)
    requires es != [] && n == SLOTS
    ensures |UsedSlots(es, n)| >= 1
  {
    hide Slot, UsedSlots, InSlot;
    HasSlot(es, 0);
    UsedSlotsHas(es, n, Slot(es[0].key));
  }

  lemma {:induction false} UsedSlotsHas(es: seq<Entry>, n: nat, s: nat)
    requires s < n && InSlot(es, s) != []
    ensures |UsedSlots(es, n)| >= 1
    decreases n
  {
    hide InSlot;
    if s < n - 1 { UsedSlotsHas(es, n - 1, s); }
  }
}
