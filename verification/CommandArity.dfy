/**
  The verdict of redis_parse_cmd on every formatted command, by class of command: accepted
  with exactly its key arguments, rejected, or - a name alone - taken as OK without a key.
  */
module CommandArity {
  import opened Bytes
  import opened Commands
  import opened CommandParser
  import opened CommandRoundTrip
  import opened Format

  /** The keys at argument i, i + step, i + 2 * step and so on. */
  function KeyList(argv: seq<bytes>, i: nat, step: nat): seq<KeyPos>
    requires step > 0
    decreases |argv| - i
  {
    if i >= |argv| then [] else [KeyAt(argv, i)] + KeyList(argv, i + step, step)
  }

  /** The argument counts a command accepts, its name included. */
  predicate Legal(t: Cmd, argv: seq<bytes>)
  {
    var n := |argv|;
    if Arg0(t) then n == 2
    else if Arg1(t) then n == 3
    else if Arg2(t) then n == 4
    else if Arg3(t) then n == 5
    else if ArgN(t) || ArgX(t) then n >= 2
    else if ArgKvx(t) then n == 2 || (n >= 3 && n % 2 == 1)
    else if ArgEval(t) then n >= 4 && CountsKeys(argv[2])
    else ArgZ(t)
  }

  function KeysOf(t: Cmd, argv: seq<bytes>): seq<KeyPos>
    requires Legal(t, argv)
  {
    if ArgZ(t) then []
    else if ArgX(t) then KeyList(argv, 1, 1)
    else if ArgKvx(t) then KeyList(argv, 1, 2)
    else if ArgEval(t) then [KeyAt(argv, 3)]
    else [KeyAt(argv, 1)]
  }

  /** The argument counts of the table. */
  predicate Counted(a: Arity, argv: seq<bytes>) {
    match a
    case NoKey => true
    case Exactly(k) => |argv| == k + 2
    case AnyNumber => |argv| >= 2
    case Keys => |argv| >= 2
    case Pairs => |argv| == 2 || (|argv| >= 3 && |argv| % 2 == 1)
    case Script => |argv| >= 4 && CountsKeys(argv[2])
    case NoCommand => false
  }

  /** The key arguments of the table. */
  function Keyed(a: Arity, argv: seq<bytes>): seq<KeyPos>
    requires Counted(a, argv)
  {
    match a
    case NoKey => []
    case Keys => KeyList(argv, 1, 1)
    case Pairs => KeyList(argv, 1, 2)
    case Script => [KeyAt(argv, 3)]
    case _ => [KeyAt(argv, 1)]
  }

  /** The counts accepted and the keys found are those of the table of arguments, command by command. */
  lemma LegalByTable(t: Cmd, argv: seq<bytes>)
    ensures Legal(t, argv) <==> Counted(ArityOf(t), argv)
    ensures Legal(t, argv) ==> KeysOf(t, argv) == Keyed(ArityOf(t), argv)
  {
    hide Arg0, Arg1, Arg2, Arg3, ArgN, ArgX, ArgKvx, ArgEval, ArgZ, ArityOf, CountsKeys, KeyList, KeyAt;
    FixedArity(t);
    OpenArity(t);
    OtherArity(t);
    EachArity(t);
    EachCommandHasOneClass(t);
  }

  /** The verdict the protocol asks for. */
  function Judgement(t: Cmd, argv: seq<bytes>): Outcome
    requires argv != []
  {
    if t == UNKNOWN then End(Rejected, t, [])
    else if ArgZ(t) then End(Finished, t, [])
    else if |argv| == 1 then End(CutShort, t, [])
    else if Legal(t, argv) then End(Finished, t, KeysOf(t, argv))
    else End(Rejected, t, [])
  }

  /** Equal verdicts, a rejection saying nothing about keys. */
  ghost predicate SameVerdict(a: Outcome, b: Outcome)
    requires a.End? && b.End?
  {
    a.v == b.v && a.typ == b.typ && (!a.v.Rejected? ==> a.keys == b.keys)
  }

  /** One argument after the name. */
  lemma WalkStep(argv: seq<bytes>, i: nat, ph: Phase, t: Cmd, keys: seq<KeyPos>)
    requires i < |argv| && !ph.ReqType? && (ph.A2? && ArgEval(t) ==> CountsKeys(argv[i]))
    ensures var ks := if ph.Key? then keys + [KeyAt(argv, i)] else keys;
      Walk(argv, i, ph, t, keys) ==
      match After(ph, t, |argv| - i - 1, |argv|)
      case Arg(next) => Walk(argv, i + 1, next, t, ks)
      case Complete => End(Finished, t, ks)
      case Wrong => End(Rejected, t, ks)
  {
    hide CountsKeys, Pos, BodyStart, After;
  }

  /** Further arguments are skipped one by one. */
  lemma {:induction false} WalkRest(argv: seq<bytes>, i: nat, t: Cmd, keys: seq<KeyPos>)
    requires i < |argv| && (ArgN(t) || ArgEval(t))
    ensures Walk(argv, i, AN, t, keys) == End(Finished, t, keys)
    decreases |argv| - i
  {
    hide Walk;
    WalkStep(argv, i, AN, t, keys);
    if i + 1 < |argv| {
      WalkRest(argv, i + 1, t, keys);
    }
  }

  /** MGET and DEL: every further argument is a key. */
  lemma {:induction false} WalkKeys(argv: seq<bytes>, i: nat, t: Cmd, keys: seq<KeyPos>)
    requires i < |argv| && ArgX(t)
    ensures Walk(argv, i, Key, t, keys) == End(Finished, t, keys + KeyList(argv, i, 1))
    decreases |argv| - i
  {
    hide Walk, KeyAt;
    WalkStep(argv, i, Key, t, keys);
    var k := KeyAt(argv, i);
    if i + 1 < |argv| {
      WalkKeys(argv, i + 1, t, keys + [k]);
      assert keys + [k] + KeyList(argv, i + 1, 1) == keys + KeyList(argv, i, 1);
    } else {
      assert KeyList(argv, i, 1) == [k];
    }
  }

  /** MSET with an odd argument count: every other argument is a key. */
  lemma {:induction false} WalkPairs(argv: seq<bytes>, i: nat, t: Cmd, keys: seq<KeyPos>)
    requires i < |argv| && ArgKvx(t) && |argv| % 2 == 1 && i % 2 == 1
    ensures Walk(argv, i, Key, t, keys) == End(Finished, t, keys + KeyList(argv, i, 2))
    decreases |argv| - i
  {
    hide Walk, KeyAt;
    var k := KeyAt(argv, i);
    WalkStep(argv, i, Key, t, keys);
    WalkStep(argv, i + 1, A1, t, keys + [k]);
    if i + 2 < |argv| {
      WalkPairs(argv, i + 2, t, keys + [k]);
      assert keys + [k] + KeyList(argv, i + 2, 2) == keys + KeyList(argv, i, 2);
    } else {
      assert KeyList(argv, i, 2) == [k];
    }
  }

  /** Commands with one key and a fixed number of arguments. */
  lemma WalkFixed(argv: seq<bytes>, t: Cmd)
    requires |argv| >= 2 && (Arg0(t) || Arg1(t) || Arg2(t) || Arg3(t))
    ensures SameVerdict(Walk(argv, 1, Key, t, []),
                        if Legal(t, argv) then End(Finished, t, [KeyAt(argv, 1)]) else End(Rejected, t, []))
  {
    hide Walk, KeyAt, CountsKeys;
    EachCommandHasOneClass(t);
    var ks := [KeyAt(argv, 1)];
    assert [] + ks == ks;
    WalkStep(argv, 1, Key, t, []);
    if Legal(t, argv) && !Arg0(t) {
      WalkStep(argv, 2, A1, t, ks);
      if !Arg1(t) {
        WalkStep(argv, 3, A2, t, ks);
        if Arg3(t) {
          WalkStep(argv, 4, A3, t, ks);
        }
      }
    }
  }

  lemma WalkAny(argv: seq<bytes>, t: Cmd)
    requires |argv| >= 2 && ArgN(t)
    ensures Walk(argv, 1, Key, t, []) == End(Finished, t, [KeyAt(argv, 1)])
  {
    hide Walk, KeyAt;
    EachCommandHasOneClass(t);
    var ks := [KeyAt(argv, 1)];
    assert [] + ks == ks;
    WalkStep(argv, 1, Key, t, []);
    if |argv| > 2 {
      WalkStep(argv, 2, A1, t, ks);
      if |argv| > 3 {
        WalkRest(argv, 3, t, ks);
      }
    }
  }

  lemma WalkMset(argv: seq<bytes>, t: Cmd)
    requires |argv| >= 2 && ArgKvx(t)
    ensures SameVerdict(Walk(argv, 1, Key, t, []),
                        if Legal(t, argv) then End(Finished, t, KeyList(argv, 1, 2)) else End(Rejected, t, []))
  {
    hide Walk, KeyAt, CountsKeys;
    if |argv| % 2 == 1 {
      WalkPairs(argv, 1, t, []);
      assert [] + KeyList(argv, 1, 2) == KeyList(argv, 1, 2);
    } else {
      var ks := [KeyAt(argv, 1)];
      assert [] + ks == ks;
      WalkStep(argv, 1, Key, t, []);
      if |argv| == 2 { assert KeyList(argv, 1, 2) == ks; }
    }
  }

  lemma WalkEval(argv: seq<bytes>, t: Cmd)
    requires |argv| >= 2 && ArgEval(t)
    ensures SameVerdict(Walk(argv, 1, A1, t, []),
                        if Legal(t, argv) then End(Finished, t, [KeyAt(argv, 3)]) else End(Rejected, t, []))
  {
    hide Walk, KeyAt, CountsKeys;
    WalkStep(argv, 1, A1, t, []);
    if |argv| >= 4 {
      if CountsKeys(argv[2]) {
        var ks := [KeyAt(argv, 3)];
        assert [] + ks == ks;
        WalkStep(argv, 2, A2, t, []);
        WalkStep(argv, 3, Key, t, []);
        if |argv| > 4 {
          WalkRest(argv, 4, t, ks);
        }
      } else {
        WalkBadCount(argv, t);
      }
    }
  }

  /** EVAL with a number of keys that is not one. */
  lemma WalkBadCount(argv: seq<bytes>, t: Cmd)
    requires |argv| > 2 && ArgEval(t) && !CountsKeys(argv[2])
    ensures SameVerdict(Walk(argv, 2, A2, t, []), End(Rejected, t, []))
  {
    hide CountsKeys, Pos, BodyStart, After;
  }

  /** The name, then the class. */
  lemma WalkJudges(argv: seq<bytes>)
    requires argv != []
    ensures SameVerdict(Walk(argv, 0, ReqType, UNKNOWN, []), Judgement(TypeOf(argv[0]), argv))
  {
    hide TypeOf, Spells, CountsKeys, Pos, BodyStart, KeyList;
    var t := TypeOf(argv[0]);
    EmptyIsUnknown();
    if t != UNKNOWN && !ArgZ(t) {
      TypeIsName(argv[0], t);
      EachCommandHasOneClass(t);
      var ph := if ArgEval(t) then A1 else Key;
      assert Walk(argv, 0, ReqType, UNKNOWN, []) == Walk(argv, 1, ph, t, []);
      if |argv| > 1 {
        WalkByClass(argv, t);
      }
    }
  }

  lemma EmptyIsUnknown()
    ensures TypeOf([]) == UNKNOWN
  {
  }

  lemma WalkByClass(argv: seq<bytes>, t: Cmd)
    requires |argv| > 1 && UNKNOWN < t <= LAST && !ArgZ(t)
    ensures SameVerdict(Walk(argv, 1, if ArgEval(t) then A1 else Key, t, []),
                        if Legal(t, argv) then End(Finished, t, KeysOf(t, argv)) else End(Rejected, t, []))
  {
    hide TypeOf, CountsKeys, Pos, BodyStart, KeyList, Walk;
    EachCommandHasOneClass(t);
    if ArgEval(t) { WalkEval(argv, t); }
    else if ArgKvx(t) { WalkMset(argv, t); }
    else if ArgX(t) { WalkKeys(argv, 1, t, []); assert [] + KeyList(argv, 1, 1) == KeyList(argv, 1, 1); }
    else if ArgN(t) { WalkAny(argv, t); }
    else { WalkFixed(argv, t); }
  }

  /**
    The parser inverts the formatter.  On every formatted command the parse ends as the
    protocol says: OK exactly for a known name with a legal argument count (or a name
    alone, which is cut short), with that type and exactly the key arguments.
    */
  lemma ParserInvertsFormatter(t: Cmd, argv: seq<bytes>)
    requires argv != [] && Short(argv) && Named(argv[0], t)
    ensures var v := Run(FormatArgv(argv), 0, INITIAL);
      var j := Judgement(t, argv);
      v.ending == j.v && v.m.typ == j.typ && (!j.v.Rejected? ==> v.m.keys == j.keys)
  {
    hide Run, Walk, Judgement, Digits, TypeOf, Named;
    TypeIsNamed(argv[0], t);
    var cmd := FormatArgv(argv);
    assert Has(cmd, 0, Header(|argv|)) by { assert cmd[0..|Header(|argv|)|] == Header(|argv|); }
    HeaderLine(cmd, |argv|);
    assert Pos(argv, 0) == |Header(|argv|)|;
    WalkRuns(argv, 0, ReqType, UNKNOWN, []);
    WalkJudges(argv);
  }
}
