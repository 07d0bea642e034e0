/**
  redis_parse_cmd against redisFormatCommandArgv: for every argument vector, exactly which
  verdict the parser gives on the formatted command, and which arguments it takes as keys.
  */
module CommandRoundTrip {
  import opened Bytes
  import opened Commands
  import opened CommandParser
  import opened Format

  ghost predicate Has(cmd: bytes, p: nat, s: bytes) {
    p + |s| <= |cmd| && cmd[p..p + |s|] == s
  }

  lemma HasParts(cmd: bytes, p: nat, s: bytes, t: bytes)
    requires Has(cmd, p, s + t)
    ensures Has(cmd, p, s) && Has(cmd, p + |s|, t)
  {
    var whole := cmd[p..p + |s + t|];
    assert whole[..|s|] == s;
    assert whole[|s|..] == t;
  }

  lemma HasByte(cmd: bytes, p: nat, s: bytes, i: nat)
    requires Has(cmd, p, s) && i < |s|
    ensures p + i < |cmd| && cmd[p + i] == s[i]
  {
    assert cmd[p..p + |s|][i] == s[i];
  }

  // Numbers ----------------------------------------------------------

  lemma {:induction false} FoldIsValue(s: bytes)
    requires AllDigits(s)
    ensures FoldU32(s, 0) == Value(s) % U32
    decreases |s|
  {
    if s != [] {
      var init, b := s[..|s| - 1], s[|s| - 1];
      FoldIsValue(init);
      FoldSnoc(init, b, 0);
      assert init + [b] == s;
      ModStep(Value(init), DigitOf(b));
    }
  }

  lemma ModStep(v: nat, d: nat)
    ensures (v % U32 * 10 + d) % U32 == (10 * v + d) % U32
  {
    var q := v / U32;
    assert v == q * U32 + v % U32;
    assert 10 * v + d == (v % U32 * 10 + d) + 10 * q * U32;
    ModDrop(v % U32 * 10 + d, 10 * q);
  }

  lemma ModDrop(a: nat, k: nat)
    ensures (a + k * U32) % U32 == a % U32
    decreases k
  {
    if k > 0 {
      ModDrop(a, k - 1);
      assert a + k * U32 == (a + (k - 1) * U32) + U32;
    }
  }

  lemma {:induction false} FoldSnoc(s: bytes, b: byte, acc: nat)
    requires AllDigits(s) && IsDigit(b)
    ensures AllDigits(s + [b]) && FoldU32(s + [b], acc) == (FoldU32(s, acc) * 10 + DigitOf(b)) % U32
    decreases |s|
  {
    if s == [] {
      assert (s + [b])[1..] == [];
    } else {
      assert (s + [b])[1..] == s[1..] + [b];
      FoldSnoc(s[1..], b, (acc * 10 + DigitOf(s[0])) % U32);
    }
  }

  lemma FoldDigits(n: nat)
    requires n < U32
    ensures FoldU32(Digits(n), 0) == n
  {
    hide FoldU32, Digits, Value;
    FoldIsValue(Digits(n));
    ValueOfDigits(n);
  }

  // Lines ------------------------------------------------------------

  /** Unfolding one turn. */
  lemma RunStep(cmd: bytes, p: nat, m: Fsm)
    requires p < |cmd|
    ensures Run(cmd, p, m) == match Turn(cmd, p, m)
      case Go(q, m') => Run(cmd, q + 1, m')
      case Stop(m') => Verdict(Finished, m')
      case Fail(m') => Verdict(Rejected, m')
  {
    hide Turn;
  }

  lemma {:induction false} LenDigits(cmd: bytes, p: nat, m: Fsm, ph: Phase, ds: bytes)
    requires m.state == Len(ph) && m.token != -1 && AllDigits(ds) && Has(cmd, p, ds)
    ensures Run(cmd, p, m) == Run(cmd, p + |ds|, m.(rlen := FoldU32(ds, m.rlen)))
    decreases |ds|
  {
    hide Run;
    if ds == [] {
      assert m.(rlen := m.rlen) == m;
    } else {
      HasByte(cmd, p, ds, 0);
      assert ds == ds[..1] + ds[1..];
      HasParts(cmd, p, ds[..1], ds[1..]);
      RunStep(cmd, p, m);
      LenDigits(cmd, p + 1, m.(rlen := (m.rlen * 10 + DigitOf(ds[0])) % U32), ph, ds[1..]);
    }
  }

  lemma {:induction false} NargDigits(cmd: bytes, p: nat, m: Fsm, ds: bytes)
    requires m.state == Narg && m.token != -1 && AllDigits(ds) && Has(cmd, p, ds)
    ensures Run(cmd, p, m) == Run(cmd, p + |ds|, m.(rnarg := FoldU32(ds, m.rnarg)))
    decreases |ds|
  {
    hide Run;
    if ds == [] {
      assert m.(rnarg := m.rnarg) == m;
    } else {
      HasByte(cmd, p, ds, 0);
      assert ds == ds[..1] + ds[1..];
      HasParts(cmd, p, ds[..1], ds[1..]);
      RunStep(cmd, p, m);
      NargDigits(cmd, p + 1, m.(rnarg := (m.rnarg * 10 + DigitOf(ds[0])) % U32), ds[1..]);
    }
  }

  /** The argument-count line. */
  lemma HeaderLine(cmd: bytes, n: nat)
    requires 0 < n < U32 && Has(cmd, 0, Header(n))
    ensures Run(cmd, 0, INITIAL) == Run(cmd, |Header(n)|, Fsm(Len(ReqType), -1, 0, n, n, UNKNOWN, []))
  {
    hide Run, Digits, FoldU32;
    var d := Digits(n);
    HasByte(cmd, 0, Header(n), 0);
    RunStep(cmd, 0, INITIAL);
    assert Header(n) == [STAR] + (d + CRLF);
    HasParts(cmd, 0, [STAR], d + CRLF);
    HasParts(cmd, 1, d, CRLF);
    var m := INITIAL.(token := 0, state := Narg);
    NargDigits(cmd, 1, m, d);
    FoldDigits(n);
    var p := 1 + |d|;
    HasByte(cmd, p, CRLF, 0);
    HasByte(cmd, p, CRLF, 1);
    RunStep(cmd, p, m.(rnarg := n));
    RunStep(cmd, p + 1, Fsm(NargLf, -1, 0, n, n, UNKNOWN, []));
  }

  /** The CR LF that ends a length line. */
  lemma LengthEnd(cmd: bytes, q: nat, m: Fsm, ph: Phase)
    requires m.state == Len(ph) && 0 <= m.token < q - 1 && Has(cmd, q, CRLF)
    ensures if m.rnarg != 0 && (ph.ReqType? ==> m.rlen != 0)
      then Run(cmd, q, m) == Run(cmd, q + 2, m.(state := Body(ph), token := -1, rnarg := m.rnarg - 1))
      else Run(cmd, q, m) == Verdict(Rejected, m)
  {
    hide Run;
    HasByte(cmd, q, CRLF, 0);
    HasByte(cmd, q, CRLF, 1);
    RunStep(cmd, q, m);
    if LengthOk(ph, m, q) {
      RunStep(cmd, q + 1, m.(rnarg := m.rnarg - 1, token := -1, state := LenLf(ph)));
    }
  }

  /** A length line, up to the first byte of the body. */
  lemma LengthLine(cmd: bytes, p: nat, m: Fsm, ph: Phase, n: nat)
    requires m.state == Len(ph) && m.token == -1 && n < U32
    requires Has(cmd, p, [DOLLAR] + Digits(n) + CRLF)
    ensures var q := p + 1 + |Digits(n)| + 2;
      if m.rnarg != 0 && (ph.ReqType? ==> n != 0)
      then Run(cmd, p, m) == Run(cmd, q, m.(state := Body(ph), rlen := n, rnarg := m.rnarg - 1))
      else Run(cmd, p, m).ending.Rejected? && Run(cmd, p, m).m.typ == m.typ
  {
    hide Run, Digits, FoldU32, Has;
    var d := Digits(n);
    assert [DOLLAR] + d + CRLF == [DOLLAR] + (d + CRLF);
    HasParts(cmd, p, [DOLLAR], d + CRLF);
    HasByte(cmd, p, [DOLLAR], 0);
    HasParts(cmd, p + 1, d, CRLF);
    RunStep(cmd, p, m);
    var m1 := m.(token := p, rlen := 0);
    LenDigits(cmd, p + 1, m1, ph, d);
    FoldDigits(n);
    LengthEnd(cmd, p + 1 + |d|, m1.(rlen := n), ph);
  }

  // Arguments --------------------------------------------------------

  /** What the parser remembers between arguments. */
  datatype Between = Between(ph: Phase, rnarg: nat, narg: nat, typ: Cmd, keys: seq<KeyPos>)

  function Entering(b: Between): Fsm {
    Fsm(Len(b.ph), -1, 0, b.rnarg, b.narg, b.typ, b.keys)
  }

  /** The effect of one argument a whose first byte is at p, and what follows. */
  datatype Outcome = More(b: Between) | End(v: Ending, typ: Cmd, keys: seq<KeyPos>)

  function Consume(b: Between, a: bytes, p: nat): Outcome
  {
    if b.rnarg == 0 || (b.ph.ReqType? && a == []) then End(Rejected, b.typ, b.keys)
    else
      var t := if b.ph.ReqType? then TypeOf(a) else b.typ;
      var ks := if b.ph.Key? then b.keys + [KeyPos(p, p + |a|)] else b.keys;
      if b.ph.ReqType? && t == UNKNOWN then End(Rejected, t, ks)
      else if b.ph.A2? && ArgEval(t) && !CountsKeys(a) then End(Rejected, t, ks)
      else match After(b.ph, t, b.rnarg - 1, b.narg)
        case Arg(ph) => More(Between(ph, b.rnarg - 1, b.narg, t, ks))
        case Complete => End(Finished, t, ks)
        case Wrong => End(Rejected, t, ks)
  }

  ghost predicate Agrees(v: Verdict, o: Outcome)
    requires o.End?
  {
    v.ending == o.v && v.m.typ == o.typ && v.m.keys == o.keys
  }

  lemma BodyLine(cmd: bytes, p: nat, m: Fsm, a: bytes)
    requires m.state.Body? && m.token == -1 && m.rlen == |a| && Has(cmd, p, a + CRLF)
    ensures Run(cmd, p, m) == match Took(m.state.ph, cmd, p, p + |a|, m)
      case Go(q, m') => Run(cmd, p + |a| + 1, m')
      case Stop(m') => Verdict(Finished, m')
      case Fail(m') => Verdict(Rejected, m')
    ensures p + |a| + 1 < |cmd| && cmd[p + |a| + 1] == LF && cmd[p..p + |a|] == a
  {
    hide Run, Took;
    HasParts(cmd, p, a, CRLF);
    HasByte(cmd, p + |a|, CRLF, 0);
    HasByte(cmd, p + |a|, CRLF, 1);
    RunStep(cmd, p, m);
    TookStays(m.state.ph, cmd, p, p + |a|, m);
  }

  lemma TookStays(ph: Phase, cmd: bytes, p: nat, end: nat, m: Fsm)
    requires p <= end < |cmd|
    ensures var n := Took(ph, cmd, p, end, m); n.Go? ==> n.p == end
    ensures !Took(ph, cmd, p, end, m).Stop?
  {
    hide TypeOf, CountsKeys;
  }

  function BodyStart(p: nat, a: bytes): nat {
    p + 1 + |Digits(|a|)| + 2
  }

  /** The body of an argument and its LF. */
  lemma BodyBlock(cmd: bytes, q: nat, b: Between, a: bytes)
    requires Has(cmd, q, a + CRLF) && b.rnarg > 0 && (b.ph.ReqType? ==> a != [])
    ensures var v := Run(cmd, q, Fsm(Body(b.ph), -1, |a|, b.rnarg - 1, b.narg, b.typ, b.keys));
      match Consume(b, a, q)
      case More(b') => v == Run(cmd, q + |a| + 2, Entering(b'))
      case End(e, t, ks) => Agrees(v, End(e, t, ks))
  {
    hide Run, TypeOf, CountsKeys, After;
    var m := Fsm(Body(b.ph), -1, |a|, b.rnarg - 1, b.narg, b.typ, b.keys);
    BodyLine(cmd, q, m, a);
    match Took(b.ph, cmd, q, q + |a|, m) {
      case Go(_, m') => RunStep(cmd, q + |a| + 1, m');
      case _ =>
    }
  }

  /** One bulk argument, from its `$` to the byte after its last LF. */
  lemma ArgumentBlock(cmd: bytes, p: nat, b: Between, a: bytes)
    requires Has(cmd, p, Bulk(a)) && |a| < U32
    ensures var v := Run(cmd, p, Entering(b));
      match Consume(b, a, BodyStart(p, a))
      case More(b') => v == Run(cmd, p + |Bulk(a)|, Entering(b'))
      case End(e, t, ks) => e == v.ending && t == v.m.typ && (!e.Rejected? ==> Agrees(v, End(e, t, ks)))
  {
    hide Run, Digits, TypeOf, CountsKeys, After;
    assert Bulk(a) == ([DOLLAR] + Digits(|a|) + CRLF) + (a + CRLF);
    HasParts(cmd, p, [DOLLAR] + Digits(|a|) + CRLF, a + CRLF);
    LengthLine(cmd, p, Entering(b), b.ph, |a|);
    if b.rnarg != 0 && (b.ph.ReqType? ==> a != []) {
      BodyBlock(cmd, BodyStart(p, a), b, a);
    }
  }

  // The whole command ------------------------------------------------

  /** The offset of argument i, and the place of its bytes. */
  function Pos(argv: seq<bytes>, i: nat): nat
    requires i <= |argv|
  {
    |Header(|argv|)| + |Bulks(argv[..i])|
  }

  function KeyAt(argv: seq<bytes>, i: nat): KeyPos
    requires i < |argv|
  {
    var start := BodyStart(Pos(argv, i), argv[i]);
    KeyPos(start, start + |argv[i]|)
  }

  lemma PosNext(argv: seq<bytes>, i: nat)
    requires i < |argv|
    ensures Pos(argv, i + 1) == Pos(argv, i) + |Bulk(argv[i])|
  {
    assert argv[..i + 1] == argv[..i] + [argv[i]];
    BulksSnoc(argv[..i], argv[i]);
  }

  /** The parser on arguments instead of bytes. */
  function Walk(argv: seq<bytes>, i: nat, ph: Phase, t: Cmd, keys: seq<KeyPos>): (o: Outcome)
    requires i <= |argv|
    ensures o.End?
    decreases |argv| - i
  {
    if i == |argv| then End(CutShort, t, keys)
    else match Consume(Between(ph, |argv| - i, |argv|, t, keys), argv[i], BodyStart(Pos(argv, i), argv[i]))
      case More(b) => Walk(argv, i + 1, b.ph, b.typ, b.keys)
      case End(e, t', ks) => End(e, t', ks)
  }

  ghost predicate Short(argv: seq<bytes>) {
    |argv| < U32 && forall i | 0 <= i < |argv| :: |argv[i]| < U32
  }

  lemma {:induction false} BulksDrop(argv: seq<bytes>, i: nat)
    requires i <= |argv|
    ensures Bulks(argv) == Bulks(argv[..i]) + Bulks(argv[i..])
    decreases i
  {
    hide Bulk, Bulks;
    if i == 0 {
      assert argv[0..] == argv && argv[..0] == [];
      NoBulks();
    } else {
      BulksDrop(argv, i - 1);
      var a, x, b := Bulks(argv[..i - 1]), Bulk(argv[i - 1]), Bulks(argv[i..]);
      assert argv[..i] == argv[..i - 1] + [argv[i - 1]];
      BulksSnoc(argv[..i - 1], argv[i - 1]);
      BulksFrom(argv, i - 1);
      assert a + (x + b) == (a + x) + b;
    }
  }

  lemma BulksFrom(argv: seq<bytes>, i: nat)
    requires i < |argv|
    ensures Bulks(argv[i..]) == Bulk(argv[i]) + Bulks(argv[i + 1..])
  {
    hide Bulk;
    assert argv[i..][0] == argv[i] && argv[i..][1..] == argv[i + 1..];
  }

  /** Where argument i lies in the formatted command. */
  lemma FormatHas(argv: seq<bytes>, i: nat)
    requires i < |argv|
    ensures Has(FormatArgv(argv), Pos(argv, i), Bulk(argv[i]))
    ensures |FormatArgv(argv)| == Pos(argv, |argv|)
  {
    hide Bulk, Digits;
    BulksDrop(argv, i);
    var pre, post := Header(|argv|) + Bulks(argv[..i]), Bulks(argv[i..][1..]);
    assert FormatArgv(argv) == pre + Bulk(argv[i]) + post;
    assert argv[..|argv|] == argv;
  }

  /** The bytes of a key position are the argument. */
  lemma KeyBytes(argv: seq<bytes>, i: nat)
    requires i < |argv|
    ensures var k := KeyAt(argv, i);
      k.start <= k.end < |FormatArgv(argv)| && FormatArgv(argv)[k.start..k.end] == argv[i]
  {
    hide Digits, FormatArgv;
    FormatHas(argv, i);
    var a := argv[i];
    assert Bulk(a) == ([DOLLAR] + Digits(|a|) + CRLF) + (a + CRLF);
    HasParts(FormatArgv(argv), Pos(argv, i), [DOLLAR] + Digits(|a|) + CRLF, a + CRLF);
    HasParts(FormatArgv(argv), KeyAt(argv, i).start, a, CRLF);
  }

  lemma {:induction false} WalkRuns(argv: seq<bytes>, i: nat, ph: Phase, t: Cmd, keys: seq<KeyPos>)
    requires i <= |argv| && Short(argv)
    ensures var v := Run(FormatArgv(argv), Pos(argv, i), Entering(Between(ph, |argv| - i, |argv|, t, keys)));
      var o := Walk(argv, i, ph, t, keys);
      v.ending == o.v && v.m.typ == o.typ && (!o.v.Rejected? ==> v.m.keys == o.keys)
    decreases |argv| - i
  {
    hide Consume, Bulk, FormatArgv, Turn, Has, Pos;
    var cmd := FormatArgv(argv);
    if i == |argv| {
      assert Pos(argv, i) == |cmd| by { FormatLength(argv); }
    } else {
      var b := Between(ph, |argv| - i, |argv|, t, keys);
      FormatHas(argv, i);
      ArgumentBlock(cmd, Pos(argv, i), b, argv[i]);
      PosNext(argv, i);
      match Consume(b, argv[i], BodyStart(Pos(argv, i), argv[i]))
      case More(b') =>
        ConsumeCounts(b, argv[i], BodyStart(Pos(argv, i), argv[i]));
        WalkRuns(argv, i + 1, b'.ph, b'.typ, b'.keys);
      case End(_, _, _) =>
    }
  }

  lemma FormatLength(argv: seq<bytes>)
    ensures |FormatArgv(argv)| == Pos(argv, |argv|)
  {
    assert argv[..|argv|] == argv;
  }

  lemma ConsumeCounts(b: Between, a: bytes, p: nat)
    ensures var o := Consume(b, a, p); o.More? ==> o.b.rnarg == b.rnarg - 1 && o.b.narg == b.narg
  {
    hide TypeOf, CountsKeys, After;
  }
}
