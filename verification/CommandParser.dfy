/**
  redis_parse_cmd (hiredis-vip-master/command.c): one pass over the bytes of a request that
  finds its type and its keys.  The 27 states of the source are `Start`, `Narg`, `NargLf`
  and, for each of the six kinds of argument, the length, its LF, the body and its LF.

  `Turn` is one turn of the loop, `Run` the loop.  Lengths and counts are unsigned 32-bit
  numbers that wrap.
  */
module CommandParser {
  import opened Bytes
  import opened Commands

  const U32: nat := 0x1_0000_0000

  datatype Phase = ReqType | Key | A1 | A2 | A3 | AN
  datatype Switch = Start | Narg | NargLf | Len(ph: Phase) | LenLf(ph: Phase) | Body(ph: Phase) | Lf(ph: Phase)

  datatype KeyPos = KeyPos(start: nat, end: nat)

  /** The variables of the loop; token is -1 for a null pointer. */
  datatype Fsm = Fsm(state: Switch, token: int, rlen: nat, rnarg: nat, narg: nat, typ: Cmd, keys: seq<KeyPos>)

  const INITIAL: Fsm := Fsm(Start, -1, 0, 0, 0, UNKNOWN, [])

  /** After a turn: on to the byte after p, done, or an error. */
  datatype Next = Go(p: nat, m: Fsm) | Stop(m: Fsm) | Fail(m: Fsm)

  /** What follows the LF that ends an argument. */
  datatype Follow = Arg(ph: Phase) | Complete | Wrong

  function Expect(wanted: bool, f: Follow): Follow {
    if wanted then f else Wrong
  }

  function Unless(rnarg: nat, f: Follow): Follow {
    if rnarg == 0 then Complete else f
  }

  function AfterReqType(t: Cmd): Follow {
    if ArgZ(t) then Complete else if ArgEval(t) then Arg(A1) else Arg(Key)
  }

  function AfterKey(t: Cmd, rnarg: nat, narg: nat): Follow {
    if Arg0(t) then Expect(rnarg == 0, Complete)
    else if Arg1(t) then Expect(rnarg == 1, Arg(A1))
    else if Arg2(t) then Expect(rnarg == 2, Arg(A1))
    else if Arg3(t) then Expect(rnarg == 3, Arg(A1))
    else if ArgN(t) then Unless(rnarg, Arg(A1))
    else if ArgX(t) then Unless(rnarg, Arg(Key))
    else if ArgKvx(t) then Unless(rnarg, Expect(narg % 2 != 0, Arg(A1)))
    else if ArgEval(t) then Unless(rnarg, Arg(AN))
    else Wrong
  }

  function AfterA1(t: Cmd, rnarg: nat): Follow {
    if Arg1(t) then Expect(rnarg == 0, Complete)
    else if Arg2(t) then Expect(rnarg == 1, Arg(A2))
    else if Arg3(t) then Expect(rnarg == 2, Arg(A2))
    else if ArgN(t) then Unless(rnarg, Arg(AN))
    else if ArgEval(t) then Expect(rnarg >= 2, Arg(A2))
    else if ArgKvx(t) then Unless(rnarg, Arg(Key))
    else Wrong
  }

  function AfterA2(t: Cmd, rnarg: nat): Follow {
    if Arg2(t) then Expect(rnarg == 0, Complete)
    else if Arg3(t) then Expect(rnarg == 1, Arg(A3))
    else if ArgN(t) then Unless(rnarg, Arg(AN))
    else if ArgEval(t) then Expect(rnarg >= 1, Arg(Key))
    else Wrong
  }

  function AfterA3(t: Cmd, rnarg: nat): Follow {
    if Arg3(t) then Expect(rnarg == 0, Complete)
    else if ArgN(t) then Unless(rnarg, Arg(AN))
    else Wrong
  }

  function AfterAN(t: Cmd, rnarg: nat): Follow {
    if ArgN(t) || ArgEval(t) then Unless(rnarg, Arg(AN)) else Wrong
  }

  function After(ph: Phase, t: Cmd, rnarg: nat, narg: nat): Follow {
    match ph
    case ReqType => AfterReqType(t)
    case Key => AfterKey(t, rnarg, narg)
    case A1 => AfterA1(t, rnarg)
    case A2 => AfterA2(t, rnarg)
    case A3 => AfterA3(t, rnarg)
    case AN => AfterAN(t, rnarg)
  }

  /** Reading digits into an unsigned 32-bit number. */
  function FoldU32(s: bytes, acc: nat): nat
    requires AllDigits(s)
  {
    if s == [] then acc else FoldU32(s[1..], (acc * 10 + DigitOf(s[0])) % U32)
  }

  /** The number-of-keys argument of EVAL. */
  predicate CountsKeys(a: bytes) {
    a != [] && AllDigits(a) && FoldU32(a, 0) != 0
  }

  /** The conditions at the CR that ends a length line. */
  predicate LengthOk(ph: Phase, m: Fsm, p: nat) {
    m.rnarg != 0 &&
    match ph
    case ReqType => m.rlen != 0
    case Key => true
    case _ => p - m.token > 1
  }

  function NargTurn(ch: byte, p: nat, m: Fsm): Next {
    if m.token == -1 then
      if ch != STAR then Fail(m) else Go(p, m.(token := p, rnarg := 0, state := Narg))
    else if IsDigit(ch) then Go(p, m.(rnarg := (m.rnarg * 10 + DigitOf(ch)) % U32))
    else if ch == CR then
      if m.rnarg == 0 then Fail(m) else Go(p, m.(narg := m.rnarg, token := -1, state := NargLf))
    else Fail(m)
  }

  function LenTurn(ph: Phase, ch: byte, p: nat, m: Fsm): Next {
    if m.token == -1 then
      if ch != DOLLAR then Fail(m) else Go(p, m.(token := p, rlen := 0))
    else if IsDigit(ch) then Go(p, m.(rlen := (m.rlen * 10 + DigitOf(ch)) % U32))
    else if ch == CR && LengthOk(ph, m, p) then Go(p, m.(rnarg := m.rnarg - 1, token := -1, state := LenLf(ph)))
    else Fail(m)
  }

  /** An argument whose bytes are cmd[p..end], its CR at `end`. */
  function Took(ph: Phase, cmd: bytes, p: nat, end: nat, m: Fsm): Next
    requires p <= end < |cmd|
  {
    var next := m.(rlen := 0, token := -1, state := Lf(ph));
    match ph
    case ReqType =>
      var t := TypeOf(cmd[p..end]);
      if t == UNKNOWN then Fail(next.(typ := t)) else Go(end, next.(typ := t))
    case Key => Go(end, next.(keys := m.keys + [KeyPos(p, end)]))
    case A2 => if ArgEval(m.typ) && !CountsKeys(cmd[p..end]) then Fail(m) else Go(end, next)
    case _ => Go(end, next)
  }

  function BodyTurn(ph: Phase, cmd: bytes, p: nat, m: Fsm): Next
    requires p < |cmd|
  {
    var end := p + m.rlen;
    if end >= |cmd| || cmd[end] != CR then Fail(m) else Took(ph, cmd, p, end, m)
  }

  function LfTurn(ph: Phase, ch: byte, p: nat, m: Fsm): Next {
    if ch != LF then Fail(m)
    else match After(ph, m.typ, m.rnarg, m.narg)
      case Arg(next) => Go(p, m.(state := Len(next)))
      case Complete => Stop(m)
      case Wrong => Fail(m)
  }

  function Turn(cmd: bytes, p: nat, m: Fsm): (n: Next)
    requires p < |cmd|
    ensures n.Go? ==> p <= n.p < |cmd|
  {
    var ch := cmd[p];
    match m.state
    case Start => NargTurn(ch, p, m)
    case Narg => NargTurn(ch, p, m)
    case NargLf => if ch == LF then Go(p, m.(state := Len(ReqType))) else Fail(m)
    case Len(ph) => LenTurn(ph, ch, p, m)
    case LenLf(ph) => if ch == LF then Go(p, m.(state := Body(ph))) else Fail(m)
    case Body(ph) => BodyTurn(ph, cmd, p, m)
    case Lf(ph) => LfTurn(ph, ch, p, m)
  }

  /** How the loop ended; falling off the end leaves the result at its initial OK. */
  datatype Ending = Finished | CutShort | Rejected
  datatype Verdict = Verdict(ending: Ending, m: Fsm)

  function Run(cmd: bytes, p: nat, m: Fsm): Verdict
    decreases |cmd| - p
  {
    if p >= |cmd| then Verdict(CutShort, m)
    else match Turn(cmd, p, m)
      case Go(q, m') => Run(cmd, q + 1, m')
      case Stop(m') => Verdict(Finished, m')
      case Fail(m') => Verdict(Rejected, m')
  }

  // ------------------------------------------------------------------
  // Safety on every byte string
  // ------------------------------------------------------------------

  /** The recorded keys: in range, in order, apart from each other, each ended by a CR. */
  ghost predicate KeysOk(cmd: bytes, keys: seq<KeyPos>, p: nat) {
    && (forall i | 0 <= i < |keys| :: keys[i].start <= keys[i].end < p <= |cmd| && cmd[keys[i].end] == CR)
    && (forall i, j | 0 <= i < j < |keys| :: keys[i].end + 3 <= keys[j].start)
  }

  /** Behind a key there is at least the LF, and before the next one a dollar sign too. */
  function Gap(m: Fsm): nat {
    match m.state
    case Lf(_) => 1
    case Len(_) => if m.token == -1 then 2 else 3
    case _ => 3
  }

  ghost predicate KeysApart(m: Fsm, p: nat) {
    forall i | 0 <= i < |m.keys| :: m.keys[i].end + Gap(m) <= p
  }

  predicate ManyKeys(t: Cmd) {
    ArgX(t) || ArgKvx(t)
  }

  /** The states in which a command with a single key has not met it yet. */
  predicate BeforeKey(m: Fsm) {
    match m.state
    case Len(ph) => ph.ReqType? || ph.Key? || (ArgEval(m.typ) && (ph.A1? || ph.A2?))
    case LenLf(ph) => ph.ReqType? || ph.Key? || (ArgEval(m.typ) && (ph.A1? || ph.A2?))
    case Body(ph) => ph.ReqType? || ph.Key? || (ArgEval(m.typ) && (ph.A1? || ph.A2?))
    case Lf(ph) => ph.ReqType? || (ArgEval(m.typ) && (ph.A1? || ph.A2?))
    case _ => true
  }

  predicate TokenOk(m: Fsm, p: nat) {
    match m.state
    case Start => m.token == -1
    case Narg => 0 <= m.token < p
    case Len(_) => -1 <= m.token < p
    case _ => m.token == -1
  }

  /** The type is set once, between the name and its LF. */
  predicate TypeOk(m: Fsm) {
    match m.state
    case Len(ph) => ph.ReqType? || m.typ != UNKNOWN
    case LenLf(ph) => ph.ReqType? || m.typ != UNKNOWN
    case Body(ph) => ph.ReqType? || m.typ != UNKNOWN
    case Lf(_) => m.typ != UNKNOWN
    case _ => true
  }

  ghost predicate Safe(cmd: bytes, p: nat, m: Fsm) {
    && p <= |cmd|
    && m.rlen < U32 && m.rnarg < U32 && m.narg < U32
    && TokenOk(m, p)
    && TypeOk(m)
    && KeysOk(cmd, m.keys, p) && KeysApart(m, p)
    && (!ManyKeys(m.typ) ==> |m.keys| <= 1 && (BeforeKey(m) ==> m.keys == []))
    && (m.state in {Start, Narg, NargLf, Len(ReqType), LenLf(ReqType), Body(ReqType), Lf(ReqType)} ==> m.keys == [])
  }

  lemma KeysLater(cmd: bytes, keys: seq<KeyPos>, p: nat, q: nat)
    requires KeysOk(cmd, keys, p) && p <= q <= |cmd|
    ensures KeysOk(cmd, keys, q)
  {
  }

  lemma KeyAdded(cmd: bytes, keys: seq<KeyPos>, p: nat, end: nat)
    requires KeysOk(cmd, keys, p) && p <= end < |cmd| && cmd[end] == CR
    requires forall i | 0 <= i < |keys| :: keys[i].end + 3 <= p
    ensures KeysOk(cmd, keys + [KeyPos(p, end)], end + 1)
  {
  }

  lemma LfTurnSafe(ph: Phase, cmd: bytes, p: nat, m: Fsm)
    requires Safe(cmd, p, m) && p < |cmd| && m.state == Lf(ph)
    ensures var n := LfTurn(ph, cmd[p], p, m); n.Go? ==> n.p == p && Safe(cmd, p + 1, n.m)
  {
    hide KeysOk;
    KeysLater(cmd, m.keys, p, p + 1);
  }

  lemma BodyTurnSafe(ph: Phase, cmd: bytes, p: nat, m: Fsm)
    requires Safe(cmd, p, m) && p < |cmd| && m.state == Body(ph)
    ensures var n := BodyTurn(ph, cmd, p, m); n.Go? ==> Safe(cmd, n.p + 1, n.m)
  {
    hide KeysOk, TypeOf, CountsKeys;
    var n := BodyTurn(ph, cmd, p, m);
    if n.Go? {
      KeysLater(cmd, m.keys, p, n.p + 1);
      if ph.Key? {
        KeyAdded(cmd, m.keys, p, n.p);
      }
    }
  }

  /** One turn keeps the safety invariant. */
  lemma TurnSafe(cmd: bytes, p: nat, m: Fsm)
    requires Safe(cmd, p, m) && p < |cmd|
    ensures var n := Turn(cmd, p, m); n.Go? ==> Safe(cmd, n.p + 1, n.m)
  {
    hide KeysOk, BodyTurn, LfTurn;
    KeysLater(cmd, m.keys, p, p + 1);
    match m.state
    case Body(ph) => BodyTurnSafe(ph, cmd, p, m);
    case Lf(ph) => LfTurnSafe(ph, cmd, p, m);
    case _ =>
  }

  /** What holds of the verdict on any input. */
  ghost predicate SafeVerdict(cmd: bytes, v: Verdict) {
    && KeysOk(cmd, v.m.keys, |cmd|)
    && (|v.m.keys| > 1 ==> v.m.typ == MGET || v.m.typ == DEL || v.m.typ == MSET)
    && (v.ending.Finished? ==> v.m.typ != UNKNOWN)
  }

  lemma StopsSafe(cmd: bytes, p: nat, m: Fsm)
    requires Safe(cmd, p, m) && p < |cmd|
    ensures var n := Turn(cmd, p, m);
      && (n.Stop? ==> SafeVerdict(cmd, Verdict(Finished, n.m)))
      && (n.Fail? ==> SafeVerdict(cmd, Verdict(Rejected, n.m)))
  {
    hide KeysOk, TypeOf, CountsKeys;
    KeysLater(cmd, m.keys, p, |cmd|);
  }

  /** Safety of the whole parse, whatever the bytes. */
  lemma {:induction false} RunSafe(cmd: bytes, p: nat, m: Fsm)
    requires Safe(cmd, p, m)
    ensures SafeVerdict(cmd, Run(cmd, p, m))
    decreases |cmd| - p
  {
    hide Turn, KeysOk;
    if p == |cmd| {
      KeysLater(cmd, m.keys, p, |cmd|);
    } else {
      StopsSafe(cmd, p, m);
      match Turn(cmd, p, m)
      case Go(q, m') =>
        TurnSafe(cmd, p, m);
        RunSafe(cmd, q + 1, m');
      case _ =>
    }
  }

  /** Keys take up room. */
  lemma FewKeys(cmd: bytes, keys: seq<KeyPos>)
    requires KeysOk(cmd, keys, |cmd|)
    ensures 3 * |keys| <= |cmd| + 2
  {
    if keys != [] { KeyPlace(cmd, keys, |keys| - 1); }
  }

  lemma {:induction false} KeyPlace(cmd: bytes, keys: seq<KeyPos>, i: nat)
    requires KeysOk(cmd, keys, |cmd|) && i < |keys|
    ensures 3 * i <= keys[i].start
    decreases i
  {
    if i > 0 { KeyPlace(cmd, keys, i - 1); }
  }

  datatype ParseResult = ParseOk | ParseError

  /** redis_parse_cmd: the loop, byte by byte. */
  method RedisParseCmd(cmd: bytes) returns (result: ParseResult, typ: Cmd, keys: seq<KeyPos>)
    ensures var v := Run(cmd, 0, INITIAL);
      && (result.ParseError? <==> v.ending.Rejected?)
      && typ == v.m.typ && keys == v.m.keys
    ensures forall i | 0 <= i < |keys| :: keys[i].start <= keys[i].end < |cmd| && cmd[keys[i].end] == CR
    ensures forall i, j | 0 <= i < j < |keys| :: keys[i].end < keys[j].start
    ensures 3 * |keys| <= |cmd| + 2
    ensures |keys| > 1 ==> typ == MGET || typ == DEL || typ == MSET
  {
    hide Turn;
    RunSafe(cmd, 0, INITIAL);
    FewKeys(cmd, Run(cmd, 0, INITIAL).m.keys);
    result := ParseOk;
    var p, m := 0, INITIAL;
    while p < |cmd|
      invariant 0 <= p <= |cmd| && Safe(cmd, p, m)
      invariant Run(cmd, p, m) == Run(cmd, 0, INITIAL)
    {
      TurnSafe(cmd, p, m);
      match Turn(cmd, p, m) {
        case Go(q, m') =>
          p, m := q, m';
        case Stop(m') =>
          return ParseOk, m'.typ, m'.keys;
        case Fail(m') =>
          return ParseError, m'.typ, m'.keys;
      }
      p := p + 1;
    }
    return ParseOk, m.typ, m.keys;
  }
}
