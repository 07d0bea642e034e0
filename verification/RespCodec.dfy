/**
  The reader inverts the RESP2 wire form: every byte string that is a form of a reply tree of at
  most eight array levels is read as that tree, from exactly its own bytes, and a deeper one is
  refused.  A tree has many forms: nil is a bulk string or an array of negative length, numbers
  may have signs and leading zeros, and the two bytes behind a bulk string are not looked at.
  */
module RespCodec {
  import opened Bytes
  import opened Resp
  import Decimal

  ghost predicate NoCrlf(s: bytes) {
    forall i :: !CrlfAt(s, i)
  }

  predicate NoCr(s: bytes) {
    forall i | 0 <= i < |s| :: s[i] != CR
  }

  /** What a line of a number stands for: sign and digits, or -1 if it is anything else. */
  function Number(line: bytes): int {
    var digits := if line != [] && (line[0] == MINUS || line[0] == PLUS) then line[1..] else line;
    if !AllDigits(digits) then -1
    else if line != [] && line[0] == MINUS then 0 - Value(digits)
    else Value(digits)
  }

  /** A type byte, a line without CR, and what follows. */
  ghost predicate Headed(bs: bytes, head: byte, line: bytes, body: bytes) {
    bs == [head] + (line + CRLF + body) && NoCr(line)
  }

  function Max(a: nat, b: nat): nat {
    if a > b then a else b
  }

  /**
    The byte string is a form of the reply with d levels of arrays (RESP2, sections "Bulk strings"
    and "Arrays"); an empty array counts as one, and so does nil in the form of an array.
    */
  ghost predicate Wire(r: Reply, bs: bytes, d: nat)
    decreases r, 1
  {
    match r
    case Status(s) => d == 0 && NoCrlf(s) && bs == [PLUS] + (s + CRLF)
    case Error(s) => d == 0 && NoCrlf(s) && bs == [MINUS] + (s + CRLF)
    case Integer(i) => d == 0 && exists line :: Headed(bs, COLON, line, []) && Number(line) == i
    case Str(s) =>
      d == 0 && exists line, body :: Headed(bs, DOLLAR, line, body) && Number(line) == |s| && Holds(body, s)
    case Nil =>
      || (d == 0 && exists line :: Headed(bs, DOLLAR, line, []) && Number(line) < 0)
      || (d == 1 && exists line :: Headed(bs, STAR, line, []) && Number(line) == -1)
    case Array(n, es) =>
      && d > 0 && (n == |es| || (n < -1 && es == []))
      && exists line, body :: Headed(bs, STAR, line, body) && Number(line) == n && WireAll(es, body, d - 1)
  }

  /** A bulk string and two bytes. */
  predicate Holds(body: bytes, s: bytes) {
    |body| == |s| + 2 && body[..|s|] == s
  }

  ghost predicate WireAll(rs: seq<Reply>, bs: bytes, d: nat)
    decreases rs, 0
  {
    if rs == [] then bs == [] && d == 0
    else exists k, a, b :: 0 <= k <= |bs| && d == Max(a, b) && Wire(rs[0], bs[..k], a) && WireAll(rs[1..], bs[k..], b)
  }

  /** Levels of array nesting, an empty array counting as one. */
  function Depth(r: Reply): nat
    decreases r
  {
    if r.Array? then 1 + DepthAll(r.element) else 0
  }

  function DepthAll(rs: seq<Reply>): nat
    decreases rs
  {
    if rs == [] then 0 else Max(Depth(rs[0]), DepthAll(rs[1..]))
  }

  // The form a server sends ------------------------------------------

  function Encode(r: Reply): bytes
    decreases r
  {
    match r
    case Status(s) => [PLUS] + (s + CRLF)
    case Error(s) => [MINUS] + (s + CRLF)
    case Integer(i) => [COLON] + (Decimal.Numeral(i) + CRLF)
    case Str(s) => [DOLLAR] + (Digits(|s|) + CRLF + s + CRLF)
    case Nil => [DOLLAR] + (Decimal.Numeral(-1) + CRLF)
    case Array(n, es) => [STAR] + (Decimal.Numeral(n) + CRLF + EncodeAll(es))
  }

  function EncodeAll(rs: seq<Reply>): bytes
    decreases rs
  {
    if rs == [] then [] else Encode(rs[0]) + EncodeAll(rs[1..])
  }

  /** No CR LF inside a status or error line, and array counts that tell the truth. */
  ghost predicate Wellformed(r: Reply)
    decreases r
  {
    match r
    case Status(s) => NoCrlf(s)
    case Error(s) => NoCrlf(s)
    case Array(n, es) => n == |es| && WellformedAll(es)
    case _ => true
  }

  ghost predicate WellformedAll(rs: seq<Reply>)
    decreases rs
  {
    rs == [] || (Wellformed(rs[0]) && WellformedAll(rs[1..]))
  }

  lemma NumeralNumber(i: int)
    ensures NoCr(Decimal.Numeral(i)) && Number(Decimal.Numeral(i)) == i
  {
    hide Digits, Value;
    var d := Digits(if i < 0 then -i else i);
    ValueOfDigits(if i < 0 then -i else i);
    if i < 0 { assert Decimal.Numeral(i)[1..] == d; }
  }

  /** What servers send is a form of the reply. */
  lemma {:induction false} EncodeIsWire(r: Reply)
    requires Wellformed(r)
    ensures Wire(r, Encode(r), Depth(r))
    decreases r, 1
  {
    hide Number, Decimal.Numeral, Digits, WireAll, WellformedAll;
    match r
    case Integer(i) =>
      NumeralNumber(i);
      assert Decimal.Numeral(i) + CRLF == Decimal.Numeral(i) + CRLF + [];
      assert Headed(Encode(r), COLON, Decimal.Numeral(i), []);
    case Str(s) =>
      NumeralNumber(|s|);
      NumeralOfLength(s);
      assert Decimal.Numeral(|s|) + CRLF + s + CRLF == Decimal.Numeral(|s|) + CRLF + (s + CRLF);
      assert Headed(Encode(r), DOLLAR, Decimal.Numeral(|s|), s + CRLF);
    case Nil =>
      NumeralNumber(-1);
      assert Decimal.Numeral(-1) + CRLF == Decimal.Numeral(-1) + CRLF + [];
      assert Headed(Encode(r), DOLLAR, Decimal.Numeral(-1), []);
    case Array(n, es) =>
      NumeralNumber(n);
      EncodeAllIsWire(es);
      assert Headed(Encode(r), STAR, Decimal.Numeral(n), EncodeAll(es));
    case _ =>
  }

  lemma NumeralOfLength(s: bytes)
    ensures Decimal.Numeral(|s|) == Digits(|s|)
  {}

  lemma {:induction false} EncodeAllIsWire(rs: seq<Reply>)
    requires WellformedAll(rs)
    ensures WireAll(rs, EncodeAll(rs), DepthAll(rs))
    decreases rs, 0
  {
    hide Encode, Wire, Wellformed;
    if rs != [] {
      EncodeIsWire(rs[0]);
      EncodeAllIsWire(rs[1..]);
      WireCons(rs, Encode(rs[0]), Depth(rs[0]), EncodeAll(rs[1..]), DepthAll(rs[1..]));
    }
  }

  lemma WireCons(rs: seq<Reply>, a: bytes, d: nat, b: bytes, e: nat)
    requires rs != [] && Wire(rs[0], a, d) && WireAll(rs[1..], b, e)
    ensures WireAll(rs, a + b, Max(d, e))
  {
    hide Wire;
    assert (a + b)[..|a|] == a && (a + b)[|a|..] == b;
  }

  // Numbers ----------------------------------------------------------

  function Accumulate(s: bytes, acc: nat): nat
    requires AllDigits(s)
  {
    if s == [] then acc else Accumulate(s[1..], 10 * acc + DigitOf(s[0]))
  }

  lemma {:induction false} AccumulateSnoc(s: bytes, b: byte, acc: nat)
    requires AllDigits(s) && IsDigit(b)
    ensures AllDigits(s + [b]) && Accumulate(s + [b], acc) == 10 * Accumulate(s, acc) + DigitOf(b)
    decreases |s|
  {
    if s == [] {
      assert (s + [b])[1..] == [];
    } else {
      assert (s + [b])[1..] == s[1..] + [b];
      AccumulateSnoc(s[1..], b, 10 * acc + DigitOf(s[0]));
    }
  }

  lemma {:induction false} AccumulateIsValue(s: bytes)
    requires AllDigits(s)
    ensures Accumulate(s, 0) == Value(s)
    decreases |s|
  {
    if s != [] {
      var n := |s| - 1;
      AccumulateIsValue(s[..n]);
      AccumulateSnoc(s[..n], s[n], 0);
      assert s[..n] + [s[n]] == s;
    }
  }

  lemma {:induction false} ScanIsAccumulate(s: bytes, rest: bytes, acc: nat)
    requires AllDigits(s) && rest != [] && rest[0] == CR
    ensures ScanDigits(s + rest, acc) == Some(Accumulate(s, acc))
    decreases |s|
  {
    if s == [] {
      assert s + rest == rest;
    } else {
      assert (s + rest)[1..] == s[1..] + rest;
      ScanIsAccumulate(s[1..], rest, 10 * acc + DigitOf(s[0]));
    }
  }

  lemma {:induction false} ScanStops(s: bytes, rest: bytes, acc: nat)
    requires NoCr(s) && !AllDigits(s)
    ensures ScanDigits(s + rest, acc) == None
    decreases |s|
  {
    if IsDigit(s[0]) {
      assert (s + rest)[1..] == s[1..] + rest;
      assert AllDigits(s[1..]) ==> AllDigits(s);
      ScanStops(s[1..], rest, 10 * acc + DigitOf(s[0]));
    }
  }

  /** readLongLong reads every line without CR as its number, malformed ones as -1. */
  lemma LongLongIsNumber(line: bytes, rest: bytes)
    requires NoCr(line) && rest != [] && rest[0] == CR
    ensures LongLong(line + rest) == Number(line)
  {
    hide ScanDigits, Accumulate, Value;
    var signed := line != [] && (line[0] == MINUS || line[0] == PLUS);
    var d := if signed then line[1..] else line;
    if signed { assert (line + rest)[1..] == d + rest; }
    if AllDigits(d) {
      ScanIsAccumulate(d, rest, 0);
      AccumulateIsValue(d);
    } else {
      ScanStops(d, rest, 0);
    }
  }

  lemma LongLongOfNumeral(i: int, rest: bytes)
    requires rest != [] && rest[0] == CR
    ensures LongLong(Decimal.Numeral(i) + rest) == i
  {
    hide LongLong, Number, Decimal.Numeral;
    NumeralNumber(i);
    LongLongIsNumber(Decimal.Numeral(i), rest);
  }

  lemma FindCrlfAfter(line: bytes, rest: bytes)
    requires NoCrlf(line)
    ensures FindCrlf(line + CRLF + rest) == |line|
  {
    hide FindCrlf;
    var s := line + CRLF + rest;
    assert CrlfAt(s, |line|);
    assert forall i | 0 <= i < |line| :: CrlfAt(s, i) ==> CrlfAt(line, i);
  }

  /** A line holding a number is found and read. */
  lemma NumberLine(line: bytes, rest: bytes)
    requires NoCr(line)
    ensures var s := line + CRLF + rest;
      && FindCrlf(s) == |line| && LongLong(s) == Number(line) && s[|line| + 2..] == rest
  {
    hide FindCrlf, LongLong, Number;
    FindCrlfAfter(line, rest);
    LongLongIsNumber(line, CRLF + rest);
    assert line + CRLF + rest == line + (CRLF + rest);
  }

  // Items ------------------------------------------------------------

  lemma LineStep(b: byte, kind: Kind, line: bytes, frames: seq<Frame>, rest: bytes)
    requires KindOf(b) == Some(kind) && (kind.StatusKind? || kind.ErrorKind?)
    requires NoCrlf(line)
    ensures Step(Parse([b] + (line + CRLF) + rest, None, frames))
         == Finish(rest, frames, if kind.StatusKind? then Status(line) else Error(line))
  {
    hide FindCrlf, Finish;
    var s := [b] + (line + CRLF) + rest;
    assert s[1..] == line + CRLF + rest;
    FindCrlfAfter(line, rest);
    assert s[1..][|line| + 2..] == rest;
    assert s[1..][..|line|] == line;
  }

  lemma HeadedInput(bs: bytes, head: byte, line: bytes, body: bytes, rest: bytes)
    requires Headed(bs, head, line, body)
    ensures
      var s := bs + rest;
      && s != [] && s[0] == head && s[1..] == line + CRLF + (body + rest)
      && FindCrlf(s[1..]) == |line| && LongLong(s[1..]) == Number(line) && s[1..][|line| + 2..] == body + rest
  {
    hide FindCrlf, LongLong, Number;
    assert (bs + rest)[1..] == line + CRLF + (body + rest);
    NumberLine(line, body + rest);
  }

  lemma IntegerStep(bs: bytes, line: bytes, frames: seq<Frame>, rest: bytes)
    requires Headed(bs, COLON, line, [])
    ensures Step(Parse(bs + rest, None, frames)) == Finish(rest, frames, Integer(Number(line)))
  {
    hide FindCrlf, LongLong, Finish, Number;
    HeadedInput(bs, COLON, line, [], rest);
    assert [] + rest == rest;
  }

  lemma NilStep(bs: bytes, line: bytes, frames: seq<Frame>, rest: bytes)
    requires Headed(bs, DOLLAR, line, []) && Number(line) < 0
    ensures Step(Parse(bs + rest, None, frames)) == Finish(rest, frames, Nil)
  {
    hide FindCrlf, LongLong, Finish, Number;
    HeadedInput(bs, DOLLAR, line, [], rest);
    assert [] + rest == rest;
  }

  lemma StrStep(bs: bytes, line: bytes, body: bytes, str: bytes, frames: seq<Frame>, rest: bytes)
    requires Headed(bs, DOLLAR, line, body) && Number(line) == |str| && Holds(body, str)
    ensures Step(Parse(bs + rest, None, frames)) == Finish(rest, frames, Str(str))
  {
    hide FindCrlf, LongLong, Finish, Number;
    HeadedInput(bs, DOLLAR, line, body, rest);
    var s, n := (bs + rest)[1..], |line|;
    SliceOfDrop(s, n + 2, |str|);
    assert (body + rest)[..|str|] == str;
    DropOfDrop(s, n + 2, |str| + 2);
    assert (body + rest)[|str| + 2..] == rest;
  }

  lemma SliceOfDrop(s: bytes, i: nat, k: nat)
    requires i + k <= |s|
    ensures s[i..i + k] == s[i..][..k]
  {
  }

  lemma DropOfDrop(s: bytes, i: nat, k: nat)
    requires i + k <= |s|
    ensures s[i + k..] == s[i..][k..]
  {
  }

  lemma ArrayStep(bs: bytes, line: bytes, body: bytes, frames: seq<Frame>, rest: bytes)
    requires Headed(bs, STAR, line, body)
    ensures
      var n := Number(line);
      Step(Parse(bs + rest, None, frames)) ==
        if |frames| == MAX_FRAMES then Bad(TooDeep)
        else if n == -1 then Finish(body + rest, frames, Nil)
        else if n <= 0 then Finish(body + rest, frames, Array(n, []))
        else Took(Parse(body + rest, None, frames + [Frame(n, [])]), None)
  {
    hide FindCrlf, LongLong, Finish, Number;
    HeadedInput(bs, STAR, line, body, rest);
  }

  // Trees ------------------------------------------------------------

  /** The run that goes on from `frames` once v has been handed over. */
  ghost function After(frames: seq<Frame>, v: Reply, rest: bytes): Summary
  {
    var (fs, out) := Deliver(frames, v);
    Emit(out, Run(Parse(rest, None, fs)))
  }

  lemma FinishIsAfter(p: Parse, frames: seq<Frame>, v: Reply, rest: bytes)
    requires Step(p) == Finish(rest, frames, v)
    ensures Run(p) == After(frames, v, rest)
  {
    hide Step, Deliver;
  }

  /** Reading any form of a reply anywhere in a tree. */
  lemma {:induction false} ReadsBack(v: Reply, bs: bytes, d: nat, frames: seq<Frame>, rest: bytes)
    requires Wire(v, bs, d) && |frames| + d <= MAX_FRAMES
    ensures Run(Parse(bs + rest, None, frames)) == After(frames, v, rest)
    decreases v, 1
  {
    hide Step, Deliver, Run, After, Number, Headed, WireAll;
    var p := Parse(bs + rest, None, frames);
    match v {
      case Status(s) => LineStep(PLUS, StatusKind, s, frames, rest); FinishIsAfter(p, frames, v, rest);
      case Error(s) => LineStep(MINUS, ErrorKind, s, frames, rest); FinishIsAfter(p, frames, v, rest);
      case Integer(i) =>
        var line :| Headed(bs, COLON, line, []) && Number(line) == i;
        IntegerStep(bs, line, frames, rest);
        FinishIsAfter(p, frames, v, rest);
      case Str(s) =>
        var line, body :| Headed(bs, DOLLAR, line, body) && Number(line) == |s| && Holds(body, s);
        StrStep(bs, line, body, s, frames, rest);
        FinishIsAfter(p, frames, v, rest);
      case Nil =>
        if d == 0 {
          var line :| Headed(bs, DOLLAR, line, []) && Number(line) < 0;
          NilStep(bs, line, frames, rest);
        } else {
          var line :| Headed(bs, STAR, line, []) && Number(line) == -1;
          ArrayStep(bs, line, [], frames, rest);
          assert [] + rest == rest;
        }
        FinishIsAfter(p, frames, v, rest);
      case Array(n, es) =>
        var line, body :| Headed(bs, STAR, line, body) && Number(line) == n && WireAll(es, body, d - 1);
        ArrayStep(bs, line, body, frames, rest);
        if es == [] {
          NothingOnTheWire(body, d - 1);
          assert body + rest == rest;
          FinishIsAfter(p, frames, v, rest);
        } else {
          PushedRun(p, Parse(body + rest, None, frames + [Frame(n, [])]));
          ReadsBackAll(es, body, d - 1, frames, n, [], rest);
          assert [] + es == es;
        }
    }
  }

  lemma NothingOnTheWire(bs: bytes, d: nat)
    requires WireAll([], bs, d)
    ensures bs == [] && d == 0
  {}

  lemma PushedRun(p: Parse, q: Parse)
    requires Step(p) == Took(q, None)
    ensures Run(p) == Run(q)
  {
    hide Step;
  }

  /** What handing v to the innermost open array comes to. */
  lemma AfterOpen(frames: seq<Frame>, n: int, done: seq<Reply>, v: Reply, rest: bytes)
    ensures After(frames + [Frame(n, done)], v, rest) ==
      if |done| + 1 == n then After(frames, Array(n, done + [v]), rest)
      else Run(Parse(rest, None, frames + [Frame(n, done + [v])]))
  {
    hide Run;
    assert (frames + [Frame(n, done)])[..|frames|] == frames;
  }

  /** The form of the first reply, and the forms of the others. */
  lemma WireHead(rs: seq<Reply>, bs: bytes, d: nat) returns (k: nat, a: nat, b: nat)
    requires rs != [] && WireAll(rs, bs, d)
    ensures k <= |bs| && d == Max(a, b) && Wire(rs[0], bs[..k], a) && WireAll(rs[1..], bs[k..], b)
  {
    hide Wire, Max;
    k, a, b :| 0 <= k <= |bs| && d == Max(a, b) && Wire(rs[0], bs[..k], a) && WireAll(rs[1..], bs[k..], b);
  }

  /** Reading the remaining elements of an open array. */
  lemma {:induction false} ReadsBackAll(es: seq<Reply>, bs: bytes, d: nat, frames: seq<Frame>, n: nat, done: seq<Reply>,
      rest: bytes)
    requires es != [] && |done| + |es| == n && WireAll(es, bs, d) && |frames| + 1 + d <= MAX_FRAMES
    ensures Run(Parse(bs + rest, None, frames + [Frame(n, done)])) == After(frames, Array(n, done + es), rest)
    decreases es, 0
  {
    hide Run, Deliver, Wire, WireAll, After;
    var k, a, b := WireHead(es, bs, d);
    var tail := bs[k..] + rest;
    assert bs + rest == bs[..k] + tail;
    ReadsBack(es[0], bs[..k], a, frames + [Frame(n, done)], tail);
    AfterOpen(frames, n, done, es[0], tail);
    if |es| == 1 {
      NothingOnTheWire(bs[k..], b);
      assert tail == rest;
      assert done + [es[0]] == done + es;
    } else {
      ReadsBackAll(es[1..], bs[k..], b, frames, n, done + [es[0]], rest);
      assert done + [es[0]] + es[1..] == done + es;
    }
  }

  /** A form too deep for the nine-entry stack is refused, with no reply. */
  lemma {:induction false} TooDeepIsRefused(v: Reply, bs: bytes, d: nat, frames: seq<Frame>, rest: bytes)
    requires Wire(v, bs, d) && |frames| <= MAX_FRAMES < |frames| + d
    ensures Run(Parse(bs + rest, None, frames)) == Summary([], Some(TooDeep), FRESH)
    decreases v, 1
  {
    hide Step, Deliver, Number, Headed, WireAll, Run;
    if v.Nil? {
      var line :| Headed(bs, STAR, line, []) && Number(line) == -1;
      ArrayStep(bs, line, [], frames, rest);
      RefusedRun(Parse(bs + rest, None, frames));
    } else {
      var n, es := v.elements, v.element;
      var line, body :| Headed(bs, STAR, line, body) && Number(line) == n && WireAll(es, body, d - 1);
      ArrayStep(bs, line, body, frames, rest);
      if |frames| == MAX_FRAMES {
        RefusedRun(Parse(bs + rest, None, frames));
      } else {
        if es == [] { NothingOnTheWire(body, d - 1); }
        PushedRun(Parse(bs + rest, None, frames), Parse(body + rest, None, frames + [Frame(n, [])]));
        TooDeepAllIsRefused(es, body, d - 1, frames, n, [], rest);
      }
    }
  }

  lemma RefusedRun(p: Parse)
    requires Step(p).Bad?
    ensures Run(p) == Summary([], Some(Step(p).fault), FRESH)
  {
    hide Step;
  }

  lemma {:induction false} TooDeepAllIsRefused(es: seq<Reply>, bs: bytes, d: nat, frames: seq<Frame>, n: nat,
      done: seq<Reply>, rest: bytes)
    requires es != [] && |done| + |es| == n && WireAll(es, bs, d) && |frames| < MAX_FRAMES < |frames| + 1 + d
    ensures Run(Parse(bs + rest, None, frames + [Frame(n, done)])) == Summary([], Some(TooDeep), FRESH)
    decreases es, 0
  {
    hide Run, Deliver, Wire, WireAll, After;
    var k, a, b := WireHead(es, bs, d);
    var open, tail := frames + [Frame(n, done)], bs[k..] + rest;
    assert bs + rest == bs[..k] + tail;
    if |frames| + 1 + a > MAX_FRAMES {
      TooDeepIsRefused(es[0], bs[..k], a, open, tail);
    } else {
      ReadsBack(es[0], bs[..k], a, open, tail);
      AfterOpen(frames, n, done, es[0], tail);
      if |es| == 1 { NothingOnTheWire(bs[k..], b); }
      TooDeepAllIsRefused(es[1..], bs[k..], b, frames, n, done + [es[0]], rest);
    }
  }

  /** The round trip, with its exact limit. */
  lemma RoundTrip(v: Reply, bs: bytes, d: nat, rest: bytes)
    requires Wire(v, bs, d)
    ensures var s := Run(Parse(bs + rest, None, []));
      if d <= MAX_FRAMES then s == Emit(Some(v), Run(Parse(rest, None, [])))
      else s == Summary([], Some(TooDeep), FRESH)
  {
    hide Run, Step, Wire;
    if d <= MAX_FRAMES {
      ReadsBack(v, bs, d, [], rest);
    } else {
      TooDeepIsRefused(v, bs, d, [], rest);
    }
  }

  /** A pipelined stream of replies, in any form, is read back as that list, and then the rest is read. */
  lemma {:induction false} StreamRoundTrip(vs: seq<Reply>, bs: bytes, d: nat, rest: bytes)
    requires WireAll(vs, bs, d) && d <= MAX_FRAMES
    ensures
      var s := Run(Parse(rest, None, []));
      Run(Parse(bs + rest, None, [])) == s.(replies := vs + s.replies)
    decreases |vs|
  {
    hide Run, Wire, WireAll;
    var s := Run(Parse(rest, None, []));
    if vs == [] {
      NothingOnTheWire(bs, d);
      assert bs + rest == rest && [] + s.replies == s.replies;
    } else {
      var k, a, b := WireHead(vs, bs, d);
      assert bs + rest == bs[..k] + (bs[k..] + rest);
      RoundTrip(vs[0], bs[..k], a, bs[k..] + rest);
      StreamRoundTrip(vs[1..], bs[k..], b, rest);
      assert [vs[0]] + (vs[1..] + s.replies) == vs + s.replies;
    }
  }

  /** The stream ends with its last reply: nothing is left over. */
  lemma WholeStream(vs: seq<Reply>, bs: bytes, d: nat)
    requires WireAll(vs, bs, d) && d <= MAX_FRAMES
    ensures Run(Parse(bs, None, [])) == Summary(vs, None, FRESH)
  {
    hide Run, WireAll;
    StreamRoundTrip(vs, bs, d, []);
    assert bs + [] == bs && vs + [] == vs;
    RunOnNothing();
  }

  lemma RunOnNothing()
    ensures Run(FRESH) == Summary([], None, FRESH)
  {}

  /** After any replies, an item that starts with a byte that names no type is refused for that byte. */
  lemma OtherBytesAreRefused(vs: seq<Reply>, bs: bytes, d: nat, b: byte, rest: bytes)
    requires WireAll(vs, bs, d) && d <= MAX_FRAMES
    requires b != 43 && b != 45 && b != 58 && b != 36 && b != 42
    ensures Run(Parse(bs + ([b] + rest), None, [])) == Summary(vs, Some(BadType(b)), FRESH)
  {
    hide Run, WireAll;
    StreamRoundTrip(vs, bs, d, [b] + rest);
    assert Step(Parse([b] + rest, None, [])) == Bad(BadType(b));
    RefusedRun(Parse([b] + rest, None, []));
    assert vs + [] == vs;
  }

  /**
    However the replies, in any form, are cut into chunks and whenever they are asked for, they come
    out in order and without error.
    */
  lemma AnyCutsReadBack(vs: seq<Reply>, bs: bytes, d: nat, ops: seq<Op>)
    requires WireAll(vs, bs, d) && d <= MAX_FRAMES && Fed(ops) == bs
    ensures var (s, outs) := Perform(State(FRESH, None), ops);
      && outs <= vs && s.fault.None?
      && (NextReply(s.p).reply.None? ==> outs == vs)
  {
    hide Step, Run, NextReply, Perform, Apply, Fed, WireAll;
    WholeStream(vs, bs, d);
    DrainedReaderSaidAll(ops);
    var whole := Run(Parse(Fed(ops), None, []));
    assert whole.replies == vs && whole.fault == None;
    var (s, outs) := Perform(State(FRESH, None), ops);
    assert s.fault.Some? ==> s.fault == whole.fault;
  }
}
