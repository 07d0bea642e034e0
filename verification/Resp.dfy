/**
  The reply protocol as a pushdown machine over the unread input
  (hiredis-vip-master/read.c), without buffers, cursors or calls.

  `Step` is one processItem, `Run` is all the items that the input allows.  The
  class in Reader.dfy is proved against these functions; the laws of the protocol
  (chunk independence, round trip) are proved about them here and in RespCodec.dfy.
  */
module Resp {
  import opened Bytes

  datatype Option<+T> = None | Some(value: T)

  /** A reply object; `elements` is the stored count, which a header below -1 leaves negative. */
  datatype Reply =
    | Status(str: bytes)
    | Error(str: bytes)
    | Integer(integer: int)
    | Str(str: bytes)
    | Nil
    | Array(elements: int, element: seq<Reply>)

  datatype Kind = ErrorKind | StatusKind | IntegerKind | StringKind | ArrayKind

  /** Why the reader gave up. */
  datatype Fault = BadType(b: byte) | TooDeep

  /** An array under construction. */
  datatype Frame = Frame(elements: int, done: seq<Reply>)

  /** Unread input, the type byte of the current item if already consumed, and the open arrays. */
  datatype Parse = Parse(input: bytes, kind: Option<Kind>, frames: seq<Frame>)

  datatype Outcome =
    | More(p: Parse)
    | Took(p: Parse, out: Option<Reply>)
    | Bad(fault: Fault)

  const MAX_FRAMES: nat := 8

  /** Items are nested in at most eight arrays, each still short of its count. */
  ghost predicate Wf(frames: seq<Frame>) {
    && |frames| <= MAX_FRAMES
    && forall i | 0 <= i < |frames| :: |frames[i].done| < frames[i].elements
  }

  predicate CrlfAt(s: bytes, i: int) {
    0 <= i < |s| - 1 && s[i] == CR && s[i + 1] == LF
  }

  /** The first CR LF, or -1. */
  function FindCrlf(s: bytes): (r: int)
    ensures r == -1 || CrlfAt(s, r)
    ensures forall i :: CrlfAt(s, i) ==> 0 <= r <= i
  {
    if |s| < 2 then -1
    else if s[0] == CR && s[1] == LF then 0
    else
      var r := FindCrlf(s[1..]);
      assert forall i :: CrlfAt(s, i) ==> CrlfAt(s[1..], i - 1);
      if r == -1 then -1 else assert CrlfAt(s[1..], r); r + 1
  }

  /** Decimal digits up to the first CR, None when something else comes first. */
  function ScanDigits(s: bytes, acc: nat): Option<nat>
  {
    if s == [] then None
    else if s[0] == CR then Some(acc)
    else if IsDigit(s[0]) then ScanDigits(s[1..], 10 * acc + DigitOf(s[0]))
    else None
  }

  /** readLongLong: -1 also stands for malformed input. */
  function LongLong(s: bytes): int
  {
    var negative := s != [] && s[0] == MINUS;
    var body := if s != [] && (s[0] == MINUS || s[0] == PLUS) then s[1..] else s;
    match ScanDigits(body, 0)
    case Some(v) => if negative then -(v as int) else v as int
    case None => -1
  }

  function KindOf(b: byte): Option<Kind>
  {
    if b == MINUS then Some(ErrorKind)
    else if b == PLUS then Some(StatusKind)
    else if b == COLON then Some(IntegerKind)
    else if b == DOLLAR then Some(StringKind)
    else if b == STAR then Some(ArrayKind)
    else None
  }

  /** Hands a finished item to the innermost open array, closing every array it completes. */
  function Deliver(frames: seq<Frame>, v: Reply): (r: (seq<Frame>, Option<Reply>))
    ensures Wf(frames) ==> Wf(r.0) && |r.0| <= |frames|
    ensures r.1.Some? ==> r.0 == []
    decreases |frames|
  {
    if frames == [] then ([], Some(v))
    else
      var top := frames[|frames| - 1];
      var below := frames[..|frames| - 1];
      var done := top.done + [v];
      if |done| == top.elements then Deliver(below, Array(top.elements, done))
      else (below + [top.(done := done)], None)
  }

  /** What every item keeps: progress, an idle machine after a whole reply, and the stack bound. */
  ghost predicate Sound(p: Parse, o: Outcome) {
    && (o.Took? ==> |o.p.input| < |p.input| && o.p.kind.None?)
    && (o.Took? && o.out.Some? ==> o.p.frames == [])
    && (!o.Bad? && Wf(p.frames) ==> Wf(o.p.frames))
  }

  /** A finished item, with `rest` unread. */
  function Finish(rest: bytes, frames: seq<Frame>, v: Reply): (o: Outcome)
    ensures o.Took? && o.p.input == rest && o.p.kind.None?
    ensures o.out.Some? ==> o.p.frames == []
    ensures Wf(frames) ==> Wf(o.p.frames)
  {
    var (fs, out) := Deliver(frames, v);
    Took(Parse(rest, None, fs), out)
  }

  function LineItem(p: Parse, kind: Kind): (o: Outcome)
    ensures Sound(p, o)
  {
    var n := FindCrlf(p.input);
    if n == -1 then More(p)
    else
      var v := if kind.IntegerKind? then Integer(LongLong(p.input))
               else if kind.StatusKind? then Status(p.input[..n])
               else Error(p.input[..n]);
      Finish(p.input[n + 2..], p.frames, v)
  }

  /** A bulk string waits for its whole body; the two bytes after the body are not looked at. */
  function BulkItem(p: Parse): (o: Outcome)
    ensures Sound(p, o)
  {
    var n := FindCrlf(p.input);
    if n == -1 then More(p)
    else
      var len := LongLong(p.input);
      if len < 0 then Finish(p.input[n + 2..], p.frames, Nil)
      else if n + 2 + len + 2 <= |p.input| then
        Finish(p.input[n + 2 + len + 2..], p.frames, Str(p.input[n + 2..n + 2 + len]))
      else More(p)
  }

  /** An array header; the depth is checked before the header line is there. */
  function ArrayItem(p: Parse): (o: Outcome)
    ensures Sound(p, o)
  {
    if |p.frames| == MAX_FRAMES then Bad(TooDeep)
    else
      var n := FindCrlf(p.input);
      if n == -1 then More(p)
      else
        var elements := LongLong(p.input);
        var rest := p.input[n + 2..];
        if elements == -1 then Finish(rest, p.frames, Nil)
        else if elements > 0 then Took(Parse(rest, None, p.frames + [Frame(elements, [])]), None)
        else Finish(rest, p.frames, Array(elements, []))
  }

  function TypedItem(p: Parse, kind: Kind): (o: Outcome)
    ensures Sound(p, o)
  {
    match kind
    case StringKind => BulkItem(p)
    case ArrayKind => ArrayItem(p)
    case _ => LineItem(p, kind)
  }

  /** processItem: the type byte is consumed even when the rest has to wait. */
  function Step(p: Parse): (o: Outcome)
    ensures Sound(p, o)
  {
    match p.kind
    case Some(k) => TypedItem(p, k)
    case None =>
      if p.input == [] then More(p)
      else match KindOf(p.input[0])
        case None => Bad(BadType(p.input[0]))
        case Some(k) => TypedItem(Parse(p.input[1..], Some(k), p.frames), k)
  }

  const FRESH: Parse := Parse([], None, [])

  /** Everything the input yields: the replies in order, the first error, and what is left. */
  datatype Summary = Summary(replies: seq<Reply>, fault: Option<Fault>, rest: Parse)

  function Emit(out: Option<Reply>, s: Summary): Summary
  {
    if out.Some? then s.(replies := [out.value] + s.replies) else s
  }

  function Run(p: Parse): Summary
    decreases |p.input|
  {
    match Step(p)
    case More(q) => Summary([], None, q)
    case Bad(f) => Summary([], Some(f), FRESH)
    case Took(q, out) => Emit(out, Run(q))
  }

  /** The items up to and including the first finished reply: one redisReaderGetReply. */
  datatype Next = Next(reply: Option<Reply>, fault: Option<Fault>, rest: Parse)

  function NextReply(p: Parse): Next
    decreases |p.input|
  {
    match Step(p)
    case More(q) => Next(None, None, q)
    case Bad(f) => Next(None, Some(f), FRESH)
    case Took(q, out) => if out.Some? then Next(out, None, q) else NextReply(q)
  }

  function Add(p: Parse, c: bytes): Parse
  {
    p.(input := p.input + c)
  }

  // ------------------------------------------------------------------
  // Chunk independence
  // ------------------------------------------------------------------

  lemma FindCrlfExtend(s: bytes, c: bytes)
    ensures FindCrlf(s) != -1 ==> FindCrlf(s + c) == FindCrlf(s)
  {
    var r := FindCrlf(s);
    if r != -1 {
      var q := FindCrlf(s + c);
      assert CrlfAt(s + c, r);
      assert CrlfAt(s, q);
    }
  }

  lemma {:induction false} ScanDigitsExtend(s: bytes, c: bytes, acc: nat, n: nat)
    requires n < |s| && s[n] == CR
    ensures ScanDigits(s + c, acc) == ScanDigits(s, acc)
    decreases |s|
  {
    if s[0] != CR && IsDigit(s[0]) {
      assert (s + c)[1..] == s[1..] + c;
      ScanDigitsExtend(s[1..], c, 10 * acc + DigitOf(s[0]), n - 1);
    }
  }

  lemma LongLongExtend(s: bytes, c: bytes)
    requires FindCrlf(s) != -1
    ensures LongLong(s + c) == LongLong(s)
  {
    var n := FindCrlf(s);
    if s[0] == MINUS || s[0] == PLUS {
      assert (s + c)[1..] == s[1..] + c;
      ScanDigitsExtend(s[1..], c, 0, n - 1);
    } else {
      ScanDigitsExtend(s, c, 0, n);
    }
  }

  /** How an item's outcome o on p relates to its outcome x when c has arrived as well. */
  ghost predicate Extends(p: Parse, o: Outcome, x: Outcome, c: bytes) {
    match o
    case Took(q, out) => x == Took(Add(q, c), out)
    case Bad(_) => x == o
    case More(q) => q == p
  }

  lemma DropExtend(s: bytes, c: bytes, i: nat)
    requires i <= |s|
    ensures (s + c)[i..] == s[i..] + c
  {
  }

  lemma SliceExtend(s: bytes, c: bytes, i: nat, j: nat)
    requires i <= j <= |s|
    ensures (s + c)[i..j] == s[i..j]
  {
  }

  lemma LineItemExtend(p: Parse, kind: Kind, c: bytes)
    ensures Extends(p, LineItem(p, kind), LineItem(Add(p, c), kind), c)
  {
    hide Deliver, LongLong, FindCrlf;
    var n := FindCrlf(p.input);
    FindCrlfExtend(p.input, c);
    if n != -1 {
      LongLongExtend(p.input, c);
      DropExtend(p.input, c, n + 2);
      SliceExtend(p.input, c, 0, n);
    }
  }

  lemma BulkItemExtend(p: Parse, c: bytes)
    ensures Extends(p, BulkItem(p), BulkItem(Add(p, c)), c)
  {
    hide Deliver, LongLong, FindCrlf;
    var n := FindCrlf(p.input);
    FindCrlfExtend(p.input, c);
    if n != -1 {
      LongLongExtend(p.input, c);
      DropExtend(p.input, c, n + 2);
      var len := LongLong(p.input);
      if 0 <= len && n + 2 + len + 2 <= |p.input| {
        SliceExtend(p.input, c, n + 2, n + 2 + len);
        DropExtend(p.input, c, n + 2 + len + 2);
      }
    }
  }

  lemma ArrayItemExtend(p: Parse, c: bytes)
    ensures Extends(p, ArrayItem(p), ArrayItem(Add(p, c)), c)
  {
    hide Deliver, LongLong, FindCrlf;
    var n := FindCrlf(p.input);
    FindCrlfExtend(p.input, c);
    if n != -1 {
      LongLongExtend(p.input, c);
      DropExtend(p.input, c, n + 2);
    }
  }

  lemma TypedItemExtend(p: Parse, kind: Kind, c: bytes)
    ensures Extends(p, TypedItem(p, kind), TypedItem(Add(p, c), kind), c)
  {
    hide LineItem, BulkItem, ArrayItem;
    LineItemExtend(p, kind, c);
    BulkItemExtend(p, c);
    ArrayItemExtend(p, c);
  }

  /** More input never changes what an item already decided, and waiting loses nothing. */
  lemma StepExtend(p: Parse, c: bytes)
    ensures Step(p).Took? ==> Step(Add(p, c)) == Took(Add(Step(p).p, c), Step(p).out)
    ensures Step(p).Bad? ==> Step(Add(p, c)) == Step(p)
    ensures Step(p).More? ==> Step(Add(p, c)) == Step(Add(Step(p).p, c))
  {
    hide TypedItem;
    match p.kind
    case Some(k) => TypedItemExtend(p, k, c);
    case None =>
      if p.input != [] && KindOf(p.input[0]).Some? {
        var k := KindOf(p.input[0]).value;
        assert (p.input + c)[1..] == p.input[1..] + c;
        TypedItemExtend(Parse(p.input[1..], Some(k), p.frames), k, c);
      }
  }

  /** The summary of a run followed by the summary of what comes after it. */
  function Then(s: Summary, t: Summary): Summary
  {
    t.(replies := s.replies + t.replies)
  }

  lemma EmitThen(out: Option<Reply>, s: Summary, t: Summary)
    ensures Emit(out, Then(s, t)) == Then(Emit(out, s), t)
  {
    if out.Some? {
      assert [out.value] + (s.replies + t.replies) == ([out.value] + s.replies) + t.replies;
    }
  }

  /** Parsing is a fold over chunks: run what is there, append, run on. */
  lemma {:induction false} RunExtend(p: Parse, c: bytes)
    ensures Run(p).fault.Some? ==> Run(Add(p, c)) == Run(p)
    ensures Run(p).fault.None? ==> Run(Add(p, c)) == Then(Run(p), Run(Add(Run(p).rest, c)))
    decreases |p.input|
  {
    hide Step;
    StepExtend(p, c);
    match Step(p) {
      case Bad(_) =>
      case More(q) =>
        assert Run(Add(p, c)) == Run(Add(q, c));
        assert Run(p) == Summary([], None, q);
      case Took(q, out) =>
        RunExtend(q, c);
        assert Run(Add(p, c)) == Emit(out, Run(Add(q, c)));
        assert Run(p) == Emit(out, Run(q));
        if Run(q).fault.None? {
          EmitThen(out, Run(q), Run(Add(Run(q).rest, c)));
        }
    }
  }

  /** `Run` is NextReply called until it has nothing more to give. */
  lemma {:induction false} RunIsRepeatedNext(p: Parse)
    ensures var n := NextReply(p);
      match n.reply
      case Some(v) => n.fault.None? && Run(p) == Emit(Some(v), Run(n.rest))
      case None => Run(p) == Summary([], n.fault, n.rest)
    decreases |p.input|
  {
    hide Step;
    match Step(p)
    case More(_) =>
    case Bad(_) =>
    case Took(q, out) =>
      if out.None? { RunIsRepeatedNext(q); }
  }

  // ------------------------------------------------------------------
  // Runs of a reader: any mixture of feeding and asking
  // ------------------------------------------------------------------

  datatype Op = Feed(chunk: bytes) | GetReply

  /** The reader as its caller sees it: the parse, and the error that stopped it if any. */
  datatype State = State(p: Parse, fault: Option<Fault>)

  /** redisReaderFeed and redisReaderGetReply; an erroneous reader ignores both. */
  function Apply(s: State, op: Op): (State, seq<Reply>)
  {
    if s.fault.Some? then (s, [])
    else match op
      case Feed(c) => (State(Add(s.p, c), None), [])
      case GetReply =>
        var n := NextReply(s.p);
        (State(n.rest, n.fault), if n.reply.Some? then [n.reply.value] else [])
  }

  function Perform(s: State, ops: seq<Op>): (State, seq<Reply>)
    decreases |ops|
  {
    if ops == [] then (s, [])
    else
      var (s1, out) := Apply(s, ops[0]);
      var (s2, outs) := Perform(s1, ops[1..]);
      (s2, out + outs)
  }

  function Fed(ops: seq<Op>): bytes
  {
    if ops == [] then []
    else (if ops[0].Feed? then ops[0].chunk else []) + Fed(ops[1..])
  }

  /** What the reader will still say, given only the calls to come. */
  ghost function Outlook(s: State, c: bytes): (seq<Reply>, Option<Fault>)
  {
    if s.fault.Some? then ([], s.fault)
    else var r := Run(Add(s.p, c)); (r.replies, r.fault)
  }

  lemma ApplyKeepsOutlook(s: State, op: Op, c: bytes)
    ensures var (s1, out) := Apply(s, op);
      var later := Outlook(s1, c);
      Outlook(s, (if op.Feed? then op.chunk else []) + c) == (out + later.0, later.1)
  {
    hide Step, Run, NextReply;
    var later := Outlook(Apply(s, op).0, c);
    assert [] + later.0 == later.0;
    if s.fault.None? {
      match op
      case Feed(d) =>
        assert Add(s.p, d + c) == Add(Add(s.p, d), c);
      case GetReply =>
        assert Add(s.p, [] + c) == Add(s.p, c);
        NextExtend(s.p, c);
    }
  }

  /** One reply taken before the rest of the input arrives. */
  lemma {:induction false} NextExtend(p: Parse, c: bytes)
    ensures var n := NextReply(p);
      if n.fault.Some? then n.reply.None? && Run(Add(p, c)) == Summary([], n.fault, FRESH)
      else Run(Add(p, c)) == Emit(n.reply, Run(Add(n.rest, c)))
    decreases |p.input|
  {
    hide Step;
    StepExtend(p, c);
    match Step(p)
    case More(_) =>
    case Bad(_) =>
    case Took(q, out) =>
      if out.None? { NextExtend(q, c); }
  }

  /**
    Chunk independence.  Whatever the cuts and whenever replies are asked for, the replies
    handed out so far followed by those still to come are the replies of the whole stream
    parsed at once, and the first error is the same.
    */
  lemma {:induction false} ChunkIndependence(s: State, ops: seq<Op>)
    ensures var (s2, outs) := Perform(s, ops);
      var later := Outlook(s2, []);
      Outlook(s, Fed(ops)) == (outs + later.0, later.1)
    decreases |ops|
  {
    hide Step, Run, NextReply, Apply;
    if ops == [] {
      assert [] + Outlook(s, []).0 == Outlook(s, []).0;
    } else {
      var (s1, out) := Apply(s, ops[0]);
      var (s2, outs) := Perform(s1, ops[1..]);
      ChunkIndependence(s1, ops[1..]);
      ApplyKeepsOutlook(s, ops[0], Fed(ops[1..]));
      assert out + (outs + Outlook(s2, []).0) == (out + outs) + Outlook(s2, []).0;
    }
  }

  /** A drained reader has said exactly what the whole stream says. */
  lemma DrainedReaderSaidAll(ops: seq<Op>)
    ensures var (s2, outs) := Perform(State(FRESH, None), ops);
      var whole := Run(Parse(Fed(ops), None, []));
      && outs <= whole.replies
      && (s2.fault.Some? ==> outs == whole.replies && s2.fault == whole.fault)
      && (s2.fault.None? && NextReply(s2.p).reply.None? ==>
            outs == whole.replies && NextReply(s2.p).fault == whole.fault)
  {
    hide Step, Run, NextReply;
    var s := State(FRESH, None);
    var (s2, outs) := Perform(s, ops);
    ChunkIndependence(s, ops);
    assert Add(FRESH, Fed(ops)) == Parse(Fed(ops), None, []);
    if s2.fault.None? {
      assert Add(s2.p, []) == s2.p;
      RunIsRepeatedNext(s2.p);
    }
  }
}
