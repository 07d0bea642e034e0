/**
  redis_parse_cmd against command_pre_fragment: behind which keys of an MSET the parser has
  seen a whole value, on every byte string.
  */
module ScanSafety {
  import opened Bytes
  import opened Commands
  import opened CommandParser
  import opened CommandRoundTrip
  import opened Format
  import opened Scan

  /** A whole value stands behind the key and before p. */
  ghost predicate Done(cmd: bytes, end: nat, p: nat) {
    exists q: nat :: q <= p && Valued(cmd, end, q)
  }

  /** How much of the value behind the last key has been read at p. */
  ghost predicate Reading(cmd: bytes, end: nat, p: nat, m: Fsm) {
    end < p <= |cmd| &&
    var s := cmd[end..p];
    match m.state
    case Len(ph) =>
      if ph.Key? then Done(cmd, end, p)
      else if m.token == -1 then s == CRLF
      else m.token == end + 2 && LenText(s, m.rlen)
    case LenLf(ph) => if ph.Key? then Done(cmd, end, p) else LenCr(s, m.rlen)
    case Body(ph) => if ph.Key? then Done(cmd, end, p) else LenLine(s, m.rlen)
    case Lf(ph) => if ph.Key? then s == [CR] else ValueCr(s)
    case _ => false
  }

  /** The states of an MSET behind its name. */
  predicate KvState(s: Switch) {
    match s
    case Len(ph) => ph.Key? || ph.A1?
    case LenLf(ph) => ph.Key? || ph.A1?
    case Body(ph) => ph.Key? || ph.A1?
    case Lf(ph) => ph.ReqType? || ph.Key? || ph.A1?
    case _ => false
  }

  predicate BeforeName(s: Switch) {
    match s
    case Len(ph) => ph.ReqType?
    case LenLf(ph) => ph.ReqType?
    case Body(ph) => ph.ReqType?
    case Lf(_) => false
    case _ => true
  }

  /** How many arguments have been met, by the state: each counts from the end of its length line on. */
  predicate Counted(m: Fsm) {
    var k := |m.keys|;
    match m.state
    case Start => true
    case Narg => true
    case NargLf => m.narg == m.rnarg
    case Len(ph) =>
      if ph.ReqType? then m.narg == m.rnarg
      else m.typ == MSET ==> m.narg == m.rnarg + k + k + if ph.Key? then 1 else 0
    case LenLf(ph) =>
      if ph.ReqType? then m.narg == m.rnarg + 1
      else m.typ == MSET ==> m.narg == m.rnarg + k + k + if ph.Key? then 2 else 1
    case Body(ph) =>
      if ph.ReqType? then m.narg == m.rnarg + 1
      else m.typ == MSET ==> m.narg == m.rnarg + k + k + if ph.Key? then 2 else 1
    case Lf(ph) =>
      if ph.ReqType? then m.narg == m.rnarg + 1
      else m.typ == MSET ==> m.narg == m.rnarg + k + k + if ph.Key? then 0 else 1
  }

  ghost predicate KvKeys(cmd: bytes, p: nat, m: Fsm) {
    && KvState(m.state)
    && (|m.keys| >= 2 || (|m.keys| == 1 && m.state != Lf(Key)) ==> m.narg % 2 == 1)
    && (m.keys != [] ==> Reading(cmd, m.keys[|m.keys| - 1].end, p, m))
    && forall i | 0 <= i < |m.keys| - 1 :: Done(cmd, m.keys[i].end, p)
  }

  ghost predicate Kv(cmd: bytes, p: nat, m: Fsm) {
    && Safe(cmd, p, m) && Counted(m)
    && (BeforeName(m.state) ==> m.typ == UNKNOWN)
    && (m.typ == MSET ==> KvKeys(cmd, p, m))
  }

  lemma DoneLater(cmd: bytes, end: nat, p: nat, q: nat)
    requires Done(cmd, end, p) && p <= q
    ensures Done(cmd, end, q)
  {
    hide Valued;
    var x: nat :| x <= p && Valued(cmd, end, x);
    assert x <= q && Valued(cmd, end, x);
  }

  // One byte more ----------------------------------------------------

  lemma Extended(cmd: bytes, end: nat, p: nat)
    requires end <= p < |cmd|
    ensures cmd[end..p + 1] == cmd[end..p] + [cmd[p]]
  {}

  lemma LenStarts(n: nat)
    ensures LenText(CRLF + [DOLLAR], 0)
  {
    assert (CRLF + [DOLLAR])[3..] == [];
    NoDigits();
  }

  lemma LenMore(s: bytes, n: nat, b: byte)
    requires LenText(s, n) && IsDigit(b)
    ensures LenText(s + [b], (n * 10 + DigitOf(b)) % U32)
  {
    assert (s + [b])[3..] == s[3..] + [b] && (s + [b])[..3] == s[..3];
    FoldSnoc(s[3..], b, 0);
  }

  lemma LenEnds(s: bytes, n: nat)
    requires LenText(s, n) && |s| > 3
    ensures LenCr(s + [CR], n)
  {
    assert (s + [CR])[..|s|] == s;
  }

  lemma LineEnds(s: bytes, n: nat)
    requires LenCr(s, n)
    ensures LenLine(s + [LF], n)
  {
    assert (s + [LF])[..|s|] == s;
  }

  lemma ValueRead(cmd: bytes, end: nat, p: nat, n: nat)
    requires end <= p && p + n < |cmd| && LenLine(cmd[end..p], n) && cmd[p + n] == CR
    ensures ValueCr(cmd[end..p + n + 1])
  {
    hide LenLine;
    var s, k := cmd[end..p + n + 1], p - end;
    assert s[..k] == cmd[end..p];
    assert ValueCrAt(s, k);
  }

  lemma ValueDone(cmd: bytes, end: nat, p: nat)
    requires end < p < |cmd| && ValueCr(cmd[end..p]) && cmd[p] == LF
    ensures Done(cmd, end, p + 1)
  {
    hide ValueCr;
    assert Valued(cmd, end, p + 1);
  }

  // One turn ---------------------------------------------------------

  lemma LenReads(ph: Phase, cmd: bytes, p: nat, m: Fsm, end: nat)
    requires p < |cmd| && m.state == Len(ph) && KvState(m.state) && Reading(cmd, end, p, m)
    ensures var n := LenTurn(ph, cmd[p], p, m); n.Go? ==> Reading(cmd, end, p + 1, n.m)
  {
    hide LenText, LenCr, Done, FoldU32;
    Extended(cmd, end, p);
    if ph.Key? {
      DoneLater(cmd, end, p, p + 1);
    } else if m.token == -1 {
      LenStarts(0);
    } else if IsDigit(cmd[p]) {
      LenMore(cmd[end..p], m.rlen, cmd[p]);
    } else if p - m.token > 1 {
      LenEnds(cmd[end..p], m.rlen);
    }
  }

  lemma LenLfReads(ph: Phase, cmd: bytes, p: nat, m: Fsm, end: nat)
    requires p < |cmd| && m.state == LenLf(ph) && KvState(m.state) && Reading(cmd, end, p, m) && cmd[p] == LF
    ensures Reading(cmd, end, p + 1, m.(state := Body(ph)))
  {
    hide LenCr, LenLine, Done;
    Extended(cmd, end, p);
    if ph.Key? { DoneLater(cmd, end, p, p + 1); } else { LineEnds(cmd[end..p], m.rlen); }
  }

  lemma LfReads(ph: Phase, cmd: bytes, p: nat, m: Fsm, end: nat)
    requires p < |cmd| && m.state == Lf(ph) && (ph.Key? || ph.A1?) && m.token == -1 && Reading(cmd, end, p, m)
    requires cmd[p] == LF
    ensures Reading(cmd, end, p + 1, m.(state := Len(if ph.Key? then A1 else Key)))
  {
    hide ValueCr, Done;
    Extended(cmd, end, p);
    if ph.A1? { ValueDone(cmd, end, p); }
  }

  ghost predicate KvNext(cmd: bytes, p: nat, m: Fsm) {
    m.typ == MSET && KvKeys(cmd, p, m) && Counted(m)
  }

  lemma KvLen(ph: Phase, cmd: bytes, p: nat, m: Fsm)
    requires Kv(cmd, p, m) && p < |cmd| && m.typ == MSET && m.state == Len(ph)
    ensures var n := LenTurn(ph, cmd[p], p, m); n.Go? ==> n.p == p && KvNext(cmd, p + 1, n.m)
  {
    hide Reading, Done, Safe;
    if m.keys != [] { LenReads(ph, cmd, p, m, m.keys[|m.keys| - 1].end); }
    forall i | 0 <= i < |m.keys| - 1 ensures Done(cmd, m.keys[i].end, p + 1) {
      DoneLater(cmd, m.keys[i].end, p, p + 1);
    }
  }

  lemma KvLenLf(ph: Phase, cmd: bytes, p: nat, m: Fsm)
    requires Kv(cmd, p, m) && p < |cmd| && m.typ == MSET && m.state == LenLf(ph) && cmd[p] == LF
    ensures KvNext(cmd, p + 1, m.(state := Body(ph)))
  {
    hide Reading, Done, Safe;
    if m.keys != [] { LenLfReads(ph, cmd, p, m, m.keys[|m.keys| - 1].end); }
    forall i | 0 <= i < |m.keys| - 1 ensures Done(cmd, m.keys[i].end, p + 1) {
      DoneLater(cmd, m.keys[i].end, p, p + 1);
    }
  }

  lemma KvBodyKey(cmd: bytes, p: nat, m: Fsm)
    requires Kv(cmd, p, m) && p < |cmd| && m.typ == MSET && m.state == Body(Key)
    ensures var n := BodyTurn(Key, cmd, p, m); n.Go? ==> KvNext(cmd, n.p + 1, n.m)
  {
    hide Done, Safe;
    var n := BodyTurn(Key, cmd, p, m);
    if n.Go? {
      assert cmd[n.p..n.p + 1] == [CR];
      forall i | 0 <= i < |m.keys| ensures Done(cmd, m.keys[i].end, n.p + 1) {
        DoneLater(cmd, m.keys[i].end, p, n.p + 1);
      }
    }
  }

  lemma KvBodyValue(cmd: bytes, p: nat, m: Fsm)
    requires Kv(cmd, p, m) && p < |cmd| && m.typ == MSET && m.state == Body(A1)
    ensures var n := BodyTurn(A1, cmd, p, m); n.Go? ==> KvNext(cmd, n.p + 1, n.m)
  {
    hide Done, Safe, LenLine, ValueCr;
    var n := BodyTurn(A1, cmd, p, m);
    if n.Go? {
      if m.keys != [] { ValueRead(cmd, m.keys[|m.keys| - 1].end, p, m.rlen); }
      forall i | 0 <= i < |m.keys| - 1 ensures Done(cmd, m.keys[i].end, n.p + 1) {
        DoneLater(cmd, m.keys[i].end, p, n.p + 1);
      }
    }
  }

  lemma KvLf(ph: Phase, cmd: bytes, p: nat, m: Fsm)
    requires Kv(cmd, p, m) && p < |cmd| && m.typ == MSET && m.state == Lf(ph)
    ensures var n := LfTurn(ph, cmd[p], p, m); n.Go? ==> n.p == p && KvNext(cmd, p + 1, n.m)
  {
    hide Done, Reading, KeysOk;
    if cmd[p] == LF {
      if m.keys != [] { LfReads(ph, cmd, p, m, m.keys[|m.keys| - 1].end); }
      forall i | 0 <= i < |m.keys| - 1 ensures Done(cmd, m.keys[i].end, p + 1) {
        DoneLater(cmd, m.keys[i].end, p, p + 1);
      }
    }
  }

  /** Up to the name. */
  lemma KvName(cmd: bytes, p: nat, m: Fsm)
    requires Kv(cmd, p, m) && p < |cmd| && m.typ == UNKNOWN
    ensures var n := Turn(cmd, p, m);
      n.Go? ==>
        && Counted(n.m) && (BeforeName(n.m.state) ==> n.m.typ == UNKNOWN)
        && (n.m.typ == MSET ==> KvKeys(cmd, n.p + 1, n.m))
  {
    hide TypeOf, CountsKeys, KeysOk;
  }

  /** Other commands have no business here. */
  lemma KvOther(cmd: bytes, p: nat, m: Fsm)
    requires Kv(cmd, p, m) && p < |cmd| && m.typ != UNKNOWN && m.typ != MSET
    ensures var n := Turn(cmd, p, m); n.Go? ==> n.m.typ == m.typ && Counted(n.m) && !BeforeName(n.m.state)
  {
    hide TypeOf, CountsKeys, KeysOk;
  }

  lemma KvTurn(cmd: bytes, p: nat, m: Fsm)
    requires Kv(cmd, p, m) && p < |cmd|
    ensures var n := Turn(cmd, p, m); n.Go? ==> Kv(cmd, n.p + 1, n.m)
  {
    hide Safe, Reading, Done, Counted, LenTurn, BodyTurn, LfTurn;
    TurnSafe(cmd, p, m);
    if m.typ == UNKNOWN {
      KvName(cmd, p, m);
    } else if m.typ != MSET {
      KvOther(cmd, p, m);
    } else {
      KvStates(cmd, p, m);
      match m.state
      case Len(ph) => KvLen(ph, cmd, p, m);
      case LenLf(ph) => if cmd[p] == LF { KvLenLf(ph, cmd, p, m); }
      case Body(ph) => if ph.Key? { KvBodyKey(cmd, p, m); } else { KvBodyValue(cmd, p, m); }
      case Lf(ph) => KvLf(ph, cmd, p, m);
      case _ =>
    }
  }

  lemma KvStates(cmd: bytes, p: nat, m: Fsm)
    requires Kv(cmd, p, m) && m.typ == MSET
    ensures KvState(m.state)
  {
    hide Safe;
  }

  /** At the end of an MSET of several keys behind every key there is a whole value. */
  lemma KvStops(cmd: bytes, p: nat, m: Fsm)
    requires Kv(cmd, p, m) && p < |cmd| && Turn(cmd, p, m).Stop? && m.typ == MSET && |m.keys| >= 2
    ensures Turn(cmd, p, m).m == m && forall i | 0 <= i < |m.keys| :: Done(cmd, m.keys[i].end, p + 1)
  {
    hide Done, KeysOk, ValueCr, TypeOf, CountsKeys, LenCr, LenLine, LenText;
    if m.keys != [] { LfReads(A1, cmd, p, m, m.keys[|m.keys| - 1].end); }
    forall i | 0 <= i < |m.keys| - 1 ensures Done(cmd, m.keys[i].end, p + 1) {
      DoneLater(cmd, m.keys[i].end, p, p + 1);
    }
  }

  lemma OnlyNameSets(cmd: bytes, p: nat, m: Fsm)
    requires Kv(cmd, p, m) && p < |cmd| && Turn(cmd, p, m).Stop?
    ensures Turn(cmd, p, m).m == m
  {
    hide Safe, KvKeys, TypeOf, CountsKeys, Counted;
  }

  /** What the verdict says of the values of an MSET. */
  ghost predicate ValuesSeen(cmd: bytes, v: Verdict) {
    v.m.typ == MSET && |v.m.keys| >= 2 && !v.ending.Rejected? ==>
      forall i | 0 <= i < |v.m.keys| - (if v.ending.Finished? then 0 else 1) :: Done(cmd, v.m.keys[i].end, |cmd|)
  }

  lemma {:induction false} RunSeesValues(cmd: bytes, p: nat, m: Fsm)
    requires Kv(cmd, p, m)
    ensures ValuesSeen(cmd, Run(cmd, p, m))
    decreases |cmd| - p
  {
    hide Turn, Done, Kv;
    KvPlace(cmd, p, m);
    if p == |cmd| {
      if m.typ == MSET { KvCut(cmd, p, m); }
    } else {
      match Turn(cmd, p, m)
      case Go(q, m') =>
        KvTurn(cmd, p, m);
        RunSeesValues(cmd, q + 1, m');
      case Stop(m') =>
        OnlyNameSets(cmd, p, m);
        if m.typ == MSET && |m.keys| >= 2 {
          KvStops(cmd, p, m);
          forall i | 0 <= i < |m.keys| ensures Done(cmd, m.keys[i].end, |cmd|) {
            DoneLater(cmd, m.keys[i].end, p + 1, |cmd|);
          }
        }
      case Fail(m') =>
    }
  }

  lemma KvPlace(cmd: bytes, p: nat, m: Fsm)
    requires Kv(cmd, p, m)
    ensures p <= |cmd|
  {
    hide KvKeys, KeysOk, Counted;
  }

  lemma KvCut(cmd: bytes, p: nat, m: Fsm)
    requires Kv(cmd, p, m) && p == |cmd| && m.typ == MSET
    ensures forall i | 0 <= i < |m.keys| - 1 :: Done(cmd, m.keys[i].end, |cmd|)
  {
    hide Safe, Reading, Done, Counted;
  }

  lemma DoneContained(cmd: bytes, kp: KeyPos)
    requires Done(cmd, kp.end, |cmd|) && |cmd| < U32 && kp.start <= kp.end
    ensures Contained(cmd, MSET, kp)
  {
    hide Valued, ScanLen;
    var q: nat :| q <= |cmd| && Valued(cmd, kp.end, q);
    ValuedScan(cmd, kp.end, q);
    ValuedInside(cmd, kp.end, q);
  }

  lemma ValuedInside(cmd: bytes, end: nat, q: nat)
    requires Valued(cmd, end, q)
    ensures end < q <= |cmd|
  {
    hide ValueCr;
  }

  /**
    Whatever the bytes: when the parser finishes a command of several keys, dealing them out reads
    the buffer only; when the command is cut short, so it is for every key but the last.
    */
  lemma ParsedKeysContained(cmd: bytes)
    requires |cmd| < U32
    ensures
      var v := Run(cmd, 0, INITIAL);
      var k := |v.m.keys|;
      !v.ending.Rejected? && k >= 2 ==>
        forall i | 0 <= i < (if v.m.typ == MSET && v.ending.CutShort? then k - 1 else k) ::
          Contained(cmd, v.m.typ, v.m.keys[i])
  {
    hide Run, Done, Contained;
    var v := Run(cmd, 0, INITIAL);
    RunSafe(cmd, 0, INITIAL);
    RunSeesValues(cmd, 0, INITIAL);
    forall i | 0 <= i < |v.m.keys| ensures
      && (v.m.typ != MSET ==> Contained(cmd, v.m.typ, v.m.keys[i]))
      && (Done(cmd, v.m.keys[i].end, |cmd|) && v.m.typ == MSET ==> Contained(cmd, v.m.typ, v.m.keys[i]))
    {
      if v.m.typ != MSET {
        OthersContained(cmd, v.m.typ, v.m.keys[i]);
      } else if Done(cmd, v.m.keys[i].end, |cmd|) {
        DoneContained(cmd, v.m.keys[i]);
      }
    }
  }

  lemma OthersContained(cmd: bytes, t: Cmd, kp: KeyPos)
    requires t != MSET && kp.start <= kp.end < |cmd|
    ensures Contained(cmd, t, kp)
  {}

  /** An MSET of five arguments, cut off behind its second key. */
  function CutMset(a: bytes, v: bytes, b: bytes): bytes {
    Header(5) + (Bulk(MSET_NAME) + (Bulk(a) + (Bulk(v) + ([DOLLAR] + Digits(|b|) + CRLF + (b + [CR])))))
  }

  const MSET_NAME: bytes := [109, 115, 101, 116]

  lemma CutMsetParts(a: bytes, v: bytes, b: bytes)
    ensures
      var cmd, line := CutMset(a, v, b), [DOLLAR] + Digits(|b|) + CRLF;
      var p1 := |Header(5)|;
      var p2 := p1 + |Bulk(MSET_NAME)|;
      var p3 := p2 + |Bulk(a)|;
      var p4 := p3 + |Bulk(v)|;
      && Has(cmd, 0, Header(5)) && Has(cmd, p1, Bulk(MSET_NAME)) && Has(cmd, p2, Bulk(a)) && Has(cmd, p3, Bulk(v))
      && Has(cmd, p4, line) && |cmd| == p4 + |line| + |b| + 1
  {
    hide Digits, Bulk, Header, Has;
    var h, n, x, y, line := Header(5), Bulk(MSET_NAME), Bulk(a), Bulk(v), [DOLLAR] + Digits(|b|) + CRLF;
    var cmd, s5 := CutMset(a, v, b), b + [CR];
    HasAll(cmd);
    HasParts(cmd, 0, h, n + (x + (y + (line + s5))));
    HasParts(cmd, |h|, n, x + (y + (line + s5)));
    HasParts(cmd, |h| + |n|, x, y + (line + s5));
    HasParts(cmd, |h| + |n| + |x|, y, line + s5);
    HasParts(cmd, |h| + |n| + |x| + |y|, line, s5);
  }

  lemma HasAll(cmd: bytes)
    ensures Has(cmd, 0, cmd)
  {}

  /** The states between the arguments. */
  lemma MsetConsumes(p1: nat, a: bytes, p2: nat, v: bytes, p3: nat)
    ensures
      var k := KeyPos(p2, p2 + |a|);
      && Consume(Between(ReqType, 5, 5, UNKNOWN, []), MSET_NAME, p1) == More(Between(Key, 4, 5, MSET, []))
      && Consume(Between(Key, 4, 5, MSET, []), a, p2) == More(Between(A1, 3, 5, MSET, [k]))
      && Consume(Between(A1, 3, 5, MSET, [k]), v, p3) == More(Between(Key, 2, 5, MSET, [k]))
  {
    hide TypeOf;
    MsetType();
    assert [] + [KeyPos(p2, p2 + |a|)] == [KeyPos(p2, p2 + |a|)];
  }

  /** The arguments up to the second key. */
  lemma CutMsetRuns(a: bytes, v: bytes, b: bytes) returns (k: KeyPos)
    requires |a| < U32 && |v| < U32 && |b| < U32
    ensures
      var cmd := CutMset(a, v, b);
      |cmd| > |b| && Run(cmd, 0, INITIAL) == Run(cmd, |cmd| - 1 - |b|, Fsm(Body(Key), -1, |b|, 1, 5, MSET, [k]))
  {
    hide Run, Digits, Bulk, Header, Has, Consume, CutMset;
    var cmd := CutMset(a, v, b);
    CutMsetParts(a, v, b);
    var p1 := |Header(5)|;
    var p2 := p1 + |Bulk(MSET_NAME)|;
    var p3 := p2 + |Bulk(a)|;
    MsetConsumes(BodyStart(p1, MSET_NAME), a, BodyStart(p2, a), v, BodyStart(p3, v));
    k := KeyPos(BodyStart(p2, a), BodyStart(p2, a) + |a|);
    HeaderLine(cmd, 5);
    ArgumentBlock(cmd, p1, Between(ReqType, 5, 5, UNKNOWN, []), MSET_NAME);
    ArgumentBlock(cmd, p2, Between(Key, 4, 5, MSET, []), a);
    ArgumentBlock(cmd, p3, Between(A1, 3, 5, MSET, [k]), v);
    LengthLine(cmd, p3 + |Bulk(v)|, Entering(Between(Key, 2, 5, MSET, [k])), Key, |b|);
  }

  lemma MsetType()
    ensures TypeOf(MSET_NAME) == MSET
  {}

  /** A command that the parser accepts, with two keys, behind the second of which the scan runs out of the buffer. */
  lemma CutMsetEscapes(a: bytes, v: bytes, b: bytes)
    requires |a| < U32 && |v| < U32 && |b| < U32
    ensures
      var cmd := CutMset(a, v, b);
      var r := Run(cmd, 0, INITIAL);
      r.ending.CutShort? && r.m.typ == MSET && |r.m.keys| == 2 && !Contained(cmd, MSET, r.m.keys[1])
  {
    hide Run, Digits, Bulk, Header;
    var cmd := CutMset(a, v, b);
    var p := |cmd| - 1 - |b|;
    var k := CutMsetRuns(a, v, b);
    RunStep(cmd, p, Fsm(Body(Key), -1, |b|, 1, 5, MSET, [k]));
    RunEnds(cmd, Fsm(Lf(Key), -1, 0, 1, 5, MSET, [k] + [KeyPos(p, p + |b|)]));
    assert SkipTo(cmd, |cmd|) == |cmd|;
  }

  lemma RunEnds(cmd: bytes, m: Fsm)
    ensures Run(cmd, |cmd|, m) == Verdict(CutShort, m)
  {}
}
