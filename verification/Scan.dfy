/**
  The scan behind the keys of an MSET in command_pre_fragment (hiredis-vip-master/hircluster.c):
  over any bytes to the first digit, then over the digits.  It knows no end of the buffer; here
  is when it meets none, on every byte string that the parser lets through.
  */
module Scan {
  import opened Bytes
  import opened Resp
  import opened Commands
  import opened CommandParser
  import opened CommandRoundTrip

  /** The first digit from i on, or the end. */
  function SkipTo(cmd: bytes, i: nat): (q: nat)
    requires i <= |cmd|
    ensures i <= q <= |cmd| && (forall k | i <= k < q :: !IsDigit(cmd[k])) && (q < |cmd| ==> IsDigit(cmd[q]))
    decreases |cmd| - i
  {
    if i == |cmd| || IsDigit(cmd[i]) then i else SkipTo(cmd, i + 1)
  }

  /** The first byte from i on that is no digit, or the end. */
  function SkipOver(cmd: bytes, i: nat): (r: nat)
    requires i <= |cmd|
    ensures i <= r <= |cmd| && (forall k | i <= k < r :: IsDigit(cmd[k])) && (r < |cmd| ==> !IsDigit(cmd[r]))
    decreases |cmd| - i
  {
    if i == |cmd| || !IsDigit(cmd[i]) then i else SkipOver(cmd, i + 1)
  }

  /** What the scan from the end of a key makes of the buffer; None when it runs out of it. */
  function ScanLen(cmd: bytes, end: nat): Option<nat>
    requires end < |cmd|
  {
    var q := SkipTo(cmd, end + 1);
    var r := SkipOver(cmd, q);
    if r == |cmd| then None else Some((FoldU32(cmd[q..r], 0) + 4 + (r - end)) % U32)
  }

  /** The scan stays inside exactly when some digit behind the key has a byte that is none behind it. */
  lemma ScanStays(cmd: bytes, end: nat)
    requires end < |cmd|
    ensures ScanLen(cmd, end).Some? <==> exists q, r :: end < q < r < |cmd| && IsDigit(cmd[q]) && !IsDigit(cmd[r])
  {
    var q := SkipTo(cmd, end + 1);
    var r := SkipOver(cmd, q);
    if r < |cmd| {
      assert end < q < r && IsDigit(cmd[q]) && !IsDigit(cmd[r]);
    }
  }

  /** The loop over the digits of an unsigned 32-bit number. */
  method ReadNumber(cmd: bytes, q: nat) returns (n: nat, p: nat)
    requires q <= |cmd|
    ensures p == SkipOver(cmd, q) && n == FoldU32(cmd[q..p], 0)
  {
    hide FoldU32;
    n, p := 0, q;
    assert FoldU32(cmd[q..q], 0) == 0 by { NoDigits(); assert cmd[q..q] == []; }
    while p < |cmd| && IsDigit(cmd[p])
      invariant q <= p <= |cmd| && SkipOver(cmd, p) == SkipOver(cmd, q)
      invariant AllDigits(cmd[q..p]) && n == FoldU32(cmd[q..p], 0)
    {
      assert cmd[q..p + 1] == cmd[q..p] + [cmd[p]];
      FoldSnoc(cmd[q..p], cmd[p], 0);
      n := (n * 10 + DigitOf(cmd[p])) % U32;
      p := p + 1;
    }
  }

  /** The two loops behind an MSET key. */
  method ScanRemain(cmd: bytes, end: nat) returns (len: Option<nat>)
    requires end < |cmd|
    ensures len == ScanLen(cmd, end)
  {
    hide FoldU32;
    var p := end + 1;
    while p < |cmd| && !IsDigit(cmd[p])
      invariant end < p <= |cmd| && SkipTo(cmd, p) == SkipTo(cmd, end + 1)
    {
      p := p + 1;
    }
    var n, r := ReadNumber(cmd, p);
    if r == |cmd| { return None; }
    len := Some((n + 4 + (r - end)) % U32);
  }

  lemma NoDigits()
    ensures FoldU32([], 0) == 0
  {}

  /** Dealing out and copying a key reads the buffer only. */
  predicate Contained(cmd: bytes, t: Cmd, kp: KeyPos) {
    && kp.start <= kp.end < |cmd|
    && (t == MSET ==> ScanLen(cmd, kp.end).Some? && kp.end + ScanLen(cmd, kp.end).value <= |cmd|)
  }

  // What a value looks like ------------------------------------------

  /** From the end of a key: CR LF, a dollar sign and the digits of n. */
  ghost predicate LenText(s: bytes, n: nat) {
    |s| >= 3 && s[..3] == [CR, LF, DOLLAR] && AllDigits(s[3..]) && FoldU32(s[3..], 0) == n
  }

  ghost predicate LenCr(s: bytes, n: nat) {
    |s| >= 5 && s[|s| - 1] == CR && LenText(s[..|s| - 1], n)
  }

  ghost predicate LenLine(s: bytes, n: nat) {
    |s| >= 6 && s[|s| - 1] == LF && LenCr(s[..|s| - 1], n)
  }

  /** The line, as many bytes as it says, and a CR. */
  ghost predicate ValueCrAt(s: bytes, k: nat) {
    k < |s| && s[|s| - 1] == CR && LenLine(s[..k], |s| - 1 - k)
  }

  ghost predicate ValueCr(s: bytes) {
    exists k: nat :: ValueCrAt(s, k)
  }

  /** A whole value. */
  ghost predicate Valued(cmd: bytes, end: nat, q: nat) {
    end < q <= |cmd| && cmd[q - 1] == LF && ValueCr(cmd[end..q - 1])
  }

  lemma LenLineScan(cmd: bytes, end: nat, k: nat, n: nat)
    requires end + k <= |cmd| && LenLine(cmd[end..end + k], n)
    ensures end < |cmd| && k >= 6 && ScanLen(cmd, end) == Some((n + 4 + (k - 2)) % U32)
  {
    hide FoldU32;
    var s := cmd[end..end + k];
    assert forall i | 0 <= i < k :: s[i] == cmd[end + i];
    var t := s[..k - 1][..k - 2];
    assert t == s[..k - 2] && |t| >= 4 && t[..3] == s[..3];
    assert s[..3] == [CR, LF, DOLLAR];
    assert s[0] == CR && s[1] == LF && s[2] == DOLLAR && s[k - 2] == CR;
    assert t[3..] == s[3..k - 2] == cmd[end + 3..end + k - 2];
    forall j | end + 3 <= j < end + k - 2 ensures IsDigit(cmd[j]) {
      assert cmd[j] == t[3..][j - end - 3];
    }
    SkipToIs(cmd, end + 1, end + 3);
    SkipOverIs(cmd, end + 3, end + k - 2);
  }

  lemma SkipToIs(cmd: bytes, i: nat, q: nat)
    requires i <= q < |cmd| && IsDigit(cmd[q]) && forall k | i <= k < q :: !IsDigit(cmd[k])
    ensures SkipTo(cmd, i) == q
  {}

  lemma SkipOverIs(cmd: bytes, i: nat, r: nat)
    requires i <= r < |cmd| && !IsDigit(cmd[r]) && forall k | i <= k < r :: IsDigit(cmd[k])
    ensures SkipOver(cmd, i) == r
  {}

  /** A whole value is exactly what the scan finds. */
  lemma ValuedScan(cmd: bytes, end: nat, q: nat)
    requires Valued(cmd, end, q) && |cmd| < U32
    ensures end < |cmd| && ScanLen(cmd, end) == Some(q - end)
  {
    hide LenLine, ScanLen;
    var s := cmd[end..q - 1];
    var k: nat :| ValueCrAt(s, k);
    assert s[..k] == cmd[end..end + k];
    LenLineScan(cmd, end, k, |s| - 1 - k);
  }
}
