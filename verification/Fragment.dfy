/**
  command_pre_fragment (hiredis-vip-master/hircluster.c): the keys are dealt out to one
  sub-command per hash slot, then every sub-command's bytes are put together, on any bytes
  that the parser has let through.
  */
module Fragment {
  import opened Bytes
  import opened Resp
  import opened Commands
  import opened CommandParser
  import opened Scan
  import opened Format
  import opened KeySlot
  import opened Store
  import opened FragmentMeaning
  import opened FragmentBytes
  import Decimal

  /** A key position with the length of what follows the key up to the next one. */
  datatype SubKey = SubKey(start: nat, end: nat, remain: nat)

  datatype Sub = Sub(narg: nat, keys: seq<SubKey>, clen: nat, slot: int, cmd: bytes, typ: Cmd)

  /** The bytes at a key position. */
  function KeyOf(cmd: bytes, kp: KeyPos): bytes {
    if kp.start <= kp.end <= |cmd| then cmd[kp.start..kp.end] else []
  }

  /** What is copied for a key: its bytes, and those behind it that the scan has measured, or a CR LF. */
  function RawAt(cmd: bytes, t: Cmd, kp: KeyPos): Entry
    requires Contained(cmd, t, kp)
  {
    Entry(cmd[kp.start..kp.end], if t == MSET then cmd[kp.end..kp.end + ScanLen(cmd, kp.end).value] else CRLF)
  }

  predicate AllContained(cmd: bytes, t: Cmd, keys: seq<KeyPos>) {
    forall i | 0 <= i < |keys| :: Contained(cmd, t, keys[i])
  }

  function RawsOf(cmd: bytes, t: Cmd, keys: seq<KeyPos>): (rs: seq<Entry>)
    requires AllContained(cmd, t, keys)
    ensures |rs| == |keys|
  {
    seq(|keys|, i requires 0 <= i < |keys| => RawAt(cmd, t, keys[i]))
  }

  ghost predicate HoldsSub(cmd: bytes, t: Cmd, k: SubKey, r: Entry) {
    var kp := KeyPos(k.start, k.end);
    Contained(cmd, t, kp) && r == RawAt(cmd, t, kp) && (t == MSET ==> k.remain == |r.value|)
  }

  // The first loop ---------------------------------------------------

  /** The sub-command of slot s once the entries rs have been dealt out to it. */
  ghost predicate Dealt(o: Option<Sub>, cmd: bytes, t: Cmd, rs: seq<Entry>, s: int) {
    if rs == [] then o.None?
    else
      && o.Some?
      && o.value.slot == s && o.value.narg == |rs| == |o.value.keys| && o.value.clen == KeyLengths(t, rs)
      && forall j | 0 <= j < |rs| :: HoldsSub(cmd, t, o.value.keys[j], rs[j])
  }

  /** One turn of the dealing loop; false when the scan, or the copy it prepares, leaves the buffer. */
  method DealKey(cmd: bytes, t: Cmd, o: Option<Sub>, kp: KeyPos, slot: nat, ghost rs: seq<Entry>)
    returns (ok: bool, r: Option<Sub>)
    requires kp.start <= kp.end < |cmd| && Dealt(o, cmd, t, rs, slot)
    ensures ok == Contained(cmd, t, kp)
    ensures ok ==> Dealt(r, cmd, t, rs + [RawAt(cmd, t, kp)], slot)
  {
    hide Digits, ScanLen, Dealt;
    var sub := if o.Some? then o.value else Sub(0, [], 0, -1, [], UNKNOWN);
    var keyLen := kp.end - kp.start;
    var n := Decimal.UintLen(keyLen);
    var remain := 0;
    if t == MSET {
      var len := ScanRemain(cmd, kp.end);
      if len.None? || kp.end + len.value > |cmd| { return false, None; }
      remain := len.value;
    }
    var key := SubKey(kp.start, kp.end, remain);
    DealtNext(o, cmd, t, rs, slot, kp, key, sub);
    sub := sub.(narg := sub.narg + 1, keys := sub.keys + [key], clen := sub.clen + keyLen + n + remain, slot := slot);
    ok, r := true, Some(sub);
  }

  lemma DealtNext(o: Option<Sub>, cmd: bytes, t: Cmd, rs: seq<Entry>, slot: nat, kp: KeyPos, key: SubKey, sub: Sub)
    requires Contained(cmd, t, kp)
    requires key == SubKey(kp.start, kp.end, if t == MSET then ScanLen(cmd, kp.end).value else 0)
    requires Dealt(o, cmd, t, rs, slot) && sub == if o.Some? then o.value else Sub(0, [], 0, -1, [], UNKNOWN)
    ensures
      var e := RawAt(cmd, t, kp);
      Dealt(Some(sub.(narg := sub.narg + 1, keys := sub.keys + [key], slot := slot,
                      clen := sub.clen + |e.key| + |Digits(|e.key|)| + key.remain)), cmd, t, rs + [e], slot)
  {
    hide Digits, ScanLen;
    var e := RawAt(cmd, t, kp);
    assert HoldsSub(cmd, t, key, e);
    hide RawAt, Contained, HoldsSub, KeyLengths;
    KeyLengthsSnoc(t, rs, e);
    HeldRemain(cmd, t, key, e);
    forall j | 0 <= j < |rs| + 1 ensures HoldsSub(cmd, t, (sub.keys + [key])[j], (rs + [e])[j]) {
      if j < |rs| { assert HoldsSub(cmd, t, sub.keys[j], rs[j]); }
    }
  }

  lemma KeyLengthsSnoc(t: Cmd, rs: seq<Entry>, e: Entry)
    ensures KeyLengths(t, rs + [e]) == KeyLengths(t, rs) + KeyLength(t, e) && KeyLengths(t, []) == 0
  {
    hide KeyLength;
    assert (rs + [e])[..|rs|] == rs;
  }

  lemma HeldRemain(cmd: bytes, t: Cmd, k: SubKey, e: Entry)
    requires HoldsSub(cmd, t, k, e)
    ensures t == MSET ==> k.remain == |e.value|
  {}

  /** Entries rs dealt out over all slots. */
  ghost predicate AllDealt(subs: seq<Option<Sub>>, cmd: bytes, t: Cmd, rs: seq<Entry>) {
    |subs| == SLOTS && forall s | 0 <= s < SLOTS :: Dealt(subs[s], cmd, t, InSlot(rs, s), s)
  }

  lemma AllDealtNext(subs: seq<Option<Sub>>, o: Option<Sub>, cmd: bytes, t: Cmd, rs: seq<Entry>, e: Entry)
    requires AllDealt(subs, cmd, t, rs)
    requires Dealt(o, cmd, t, InSlot(rs, Slot(e.key)) + [e], Slot(e.key))
    ensures AllDealt(subs[Slot(e.key) := o], cmd, t, rs + [e])
  {
    hide Slot, Dealt;
    assert (rs + [e])[..|rs|] == rs;
    forall s | 0 <= s < SLOTS ensures Dealt(subs[Slot(e.key) := o][s], cmd, t, InSlot(rs + [e], s), s) {
      assert InSlot(rs + [e], s) == if s == Slot(e.key) then InSlot(rs, s) + [e] else InSlot(rs, s);
    }
  }

  /** The dealing loop: sub_commands[] by slot, and frag_seq[] by key. */
  method DealKeys(cmd: bytes, t: Cmd, keys: seq<KeyPos>)
    returns (ok: bool, subs: array<Option<Sub>>, fragSeq: array<int>, slotNum: int)
    requires forall i | 0 <= i < |keys| :: keys[i].start <= keys[i].end < |cmd|
    ensures ok == AllContained(cmd, t, keys)
    ensures ok ==>
      var rs := RawsOf(cmd, t, keys);
      && AllDealt(subs[..], cmd, t, rs) && fragSeq[..] == FragSeq(rs)
      && slotNum == if rs == [] then -1 else Slot(rs[|rs| - 1].key)
  {
    hide Slot, AllDealt, Dealt, Contained, RawAt, InSlot, KeyOf, RawsOf;
    subs := new Option<Sub>[SLOTS](_ => None);
    fragSeq := new int[|keys|];
    slotNum := -1;
    NothingDealt(subs[..], cmd, t, RawsOf(cmd, t, keys[..0]));
    for i := 0 to |keys|
      invariant AllContained(cmd, t, keys[..i]) && AllDealt(subs[..], cmd, t, RawsOf(cmd, t, keys[..i]))
      invariant subs.Length == SLOTS
      invariant forall j | 0 <= j < i :: fragSeq[j] == Slot(KeyOf(cmd, keys[j]))
      invariant slotNum == if i == 0 then -1 else Slot(KeyOf(cmd, keys[i - 1]))
    {
      var kp := keys[i];
      var slot := KeyHashSlot(cmd[kp.start..kp.end]);
      ghost var rs := RawsOf(cmd, t, keys[..i]);
      OneDealt(subs[..], cmd, t, rs, slot);
      var good, sub := DealKey(cmd, t, subs[slot], kp, slot, InSlot(rs, slot));
      if !good { return false, subs, fragSeq, slotNum; }
      RawsNext(cmd, t, keys, i);
      RawKey(cmd, t, kp);
      AllDealtNext(subs[..], sub, cmd, t, rs, RawAt(cmd, t, kp));
      ghost var before := subs[..];
      subs[slot] := sub;
      assert subs[..] == before[slot := sub];
      fragSeq[i] := slot;
      slotNum := slot;
    }
    assert keys[..|keys|] == keys;
    ok := true;
    RawKeys(cmd, t, keys);
    assert fragSeq[..] == FragSeq(RawsOf(cmd, t, keys));
  }

  lemma RawsNext(cmd: bytes, t: Cmd, keys: seq<KeyPos>, i: nat)
    requires i < |keys| && AllContained(cmd, t, keys[..i]) && Contained(cmd, t, keys[i])
    ensures AllContained(cmd, t, keys[..i + 1])
    ensures RawsOf(cmd, t, keys[..i + 1]) == RawsOf(cmd, t, keys[..i]) + [RawAt(cmd, t, keys[i])]
  {
    hide Contained, RawAt;
    var ks := keys[..i + 1];
    forall j | 0 <= j < |ks| ensures Contained(cmd, t, ks[j]) {
      if j < i { assert keys[..i][j] == ks[j]; }
    }
  }

  lemma RawKey(cmd: bytes, t: Cmd, kp: KeyPos)
    requires Contained(cmd, t, kp)
    ensures kp.start <= kp.end < |cmd| && RawAt(cmd, t, kp).key == cmd[kp.start..kp.end] == KeyOf(cmd, kp)
  {
    hide ScanLen;
  }

  lemma RawKeys(cmd: bytes, t: Cmd, keys: seq<KeyPos>)
    requires AllContained(cmd, t, keys)
    ensures forall i | 0 <= i < |keys| :: RawsOf(cmd, t, keys)[i].key == KeyOf(cmd, keys[i])
  {
    hide Contained, RawAt, KeyOf;
    forall i | 0 <= i < |keys| ensures RawsOf(cmd, t, keys)[i].key == KeyOf(cmd, keys[i]) {
      RawKey(cmd, t, keys[i]);
    }
  }

  lemma NothingDealt(subs: seq<Option<Sub>>, cmd: bytes, t: Cmd, rs: seq<Entry>)
    requires |subs| == SLOTS && rs == [] && forall s | 0 <= s < SLOTS :: subs[s].None?
    ensures AllDealt(subs, cmd, t, rs)
  {
    hide Slot;
  }

  lemma OneDealt(subs: seq<Option<Sub>>, cmd: bytes, t: Cmd, rs: seq<Entry>, s: int)
    requires AllDealt(subs, cmd, t, rs) && 0 <= s < SLOTS
    ensures Dealt(subs[s], cmd, t, InSlot(rs, s), s)
  {
    hide Dealt, InSlot;
  }

  // The second loop --------------------------------------------------

  /** The numeral buffer holds the text x, with its terminator. */
  ghost predicate Shows(s: seq<byte>, x: bytes) {
    |x| < |s| && s[..|x| + 1] == x + [NUL] && forall i | 0 <= i < |x| :: x[i] != NUL
  }

  method Strlen(s: array<byte>, ghost x: bytes) returns (n: nat)
    requires Shows(s[..], x)
    ensures n == |x|
  {
    assert forall k | 0 <= k <= |x| :: s[k] == s[..][..|x| + 1][k];
    n := 0;
    while s[n] != NUL
      invariant 0 <= n <= |x|
      decreases |x| - n
    {
      n := n + 1;
    }
  }

  lemma DigitsFit(n: nat)
    requires n < MAX_INT
    ensures |Digits(n)| <= 10
  {
    hide Digits;
    Decimal.DigitsLengthByFour(n);
    Decimal.DigitsLengthByFour(n / 10000);
    Decimal.DigitsLengthByFour(n / 10000 / 10000);
  }

  /** hi_itoa(num_str, n) and strlen(num_str), with the number printed before. */
  method PrintNumber(numStr: array<byte>, n: nat, ghost last: nat, ghost x: bytes) returns (text: bytes)
    requires numStr.Length == 12 && n < MAX_INT
    requires n == 0 ==> Shows(numStr[..], x) && |x| >= 1 && x[1..] == Digits(last)[1..]
    modifies numStr
    ensures text == Text(n, last) && Shows(numStr[..], text) && |text| >= 1
    ensures text[1..] == Digits(if n == 0 then last else n)[1..]
  {
    hide Digits;
    DigitsFit(n);
    ghost var before := numStr[..];
    Decimal.HiItoa(numStr, n);
    if n == 0 {
      assert before[..|x| + 1] == x + [NUL];
      assert numStr[..] == [48] + before[1..];
      ZeroShows(before, x);
    } else {
      assert numStr[..][..|Digits(n)| + 1] == Digits(n) + [NUL];
    }
    ghost var y := Text(n, last);
    var len := Strlen(numStr, y);
    assert numStr[..][..len + 1][..len] == y;
    text := numStr[..len];
  }

  /** Overwriting the first character of what is shown. */
  lemma ZeroShows(s: seq<byte>, x: bytes)
    requires Shows(s, x) && |x| >= 1
    ensures Shows([48] + s[1..], [48] + x[1..])
  {
    var t := [48] + s[1..];
    assert t[..|x| + 1] == [48] + s[..|x| + 1][1..];
    assert s[..|x| + 1][1..] == x[1..] + [NUL];
  }

  /** One turn of the inner loop: the length line of a key, then the raw bytes. */
  method CopyKey(cmd: bytes, t: Cmd, kp: SubKey, numStr: array<byte>, before: bytes, ghost r: Entry, ghost last: nat,
                 ghost x: bytes)
    returns (out: bytes, ghost y: bytes)
    requires numStr.Length == 12 && |cmd| < MAX_INT && HoldsSub(cmd, t, kp, r)
    requires Shows(numStr[..], x) && |x| >= 1 && x[1..] == Digits(last)[1..]
    modifies numStr
    ensures out == before + RawChunk(r, last)
    ensures Shows(numStr[..], y) && |y| >= 1 && y[1..] == Digits(if r.key == [] then last else |r.key|)[1..]
  {
    hide Digits, HoldsSub, RawChunk, Text, Shows;
    CopiedBytes(cmd, t, kp, r);
    var text := PrintNumber(numStr, kp.end - kp.start, last, x);
    y := text;
    out := before + [DOLLAR];
    out := out + text;
    out := out + CRLF;
    ghost var line := out;
    if t == MSET {
      out := out + cmd[kp.start..kp.end + kp.remain];
    } else {
      out := out + cmd[kp.start..kp.end];
      out := out + CRLF;
      assert out == line + (cmd[kp.start..kp.end] + CRLF);
    }
    ChunkParts(before, r, last, text, out);
  }

  /** What is copied for one key: the key with what remains, or the key and a CR LF. */
  lemma CopiedBytes(cmd: bytes, t: Cmd, k: SubKey, r: Entry)
    requires HoldsSub(cmd, t, k, r) && |cmd| < MAX_INT
    ensures k.start <= k.end <= |cmd| && k.end - k.start == |r.key| < MAX_INT
    ensures t == MSET ==> k.end + k.remain <= |cmd| && cmd[k.start..k.end + k.remain] == r.key + r.value
    ensures t != MSET ==> cmd[k.start..k.end] + CRLF == r.key + r.value
  {
    hide ScanLen;
    if t == MSET {
      assert cmd[k.start..k.end + k.remain] == cmd[k.start..k.end] + cmd[k.end..k.end + k.remain];
    }
  }

  lemma ChunkParts(before: bytes, r: Entry, last: nat, text: bytes, out: bytes)
    requires text == Text(|r.key|, last)
    requires out == before + [DOLLAR] + text + CRLF + (r.key + r.value)
    ensures out == before + RawChunk(r, last)
  {
    hide Text;
  }

  lemma SnocEntries(rs: seq<Entry>, j: nat)
    requires j < |rs|
    ensures rs[..j + 1] == rs[..j] + [rs[j]] && rs[..j + 1][..j] == rs[..j]
  {
  }

  /** The inner loop over the keys of a sub-command. */
  method CopyKeys(cmd: bytes, t: Cmd, keys: seq<SubKey>, numStr: array<byte>, narg: nat, head: bytes,
                  ghost rs: seq<Entry>)
    returns (out: bytes)
    requires numStr.Length == 12 && 0 < narg && |keys| == |rs| && |cmd| < MAX_INT
    requires forall j | 0 <= j < |rs| :: HoldsSub(cmd, t, keys[j], rs[j])
    requires Shows(numStr[..], Digits(narg))
    modifies numStr
    ensures out == head + RawChunks(narg, rs)
  {
    hide Digits, HoldsSub, RawChunk, Shows;
    out := head;
    ghost var x := Digits(narg);
    assert head + [] == head;
    for j := 0 to |keys|
      invariant out == head + RawChunks(narg, rs[..j])
      invariant Shows(numStr[..], x) && |x| >= 1 && x[1..] == Digits(LastPrinted(narg, rs[..j]))[1..]
    {
      SnocEntries(rs, j);
      ghost var last := LastPrinted(narg, rs[..j]);
      out, x := CopyKey(cmd, t, keys[j], numStr, out, rs[j], last, x);
      assert head + RawChunks(narg, rs[..j]) + RawChunk(rs[j], last) ==
        head + (RawChunks(narg, rs[..j]) + RawChunk(rs[j], last));
    }
    assert rs[..|rs|] == rs;
  }

  /** A finished sub-command. */
  ghost predicate RawBuilt(sub: Sub, t: Cmd, rs: seq<Entry>, s: int) {
    && sub.slot == s && sub.typ == t
    && sub.narg == ArgCount(t, |rs|) && sub.clen == RawLength(t, rs) && sub.cmd == RawWritten(t, rs)
  }

  /** One turn of the building loop: the length first, then the bytes. */
  method BuildSub(cmd: bytes, t: Cmd, dealt: Sub, numStr: array<byte>, s: int, ghost rs: seq<Entry>) returns (sub: Sub)
    requires Multi(t) && numStr.Length == 12 && rs != [] && |rs| + |rs| + 1 < MAX_INT && |cmd| < MAX_INT
    requires Dealt(Some(dealt), cmd, t, rs, s)
    modifies numStr
    ensures RawBuilt(sub, t, rs, s)
  {
    hide Digits, HoldsSub, RawChunks, KeyLengths, Bulk;
    sub := dealt;
    NameLength(t);
    if t == MSET {
      sub := sub.(clen := sub.clen + 3 * sub.narg, narg := sub.narg * 2 + 1);
    } else {
      sub := sub.(clen := sub.clen + 5 * sub.narg, narg := sub.narg + 1);
    }
    var text := PrintNumber(numStr, sub.narg, 0, []);
    sub := sub.(clen := sub.clen + (if t == DEL then 12 else 13) + |text|);
    var head := [STAR] + text +
      if t == MGET then [13, 10, 36, 52, 13, 10, 109, 103, 101, 116, 13, 10]
      else if t == DEL then [13, 10, 36, 51, 13, 10, 100, 101, 108, 13, 10]
      else [13, 10, 36, 52, 13, 10, 109, 115, 101, 116, 13, 10];
    assert head == Header(sub.narg) + Bulk(Name(t));
    var out := CopyKeys(cmd, t, sub.keys, numStr, sub.narg, head, rs);
    sub := sub.(cmd := out, typ := t);
  }

  /** The slots below n that have a sub-command, in order. */
  function UsedSlots(es: seq<Entry>, n: nat): seq<int>
  {
    if n == 0 then []
    else UsedSlots(es, n - 1) + if InSlot(es, n - 1) == [] then [] else [n - 1]
  }

  ghost predicate AllRawBuilt(commands: seq<Sub>, t: Cmd, rs: seq<Entry>, n: nat) {
    && |commands| == |UsedSlots(rs, n)|
    && forall j | 0 <= j < |commands| :: RawBuilt(commands[j], t, InSlot(rs, UsedSlots(rs, n)[j]), UsedSlots(rs, n)[j])
  }

  /**
    command_pre_fragment: a single sub-command is dropped again, the command goes out as it is;
    false when it reads past the buffer.
    */
  method PreFragment(cmd: bytes, t: Cmd, keys: seq<KeyPos>)
    returns (ok: bool, commands: seq<Sub>, fragSeq: seq<int>, slotNum: int)
    requires Multi(t) && keys != [] && |keys| + |keys| + 1 < MAX_INT && |cmd| < MAX_INT
    requires forall i | 0 <= i < |keys| :: keys[i].start <= keys[i].end < |cmd|
    ensures ok == AllContained(cmd, t, keys)
    ensures ok ==>
      var rs := RawsOf(cmd, t, keys);
      && slotNum == Slot(rs[|rs| - 1].key)
      && (if |UsedSlots(rs, SLOTS)| == 1 then commands == [] && fragSeq == []
          else AllRawBuilt(commands, t, rs, SLOTS) && fragSeq == FragSeq(rs))
  {
    hide Slot, AllDealt, RawBuilt, InSlot, Dealt, AllContained, RawsOf;
    commands, fragSeq, slotNum := [], [], -1;
    var subs, frag, slot;
    ok, subs, frag, slot := DealKeys(cmd, t, keys);
    if !ok { return; }
    ghost var rs := RawsOf(cmd, t, keys);
    assert subs.Length == SLOTS by { SlotCount(subs[..], cmd, t, rs); }
    ghost var dealt := subs[..];
    var numStr := new byte[12];
    for i := 0 to SLOTS
      invariant subs[..] == dealt && frag[..] == FragSeq(rs)
      invariant AllRawBuilt(commands, t, rs, i)
    {
      OneDealt(dealt, cmd, t, rs, i);
      InSlotShorter(rs, i);
      WhenDealt(dealt[i], cmd, t, InSlot(rs, i), i);
      if subs[i].Some? {
        var sub := BuildSub(cmd, t, subs[i].value, numStr, i, InSlot(rs, i));
        commands := commands + [sub];
      }
    }
    fragSeq := frag[..];
    slotNum := slot;
    if slotNum >= 0 && |commands| == 1 {
      commands := [];
      fragSeq := [];
    }
  }

  lemma SlotCount(subs: seq<Option<Sub>>, cmd: bytes, t: Cmd, rs: seq<Entry>)
    requires AllDealt(subs, cmd, t, rs)
    ensures |subs| == SLOTS
  {
    hide Dealt, InSlot;
  }

  lemma WhenDealt(o: Option<Sub>, cmd: bytes, t: Cmd, rs: seq<Entry>, s: int)
    requires Dealt(o, cmd, t, rs, s)
    ensures o.Some? <==> rs != []
  {
  }

  lemma {:induction false} InSlotShorter(rs: seq<Entry>, s: int)
    ensures |InSlot(rs, s)| <= |rs|
    decreases |rs|
  {
    hide Slot;
    if rs != [] { InSlotShorter(rs[..|rs| - 1], s); }
  }

  // Formatted commands -----------------------------------------------

  /** A finished sub-command for the arguments of a formatted command. */
  ghost predicate Built(sub: Sub, t: Cmd, es: seq<Entry>, s: int) {
    && sub.slot == s && sub.typ == t
    && sub.narg == |SubArgv(t, es)|
    && sub.clen == |FormatArgv(SubArgv(t, es))|
    && sub.cmd == Written(t, es)
  }

  ghost predicate AllBuilt(commands: seq<Sub>, t: Cmd, es: seq<Entry>, n: nat) {
    && |commands| == |UsedSlots(es, n)|
    && forall j | 0 <= j < |commands| :: Built(commands[j], t, InSlot(es, UsedSlots(es, n)[j]), UsedSlots(es, n)[j])
  }

  lemma {:induction false} RawInSlot(t: Cmd, es: seq<Entry>, s: int)
    ensures InSlot(RawAll(t, es), s) == RawAll(t, InSlot(es, s))
    decreases |es|
  {
    hide Slot, Remainder;
    if es != [] {
      RawInSlot(t, es[..|es| - 1], s);
      RawAllInit(t, es);
      if Slot(es[|es| - 1].key) == s { RawAllInit(t, InSlot(es, s)); }
    }
  }

  lemma {:induction false} RawUsedSlots(t: Cmd, es: seq<Entry>, n: nat)
    ensures UsedSlots(RawAll(t, es), n) == UsedSlots(es, n)
    decreases n
  {
    hide InSlot, RawAll;
    if n > 0 {
      RawUsedSlots(t, es, n - 1);
      RawInSlot(t, es, n - 1);
    }
  }

  /** On formatted arguments the raw sub-commands are those of their argument vectors. */
  lemma RawBuiltIsBuilt(commands: seq<Sub>, t: Cmd, es: seq<Entry>, n: nat)
    requires Multi(t) && AllRawBuilt(commands, t, RawAll(t, es), n)
    ensures AllBuilt(commands, t, es, n)
  {
    hide InSlot, RawAll, UsedSlots, Written, RawWritten, RawLength, FormatArgv, SubArgv;
    RawUsedSlots(t, es, n);
    forall j | 0 <= j < |commands| ensures Built(commands[j], t, InSlot(es, UsedSlots(es, n)[j]), UsedSlots(es, n)[j]) {
      var s := UsedSlots(es, n)[j];
      RawInSlot(t, es, s);
      RawIsWritten(t, InSlot(es, s));
    }
  }

  lemma RawFragSeq(t: Cmd, es: seq<Entry>)
    ensures FragSeq(RawAll(t, es)) == FragSeq(es)
  {
    hide Slot;
  }
}
