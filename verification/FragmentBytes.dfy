/**
  The bytes of a sub-command, as command_pre_fragment (hiredis-vip-master/hircluster.c)
  puts them together: announced length, numerals printed by _hi_itoa into one buffer that is
  used again and again, raw copies of keys and values.
  */
module FragmentBytes {
  import opened Bytes
  import opened Commands
  import opened Format
  import opened KeySlot
  import opened Store
  import Decimal

  const MAX_INT: nat := 0x8000_0000

  /** The names in the headers of sub-commands. */
  function Name(t: Cmd): bytes {
    if t == MGET then [109, 103, 101, 116] else if t == DEL then [100, 101, 108] else [109, 115, 101, 116]
  }

  function EntryArgs(t: Cmd, e: Entry): seq<bytes> {
    if t == MSET then [e.key, e.value] else [e.key]
  }

  function Args(t: Cmd, es: seq<Entry>): seq<bytes>
  {
    if es == [] then [] else Args(t, es[..|es| - 1]) + EntryArgs(t, es[|es| - 1])
  }

  /** The sub-command as an argument vector. */
  function SubArgv(t: Cmd, es: seq<Entry>): seq<bytes> {
    [Name(t)] + Args(t, es)
  }

  /** What is copied after the length line of a key: the key, and in an MSET all of its value. */
  function Remainder(t: Cmd, e: Entry): bytes {
    CRLF + if t == MSET then Bulk(e.value) else []
  }

  /** The number last printed with a terminator, before the length of the next key. */
  function LastPrinted(narg: nat, es: seq<Entry>): nat
  {
    if es == [] then narg
    else if es[|es| - 1].key != [] then |es[|es| - 1].key|
    else LastPrinted(narg, es[..|es| - 1])
  }

  /** A length as _hi_itoa leaves it: zero overwrites only the first character of what was there. */
  function Text(n: nat, last: nat): bytes {
    if n == 0 then [48] + Digits(last)[1..] else Digits(n)
  }

  function KeyChunk(t: Cmd, e: Entry, last: nat): bytes {
    [DOLLAR] + Text(|e.key|, last) + CRLF + e.key + Remainder(t, e)
  }

  function KeyChunks(t: Cmd, narg: nat, es: seq<Entry>): bytes
  {
    if es == [] then []
    else KeyChunks(t, narg, es[..|es| - 1]) + KeyChunk(t, es[|es| - 1], LastPrinted(narg, es[..|es| - 1]))
  }

  /** Everything written into the buffer of a sub-command. */
  function Written(t: Cmd, es: seq<Entry>): bytes {
    var narg := |SubArgv(t, es)|;
    Header(narg) + Bulk(Name(t)) + KeyChunks(t, narg, es)
  }

  // Raw entries ------------------------------------------------------

  /** An entry as it is copied: the key, and all the bytes behind it up to the next argument. */
  function Raw(t: Cmd, e: Entry): Entry {
    Entry(e.key, Remainder(t, e))
  }

  function RawAll(t: Cmd, es: seq<Entry>): (rs: seq<Entry>)
    ensures |rs| == |es|
  {
    seq(|es|, i requires 0 <= i < |es| => Raw(t, es[i]))
  }

  function RawChunk(r: Entry, last: nat): bytes {
    [DOLLAR] + Text(|r.key|, last) + CRLF + r.key + r.value
  }

  function RawChunks(narg: nat, rs: seq<Entry>): bytes
  {
    if rs == [] then []
    else RawChunks(narg, rs[..|rs| - 1]) + RawChunk(rs[|rs| - 1], LastPrinted(narg, rs[..|rs| - 1]))
  }

  /** The number of arguments of a sub-command for n keys. */
  function ArgCount(t: Cmd, n: nat): nat {
    if t == MSET then n + n + 1 else n + 1
  }

  /** Everything written into the buffer of a sub-command for raw entries. */
  function RawWritten(t: Cmd, rs: seq<Entry>): bytes {
    var narg := ArgCount(t, |rs|);
    Header(narg) + Bulk(Name(t)) + RawChunks(narg, rs)
  }

  /** What a key adds to clen while it is dealt out. */
  function KeyLength(t: Cmd, r: Entry): nat {
    |r.key| + |Digits(|r.key|)| + if t == MSET then |r.value| else 0
  }

  function KeyLengths(t: Cmd, rs: seq<Entry>): nat
  {
    if rs == [] then 0 else KeyLengths(t, rs[..|rs| - 1]) + KeyLength(t, rs[|rs| - 1])
  }

  /** The length announced, and allocated, for a sub-command. */
  function RawLength(t: Cmd, rs: seq<Entry>): nat {
    var heads := (if t == MSET then 3 else 5) * |rs| + if t == DEL then 12 else 13;
    KeyLengths(t, rs) + heads + |Digits(ArgCount(t, |rs|))|
  }

  lemma RawAllInit(t: Cmd, es: seq<Entry>)
    requires es != []
    ensures RawAll(t, es)[..|es| - 1] == RawAll(t, es[..|es| - 1]) && RawAll(t, es)[|es| - 1] == Raw(t, es[|es| - 1])
  {
    hide Raw;
  }

  lemma {:induction false} RawChunksAre(t: Cmd, narg: nat, es: seq<Entry>)
    ensures LastPrinted(narg, RawAll(t, es)) == LastPrinted(narg, es)
    ensures RawChunks(narg, RawAll(t, es)) == KeyChunks(t, narg, es)
    decreases |es|
  {
    hide Text, Remainder;
    if es != [] {
      RawChunksAre(t, narg, es[..|es| - 1]);
      RawAllInit(t, es);
    }
  }

  /** On formatted arguments the raw sub-command is the one of its argument vector. */
  lemma RawIsWritten(t: Cmd, es: seq<Entry>)
    requires Multi(t)
    ensures RawWritten(t, RawAll(t, es)) == Written(t, es)
    ensures RawLength(t, RawAll(t, es)) == |FormatArgv(SubArgv(t, es))|
    ensures |SubArgv(t, es)| == ArgCount(t, |es|)
  {
    hide Bulk, Header, RawChunks, KeyChunks, FormatArgv, Args, RawAll, KeyLengths, Digits;
    ArgsLength(t, es);
    RawChunksAre(t, ArgCount(t, |es|), es);
    AnnouncedLength(t, es);
  }

  lemma EntryLength(t: Cmd, e: Entry)
    ensures |Bulks(EntryArgs(t, e))| == KeyLength(t, Raw(t, e)) + if t == MSET then 3 else 5
  {
    hide Bulk, Digits;
    BulksOfEntry(t, e);
  }

  lemma {:induction false} LengthsAddUp(t: Cmd, es: seq<Entry>)
    requires Multi(t)
    ensures |Bulks(Args(t, es))| == KeyLengths(t, RawAll(t, es)) + (if t == MSET then 3 else 5) * |es|
    decreases |es|
  {
    hide Bulk, Digits, EntryArgs, KeyLength, Raw;
    if es == [] {
      assert Bulks([]) == [];
    } else {
      var init, e := es[..|es| - 1], es[|es| - 1];
      LengthsAddUp(t, init);
      BulksAppend(Args(t, init), EntryArgs(t, e));
      EntryLength(t, e);
      RawAllInit(t, es);
    }
  }

  /** The announced length is that of the formatted argument vector. */
  lemma AnnouncedLength(t: Cmd, es: seq<Entry>)
    requires Multi(t)
    ensures
      var heads := (if t == MSET then 3 else 5) * |es| + if t == DEL then 12 else 13;
      |FormatArgv(SubArgv(t, es))| == KeyLengths(t, RawAll(t, es)) + heads + |Digits(|SubArgv(t, es)|)|
  {
    hide Bulks, Digits, Args, KeyLengths, RawAll;
    SubArgvBytes(t, es);
    LengthsAddUp(t, es);
    NameLength(t);
  }

  lemma NameLength(t: Cmd)
    requires Multi(t)
    ensures |Bulk(Name(t))| == if t == DEL then 9 else 10
    ensures t == MGET ==> CRLF + Bulk(Name(t)) == [13, 10, 36, 52, 13, 10, 109, 103, 101, 116, 13, 10]
    ensures t == DEL ==> CRLF + Bulk(Name(t)) == [13, 10, 36, 51, 13, 10, 100, 101, 108, 13, 10]
    ensures t == MSET ==> CRLF + Bulk(Name(t)) == [13, 10, 36, 52, 13, 10, 109, 115, 101, 116, 13, 10]
  {
    assert Digits(4) == [52] && Digits(3) == [51];
  }

  /** On any raw entries the buffer is filled exactly when the keys are clean, and overrun otherwise. */
  lemma RawExact(t: Cmd, rs: seq<Entry>)
    requires Multi(t) && (t != MSET ==> forall i | 0 <= i < |rs| :: rs[i].value == CRLF)
    ensures |RawWritten(t, rs)| >= RawLength(t, rs)
    ensures |RawWritten(t, rs)| == RawLength(t, rs) <==> Clean(ArgCount(t, |rs|), rs)
  {
    hide Bulk, RawChunks, KeyLengths, Digits, Clean;
    NameLength(t);
    RawChunksLength(t, ArgCount(t, |rs|), rs);
  }

  lemma {:induction false} RawChunksLength(t: Cmd, narg: nat, rs: seq<Entry>)
    requires narg > 0 && (t != MSET ==> forall i | 0 <= i < |rs| :: rs[i].value == CRLF)
    ensures
      var sum := KeyLengths(t, rs) + (if t == MSET then 3 else 5) * |rs|;
      |RawChunks(narg, rs)| >= sum && (|RawChunks(narg, rs)| == sum <==> Clean(narg, rs))
    decreases |rs|
  {
    hide RawChunk, KeyLength;
    if rs != [] {
      RawChunksLength(t, narg, rs[..|rs| - 1]);
      LastPrintedPositive(narg, rs[..|rs| - 1]);
      RawChunkLength(t, rs[|rs| - 1], LastPrinted(narg, rs[..|rs| - 1]));
    }
  }

  lemma RawChunkLength(t: Cmd, r: Entry, last: nat)
    requires last > 0 && (t != MSET ==> r.value == CRLF)
    ensures
      var sum := KeyLength(t, r) + if t == MSET then 3 else 5;
      |RawChunk(r, last)| >= sum && (|RawChunk(r, last)| == sum <==> (r.key == [] ==> last < 10))
  {
    Decimal.DigitsLength(last);
  }

  // Exactness --------------------------------------------------------

  /** No empty key is met while a number of two or more digits is still in the buffer. */
  predicate Clean(narg: nat, es: seq<Entry>)
  {
    es == [] ||
    (Clean(narg, es[..|es| - 1]) && (es[|es| - 1].key == [] ==> LastPrinted(narg, es[..|es| - 1]) < 10))
  }

  lemma BulksOfEntry(t: Cmd, e: Entry)
    ensures Bulks(EntryArgs(t, e)) == [DOLLAR] + Digits(|e.key|) + CRLF + e.key + Remainder(t, e)
  {
    hide Digits;
    if t == MSET {
      assert EntryArgs(t, e)[1..] == [e.value];
      assert [e.value][1..] == [];
      assert Bulks([e.value]) == Bulk(e.value);
    } else {
      assert EntryArgs(t, e)[1..] == [];
    }
  }

  lemma {:induction false} BulksAppend(a: seq<bytes>, b: seq<bytes>)
    ensures Bulks(a + b) == Bulks(a) + Bulks(b)
    decreases |b|
  {
    hide Bulk;
    if b == [] {
      assert a + b == a;
    } else {
      var init, x := b[..|b| - 1], b[|b| - 1];
      assert a + b == (a + init) + [x];
      assert b == init + [x];
      BulksSnoc(a + init, x);
      BulksSnoc(init, x);
      BulksAppend(a, init);
    }
  }

  lemma ChunkLength(t: Cmd, e: Entry, last: nat)
    requires last > 0
    ensures e.key != [] || last < 10 ==> KeyChunk(t, e, last) == Bulks(EntryArgs(t, e))
    ensures e.key == [] && last >= 10 ==> |KeyChunk(t, e, last)| > |Bulks(EntryArgs(t, e))|
  {
    hide Bulk;
    BulksOfEntry(t, e);
    Decimal.DigitsLength(last);
    if e.key == [] && last < 10 {
      assert Digits(last)[1..] == [];
    }
  }

  lemma {:induction false} LastPrintedPositive(narg: nat, es: seq<Entry>)
    requires narg > 0
    ensures LastPrinted(narg, es) > 0
    decreases |es|
  {
    if es != [] { LastPrintedPositive(narg, es[..|es| - 1]); }
  }

  /** The copied chunks are the arguments exactly when the keys are clean, and too long otherwise. */
  lemma {:induction false} ChunksExact(t: Cmd, narg: nat, es: seq<Entry>)
    requires narg > 0
    ensures Clean(narg, es) ==> KeyChunks(t, narg, es) == Bulks(Args(t, es))
    ensures !Clean(narg, es) ==> |KeyChunks(t, narg, es)| > |Bulks(Args(t, es))|
    ensures |KeyChunks(t, narg, es)| >= |Bulks(Args(t, es))|
    decreases |es|
  {
    hide Bulk, KeyChunk, EntryArgs;
    if es == [] {
      assert Bulks([]) == [];
    } else {
      var init, e := es[..|es| - 1], es[|es| - 1];
      ChunksExact(t, narg, init);
      LastPrintedPositive(narg, init);
      ChunkLength(t, e, LastPrinted(narg, init));
      BulksAppend(Args(t, init), EntryArgs(t, e));
    }
  }

  lemma SubArgvBytes(t: Cmd, es: seq<Entry>)
    ensures FormatArgv(SubArgv(t, es)) == Header(|SubArgv(t, es)|) + Bulk(Name(t)) + Bulks(Args(t, es))
  {
    hide Bulk, Digits;
    var argv := SubArgv(t, es);
    assert argv[0] == Name(t) && argv[1..] == Args(t, es);
  }

  /**
    A sub-command is its own formatted argument vector, and fills its announced length,
    exactly when no empty key follows a number of two or more digits.
    */
  lemma WrittenExact(t: Cmd, es: seq<Entry>)
    ensures Clean(|SubArgv(t, es)|, es) <==> Written(t, es) == FormatArgv(SubArgv(t, es))
    ensures Clean(|SubArgv(t, es)|, es) <==> |Written(t, es)| == |FormatArgv(SubArgv(t, es))|
  {
    hide Bulk, KeyChunks, Bulks, Args, Clean, Header;
    SubArgvBytes(t, es);
    ChunksExact(t, |SubArgv(t, es)|, es);
  }

  /** Non-empty keys are always clean. */
  lemma {:induction false} NonEmptyKeysAreClean(narg: nat, es: seq<Entry>)
    requires forall i | 0 <= i < |es| :: es[i].key != []
    ensures Clean(narg, es)
    decreases |es|
  {
    if es != [] { NonEmptyKeysAreClean(narg, es[..|es| - 1]); }
  }

  /** Nine keys in one slot, the first of them empty, overrun the buffer: the count "10" is still in the numeral. */
  lemma EmptyKeyOverruns(es: seq<Entry>)
    requires |es| == 9 && es[0].key == [] && forall i | 1 <= i < 9 :: es[i].key != []
    ensures |Written(MGET, es)| > |FormatArgv(SubArgv(MGET, es))|
  {
    hide Bulk, KeyChunks, Bulks, Header, FormatArgv;
    ArgsLength(MGET, es);
    SubArgvBytes(MGET, es);
    ChunksExact(MGET, 10, es);
    DirtyStays(10, es, 1);
    assert es[..1][..0] == [];
    assert es[..9] == es;
  }

  /** Such keys: zero to eight zero bytes. */
  function ZeroKeys(n: nat): (es: seq<Entry>)
    ensures |es| == n
  {
    seq(n, i requires 0 <= i < n => Entry(seq(i, _ => 0), []))
  }

  lemma {:induction false} ZeroKeysInSlot(n: nat)
    ensures InSlot(ZeroKeys(n), 0) == ZeroKeys(n)
  {
    hide Slot;
    var es := ZeroKeys(n);
    if n > 0 {
      ZeroKeysInSlot(n - 1);
      assert es[..n - 1] == ZeroKeys(n - 1);
      ZeroSlot(es[n - 1].key);
    }
  }

  /** MGET of the nine keys of zero to eight zero bytes: all of slot 0, and its sub-command overruns. */
  lemma NineKeysOverrun()
    ensures
      var es := InSlot(ZeroKeys(9), 0);
      es == ZeroKeys(9) && |Written(MGET, es)| > |FormatArgv(SubArgv(MGET, es))|
  {
    hide Written, FormatArgv, SubArgv, InSlot;
    ZeroKeysInSlot(9);
    EmptyKeyOverruns(ZeroKeys(9));
  }

  lemma {:induction false} ArgsLength(t: Cmd, es: seq<Entry>)
    ensures |Args(t, es)| == if t == MSET then 2 * |es| else |es|
    decreases |es|
  {
    if es != [] { ArgsLength(t, es[..|es| - 1]); }
  }

  lemma {:induction false} DirtyStays(narg: nat, es: seq<Entry>, i: nat)
    requires i <= |es| && !Clean(narg, es[..i])
    ensures !Clean(narg, es)
    decreases |es|
  {
    if i == |es| {
      assert es[..i] == es;
    } else {
      assert es[..|es| - 1][..i] == es[..i];
      DirtyStays(narg, es[..|es| - 1], i);
    }
  }
}
