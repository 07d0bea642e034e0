/**
  redisFormatCommandArgv (hiredis-vip-master/hiredis.c): the length is computed first, the
  buffer is filled afterwards, and the two must agree to the byte.
  */
module Format {
  import opened Bytes
  import opened Resp
  import opened RespCodec
  import Decimal

  function Bulk(a: bytes): bytes
  {
    [DOLLAR] + Digits(|a|) + CRLF + a + CRLF
  }

  function Bulks(argv: seq<bytes>): bytes
  {
    if argv == [] then [] else Bulk(argv[0]) + Bulks(argv[1..])
  }

  function Header(argc: nat): bytes
  {
    [STAR] + Digits(argc) + CRLF
  }

  /** The request protocol: an array of bulk strings. */
  function FormatArgv(argv: seq<bytes>): bytes
  {
    Header(|argv|) + Bulks(argv)
  }

  lemma {:induction false} BulksSnoc(argv: seq<bytes>, a: bytes)
    ensures Bulks(argv + [a]) == Bulks(argv) + Bulk(a)
    decreases |argv|
  {
    if argv == [] {
      assert (argv + [a])[1..] == [];
    } else {
      assert (argv + [a])[1..] == argv[1..] + [a];
      BulksSnoc(argv[1..], a);
      assert Bulk(argv[0]) + (Bulks(argv[1..]) + Bulk(a)) == (Bulk(argv[0]) + Bulks(argv[1..])) + Bulk(a);
    }
  }

  method BulkLen(len: nat) returns (n: nat)
    ensures forall a: bytes | |a| == len :: |Bulk(a)| == n
  {
    var d := Decimal.CountDigits(len);
    n := 1 + d + 2 + len + 2;
  }

  /** memcpy into the buffer at pos. */
  method Copy(cmd: array<byte>, pos: nat, data: bytes)
    requires pos + |data| <= cmd.Length
    modifies cmd
    ensures cmd[..pos + |data|] == old(cmd[..pos]) + data
  {
    for i := 0 to |data|
      invariant cmd[..pos + i] == old(cmd[..pos]) + data[..i]
    {
      cmd[pos + i] := data[i];
      assert data[..i + 1] == data[..i] + [data[i]];
      assert cmd[..pos + i + 1] == cmd[..pos + i] + [data[i]];
    }
    assert data[..|data|] == data;
  }

  /** sprintf at pos: the text, then a terminator that the next write overwrites. */
  method Sprintf(cmd: array<byte>, pos: nat, text: bytes) returns (n: nat)
    requires pos + |text| < cmd.Length
    modifies cmd
    ensures n == |text| && cmd[..pos + n] == old(cmd[..pos]) + text
  {
    Copy(cmd, pos, text);
    ghost var written := cmd[..pos + |text|];
    cmd[pos + |text|] := NUL;
    assert cmd[..pos + |text|] == written;
    n := |text|;
  }

  /** The first loop: the length, argument by argument. */
  method TotalLength(argv: seq<bytes>) returns (totlen: nat)
    ensures totlen == |FormatArgv(argv)|
  {
    hide Digits, Bulk;
    var d := Decimal.CountDigits(|argv|);
    totlen := 1 + d + 2;
    for j := 0 to |argv|
      invariant totlen == |Header(|argv|)| + |Bulks(argv[..j])|
    {
      var n := BulkLen(|argv[j]|);
      totlen := totlen + n;
      assert argv[..j + 1] == argv[..j] + [argv[j]];
      BulksSnoc(argv[..j], argv[j]);
    }
    assert argv[..|argv|] == argv;
  }

  /** The second loop: the bytes, argument by argument. */
  method Fill(cmd: array<byte>, argv: seq<bytes>, start: nat) returns (pos: nat)
    requires start + |Bulks(argv)| < cmd.Length
    modifies cmd
    ensures pos == start + |Bulks(argv)|
    ensures cmd[..pos] == old(cmd[..start]) + Bulks(argv)
  {
    hide Bulk, Bulks;
    pos := start;
    assert Bulks(argv[..0]) == [] by { NoBulks(); }
    for j := 0 to |argv|
      invariant pos == start + |Bulks(argv[..j])| < cmd.Length
      invariant cmd[..pos] == old(cmd[..start]) + Bulks(argv[..j])
    {
      BulksPrefix(argv, j + 1);
      assert argv[..j + 1] == argv[..j] + [argv[j]];
      BulksSnoc(argv[..j], argv[j]);
      pos := FillBulk(cmd, pos, argv[j]);
    }
    assert argv[..|argv|] == argv;
  }

  lemma NoBulks()
    ensures Bulks([]) == []
  {
  }

  method FormatCommandArgv(argv: seq<bytes>) returns (cmd: array<byte>, totlen: nat)
    ensures cmd.Length == totlen + 1
    ensures cmd[..totlen] == FormatArgv(argv) && cmd[totlen] == NUL
  {
    totlen := TotalLength(argv);
    cmd := new byte[totlen + 1];
    var pos := Sprintf(cmd, 0, Header(|argv|));
    assert cmd[..pos] == Header(|argv|);
    pos := Fill(cmd, argv, pos);
    assert pos == totlen;
    cmd[pos] := NUL;
  }

  /** One turn of the filling loop. */
  method FillBulk(cmd: array<byte>, start: nat, arg: bytes) returns (pos: nat)
    requires start + |Bulk(arg)| < cmd.Length
    modifies cmd
    ensures pos == start + |Bulk(arg)|
    ensures cmd[..pos] == old(cmd[..start]) + Bulk(arg)
  {
    ghost var before := cmd[..start];
    var n := Sprintf(cmd, start, [DOLLAR] + Digits(|arg|) + CRLF);
    pos := start + n;
    Copy(cmd, pos, arg);
    pos := pos + |arg|;
    Copy(cmd, pos, CRLF);
    pos := pos + 2;
    assert cmd[..pos] == before + ([DOLLAR] + Digits(|arg|) + CRLF) + arg + CRLF;
    assert before + ([DOLLAR] + Digits(|arg|) + CRLF) + arg + CRLF == before + Bulk(arg);
  }

  lemma {:induction false} BulksPrefix(argv: seq<bytes>, j: nat)
    requires j <= |argv|
    ensures |Bulks(argv[..j])| <= |Bulks(argv)|
    decreases |argv| - j
  {
    if j == |argv| {
      assert argv[..j] == argv;
    } else {
      assert argv[..j + 1] == argv[..j] + [argv[j]];
      BulksSnoc(argv[..j], argv[j]);
      BulksPrefix(argv, j + 1);
    }
  }

  // The request read back --------------------------------------------

  function Strs(argv: seq<bytes>): seq<Reply>
  {
    if argv == [] then [] else [Str(argv[0])] + Strs(argv[1..])
  }

  lemma {:induction false} StrsAt(argv: seq<bytes>)
    ensures |Strs(argv)| == |argv| && (forall i | 0 <= i < |argv| :: Strs(argv)[i] == Str(argv[i]))
    decreases |argv|
  {
    if argv != [] {
      StrsAt(argv[1..]);
    }
  }

  lemma {:induction false} StrsFacts(argv: seq<bytes>)
    ensures WellformedAll(Strs(argv)) && DepthAll(Strs(argv)) == 0
    ensures EncodeAll(Strs(argv)) == Bulks(argv)
    decreases |argv|
  {
    hide Digits;
    if argv != [] {
      StrsFacts(argv[1..]);
      assert Strs(argv)[1..] == Strs(argv[1..]);
      BulkIsEncode(argv[0]);
    }
  }

  lemma BulkIsEncode(a: bytes)
    ensures Encode(Str(a)) == Bulk(a)
  {
    hide Digits;
  }

  /** A formatted command reads back as the array of its arguments, from exactly its own bytes. */
  lemma FormatReadsBack(argv: seq<bytes>, rest: bytes)
    ensures Run(Parse(FormatArgv(argv) + rest, None, []))
         == Emit(Some(Array(|argv|, Strs(argv))), Run(Parse(rest, None, [])))
  {
    hide Run, Step, Encode, Strs, Wellformed, Depth, FormatArgv, Wire;
    var v := Array(|argv|, Strs(argv));
    EncodedRequest(argv);
    EncodeIsWire(v);
    RoundTrip(v, FormatArgv(argv), Depth(v), rest);
  }

  lemma EncodedRequest(argv: seq<bytes>)
    ensures var v := Array(|argv|, Strs(argv)); Wellformed(v) && Depth(v) <= 1 && Encode(v) == FormatArgv(argv)
  {
    hide Bulks, EncodeAll, Strs, WellformedAll, DepthAll, Digits;
    StrsFacts(argv);
    StrsAt(argv);
  }

  lemma StrsInjective(a: seq<bytes>, b: seq<bytes>)
    requires Strs(a) == Strs(b)
    ensures a == b
  {
    hide Strs;
    StrsAt(a);
    StrsAt(b);
    assert forall i | 0 <= i < |a| :: Str(a[i]) == Strs(a)[i] && Str(b[i]) == Strs(b)[i];
  }

  /** Commands are uniquely decodable, also in the middle of a stream. */
  lemma FormatInjective(a: seq<bytes>, b: seq<bytes>, x: bytes, y: bytes)
    requires FormatArgv(a) + x == FormatArgv(b) + y
    ensures a == b
  {
    hide Run, Step, FormatArgv, Strs;
    FormatReadsBack(a, x);
    FormatReadsBack(b, y);
    var whole := Run(Parse(FormatArgv(a) + x, None, []));
    assert whole.replies[0] == Array(|a|, Strs(a));
    assert whole.replies[0] == Array(|b|, Strs(b));
    StrsInjective(a, b);
  }
}
