/**
  Quoting and splitting of command lines (sdscatrepr and sdssplitargs in
  hiredis-vip-master/sds.c).
  */
module Quote {
  import opened Bytes
  import opened Resp

  const QUOTE: byte := 34
  const APOSTROPHE: byte := 39
  const BACKSLASH: byte := 92
  const SPACE: byte := 32
  const LOWER_X: byte := 120

  /** isprint in the C locale. */
  predicate IsPrint(c: byte) {
    32 <= c <= 126
  }

  /** isspace in the C locale. */
  predicate IsSpace(c: byte) {
    c == 32 || 9 <= c <= 13
  }

  function HexDigit(d: int): (c: byte)
    requires 0 <= d < 16
    ensures IsHex(c) && HexValue(c) == d
  {
    (if d < 10 then 48 + d else 87 + d) as byte
  }

  /** is_hex_digit. */
  predicate IsHex(c: byte) {
    48 <= c <= 57 || 97 <= c <= 102 || 65 <= c <= 70
  }

  /** hex_digit_to_int. */
  function HexValue(c: byte): (d: int)
    ensures 0 <= d < 16
  {
    if 48 <= c <= 57 then c as int - 48
    else if 97 <= c <= 102 then c as int - 87
    else if 65 <= c <= 70 then c as int - 55
    else 0
  }

  /** The letter of a one-letter escape, 0 for none. */
  function Letter(c: byte): byte {
    if c == 10 then 110 else if c == 13 then 114 else if c == 9 then 116
    else if c == 7 then 97 else if c == 8 then 98 else 0
  }

  function Unletter(c: byte): byte {
    if c == 110 then 10 else if c == 114 then 13 else if c == 116 then 9
    else if c == 98 then 8 else if c == 97 then 7 else c
  }

  function Escape(c: byte): bytes {
    if c == BACKSLASH || c == QUOTE then [BACKSLASH, c]
    else if Letter(c) != 0 then [BACKSLASH, Letter(c)]
    else if IsPrint(c) then [c]
    else [BACKSLASH, LOWER_X, HexDigit(c as int / 16), HexDigit(c as int % 16)]
  }

  function Escapes(s: bytes): bytes
  {
    if s == [] then [] else Escapes(s[..|s| - 1]) + Escape(s[|s| - 1])
  }

  function Repr(s: bytes): bytes {
    [QUOTE] + Escapes(s) + [QUOTE]
  }

  /** The switch over one byte. */
  method EscapeByte(c: byte) returns (e: bytes)
    ensures e == Escape(c)
  {
    if c == BACKSLASH || c == QUOTE {
      e := [BACKSLASH, c];
    } else if c == 10 {
      e := [BACKSLASH, 110];
    } else if c == 13 {
      e := [BACKSLASH, 114];
    } else if c == 9 {
      e := [BACKSLASH, 116];
    } else if c == 7 {
      e := [BACKSLASH, 97];
    } else if c == 8 {
      e := [BACKSLASH, 98];
    } else if IsPrint(c) {
      e := [c];
    } else {
      e := [BACKSLASH, LOWER_X, HexDigit(c as int / 16), HexDigit(c as int % 16)];
    }
  }

  /** sdscatrepr. */
  method CatRepr(s: bytes, p: bytes) returns (r: bytes)
    ensures r == s + Repr(p)
  {
    hide Escape;
    r := s + [QUOTE];
    for i := 0 to |p|
      invariant r == s + [QUOTE] + Escapes(p[..i])
    {
      assert p[..i + 1][..i] == p[..i];
      var e := EscapeByte(p[i]);
      r := r + e;
    }
    assert p[..|p|] == p;
    r := r + [QUOTE];
  }

  /** The bytes it takes to print one: itself, a letter behind a backslash, or two hexadecimal digits. */
  function Width(c: byte): nat {
    if c == 34 || c == 92 || c == 7 || c == 8 || c == 9 || c == 10 || c == 13 then 2
    else if 32 <= c <= 126 then 1
    else 4
  }

  function Widths(s: bytes): nat {
    if s == [] then 0 else Widths(s[..|s| - 1]) + Width(s[|s| - 1])
  }

  /** The quoted form is printable, and as long as the bytes in it are wide. */
  lemma {:induction false} QuotedForm(s: bytes)
    ensures |Repr(s)| == Widths(s) + 2
    ensures forall i | 0 <= i < |Repr(s)| :: 32 <= Repr(s)[i] <= 126
  {
    EscapesForm(s);
  }

  lemma {:induction false} EscapesForm(s: bytes)
    ensures |Escapes(s)| == Widths(s)
    ensures forall i | 0 <= i < |Escapes(s)| :: 32 <= Escapes(s)[i] <= 126
    decreases |s|
  {
    hide Escape, Width;
    if s != [] {
      EscapesForm(s[..|s| - 1]);
      EscapeForm(s[|s| - 1]);
    }
  }

  lemma EscapeForm(c: byte)
    ensures |Escape(c)| == Width(c)
    ensures forall i | 0 <= i < |Escape(c)| :: 32 <= Escape(c)[i] <= 126
  {}

  /** The character at p of a line that ends with a zero. */
  function At(line: bytes, p: nat): byte {
    if p < |line| then line[p] else 0
  }

  datatype Mode = Bare | Quoted | Single

  datatype Move = Go(mode: Mode, current: bytes, p: nat) | Token(current: bytes, p: nat) | Unbalanced

  /** One turn of the token loop. */
  function Turn(line: bytes, mode: Mode, current: bytes, p: nat): (m: Move)
    ensures m.Go? ==> p < m.p && p < |line|
    ensures m.Token? ==> m.p == p || (m.p == p + 1 && p < |line|)
    ensures m.Token? && m.p == p ==> mode.Bare? && At(line, p) == 0
  {
    var c, d := At(line, p), At(line, p + 1);
    match mode
    case Quoted =>
      if c == BACKSLASH && d == LOWER_X && IsHex(At(line, p + 2)) && IsHex(At(line, p + 3)) then
        Go(Quoted, current + [(HexValue(At(line, p + 2)) * 16 + HexValue(At(line, p + 3))) as byte], p + 4)
      else if c == BACKSLASH && d != 0 then Go(Quoted, current + [Unletter(d)], p + 2)
      else if c == QUOTE then if d != 0 && !IsSpace(d) then Unbalanced else Token(current, p + 1)
      else if c == 0 then Unbalanced
      else Go(Quoted, current + [c], p + 1)
    case Single =>
      if c == BACKSLASH && d == APOSTROPHE then Go(Single, current + [APOSTROPHE], p + 2)
      else if c == APOSTROPHE then if d != 0 && !IsSpace(d) then Unbalanced else Token(current, p + 1)
      else if c == 0 then Unbalanced
      else Go(Single, current + [c], p + 1)
    case Bare =>
      if c == SPACE || c == 10 || c == 13 || c == 9 then Token(current, p + 1)
      else if c == 0 then Token(current, p)
      else if c == QUOTE then Go(Quoted, current, p + 1)
      else if c == APOSTROPHE then Go(Single, current, p + 1)
      else Go(Bare, current + [c], p + 1)
  }

  /** The rest of a token; never Go. */
  function TokenFrom(line: bytes, mode: Mode, current: bytes, p: nat): (m: Move)
    ensures !m.Go? && (m.Token? ==> p <= m.p)
    decreases |line| - p
  {
    match Turn(line, mode, current, p)
    case Go(mode', current', p') => TokenFrom(line, mode', current', p')
    case t => t
  }

  function SkipBlanks(line: bytes, p: nat): (q: nat)
    ensures p <= q && (At(line, q) == 0 || !IsSpace(At(line, q)))
    decreases |line| - p
  {
    if At(line, p) != 0 && IsSpace(At(line, p)) then SkipBlanks(line, p + 1) else p
  }

  /** The tokens from p on; None when a quote is not closed or not followed by a blank. */
  function Split(line: bytes, p: nat): Option<seq<bytes>>
    decreases |line| - p
  {
    var q := SkipBlanks(line, p);
    if At(line, q) == 0 then Some([])
    else
      match TokenFrom(line, Bare, [], q)
      case Token(current, r) =>
        (match Split(line, r)
         case None => None
         case Some(rest) => Some([current] + rest))
      case _ => None
  }

  /** sdssplitargs. */
  method SplitArgs(line: bytes) returns (argv: Option<seq<bytes>>)
    ensures argv == Split(line, 0)
  {
    hide SkipBlanks, TokenFrom, IsSpace;
    var vector: seq<bytes> := [];
    var p := 0;
    assert forall rest: seq<bytes> :: [] + rest == rest;
    while true
      invariant Split(line, 0) == Prepend(vector, Split(line, p))
      decreases |line| - p
    {
      p := Skip(line, p);
      if At(line, p) == 0 {
        assert vector + [] == vector;
        return Some(vector);
      }
      TokenAdvances(line, p);
      var token, q := GetToken(line, p);
      if token.None? { return None; }
      assert forall rest: seq<bytes> :: vector + ([token.value] + rest) == vector + [token.value] + rest;
      vector, p := vector + [token.value], q;
    }
  }

  lemma TokenAdvances(line: bytes, p: nat)
    requires At(line, p) != 0 && !IsSpace(At(line, p))
    ensures TokenFrom(line, Bare, [], p).Token? ==> p < TokenFrom(line, Bare, [], p).p && p < |line|
  {}

  function Prepend(vector: seq<bytes>, rest: Option<seq<bytes>>): Option<seq<bytes>> {
    match rest case None => None case Some(r) => Some(vector + r)
  }

  method Skip(line: bytes, start: nat) returns (p: nat)
    ensures p == SkipBlanks(line, start)
  {
    p := start;
    while At(line, p) != 0 && IsSpace(At(line, p))
      invariant SkipBlanks(line, start) == SkipBlanks(line, p)
      decreases |line| - p
    {
      p := p + 1;
    }
  }

  /** The token loop; None is the error exit. */
  method GetToken(line: bytes, start: nat) returns (token: Option<bytes>, p: nat)
    ensures TokenFrom(line, Bare, [], start) == if token.None? then Unbalanced else Token(token.value, p)
  {
    hide IsSpace, IsHex, HexValue, Unletter;
    p := start;
    var current, inq, insq := [], false, false;
    while true
      invariant TokenFrom(line, Bare, [], start) ==
        TokenFrom(line, if inq then Quoted else if insq then Single else Bare, current, p)
      decreases |line| - p
    {
      var c, d := At(line, p), At(line, p + 1);
      if inq {
        if c == BACKSLASH && d == LOWER_X && IsHex(At(line, p + 2)) && IsHex(At(line, p + 3)) {
          HexRange(At(line, p + 2), At(line, p + 3));
          current := current + [(HexValue(At(line, p + 2)) * 16 + HexValue(At(line, p + 3))) as byte];
          p := p + 3;
        } else if c == BACKSLASH && d != 0 {
          p := p + 1;
          current := current + [Unletter(d)];
        } else if c == QUOTE {
          if d != 0 && !IsSpace(d) { return None, p; }
          return Some(current), p + 1;
        } else if c == 0 {
          return None, p;
        } else {
          current := current + [c];
        }
      } else if insq {
        if c == BACKSLASH && d == APOSTROPHE {
          p := p + 1;
          current := current + [APOSTROPHE];
        } else if c == APOSTROPHE {
          if d != 0 && !IsSpace(d) { return None, p; }
          return Some(current), p + 1;
        } else if c == 0 {
          return None, p;
        } else {
          current := current + [c];
        }
      } else {
        if c == SPACE || c == 10 || c == 13 || c == 9 {
          return Some(current), p + 1;
        } else if c == 0 {
          return Some(current), p;
        } else if c == QUOTE {
          inq := true;
        } else if c == APOSTROPHE {
          insq := true;
        } else {
          current := current + [c];
        }
      }
      p := p + 1;
    }
  }

  lemma HexRange(a: byte, b: byte)
    ensures 0 <= HexValue(a) * 16 + HexValue(b) < 256
  {}

  predicate Has(line: bytes, p: nat, s: bytes) {
    p + |s| <= |line| && line[p..p + |s|] == s
  }

  lemma HasAt(line: bytes, p: nat, s: bytes, i: nat)
    requires Has(line, p, s) && i < |s|
    ensures At(line, p + i) == s[i]
  {
    assert line[p..p + |s|][i] == line[p + i];
  }

  lemma HasSplit(line: bytes, p: nat, s: bytes, t: bytes)
    requires Has(line, p, s + t)
    ensures Has(line, p, s) && Has(line, p + |s|, t)
  {
    assert line[p..p + |s|] == line[p..p + |s + t|][..|s|];
    assert line[p + |s|..p + |s| + |t|] == line[p..p + |s + t|][|s|..];
  }

  /** The parser undoes the escape of any byte. */
  lemma EscapeTurns(line: bytes, p: nat, c: byte, current: bytes)
    requires Has(line, p, Escape(c))
    ensures Turn(line, Quoted, current, p) == Go(Quoted, current + [c], p + |Escape(c)|)
  {
    var e := Escape(c);
    HasAt(line, p, e, 0);
    if |e| > 1 { HasAt(line, p, e, 1); }
    if |e| > 2 {
      HasAt(line, p, e, 2);
      HasAt(line, p, e, 3);
      HexBack(c);
    }
  }

  lemma HexBack(c: byte)
    ensures HexValue(HexDigit(c as int / 16)) * 16 + HexValue(HexDigit(c as int % 16)) == c as int
  {}

  lemma {:induction false} EscapesTurn(line: bytes, p: nat, s: bytes, current: bytes)
    requires Has(line, p, Escapes(s))
    ensures TokenFrom(line, Quoted, current, p) == TokenFrom(line, Quoted, current + s, p + |Escapes(s)|)
    decreases |s|
  {
    hide Turn, Escape;
    if s == [] {
      assert current + s == current;
    } else {
      var n := |s| - 1;
      var before, c := s[..n], s[n];
      HasSplit(line, p, Escapes(before), Escape(c));
      EscapesTurn(line, p, before, current);
      EscapeTurns(line, p + |Escapes(before)|, c, current + before);
      assert current + before + [c] == current + s;
    }
  }

  lemma Opens(line: bytes, p: nat)
    requires At(line, p) == QUOTE
    ensures TokenFrom(line, Bare, [], p) == TokenFrom(line, Quoted, [], p + 1)
  {}

  lemma Closes(line: bytes, p: nat, current: bytes)
    requires At(line, p) == QUOTE && (At(line, p + 1) == 0 || IsSpace(At(line, p + 1)))
    ensures TokenFrom(line, Quoted, current, p) == Token(current, p + 1)
  {}

  /** A quoted string is one token, wherever it stands before a blank or the end. */
  lemma ReprIsToken(line: bytes, p: nat, s: bytes)
    requires Has(line, p, Repr(s))
    requires At(line, p + |Repr(s)|) == 0 || IsSpace(At(line, p + |Repr(s)|))
    ensures At(line, p) == QUOTE && TokenFrom(line, Bare, [], p) == Token(s, p + |Repr(s)|)
  {
    hide Escapes, TokenFrom, Has, IsSpace, At;
    assert Repr(s) == [QUOTE] + (Escapes(s) + [QUOTE]);
    HasSplit(line, p, [QUOTE], Escapes(s) + [QUOTE]);
    HasSplit(line, p + 1, Escapes(s), [QUOTE]);
    HasAt(line, p, [QUOTE], 0);
    HasAt(line, p + 1 + |Escapes(s)|, [QUOTE], 0);
    Opens(line, p);
    EscapesTurn(line, p + 1, s, []);
    assert [] + s == s;
    Closes(line, p + 1 + |Escapes(s)|, s);
  }

  /** The quoted forms with a space between any two. */
  function Joined(args: seq<bytes>): bytes
  {
    if args == [] then [] else if |args| == 1 then Repr(args[0]) else Repr(args[0]) + [SPACE] + Joined(args[1..])
  }

  lemma SplitHead(line: bytes, p: nat, s: bytes)
    requires Has(line, p, Repr(s))
    requires At(line, p + |Repr(s)|) == 0 || IsSpace(At(line, p + |Repr(s)|))
    ensures Split(line, p) == Prepend([s], Split(line, p + |Repr(s)|))
  {
    hide TokenFrom, Repr;
    ReprIsToken(line, p, s);
    assert SkipBlanks(line, p) == p;
  }

  lemma SplitEnd(line: bytes, p: nat)
    requires p == |line|
    ensures At(line, p) == 0 && Split(line, p) == Some([])
  {
    hide TokenFrom;
  }

  lemma {:induction false} SplitsAt(line: bytes, p: nat, args: seq<bytes>)
    requires Has(line, p, Joined(args)) && p + |Joined(args)| == |line|
    ensures Split(line, p) == Some(args)
    decreases |args|
  {
    hide Split, Repr, Has, At;
    if args == [] {
      SplitEnd(line, p);
    } else if |args| == 1 {
      SplitEnd(line, p + |Repr(args[0])|);
      SplitHead(line, p, args[0]);
      assert [args[0]] + [] == args;
    } else {
      var r, rest := Repr(args[0]), Joined(args[1..]);
      assert Joined(args) == r + ([SPACE] + rest);
      HasSplit(line, p, r, [SPACE] + rest);
      HasSplit(line, p + |r|, [SPACE], rest);
      HasAt(line, p + |r|, [SPACE], 0);
      SplitHead(line, p, args[0]);
      SkipOne(line, p + |r|);
      SplitsAt(line, p + |r| + 1, args[1..]);
      assert [args[0]] + args[1..] == args;
    }
  }

  lemma SkipOne(line: bytes, p: nat)
    requires At(line, p) == SPACE
    ensures Split(line, p) == Split(line, p + 1)
  {
    hide TokenFrom;
    assert SkipBlanks(line, p) == SkipBlanks(line, p + 1);
  }

  /** Any list of byte strings, quoted and joined, splits back into itself. */
  lemma QuoteRoundTrip(args: seq<bytes>)
    ensures Split(Joined(args), 0) == Some(args)
  {
    hide Joined, Split;
    var line := Joined(args);
    assert line[0..|line|] == line;
    SplitsAt(line, 0, args);
  }

  /** Different lists have different lines. */
  lemma QuoteInjective(a: seq<bytes>, b: seq<bytes>)
    requires Joined(a) == Joined(b)
    ensures a == b
  {
    QuoteRoundTrip(a);
    QuoteRoundTrip(b);
  }

  // Every way to write a line ----------------------------------------

  /** A byte that stands for itself outside quotes, and a blank that ends a word there. */
  predicate PlainByte(c: byte) {
    c != 0 && c != 32 && c != 10 && c != 13 && c != 9 && c != 34 && c != 39
  }

  predicate EndsWord(c: byte) {
    c == 32 || c == 10 || c == 13 || c == 9
  }

  predicate AllBlank(s: bytes) {
    forall i | 0 <= i < |s| :: IsSpace(s[i])
  }

  const HEX_LOWER: bytes := [48, 49, 50, 51, 52, 53, 54, 55, 56, 57, 97, 98, 99, 100, 101, 102]
  const HEX_UPPER: bytes := [48, 49, 50, 51, 52, 53, 54, 55, 56, 57, 65, 66, 67, 68, 69, 70]

  /** Two hexadecimal digits, in letters of either case, for the byte c. */
  predicate HexPair(c: byte, a: byte, b: byte) {
    var h, l := c as int / 16, c as int % 16;
    (a == HEX_LOWER[h] || a == HEX_UPPER[h]) && (b == HEX_LOWER[l] || b == HEX_UPPER[l])
  }

  /** A way to write the byte c inside double quotes. */
  predicate DoubleForm(c: byte, e: bytes) {
    || (e == [c] && c != 0 && c != QUOTE && c != BACKSLASH)
    || (e == [BACKSLASH, c] && c != 0 && c != 110 && c != 114 && c != 116 && c != 98 && c != 97 && c != 120)
    || (e == [BACKSLASH, 110] && c == 10) || (e == [BACKSLASH, 114] && c == 13) || (e == [BACKSLASH, 116] && c == 9)
    || (e == [BACKSLASH, 98] && c == 8) || (e == [BACKSLASH, 97] && c == 7)
    || (|e| == 4 && e[0] == BACKSLASH && e[1] == LOWER_X && HexPair(c, e[2], e[3]))
  }

  lemma HexPairValue(c: byte, a: byte, b: byte)
    requires HexPair(c, a, b)
    ensures IsHex(a) && IsHex(b) && HexValue(a) * 16 + HexValue(b) == c as int
  {
    hide HexValue, IsHex;
    HexOne(c as int / 16, a);
    HexOne(c as int % 16, b);
  }

  lemma HexOne(d: int, a: byte)
    requires 0 <= d < 16 && (a == HEX_LOWER[d] || a == HEX_UPPER[d])
    ensures IsHex(a) && HexValue(a) == d
  {}

  lemma FormTurns(line: bytes, p: nat, c: byte, e: bytes, current: bytes)
    requires Has(line, p, e) && DoubleForm(c, e)
    ensures Turn(line, Quoted, current, p) == Go(Quoted, current + [c], p + |e|)
  {
    hide HexValue, IsHex, HexPair;
    HasAt(line, p, e, 0);
    if |e| > 1 { HasAt(line, p, e, 1); }
    if |e| > 2 {
      HasAt(line, p, e, 2);
      HasAt(line, p, e, 3);
      HexPairValue(c, e[2], e[3]);
    }
  }

  function Concat(es: seq<bytes>): bytes
  {
    if es == [] then [] else Concat(es[..|es| - 1]) + es[|es| - 1]
  }

  predicate DoubleForms(s: bytes, es: seq<bytes>) {
    |s| == |es| && forall i | 0 <= i < |s| :: DoubleForm(s[i], es[i])
  }

  lemma {:induction false} FormsTurn(line: bytes, p: nat, s: bytes, es: seq<bytes>, current: bytes)
    requires Has(line, p, Concat(es)) && DoubleForms(s, es)
    ensures TokenFrom(line, Quoted, current, p) == TokenFrom(line, Quoted, current + s, p + |Concat(es)|)
    decreases |s|
  {
    hide Turn, DoubleForm;
    if s == [] {
      assert current + s == current;
    } else {
      var n := |s| - 1;
      HasSplit(line, p, Concat(es[..n]), es[n]);
      FormsTurn(line, p, s[..n], es[..n], current);
      FormTurns(line, p + |Concat(es[..n])|, s[n], es[n], current + s[..n]);
      assert current + s[..n] + [s[n]] == current + s;
    }
  }

  /** Inside single quotes only the apostrophe is written with a backslash. */
  function SingleEscapes(s: bytes): bytes
  {
    if s == [] then []
    else SingleEscapes(s[..|s| - 1]) + SingleEscape(s[|s| - 1])
  }

  predicate NoZero(s: bytes) {
    forall i | 0 <= i < |s| :: s[i] != 0
  }

  function SingleEscape(c: byte): bytes {
    if c == APOSTROPHE then [BACKSLASH, APOSTROPHE] else [c]
  }

  lemma {:induction false} SinglesParts(line: bytes, p: nat, s: bytes)
    requires s != [] && Has(line, p, SingleEscapes(s))
    ensures
      var n, c := |s| - 1, s[|s| - 1];
      var q := p + |SingleEscapes(s[..n])|;
      && Has(line, p, SingleEscapes(s[..n])) && At(line, q) == (if c == APOSTROPHE then BACKSLASH else c)
      && (c == APOSTROPHE ==> At(line, q + 1) == APOSTROPHE)
      && p + |SingleEscapes(s)| == q + if c == APOSTROPHE then 2 else 1
  {
    hide Has, SingleEscapes, At, SingleEscape;
    var n := |s| - 1;
    SinglesSnoc(s);
    HasSplit(line, p, SingleEscapes(s[..n]), SingleEscape(s[n]));
    SingleAt(line, p + |SingleEscapes(s[..n])|, s[n]);
  }

  lemma SingleAt(line: bytes, q: nat, c: byte)
    requires Has(line, q, SingleEscape(c))
    ensures At(line, q) == (if c == APOSTROPHE then BACKSLASH else c)
    ensures c == APOSTROPHE ==> At(line, q + 1) == APOSTROPHE
    ensures |SingleEscape(c)| == if c == APOSTROPHE then 2 else 1
  {
    hide Has, At;
    HasAt(line, q, SingleEscape(c), 0);
    if c == APOSTROPHE { HasAt(line, q, SingleEscape(c), 1); }
  }

  lemma {:induction false} SinglesSnoc(s: bytes)
    requires s != []
    ensures SingleEscapes(s) == SingleEscapes(s[..|s| - 1]) + SingleEscape(s[|s| - 1])
  {
    hide SingleEscape;
  }

  lemma {:induction false} SinglesTurn(line: bytes, p: nat, s: bytes, current: bytes)
    requires Has(line, p, SingleEscapes(s)) && NoZero(s)
    requires s == [] || s[|s| - 1] != BACKSLASH || At(line, p + |SingleEscapes(s)|) != APOSTROPHE
    ensures TokenFrom(line, Single, current, p) == TokenFrom(line, Single, current + s, p + |SingleEscapes(s)|)
    decreases |s|
  {
    hide Has, TokenFrom, At;
    if s == [] {
      assert current + s == current;
    } else {
      hide SingleEscapes;
      var n := |s| - 1;
      SinglesParts(line, p, s);
      SinglesTurn(line, p, s[..n], current);
      SingleTurn(line, p + |SingleEscapes(s[..n])|, s[n], current + s[..n]);
      assert current + s[..n] + [s[n]] == current + s;
    }
  }

  lemma SingleTurn(line: bytes, q: nat, c: byte, current: bytes)
    requires c != 0 && At(line, q) == (if c == APOSTROPHE then BACKSLASH else c)
    requires c == APOSTROPHE ==> At(line, q + 1) == APOSTROPHE
    requires c == BACKSLASH ==> At(line, q + 1) != APOSTROPHE
    ensures TokenFrom(line, Single, current, q)
         == TokenFrom(line, Single, current + [c], q + if c == APOSTROPHE then 2 else 1)
  {
    hide IsSpace, IsHex, HexValue, Unletter;
  }

  lemma {:induction false} PlainTurns(line: bytes, p: nat, s: bytes, current: bytes)
    requires Has(line, p, s) && forall i | 0 <= i < |s| :: PlainByte(s[i])
    ensures TokenFrom(line, Bare, current, p) == TokenFrom(line, Bare, current + s, p + |s|)
    decreases |s|
  {
    if s == [] {
      assert current + s == current;
    } else {
      HasAt(line, p, s, 0);
      assert s == [s[0]] + s[1..];
      HasSplit(line, p, [s[0]], s[1..]);
      PlainTurns(line, p + 1, s[1..], current + [s[0]]);
      assert current + [s[0]] + s[1..] == current + s;
    }
  }

  /** What a word may end with: nothing, single quotes, or double quotes. */
  datatype Tail = NoTail | SingleTail(word: bytes) | DoubleTail(word: bytes, es: seq<bytes>)

  /** A word: plain bytes, then perhaps something in quotes. */
  datatype Form = Form(pre: bytes, tail: Tail)

  function Inner(t: Tail): bytes {
    match t
    case NoTail => []
    case SingleTail(w) => SingleEscapes(w)
    case DoubleTail(_, es) => Concat(es)
  }

  function Mark(t: Tail): bytes {
    match t case NoTail => [] case SingleTail(_) => [APOSTROPHE] case DoubleTail(_, _) => [QUOTE]
  }

  function TextOf(f: Form): bytes {
    f.pre + (Mark(f.tail) + (Inner(f.tail) + Mark(f.tail)))
  }

  function WordOf(f: Form): bytes {
    f.pre + if f.tail.NoTail? then [] else f.tail.word
  }

  predicate GoodTail(t: Tail) {
    match t
    case NoTail => true
    case SingleTail(w) => NoZero(w) && (w == [] || w[|w| - 1] != BACKSLASH)
    case DoubleTail(w, es) => DoubleForms(w, es)
  }

  predicate GoodForm(f: Form) {
    && (forall i | 0 <= i < |f.pre| :: PlainByte(f.pre[i])) && (f.pre != [] ==> !IsSpace(f.pre[0]))
    && (f.pre == [] ==> !f.tail.NoTail?) && GoodTail(f.tail)
  }

  lemma OpensAny(line: bytes, p: nat, single: bool, pre: bytes)
    requires At(line, p) == if single then APOSTROPHE else QUOTE
    ensures TokenFrom(line, Bare, pre, p) == TokenFrom(line, if single then Single else Quoted, pre, p + 1)
  {
    hide IsSpace, IsHex, HexValue, Unletter;
  }

  /** The word up to its closing quote. */
  lemma {:induction false} TailTurns(line: bytes, p: nat, t: Tail, pre: bytes)
    requires !t.NoTail? && GoodTail(t) && Has(line, p, Mark(t) + (Inner(t) + Mark(t)))
    ensures
      var mode, q := if t.SingleTail? then Single else Quoted, p + 1 + |Inner(t)|;
      && At(line, p) == Mark(t)[0] == At(line, q)
      && TokenFrom(line, Bare, pre, p) == TokenFrom(line, mode, pre + t.word, q)
  {
    hide SingleEscapes, Concat, DoubleForm, Has, At, TokenFrom;
    HasSplit(line, p, Mark(t), Inner(t) + Mark(t));
    HasSplit(line, p + 1, Inner(t), Mark(t));
    HasAt(line, p, Mark(t), 0);
    HasAt(line, p + 1 + |Inner(t)|, Mark(t), 0);
    OpensAny(line, p, t.SingleTail?, pre);
    if t.SingleTail? {
      SinglesTurn(line, p + 1, t.word, pre);
    } else {
      FormsTurn(line, p + 1, t.word, t.es, pre);
    }
  }

  /** A word in any form is one token, before a blank or the end. */
  lemma {:induction false} FormIsToken(line: bytes, p: nat, f: Form)
    requires GoodForm(f) && Has(line, p, TextOf(f))
    requires At(line, p + |TextOf(f)|) == 0 || EndsWord(At(line, p + |TextOf(f)|))
    ensures At(line, p) != 0 && !IsSpace(At(line, p))
    ensures
      var q := p + |TextOf(f)|;
      TokenFrom(line, Bare, [], p)
        == Token(WordOf(f), if f.tail.NoTail? && At(line, q) != 0 then q + 1 else q)
  {
    hide Inner, GoodTail, Has, TextOf, TokenFrom, At, PlainByte, EndsWord;
    TextParts(line, p, f);
    PlainTurns(line, p, f.pre, []);
    assert [] + f.pre == f.pre;
    var q := p + |f.pre|;
    if f.pre != [] { HasAt(line, p, f.pre, 0); }
    if f.tail.NoTail? {
      BareEnds(line, q, f.pre);
      assert WordOf(f) == f.pre;
    } else {
      TailTurns(line, q, f.tail, f.pre);
      BlankEnds(line, p + |TextOf(f)|);
      QuoteEnds(line, q + 1 + |Inner(f.tail)|, if f.tail.SingleTail? then Single else Quoted, WordOf(f));
    }
    SolidStart(line, p, f);
  }

  lemma SolidStart(line: bytes, p: nat, f: Form)
    requires GoodForm(f) && (if f.pre != [] then At(line, p) == f.pre[0] else At(line, p) == Mark(f.tail)[0])
    ensures At(line, p) != 0 && !IsSpace(At(line, p))
  {
    hide GoodTail;
  }

  lemma BlankEnds(line: bytes, q: nat)
    requires At(line, q) == 0 || EndsWord(At(line, q))
    ensures At(line, q) == 0 || IsSpace(At(line, q))
  {}

  lemma {:induction false} TextParts(line: bytes, p: nat, f: Form)
    requires Has(line, p, TextOf(f))
    ensures Has(line, p, f.pre)
    ensures f.tail.NoTail? ==> |TextOf(f)| == |f.pre|
    ensures !f.tail.NoTail? ==>
      && |TextOf(f)| == |f.pre| + 2 + |Inner(f.tail)|
      && Has(line, p + |f.pre|, Mark(f.tail) + (Inner(f.tail) + Mark(f.tail)))
  {
    hide Has;
    HasSplit(line, p, f.pre, Mark(f.tail) + (Inner(f.tail) + Mark(f.tail)));
  }

  lemma BareEnds(line: bytes, q: nat, current: bytes)
    requires At(line, q) == 0 || EndsWord(At(line, q))
    ensures TokenFrom(line, Bare, current, q) == Token(current, if At(line, q) != 0 then q + 1 else q)
  {
    hide IsHex, HexValue, Unletter;
  }

  lemma QuoteEnds(line: bytes, q: nat, mode: Mode, current: bytes)
    requires !mode.Bare? && At(line, q) == (if mode.Single? then APOSTROPHE else QUOTE)
    requires At(line, q + 1) == 0 || IsSpace(At(line, q + 1))
    ensures TokenFrom(line, mode, current, q) == Token(current, q + 1)
  {
    hide IsHex, HexValue, Unletter;
  }

  lemma {:induction false} SkipAll(line: bytes, p: nat, b: bytes)
    requires Has(line, p, b) && AllBlank(b)
    ensures Split(line, p) == Split(line, p + |b|)
    decreases |b|
  {
    hide TokenFrom;
    if b != [] {
      HasAt(line, p, b, 0);
      assert b == [b[0]] + b[1..];
      HasSplit(line, p, [b[0]], b[1..]);
      assert SkipBlanks(line, p) == SkipBlanks(line, p + 1);
      SkipAll(line, p + 1, b[1..]);
    }
  }

  lemma SplitForm(line: bytes, p: nat, f: Form)
    requires GoodForm(f) && Has(line, p, TextOf(f))
    requires At(line, p + |TextOf(f)|) == 0 || EndsWord(At(line, p + |TextOf(f)|))
    ensures Split(line, p) == Prepend([WordOf(f)], Split(line, p + |TextOf(f)|))
  {
    hide TokenFrom, TextOf, GoodForm, WordOf;
    FormIsToken(line, p, f);
    assert SkipBlanks(line, p) == p;
    var q := p + |TextOf(f)|;
    if At(line, q) != 0 { SkipBlank(line, q); }
  }

  lemma SkipBlank(line: bytes, p: nat)
    requires IsSpace(At(line, p))
    ensures Split(line, p) == Split(line, p + 1)
  {
    hide TokenFrom;
    assert SkipBlanks(line, p) == SkipBlanks(line, p + 1);
  }

  /** Blanks and a word. */
  datatype Item = Item(blanks: bytes, form: Form)

  function LineOf(items: seq<Item>, trail: bytes): bytes
  {
    if items == [] then trail else items[0].blanks + (TextOf(items[0].form) + LineOf(items[1..], trail))
  }

  function WordsOf(items: seq<Item>): seq<bytes>
  {
    if items == [] then [] else [WordOf(items[0].form)] + WordsOf(items[1..])
  }

  /** What follows a word: nothing, or a blank that ends it. */
  predicate Follows(s: bytes) {
    s == [] || EndsWord(s[0])
  }

  predicate GoodLine(items: seq<Item>, trail: bytes)
  {
    if items == [] then AllBlank(trail)
    else
      && AllBlank(items[0].blanks) && GoodForm(items[0].form)
      && Follows(LineOf(items[1..], trail)) && GoodLine(items[1..], trail)
  }

  lemma {:induction false} LineSplitsAt(line: bytes, p: nat, items: seq<Item>, trail: bytes)
    requires GoodLine(items, trail) && Has(line, p, LineOf(items, trail)) && p + |LineOf(items, trail)| == |line|
    ensures Split(line, p) == Some(WordsOf(items))
    decreases |items|
  {
    hide Split, TextOf, GoodForm, WordOf, Has, At, AllBlank;
    if items == [] {
      SkipAll(line, p, trail);
      SplitEnd(line, p + |trail|);
    } else {
      var b, f, rest := items[0].blanks, items[0].form, LineOf(items[1..], trail);
      var q := p + |b|;
      HasSplit(line, p, b, TextOf(f) + rest);
      HasSplit(line, q, TextOf(f), rest);
      NextByte(line, q + |TextOf(f)|, rest);
      SkipAll(line, p, b);
      SplitForm(line, q, f);
      LineSplitsAt(line, q + |TextOf(f)|, items[1..], trail);
    }
  }

  lemma NextByte(line: bytes, p: nat, rest: bytes)
    requires Has(line, p, rest) && p + |rest| == |line| && Follows(rest)
    ensures At(line, p) == 0 || EndsWord(At(line, p))
  {
    if rest != [] { HasAt(line, p, rest, 0); }
  }

  /**
    A line of words splits into those words, each plain, in single quotes, in double quotes with any
    of the escapes, or plain up to an opening quote, with any blanks around them.
    */
  lemma LineSplits(items: seq<Item>, trail: bytes)
    requires GoodLine(items, trail)
    ensures Split(LineOf(items, trail), 0) == Some(WordsOf(items))
  {
    hide Split, LineOf, GoodLine, WordsOf;
    var line := LineOf(items, trail);
    assert line[0..|line|] == line;
    LineSplitsAt(line, 0, items, trail);
  }

  /** A quote that is not closed: the line has no words at all. */
  lemma {:induction false} UnclosedTail(line: bytes, p: nat, t: Tail, pre: bytes)
    requires !t.NoTail? && GoodTail(t) && Has(line, p, Mark(t) + Inner(t)) && p + 1 + |Inner(t)| == |line|
    ensures TokenFrom(line, Bare, pre, p) == Unbalanced
  {
    hide SingleEscapes, Concat, DoubleForm, Has, TokenFrom;
    HasSplit(line, p, Mark(t), Inner(t));
    HasAt(line, p, Mark(t), 0);
    OpensAny(line, p, t.SingleTail?, pre);
    if t.SingleTail? {
      SinglesTurn(line, p + 1, t.word, pre);
    } else {
      FormsTurn(line, p + 1, t.word, t.es, pre);
    }
    NeverCloses(line, |line|, t.SingleTail?, pre + t.word);
  }

  lemma NeverCloses(line: bytes, p: nat, single: bool, current: bytes)
    requires At(line, p) == 0
    ensures TokenFrom(line, if single then Single else Quoted, current, p) == Unbalanced
  {
    hide IsSpace, IsHex, HexValue, Unletter;
  }

  /** A closing quote with something right behind it. */
  lemma {:induction false} CrowdedTail(line: bytes, p: nat, t: Tail, pre: bytes)
    requires !t.NoTail? && GoodTail(t) && Has(line, p, Mark(t) + (Inner(t) + Mark(t)))
    requires var d := At(line, p + 2 + |Inner(t)|); d != 0 && !IsSpace(d)
    ensures TokenFrom(line, Bare, pre, p) == Unbalanced
  {
    hide Inner, GoodTail, IsHex, HexValue, Unletter;
    TailTurns(line, p, t, pre);
  }

  lemma {:induction false} BrokenAt(line: bytes, p: nat, items: seq<Item>, bad: bytes)
    requires GoodLine(items, []) && Has(line, p, LineOf(items, bad)) && p + |LineOf(items, bad)| == |line|
    requires 0 < |bad| <= |line| && EndsWord(bad[0]) && Split(line, |line| - |bad|) == None
    ensures Split(line, p) == None
    decreases |items|
  {
    hide Split, TextOf, GoodForm, WordOf, Has, At, AllBlank;
    if items == [] {
      assert LineOf(items, bad) == bad;
    } else {
      var b, f, rest := items[0].blanks, items[0].form, LineOf(items[1..], bad);
      var q := p + |b|;
      HasSplit(line, p, b, TextOf(f) + rest);
      HasSplit(line, q, TextOf(f), rest);
      assert GoodLine(items[1..], []);
      SameStart(items[1..], bad);
      NextByte(line, q + |TextOf(f)|, rest);
      SkipAll(line, p, b);
      SplitForm(line, q, f);
      BrokenAt(line, q + |TextOf(f)|, items[1..], bad);
    }
  }

  lemma {:induction false} SameStart(items: seq<Item>, bad: bytes)
    requires GoodLine(items, []) && Follows(LineOf(items, [])) && bad != [] && EndsWord(bad[0])
    ensures Follows(LineOf(items, bad))
  {
    hide TextOf, EndsWord, GoodForm, AllBlank;
    if items != [] {
      hide GoodLine;
      var b, x := items[0].blanks, TextOf(items[0].form);
      SolidText(items[0].form);
      FirstOf(b, x, LineOf(items[1..], []));
      FirstOf(b, x, LineOf(items[1..], bad));
    }
  }

  lemma SolidText(f: Form)
    requires GoodForm(f)
    ensures TextOf(f) != []
  {
    hide GoodTail, Inner;
  }

  lemma FirstOf(b: bytes, x: bytes, rest: bytes)
    requires x != []
    ensures var s := b + (x + rest); s != [] && s[0] == if b != [] then b[0] else x[0]
  {}

  /** A line whose last word has a quote that is not closed, or is followed by more than a blank, is refused. */
  lemma BrokenQuote(items: seq<Item>, blanks: bytes, f: Form, crowd: bytes, closed: bool)
    requires GoodLine(items, []) && GoodForm(f) && !f.tail.NoTail?
    requires AllBlank(blanks) && blanks != [] && EndsWord(blanks[0])
    requires if closed then crowd != [] && crowd[0] != 0 && !IsSpace(crowd[0]) else crowd == []
    ensures Split(LineOf(items, blanks + (BadText(f, closed) + crowd)), 0) == None
  {
    hide LineOf, GoodLine, Split, AllBlank, GoodForm, EndsWord;
    var bad := blanks + (BadText(f, closed) + crowd);
    var line := LineOf(items, bad);
    EndsWithBad(items, bad);
    BadWord(line, |line| - |bad|, blanks, f, crowd, closed);
    assert line[0..|line|] == line;
    BrokenAt(line, 0, items, bad);
  }

  function BadText(f: Form, closed: bool): bytes {
    f.pre + (Mark(f.tail) + (Inner(f.tail) + if closed then Mark(f.tail) else []))
  }

  lemma {:induction false} BadWord(line: bytes, p: nat, blanks: bytes, f: Form, crowd: bytes, closed: bool)
    requires GoodForm(f) && !f.tail.NoTail? && AllBlank(blanks)
    requires if closed then crowd != [] && crowd[0] != 0 && !IsSpace(crowd[0]) else crowd == []
    requires Has(line, p, blanks + (BadText(f, closed) + crowd))
    requires p + |blanks + (BadText(f, closed) + crowd)| == |line|
    ensures Split(line, p) == None
  {
    hide Has, Split, AllBlank, TokenFrom, At, PlainByte, Inner, GoodTail, IsSpace, BadText;
    HasSplit(line, p, blanks, BadText(f, closed) + crowd);
    SkipAll(line, p, blanks);
    var q := p + |blanks|;
    HasSplit(line, q, BadText(f, closed), crowd);
    BadParts(line, q, f, closed);
    PlainTurns(line, q, f.pre, []);
    assert [] + f.pre == f.pre;
    if f.pre != [] { HasAt(line, q, f.pre, 0); }
    var r := q + |f.pre|;
    if closed {
      HasAt(line, q + |BadText(f, closed)|, crowd, 0);
      CrowdedTail(line, r, f.tail, f.pre);
    } else {
      UnclosedTail(line, r, f.tail, f.pre);
    }
    SolidStart(line, q, f);
    UnbalancedSplit(line, q);
  }

  lemma {:induction false} BadParts(line: bytes, q: nat, f: Form, closed: bool)
    requires !f.tail.NoTail? && Has(line, q, BadText(f, closed))
    ensures Has(line, q, f.pre) && At(line, q + |f.pre|) == Mark(f.tail)[0]
    ensures
      var tail := Mark(f.tail) + if closed then Inner(f.tail) + Mark(f.tail) else Inner(f.tail);
      Has(line, q + |f.pre|, tail) && |BadText(f, closed)| == |f.pre| + |tail|
  {
    hide Has, At, Inner;
    var inner := Inner(f.tail) + if closed then Mark(f.tail) else [];
    HasSplit(line, q, f.pre, Mark(f.tail) + inner);
    HasAt(line, q + |f.pre|, Mark(f.tail) + inner, 0);
    assert !closed ==> inner == Inner(f.tail);
  }

  lemma UnbalancedSplit(line: bytes, p: nat)
    requires At(line, p) != 0 && !IsSpace(At(line, p)) && TokenFrom(line, Bare, [], p) == Unbalanced
    ensures Split(line, p) == None
  {
    hide TokenFrom;
    assert SkipBlanks(line, p) == p;
  }

  lemma {:induction false} EndsWithBad(items: seq<Item>, bad: bytes)
    ensures |LineOf(items, bad)| >= |bad|
    ensures Has(LineOf(items, bad), |LineOf(items, bad)| - |bad|, bad)
    decreases |items|
  {
    hide TextOf, Has;
    if items == [] {
      HasAll(bad);
    } else {
      EndsWithBad(items[1..], bad);
      var i, rest := items[0], LineOf(items[1..], bad);
      HasBehind(TextOf(i.form), rest, |rest| - |bad|, bad);
      HasBehind(i.blanks, TextOf(i.form) + rest, |TextOf(i.form)| + |rest| - |bad|, bad);
    }
  }

  lemma HasAll(s: bytes)
    ensures Has(s, 0, s)
  {}

  lemma HasBehind(a: bytes, b: bytes, k: nat, s: bytes)
    requires Has(b, k, s)
    ensures Has(a + b, |a| + k, s)
  {
    assert (a + b)[|a| + k..|a| + k + |s|] == b[k..k + |s|];
  }
}
