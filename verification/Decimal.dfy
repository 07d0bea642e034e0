/**
  The decimal helpers on which every precomputed length rests
  (hiredis-vip-master/hiredis.c, hiredis-vip-master/hiutil.c).
  */
module Decimal {
  import opened Bytes

  lemma DigitsLength(n: nat)
    ensures n < 10 ==> |Digits(n)| == 1
    ensures n >= 10 ==> |Digits(n)| == |Digits(n / 10)| + 1
  {
  }

  lemma DigitsLengthByFour(n: nat)
    ensures n < 10000 ==> |Digits(n)| == if n < 10 then 1 else if n < 100 then 2 else if n < 1000 then 3 else 4
    ensures n >= 10000 ==> |Digits(n)| == |Digits(n / 10000)| + 4
  {
    DigitsLength(n);
    DigitsLength(n / 10);
    DigitsLength(n / 100);
    DigitsLength(n / 1000);
    assert n / 10 / 10 == n / 100;
    assert n / 100 / 10 == n / 1000;
    assert n / 1000 / 10 == n / 10000;
  }

  /** countDigits: four digits a turn. */
  method CountDigits(v: nat) returns (result: nat)
    ensures result == |Digits(v)|
  {
    var w := v;
    result := 1;
    while true
      invariant result - 1 + |Digits(w)| == |Digits(v)|
      decreases w
    {
      DigitsLengthByFour(w);
      if w < 10 { return; }
      if w < 100 { return result + 1; }
      if w < 1000 { return result + 2; }
      if w < 10000 { return result + 3; }
      w := w / 10000;
      result := result + 4;
    }
  }

  /** _uint_len: one digit a turn, zero apart. */
  method UintLen(num: nat) returns (n: nat)
    ensures n == |Digits(num)|
  {
    n := 0;
    if num == 0 { return 1; }
    var m := num;
    while m != 0
      invariant m != 0 ==> n + |Digits(m)| == |Digits(num)|
      invariant m == 0 ==> n == |Digits(num)|
    {
      n := n + 1;
      m := m / 10;
    }
  }

  const INT_SIZE: int := 0x1_0000_0000
  const INT_LIMIT: int := 0x8000_0000

  /** A number as a 32-bit int holds it. */
  function Wrapped(x: int): (w: int)
    ensures -INT_LIMIT <= w < INT_LIMIT
    ensures -INT_LIMIT <= x < INT_LIMIT ==> w == x
  {
    (x + INT_LIMIT) % INT_SIZE - INT_LIMIT
  }

  lemma WrappedTurns(x: int, k: int)
    ensures Wrapped(x + k * INT_SIZE) == Wrapped(x)
  {}

  /** The next digit may be added to the wrapped number. */
  lemma WrappedStep(x: int, d: int)
    ensures Wrapped(Wrapped(x) * 10 + d) == Wrapped(x * 10 + d)
  {
    var k := (x + INT_LIMIT) / INT_SIZE;
    assert x == Wrapped(x) + k * INT_SIZE;
    WrappedTurns(Wrapped(x) * 10 + d, 10 * k);
  }

  /** _hi_atoi: -1 for an empty or malformed numeral, and for one that wraps to a negative number. */
  method HiAtoi(line: bytes) returns (value: int)
    ensures line == [] || !AllDigits(line) ==> value == -1
    ensures line != [] && AllDigits(line) ==>
      && value == (if Wrapped(Value(line)) < 0 then -1 else Wrapped(Value(line)))
      && (value == Value(line) <==> Value(line) < INT_LIMIT)
  {
    hide Wrapped;
    if |line| == 0 { return -1; }
    value := 0;
    for i := 0 to |line|
      invariant AllDigits(line[..i]) && value == Wrapped(Value(line[..i]))
    {
      if line[i] < 48 || line[i] > 57 { return -1; }
      WrappedStep(Value(line[..i]), DigitOf(line[i]));
      assert line[..i + 1][..i] == line[..i];
      value := Wrapped(value * 10 + DigitOf(line[i]));
    }
    assert line[..|line|] == line;
    if value < 0 { return -1; }
  }

  /** The numeral _hi_itoa prints. */
  function Numeral(num: int): (s: bytes)
  {
    if num < 0 then [MINUS] + Digits(-num) else Digits(num)
  }

  function Reversed(s: bytes): (r: bytes)
    ensures |r| == |s|
    ensures forall i | 0 <= i < |s| :: r[i] == s[|s| - 1 - i]
  {
    seq(|s|, i requires 0 <= i < |s| => s[|s| - 1 - i])
  }

  /** Reverses the first len bytes of s in place, as the last loop of _hi_itoa does. */
  method ReverseInPlace(s: array<byte>, len: nat)
    requires len <= s.Length
    modifies s
    ensures s[..len] == Reversed(old(s[..len]))
    ensures s[len..] == old(s[len..])
  {
    var i := 0;
    while i < len / 2
      invariant 0 <= i <= len / 2
      invariant forall k | 0 <= k < i :: s[k] == old(s[len - 1 - k]) && s[len - 1 - k] == old(s[k])
      invariant forall k | i <= k < len - i :: s[k] == old(s[k])
      invariant forall k | len <= k < s.Length :: s[k] == old(s[k])
    {
      s[i], s[len - i - 1] := s[len - i - 1], s[i];
      i := i + 1;
    }
    assert forall k | 0 <= k < len :: s[k] == old(s[len - 1 - k]);
  }

  lemma ReversedSnoc(s: bytes, c: byte)
    ensures Reversed(s + [c]) == [c] + Reversed(s)
  {
  }

  /** What is still to be printed, followed by what the buffer holds backwards. */
  ghost function Printed(n: nat, out: bytes): bytes
  {
    (if n == 0 then [] else Digits(n)) + Reversed(out)
  }

  lemma PrintedStep(n: nat, out: bytes)
    requires n > 0
    ensures Printed(n / 10, out + [(n % 10 + 48) as byte]) == Printed(n, out)
  {
    ReversedSnoc(out, (n % 10 + 48) as byte);
  }

  /** The digit loop of _hi_itoa: least significant digit first. */
  method EmitBackwards(s: array<byte>, num: nat) returns (len: nat)
    requires num > 0 && s.Length >= |Digits(num)| + 1
    modifies s
    ensures len == |Digits(num)| && Reversed(s[..len]) == Digits(num)
    ensures s[len + 1..] == old(s[len + 1..])
  {
    var n := num;
    len := 0;
    while n % 10 != 0 || n / 10 != 0
      invariant n >= 0 && len <= |Digits(num)|
      invariant Printed(n, s[..len]) == Digits(num)
      invariant s[|Digits(num)| + 1..] == old(s[|Digits(num)| + 1..])
      decreases n
    {
      ghost var before := s[..len];
      assert |Printed(n, before)| > len;
      PrintedStep(n, before);
      var c := (n % 10 + 48) as byte;
      n := n / 10;
      s[len + 1] := s[len];
      s[len] := c;
      len := len + 1;
      assert s[..len] == before + [c];
    }
    assert Printed(n, s[..len]) == Reversed(s[..len]);
  }

  /** s[len] = b, for a buffer filled up to len. */
  method Put(s: array<byte>, len: nat, b: byte)
    requires len < s.Length
    modifies s
    ensures s[..len + 1] == old(s[..len]) + [b]
    ensures s[len + 1..] == old(s[len + 1..])
  {
    s[len] := b;
  }

  /** The end of _hi_itoa: the terminator, then the digits turned round. */
  method Terminate(s: array<byte>, len: nat)
    requires len < s.Length
    modifies s
    ensures s[..len + 1] == Reversed(old(s[..len])) + [NUL]
    ensures s[len + 1..] == old(s[len + 1..])
  {
    Put(s, len, NUL);
    ghost var filled, rest := s[..len + 1], s[len + 1..];
    assert s[..len] == filled[..len];
    assert s[len..] == [NUL] + rest;
    ReverseInPlace(s, len);
    assert s[..len + 1] == s[..len] + [s[len..][0]];
    assert s[len + 1..] == s[len..][1..];
  }

  /** The negative case of _hi_itoa: the sign goes behind the digits before they are turned round. */
  method PutNegative(s: array<byte>, num: nat)
    requires num > 0 && s.Length >= |Digits(num)| + 2
    modifies s
    ensures s[..|Digits(num)| + 2] == [MINUS] + Digits(num) + [NUL]
    ensures s[|Digits(num)| + 2..] == old(s[|Digits(num)| + 2..])
  {
    hide Digits, Reversed;
    var len := EmitBackwards(s, num);
    ghost var back, tail := s[..len], s[len + 1..];
    Put(s, len, MINUS);
    ReversedSnoc(back, MINUS);
    assert s[len + 2..] == tail[1..];
    Terminate(s, len + 1);
  }

  /**
    _hi_itoa.  A non-zero number is printed with a terminator; for zero only the first
    byte is written, so what follows it in the buffer stays as it was.
    */
  method HiItoa(s: array<byte>, num: int)
    requires s.Length >= |Numeral(num)| + (if num == 0 then 0 else 1)
    modifies s
    ensures num == 0 ==> s[..] == [48] + old(s[1..])
    ensures num != 0 ==>
      var d := Numeral(num);
      s[..|d| + 1] == d + [NUL] && s[|d| + 1..] == old(s[|d| + 1..])
  {
    hide Digits, Reversed;
    if num == 0 {
      Put(s, 0, 48);
      assert s[..] == s[..1] + s[1..];
    } else if num > 0 {
      var len := EmitBackwards(s, num);
      Terminate(s, len);
    } else {
      PutNegative(s, -num);
    }
  }
}
