/**
  Bytes and decimal numerals.

  Every component of the client reads and writes octets, and all the lengths on
  the wire are decimal numerals.  `Digits` is the numeral without leading zeros,
  `Value` is what the parsers compute from one by the rule v = v * 10 + d.
  */
module Bytes {
  newtype byte = x: int | 0 <= x < 256
  type bytes = seq<byte>

  const NUL: byte := 0
  const LF: byte := 10
  const CR: byte := 13
  const PLUS: byte := 43
  const MINUS: byte := 45
  const STAR: byte := 42
  const DOLLAR: byte := 36
  const COLON: byte := 58

  const CRLF: bytes := [13, 10]

  predicate IsDigit(b: byte) {
    48 <= b <= 57
  }

  function DigitOf(b: byte): (d: nat)
    requires IsDigit(b)
    ensures d < 10
  {
    (b as int) - 48
  }

  predicate AllDigits(s: bytes) {
    forall i | 0 <= i < |s| :: IsDigit(s[i])
  }

  /** The decimal numeral of n. */
  function Digits(n: nat): (s: bytes)
    ensures |s| >= 1
    ensures AllDigits(s)
  {
    if n < 10 then [(48 + n) as byte] else Digits(n / 10) + [(48 + n % 10) as byte]
  }

  /** The number a numeral denotes, most significant digit first. */
  function Value(s: bytes): nat
    requires AllDigits(s)
  {
    if s == [] then 0 else 10 * Value(s[..|s| - 1]) + DigitOf(s[|s| - 1])
  }

  lemma {:induction false} ValueOfDigits(n: nat)
    ensures Value(Digits(n)) == n
  {
    if n >= 10 {
      var s := Digits(n);
      assert s[..|s| - 1] == Digits(n / 10);
      ValueOfDigits(n / 10);
    }
  }

  /** The bytes written as characters in the source. */
  function Ascii(s: string): bytes
    requires forall i | 0 <= i < |s| :: s[i] < 128 as char
  {
    seq(|s|, i requires 0 <= i < |s| => s[i] as int as byte)
  }
}
