/**
  keyHashSlot (hiredis-vip-master/hircluster.c): the hash slot of a key, with the rule of
  the Redis Cluster Specification, section "Hash tags".
  */
module KeySlot {
  import opened Bytes
  import opened Crc16

  const OPEN: byte := 123
  const CLOSE: byte := 125
  const SLOTS: nat := 16384

  /** The first index from i on at which b stands, or the length. */
  function Find(key: bytes, b: byte, i: nat): (r: nat)
    requires i <= |key|
    ensures i <= r <= |key|
    ensures r < |key| ==> key[r] == b
    ensures forall k | i <= k < r :: key[k] != b
    decreases |key| - i
  {
    if i == |key| || key[i] == b then i else Find(key, b, i + 1)
  }

  /** The part of a key that is hashed: between the first { and the next }, if that is not empty. */
  function HashTag(key: bytes): bytes
  {
    var s := Find(key, OPEN, 0);
    if s == |key| then key
    else
      var e := Find(key, CLOSE, s + 1);
      if e == |key| || e == s + 1 then key else key[s + 1..e]
  }

  function Slot14(crc: bv16): (s: nat)
    ensures s < SLOTS
  {
    (crc & 0x3FFF) as int
  }

  function Slot(key: bytes): (s: nat)
    ensures s < SLOTS
  {
    Slot14(Remainder(HashTag(key)))
  }

  /** keyHashSlot */
  method KeyHashSlot(key: bytes) returns (slot: nat)
    ensures slot == Slot(key)
  {
    hide Remainder;
    var s := 0;
    while s < |key| && key[s] != OPEN
      invariant 0 <= s <= |key| && Find(key, OPEN, s) == Find(key, OPEN, 0)
    {
      s := s + 1;
    }
    if s == |key| {
      var crc := Checksum(key);
      return Slot14(crc);
    }
    var e := s + 1;
    while e < |key| && key[e] != CLOSE
      invariant s < e <= |key| && Find(key, CLOSE, e) == Find(key, CLOSE, s + 1)
    {
      e := e + 1;
    }
    if e == |key| || e == s + 1 {
      var crc := Checksum(key);
      return Slot14(crc);
    }
    var crc := Checksum(key[s + 1..e]);
    return Slot14(crc);
  }

  /** What the hashed part is, without naming the search: the first braces around something, else everything. */
  lemma HashTagMeaning(key: bytes, before: bytes, tag: bytes, after: bytes)
    requires key == before + [OPEN] + tag + [CLOSE] + after
    requires OPEN !in before && CLOSE !in tag
    ensures HashTag(key) == if tag == [] then key else tag
  {
    var s := |before|;
    assert key[s] == OPEN && forall k | 0 <= k < s :: key[k] == before[k];
    assert forall k | 0 <= k < s :: key[k] != OPEN;
    var e := s + 1 + |tag|;
    assert key[e] == CLOSE;
    assert key[s + 1..e] == tag by {
      assert key == before + [OPEN] + tag + ([CLOSE] + after);
      Middle(before + [OPEN], tag, [CLOSE] + after);
    }
    assert forall k | s + 1 <= k < e :: key[k] == key[s + 1..e][k - s - 1];
    assert forall k | s + 1 <= k < e :: key[k] != CLOSE;
  }

  lemma Middle(a: bytes, b: bytes, c: bytes)
    ensures (a + b + c)[|a|..|a| + |b|] == b
  {}

  /** Without a closing brace after the first opening one, everything is hashed. */
  lemma NoTagMeaning(key: bytes)
    requires forall i, j | 0 <= i < j < |key| && key[i] == OPEN :: key[j] != CLOSE
    ensures HashTag(key) == key
  {
  }

  /** Keys of zero bytes, the empty one among them, are in slot 0. */
  lemma ZeroSlot(key: bytes)
    requires forall i | 0 <= i < |key| :: key[i] == 0
    ensures Slot(key) == 0
  {
    hide Remainder, HashTag;
    NoTagMeaning(key);
    RemainderOfZeros(key);
  }

  /** Keys that share a hash tag share a slot, whatever surrounds it. */
  lemma SameTagSameSlot(b1: bytes, a1: bytes, b2: bytes, a2: bytes, tag: bytes)
    requires OPEN !in b1 && OPEN !in b2 && tag != [] && CLOSE !in tag
    ensures Slot(b1 + [OPEN] + tag + [CLOSE] + a1) == Slot(b2 + [OPEN] + tag + [CLOSE] + a2)
  {
    hide Remainder, HashTag, Slot14;
    HashTagMeaning(b1 + [OPEN] + tag + [CLOSE] + a1, b1, tag, a1);
    HashTagMeaning(b2 + [OPEN] + tag + [CLOSE] + a2, b2, tag, a2);
  }

  // The number of a checksum -----------------------------------------

  function Value(w: bv16): int {
    w as int
  }

  function Low14(w: bv16): bv16 {
    w & 0x3FFF
  }

  function High2(w: bv16): bv16 {
    w & 0xC000
  }

  lemma WordParts(w: bv16)
    ensures Value(w) == Value(Low14(w)) + Value(High2(w)) && 0 <= Value(Low14(w)) < SLOTS
    ensures Value(High2(w)) == 0 || Value(High2(w)) == SLOTS || Value(High2(w)) == 2 * SLOTS
         || Value(High2(w)) == 3 * SLOTS
  {
  }

  lemma MaskedValue(w: bv16)
    ensures Slot14(w) == Value(Low14(w))
  {
  }

  /** The mask keeps the checksum modulo the number of slots, whatever the checksum. */
  lemma MaskIsModulo(w: bv16)
    ensures Slot14(w) == Value(w) % SLOTS
  {
    hide Value, Low14, High2, Slot14;
    WordParts(w);
    MaskedValue(w);
  }

  /** The slot of a key is the remainder of its hashed part, as a number, modulo 16384. */
  lemma SlotIsModulo(key: bytes)
    ensures Slot(key) == Value(Remainder(HashTag(key))) % SLOTS
  {
    hide Value, Slot14, Remainder, HashTag;
    MaskIsModulo(Remainder(HashTag(key)));
  }

  // Every slot has a key ---------------------------------------------

  function Doubled(w: bv16): bv16 {
    w << 1
  }

  function DoubledPlusOne(w: bv16): bv16 {
    (w << 1) | 1
  }

  /** The word of a number, bit by bit. */
  function WordOf(s: nat): bv16
  {
    if s == 0 then 0 else if s % 2 == 0 then Doubled(WordOf(s / 2)) else DoubledPlusOne(WordOf(s / 2))
  }

  lemma DoubledValue(w: bv16)
    requires Value(w) < SLOTS
    ensures Value(Doubled(w)) == 2 * Value(w) && Value(DoubledPlusOne(w)) == 2 * Value(w) + 1
  {
  }

  lemma ZeroValue()
    ensures Value(0) == 0
  {
  }

  lemma {:induction false} WordOfValue(s: nat)
    requires s < SLOTS
    ensures Value(WordOf(s)) == s
  {
    hide Value, Doubled, DoubledPlusOne;
    if s == 0 {
      ZeroValue();
    } else {
      WordOfValue(s / 2);
      DoubledValue(WordOf(s / 2));
    }
  }

  /** A key of slot s. */
  function KeyIn(s: nat): bytes
    requires s < SLOTS
  {
    WordBytes(UnshiftN(WordOf(s), 16))
  }

  lemma TwoByteTag(key: bytes)
    requires |key| == 2
    ensures HashTag(key) == key
  {
  }

  /** Every slot has a key, of two bytes. */
  lemma EverySlotHasAKey(s: nat)
    requires s < SLOTS
    ensures Slot(KeyIn(s)) == s
  {
    hide Remainder, HashTag, Slot14, UnshiftN, WordOf, Value;
    TwoByteTag(KeyIn(s));
    EveryRemainder(WordOf(s));
    WordOfValue(s);
    MaskIsModulo(WordOf(s));
  }
}
