/**
  The checksum of key slots (hiredis-vip-master/crc16.c): a table-driven CRC16, proved equal
  to the remainder of long division by x^16 + x^12 + x^5 + 1 over GF(2), one bit at a time.
  */
module Crc16 {
  import opened Bytes

  function Xor(a: bv16, b: bv16): bv16 {
    a ^ b
  }

  function Left(w: bv16): bv16 {
    w << 1
  }

  function Top(r: bv16): bv16 {
    if r & 0x8000 == 0 then 0 else 0x1021
  }

  /** One step of the division register, a zero bit coming in. */
  function Shift(r: bv16): bv16 {
    (r << 1) ^ Top(r)
  }

  function Shift8(r: bv16): bv16 {
    Shift(Shift(Shift(Shift(Shift(Shift(Shift(Shift(r))))))))
  }

  // Long division ----------------------------------------------------

  function Bit(b: bool): bv16 {
    if b then 1 else 0
  }

  /** The register takes in the next bit of the dividend at its low end. */
  function Divide(r: bv16, bits: seq<bool>): bv16
    decreases |bits|
  {
    if bits == [] then r else Divide(Xor(Shift(r), Bit(bits[0])), bits[1..])
  }

  function ZeroBits(n: nat): seq<bool>
  {
    if n == 0 then [] else [false] + ZeroBits(n - 1)
  }

  predicate HighBit(w: bv16) {
    w & 0x8000 != 0
  }

  /** The n high bits of a word, the highest first. */
  function WordBits(w: bv16, n: nat): seq<bool>
    decreases n
  {
    if n == 0 then [] else [HighBit(w)] + WordBits(Left(w), n - 1)
  }

  /** A byte, and the byte in the high half of a word. */
  function Low(b: byte): bv16 {
    b as int as bv16
  }

  function Word(b: byte): bv16 {
    Low(b) << 8
  }

  function MessageBits(buf: bytes): seq<bool>
  {
    if buf == [] then [] else WordBits(Word(buf[0]), 8) + MessageBits(buf[1..])
  }

  /** The remainder of the message times x^16. */
  function Remainder(buf: bytes): bv16 {
    Divide(0, MessageBits(buf) + ZeroBits(16))
  }

  // The table --------------------------------------------------------

  function Pick(c: bv16, a0: bv16, a1: bv16, a2: bv16, a3: bv16, a4: bv16, a5: bv16, a6: bv16, a7: bv16): bv16 {
    if c == 0 then a0 else if c == 1 then a1 else if c == 2 then a2 else if c == 3 then a3
    else if c == 4 then a4 else if c == 5 then a5 else if c == 6 then a6 else a7
  }

  /** crc16tab, in the rows of eight in which the source prints it. */
  function Quarter0(x: bv16): bv16 {
    var k, c := x >> 3, x & 7;
    if k == 0 then Pick(c, 0x0000, 0x1021, 0x2042, 0x3063, 0x4084, 0x50a5, 0x60c6, 0x70e7)
    else if k == 1 then Pick(c, 0x8108, 0x9129, 0xa14a, 0xb16b, 0xc18c, 0xd1ad, 0xe1ce, 0xf1ef)
    else if k == 2 then Pick(c, 0x1231, 0x0210, 0x3273, 0x2252, 0x52b5, 0x4294, 0x72f7, 0x62d6)
    else if k == 3 then Pick(c, 0x9339, 0x8318, 0xb37b, 0xa35a, 0xd3bd, 0xc39c, 0xf3ff, 0xe3de)
    else if k == 4 then Pick(c, 0x2462, 0x3443, 0x0420, 0x1401, 0x64e6, 0x74c7, 0x44a4, 0x5485)
    else if k == 5 then Pick(c, 0xa56a, 0xb54b, 0x8528, 0x9509, 0xe5ee, 0xf5cf, 0xc5ac, 0xd58d)
    else if k == 6 then Pick(c, 0x3653, 0x2672, 0x1611, 0x0630, 0x76d7, 0x66f6, 0x5695, 0x46b4)
    else Pick(c, 0xb75b, 0xa77a, 0x9719, 0x8738, 0xf7df, 0xe7fe, 0xd79d, 0xc7bc)
  }

  function Quarter1(x: bv16): bv16 {
    var k, c := x >> 3, x & 7;
    if k == 8 then Pick(c, 0x48c4, 0x58e5, 0x6886, 0x78a7, 0x0840, 0x1861, 0x2802, 0x3823)
    else if k == 9 then Pick(c, 0xc9cc, 0xd9ed, 0xe98e, 0xf9af, 0x8948, 0x9969, 0xa90a, 0xb92b)
    else if k == 10 then Pick(c, 0x5af5, 0x4ad4, 0x7ab7, 0x6a96, 0x1a71, 0x0a50, 0x3a33, 0x2a12)
    else if k == 11 then Pick(c, 0xdbfd, 0xcbdc, 0xfbbf, 0xeb9e, 0x9b79, 0x8b58, 0xbb3b, 0xab1a)
    else if k == 12 then Pick(c, 0x6ca6, 0x7c87, 0x4ce4, 0x5cc5, 0x2c22, 0x3c03, 0x0c60, 0x1c41)
    else if k == 13 then Pick(c, 0xedae, 0xfd8f, 0xcdec, 0xddcd, 0xad2a, 0xbd0b, 0x8d68, 0x9d49)
    else if k == 14 then Pick(c, 0x7e97, 0x6eb6, 0x5ed5, 0x4ef4, 0x3e13, 0x2e32, 0x1e51, 0x0e70)
    else Pick(c, 0xff9f, 0xefbe, 0xdfdd, 0xcffc, 0xbf1b, 0xaf3a, 0x9f59, 0x8f78)
  }

  function Quarter2(x: bv16): bv16 {
    var k, c := x >> 3, x & 7;
    if k == 16 then Pick(c, 0x9188, 0x81a9, 0xb1ca, 0xa1eb, 0xd10c, 0xc12d, 0xf14e, 0xe16f)
    else if k == 17 then Pick(c, 0x1080, 0x00a1, 0x30c2, 0x20e3, 0x5004, 0x4025, 0x7046, 0x6067)
    else if k == 18 then Pick(c, 0x83b9, 0x9398, 0xa3fb, 0xb3da, 0xc33d, 0xd31c, 0xe37f, 0xf35e)
    else if k == 19 then Pick(c, 0x02b1, 0x1290, 0x22f3, 0x32d2, 0x4235, 0x5214, 0x6277, 0x7256)
    else if k == 20 then Pick(c, 0xb5ea, 0xa5cb, 0x95a8, 0x8589, 0xf56e, 0xe54f, 0xd52c, 0xc50d)
    else if k == 21 then Pick(c, 0x34e2, 0x24c3, 0x14a0, 0x0481, 0x7466, 0x6447, 0x5424, 0x4405)
    else if k == 22 then Pick(c, 0xa7db, 0xb7fa, 0x8799, 0x97b8, 0xe75f, 0xf77e, 0xc71d, 0xd73c)
    else Pick(c, 0x26d3, 0x36f2, 0x0691, 0x16b0, 0x6657, 0x7676, 0x4615, 0x5634)
  }

  function Quarter3(x: bv16): bv16 {
    var k, c := x >> 3, x & 7;
    if k == 24 then Pick(c, 0xd94c, 0xc96d, 0xf90e, 0xe92f, 0x99c8, 0x89e9, 0xb98a, 0xa9ab)
    else if k == 25 then Pick(c, 0x5844, 0x4865, 0x7806, 0x6827, 0x18c0, 0x08e1, 0x3882, 0x28a3)
    else if k == 26 then Pick(c, 0xcb7d, 0xdb5c, 0xeb3f, 0xfb1e, 0x8bf9, 0x9bd8, 0xabbb, 0xbb9a)
    else if k == 27 then Pick(c, 0x4a75, 0x5a54, 0x6a37, 0x7a16, 0x0af1, 0x1ad0, 0x2ab3, 0x3a92)
    else if k == 28 then Pick(c, 0xfd2e, 0xed0f, 0xdd6c, 0xcd4d, 0xbdaa, 0xad8b, 0x9de8, 0x8dc9)
    else if k == 29 then Pick(c, 0x7c26, 0x6c07, 0x5c64, 0x4c45, 0x3ca2, 0x2c83, 0x1ce0, 0x0cc1)
    else if k == 30 then Pick(c, 0xef1f, 0xff3e, 0xcf5d, 0xdf7c, 0xaf9b, 0xbfba, 0x8fd9, 0x9ff8)
    else Pick(c, 0x6e17, 0x7e36, 0x4e55, 0x5e74, 0x2e93, 0x3eb2, 0x0ed1, 0x1ef0)
  }

  function Crc16Tab(x: bv16): bv16
    requires x < 256
  {
    if x < 64 then Quarter0(x) else if x < 128 then Quarter1(x) else if x < 192 then Quarter2(x) else Quarter3(x)
  }

  lemma Quarter0Ok(x: bv16)
    requires 0 <= x < 64
    ensures Quarter0(x) == Shift8(x << 8)
  {
  }

  lemma Quarter1Ok(x: bv16)
    requires 64 <= x < 128
    ensures Quarter1(x) == Shift8(x << 8)
  {
  }

  lemma Quarter2Ok(x: bv16)
    requires 128 <= x < 192
    ensures Quarter2(x) == Shift8(x << 8)
  {
  }

  lemma Quarter3Ok(x: bv16)
    requires 192 <= x < 256
    ensures Quarter3(x) == Shift8(x << 8)
  {
  }

  /** Every entry of the table is the one the polynomial prescribes. */
  lemma TableOk(x: bv16)
    requires x < 256
    ensures Crc16Tab(x) == Shift8(x << 8)
  {
    hide Shift8, Quarter0, Quarter1, Quarter2, Quarter3;
    if x < 64 { Quarter0Ok(x); }
    else if x < 128 { Quarter1Ok(x); }
    else if x < 192 { Quarter2Ok(x); }
    else { Quarter3Ok(x); }
  }

  // Linearity --------------------------------------------------------

  lemma TopLinear(a: bv16, b: bv16)
    ensures Top(a ^ b) == Top(a) ^ Top(b)
  {
    var x, y := a & 0x8000, b & 0x8000;
    assert (a ^ b) & 0x8000 == x ^ y;
    assert x == 0 || x == 0x8000;
    assert y == 0 || y == 0x8000;
  }

  lemma LeftLinear(a: bv16, b: bv16)
    ensures (a ^ b) << 1 == (a << 1) ^ (b << 1)
  {
  }

  lemma XorSwap(a: bv16, b: bv16, c: bv16, d: bv16)
    ensures (a ^ b) ^ (c ^ d) == (a ^ c) ^ (b ^ d)
  {
  }

  lemma ShiftLinear(a: bv16, b: bv16)
    ensures Shift(Xor(a, b)) == Xor(Shift(a), Shift(b))
  {
    hide Top;
    TopLinear(a, b);
    LeftLinear(a, b);
    XorSwap(a << 1, b << 1, Top(a), Top(b));
  }

  function ShiftN(r: bv16, n: nat): bv16
    decreases n
  {
    if n == 0 then r else ShiftN(Shift(r), n - 1)
  }

  lemma {:induction false} ShiftNLinear(a: bv16, b: bv16, n: nat)
    ensures ShiftN(Xor(a, b), n) == Xor(ShiftN(a, n), ShiftN(b, n))
    decreases n
  {
    hide Shift, Xor;
    if n > 0 {
      ShiftLinear(a, b);
      ShiftNLinear(Shift(a), Shift(b), n - 1);
    }
  }

  lemma {:induction false} ShiftNCommutes(r: bv16, n: nat)
    ensures ShiftN(Shift(r), n) == Shift(ShiftN(r, n))
    decreases n
  {
    hide Shift;
    if n > 0 {
      ShiftNCommutes(Shift(r), n - 1);
    }
  }

  lemma ShiftEight(r: bv16)
    ensures ShiftN(r, 8) == Shift8(r)
  {
    hide Shift;
    var a := Shift(Shift(Shift(Shift(r))));
    assert ShiftN(r, 8) == ShiftN(Shift(Shift(r)), 6) == ShiftN(a, 4);
    assert ShiftN(a, 4) == ShiftN(Shift(Shift(a)), 2);
  }

  lemma ShiftSixteenOfOne()
    ensures ShiftN(1, 16) == 0x1021
  {
    assert ShiftN(1, 16) == ShiftN(4, 14) == ShiftN(16, 12) == ShiftN(64, 10) == ShiftN(256, 8);
    assert ShiftN(256, 8) == ShiftN(1024, 6) == ShiftN(0x1000, 4) == ShiftN(0x4000, 2);
  }

  lemma {:induction false} ShiftOfZero(n: nat)
    ensures ShiftN(0, n) == 0
  {
    assert Shift(0) == 0;
    if n > 0 { ShiftOfZero(n - 1); }
  }

  // One byte ---------------------------------------------------------

  /** The table step for a byte b, as written in the source. */
  function CrcByte(crc: bv16, b: bv16): bv16 {
    (crc << 8) ^ Crc16Tab(((crc >> 8) ^ b) & 0x00FF)
  }

  lemma LowByte(x: bv16)
    ensures Shift8(x & 0x00FF) == (x & 0x00FF) << 8
  {
  }

  lemma ByteParts(crc: bv16, b: bv16)
    requires b < 256
    ensures var x := Xor(crc, b << 8);
      && x == Xor((((crc >> 8) ^ b) & 0x00FF) << 8, crc & 0x00FF)
      && (crc & 0x00FF) << 8 == crc << 8
  {
  }

  lemma XorCommutes(a: bv16, b: bv16)
    ensures Xor(a, b) == Xor(b, a)
  {
  }

  lemma CrcByteIsXor(crc: bv16, b: bv16)
    ensures CrcByte(crc, b) == Xor(crc << 8, Crc16Tab(((crc >> 8) ^ b) & 0x00FF))
  {
    hide Crc16Tab;
  }

  /** The table step shifts a whole byte through the register. */
  lemma ByteStep(crc: bv16, b: bv16)
    requires b < 256
    ensures CrcByte(crc, b) == Shift8(Xor(crc, b << 8))
  {
    hide Shift8, Crc16Tab, Xor, CrcByte, ShiftN;
    var i := ((crc >> 8) ^ b) & 0x00FF;
    CrcByteIsXor(crc, b);
    ByteParts(crc, b);
    LowByte(crc);
    TableOk(i);
    ShiftEight(Xor(i << 8, crc & 0x00FF));
    ShiftEight(i << 8);
    ShiftEight(crc & 0x00FF);
    ShiftNLinear(i << 8, crc & 0x00FF, 8);
    XorCommutes(crc << 8, Shift8(i << 8));
  }

  // The serial form --------------------------------------------------

  function High(b: bool): bv16 {
    if b then 0x8000 else 0
  }

  /** The bit enters at the high end: no sixteen zeros are needed at the end. */
  function Serial(crc: bv16, bits: seq<bool>): bv16
    decreases |bits|
  {
    if bits == [] then crc else Serial(Shift(Xor(crc, High(bits[0]))), bits[1..])
  }

  lemma {:induction false} SerialAppend(crc: bv16, a: seq<bool>, b: seq<bool>)
    ensures Serial(crc, a + b) == Serial(Serial(crc, a), b)
    decreases |a|
  {
    hide Shift, Xor, High;
    if a == [] {
      assert a + b == b;
    } else {
      assert (a + b)[1..] == a[1..] + b;
      SerialAppend(Shift(Xor(crc, High(a[0]))), a[1..], b);
    }
  }

  lemma {:induction false} DivideAppend(r: bv16, a: seq<bool>, b: seq<bool>)
    ensures Divide(r, a + b) == Divide(Divide(r, a), b)
    decreases |a|
  {
    hide Shift, Xor, Bit;
    if a == [] {
      assert a + b == b;
    } else {
      assert (a + b)[1..] == a[1..] + b;
      DivideAppend(Xor(Shift(r), Bit(a[0])), a[1..], b);
    }
  }

  lemma XorZero(a: bv16)
    ensures Xor(a, 0) == a && Xor(0, a) == a
  {
  }

  lemma {:induction false} DivideZeros(r: bv16, n: nat)
    ensures Divide(r, ZeroBits(n)) == ShiftN(r, n)
    decreases n
  {
    hide Shift, Xor;
    if n > 0 {
      assert ZeroBits(n)[1..] == ZeroBits(n - 1);
      XorZero(Shift(r));
      DivideZeros(Shift(r), n - 1);
    }
  }

  /** A bit at the low end, sixteen shifts later, is that bit at the high end. */
  lemma BitTravels(r: bv16, b: bool)
    ensures ShiftN(Xor(Shift(r), Bit(b)), 16) == Shift(Xor(ShiftN(r, 16), High(b)))
  {
    hide ShiftN, Shift, Xor;
    ShiftNLinear(Shift(r), Bit(b), 16);
    ShiftNCommutes(r, 16);
    ShiftLinear(ShiftN(r, 16), High(b));
    ShiftSixteenOfOne();
    ShiftOfZero(16);
    ShiftOfHigh();
  }

  lemma ShiftOfHigh()
    ensures Shift(0x8000) == 0x1021 && Shift(0) == 0
  {
  }

  lemma {:induction false} DivisionIsSerial(r: bv16, bits: seq<bool>)
    ensures ShiftN(Divide(r, bits), 16) == Serial(ShiftN(r, 16), bits)
    decreases |bits|
  {
    hide ShiftN, Shift, Xor, Bit, High;
    if bits != [] {
      BitTravels(r, bits[0]);
      DivisionIsSerial(Xor(Shift(r), Bit(bits[0])), bits[1..]);
    }
  }

  function Dropped(w: bv16, n: nat): bv16
    decreases n
  {
    if n == 0 then w else Dropped(Left(w), n - 1)
  }

  lemma HighPart(w: bv16)
    ensures w == Xor(High(HighBit(w)), w & 0x7FFF)
    ensures Shift(w & 0x7FFF) == Left(w)
  {
  }

  lemma XorAssociates(a: bv16, b: bv16, c: bv16)
    ensures Xor(a, Xor(b, c)) == Xor(Xor(a, b), c)
  {
  }

  lemma HighAndRest(crc: bv16, w: bv16)
    ensures Shift(Xor(crc, w)) == Xor(Shift(Xor(crc, High(HighBit(w)))), Left(w))
  {
    hide Shift, Xor, High, HighBit, Left;
    var h, low := High(HighBit(w)), w & 0x7FFF;
    HighPart(w);
    XorAssociates(crc, h, low);
    ShiftLinear(Xor(crc, h), low);
  }

  /** Feeding a word bit by bit is shifting it in at once. */
  lemma {:induction false} SerialWord(crc: bv16, w: bv16, n: nat)
    ensures ShiftN(Xor(crc, w), n) == Xor(Serial(crc, WordBits(w, n)), Dropped(w, n))
    decreases n
  {
    hide Shift, Xor, High, HighBit, Left;
    if n > 0 {
      HighAndRest(crc, w);
      var bits := WordBits(w, n);
      assert bits[1..] == WordBits(Left(w), n - 1);
      SerialWord(Shift(Xor(crc, High(HighBit(w)))), Left(w), n - 1);
    }
  }

  lemma DroppedByte(w: bv16)
    requires w & 0x00FF == 0
    ensures Dropped(w, 8) == 0
  {
    assert Dropped(w, 8) == Dropped(w << 1 << 1, 6) == Dropped(w << 1 << 1 << 1 << 1, 4);
    assert Dropped(w, 8) == Dropped(w << 1 << 1 << 1 << 1 << 1 << 1, 2);
    assert Dropped(w, 8) == w << 1 << 1 << 1 << 1 << 1 << 1 << 1 << 1;
    assert w << 1 << 1 << 1 << 1 << 1 << 1 << 1 << 1 == w << 8;
  }

  lemma HighHalf(b: bv16)
    ensures (b << 8) & 0x00FF == 0
  {
  }

  lemma ByteIsSerial(crc: bv16, b: bv16)
    requires b < 256
    ensures CrcByte(crc, b) == Serial(crc, WordBits(b << 8, 8))
  {
    hide Shift8, ShiftN, CrcByte, Serial, WordBits, Dropped, Xor;
    var w := b << 8;
    ByteStep(crc, b);
    ShiftEight(Xor(crc, w));
    SerialWord(crc, w, 8);
    HighHalf(b);
    DroppedByte(w);
    XorZero(Serial(crc, WordBits(w, 8)));
  }

  // The checksum -----------------------------------------------------

  function Crc(crc: bv16, buf: bytes): bv16
    decreases |buf|
  {
    if buf == [] then crc else Crc(CrcByte(crc, Low(buf[0])), buf[1..])
  }

  lemma LowIsSmall(b: byte)
    ensures Low(b) < 256
  {
  }

  lemma {:induction false} CrcIsSerial(crc: bv16, buf: bytes)
    ensures Crc(crc, buf) == Serial(crc, MessageBits(buf))
    decreases |buf|
  {
    hide CrcByte, Serial, WordBits, Low;
    if buf == [] {
      assert Serial(crc, []) == crc by { SerialOfNothing(crc); }
    } else {
      var b := Low(buf[0]);
      LowIsSmall(buf[0]);
      ByteIsSerial(crc, b);
      SerialAppend(crc, WordBits(b << 8, 8), MessageBits(buf[1..]));
      CrcIsSerial(CrcByte(crc, b), buf[1..]);
    }
  }

  lemma SerialOfNothing(crc: bv16)
    ensures Serial(crc, []) == crc
  {
  }

  /** The table-driven checksum is the remainder of the division. */
  lemma CrcIsRemainder(buf: bytes)
    ensures Crc(0, buf) == Remainder(buf)
  {
    hide Crc, Serial, Divide, ShiftN, MessageBits, ZeroBits;
    var bits := MessageBits(buf);
    CrcIsSerial(0, buf);
    DivideAppend(0, bits, ZeroBits(16));
    DivideZeros(Divide(0, bits), 16);
    DivisionIsSerial(0, bits);
    ShiftOfZero(16);
  }

  lemma {:induction false} CrcSnoc(crc: bv16, buf: bytes, b: byte)
    ensures Crc(crc, buf + [b]) == CrcByte(Crc(crc, buf), Low(b))
    decreases |buf|
  {
    hide CrcByte, Low;
    if buf == [] {
      assert (buf + [b])[1..] == [];
    } else {
      assert (buf + [b])[1..] == buf[1..] + [b];
      CrcSnoc(CrcByte(crc, Low(buf[0])), buf[1..], b);
    }
  }

  /** crc16 */
  method Checksum(buf: bytes) returns (crc: bv16)
    ensures crc == Remainder(buf)
  {
    hide Remainder, CrcByte, Low;
    crc := 0;
    for counter := 0 to |buf|
      invariant crc == Crc(0, buf[..counter])
    {
      assert buf[..counter + 1] == buf[..counter] + [buf[counter]];
      CrcSnoc(0, buf[..counter], buf[counter]);
      crc := CrcByte(crc, Low(buf[counter]));
    }
    assert buf[..|buf|] == buf;
    CrcIsRemainder(buf);
  }

  lemma CrcByteOfZero()
    ensures CrcByte(0, 0) == 0
  {
  }

  /** Zero bytes of any number leave a zero remainder. */
  lemma RemainderOfZeros(buf: bytes)
    requires forall i | 0 <= i < |buf| :: buf[i] == 0
    ensures Remainder(buf) == 0
  {
    hide Remainder;
    CrcIsRemainder(buf);
    CrcOfZeros(buf);
  }

  lemma {:induction false} CrcOfZeros(buf: bytes)
    requires forall i | 0 <= i < |buf| :: buf[i] == 0
    ensures Crc(0, buf) == 0
    decreases |buf|
  {
    hide CrcByte;
    if buf != [] {
      CrcByteOfZero();
      assert Low(buf[0]) == 0;
      CrcOfZeros(buf[1..]);
    }
  }

  // Every remainder occurs -------------------------------------------

  /** The register before the step. */
  function Unshift(r: bv16): bv16 {
    if r & 1 == 0 then r >> 1 else ((r ^ 0x1021) >> 1) | 0x8000
  }

  function UnshiftN(r: bv16, n: nat): bv16
  {
    if n == 0 then r else Unshift(UnshiftN(r, n - 1))
  }

  lemma ShiftUndone(r: bv16)
    ensures Shift(Unshift(r)) == r
  {
  }

  lemma {:induction false} ShiftsUndone(r: bv16, n: nat)
    ensures ShiftN(UnshiftN(r, n), n) == r
  {
    hide Shift, Unshift;
    if n > 0 {
      ShiftUndone(UnshiftN(r, n - 1));
      ShiftsUndone(r, n - 1);
    }
  }

  lemma {:induction false} ShiftsAdd(r: bv16, m: nat, n: nat)
    ensures ShiftN(ShiftN(r, m), n) == ShiftN(r, m + n)
    decreases m
  {
    hide Shift;
    if m > 0 { ShiftsAdd(Shift(r), m - 1, n); }
  }

  lemma Halves(w: bv16)
    ensures w >> 8 < 256 && w & 0x00FF < 256
    ensures Xor((w >> 8) << 8, w & 0x00FF) == w && Xor(0, (w >> 8) << 8) == (w >> 8) << 8
  {
  }

  /** Two bytes are shifted through the register as the word they make. */
  lemma TwoBytes(w: bv16)
    ensures CrcByte(CrcByte(0, w >> 8), w & 0x00FF) == ShiftN(w, 16)
  {
    hide CrcByte, Shift8, Xor, ShiftN;
    var h, l := (w >> 8) << 8, w & 0x00FF;
    Halves(w);
    ByteStep(0, w >> 8);
    ByteStep(Shift8(h), l);
    LowByte(w);
    ShiftEight(h);
    ShiftEight(l);
    ShiftNLinear(h, l, 8);
    ShiftEight(ShiftN(w, 8));
    ShiftsAdd(w, 8, 8);
  }

  function WordBytes(w: bv16): bytes {
    [(w >> 8) as int as byte, (w & 0x00FF) as int as byte]
  }

  lemma LowOfByte(x: bv16)
    requires x < 256
    ensures Low(x as int as byte) == x
  {
  }

  lemma CrcOfTwo(a: byte, b: byte)
    ensures Crc(0, [a, b]) == CrcByte(CrcByte(0, Low(a)), Low(b))
  {
    hide CrcByte, Low;
    assert [a, b][1..] == [b] && [b][1..] == [];
    assert Crc(CrcByte(CrcByte(0, Low(a)), Low(b)), []) == CrcByte(CrcByte(0, Low(a)), Low(b));
  }

  /** Every remainder is that of a message of two bytes. */
  lemma EveryRemainder(r: bv16)
    ensures Remainder(WordBytes(UnshiftN(r, 16))) == r
  {
    hide Remainder, CrcByte, Low, ShiftN, UnshiftN;
    var w := UnshiftN(r, 16);
    var buf := WordBytes(w);
    Halves(w);
    LowOfByte(w >> 8);
    LowOfByte(w & 0x00FF);
    CrcIsRemainder(buf);
    CrcOfTwo(buf[0], buf[1]);
    assert buf == [buf[0], buf[1]];
    TwoBytes(w);
    ShiftsUndone(r, 16);
  }
}
