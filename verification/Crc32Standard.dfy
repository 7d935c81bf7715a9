/** Which checksum it is: the residue law and the check value of the CRC-32 of IEEE 802.3,
    as in section 8 of RFC 1952, with the checksum laid out as a frame carries it. */
module Crc32Standard {
  import opened Bytes
  import opened Crc32

  // ---- words, bit strings and numbers ------------------------------------------

  lemma DoubleValue(w: bv32)
    requires w | 0x7FFF_FFFF == 0x7FFF_FFFF
    ensures (w << 1) as int == 2 * (w as int)
    ensures (1 | (w << 1)) as int == 2 * (w as int) + 1
  {
  }

  /** The number a word stands for. */
  function Value(w: bv32): nat {
    w as int
  }

  lemma PushValue(b: bool, w: bv32)
    requires Within(w, HALF)
    ensures Value(Push(b, w)) == 2 * Value(w) + if b then 1 else 0
  {
    DoubleValue(w);
  }

  lemma LowBitsStep(n: nat, b: bool, rest: nat)
    ensures LowBits(n + 1, 2 * rest + if b then 1 else 0) == [b] + LowBits(n, rest)
  {
  }

  /** A short bit string is the bits of the number its word stands for. */
  lemma {:induction false} WordValue(bits: seq<bool>)
    requires |bits| <= 32
    ensures LowBits(|bits|, Value(Word(bits))) == bits
  {
    if bits != [] {
      hide Push, Within, LowBits, Value;
      WordHasRoom(bits[1..]);
      PushValue(bits[0], Word(bits[1..]));
      WordValue(bits[1..]);
      LowBitsStep(|bits| - 1, bits[0], Value(Word(bits[1..])));
      assert bits == [bits[0]] + bits[1..];
    }
  }

  /** The n low bits of a word, least significant first. */
  function WordBits(n: nat, w: bv32): (bits: seq<bool>)
    ensures |bits| == n
  {
    if n == 0 then [] else [w & 1 == 1] + WordBits(n - 1, Half(w))
  }

  lemma PushHalf(w: bv32)
    ensures Push(w & 1 == 1, Half(w)) == w
  {
  }

  lemma HalfWithin(w: bv32, mask: bv32)
    requires Within(w, Push(true, mask)) && Within(mask, HALF)
    ensures Within(Half(w), mask)
  {
  }

  lemma LowIsHalf(n: nat)
    requires n <= 31
    ensures Within(Low(n), HALF)
  {
    LowGrows(n, 31);
    Low31();
  }

  lemma {:induction false} WordOfBits(n: nat, w: bv32)
    requires n <= 32 && Within(w, Low(n))
    ensures Word(WordBits(n, w)) == w
  {
    if n == 0 {
      NothingWithin(w);
    } else {
      LowIsHalf(n - 1);
      HalfWithin(w, Low(n - 1));
      PushHalf(w);
      hide Push, Within, Half;
      WordOfBits(n - 1, Half(w));
      assert WordBits(n, w)[1..] == WordBits(n - 1, Half(w));
    }
  }

  lemma NothingWithin(w: bv32)
    requires Within(w, 0)
    ensures w == 0
  {
  }

  lemma AllWithin(w: bv32)
    ensures Within(w, Low(32))
  {
    Low31();
  }

  // ---- the checksum as four bytes ----------------------------------------------

  /** A number moved up by m places. */
  ghost function Raised(m: nat, high: nat): nat {
    if m == 0 then high else 2 * Raised(m - 1, high)
  }

  lemma {:induction false} LowBitsCut(m: nat, n: nat, low: nat, high: nat)
    requires low < Pow2(m)
    ensures LowBits(m + n, low + Raised(m, high)) == LowBits(m, low) + LowBits(n, high)
    decreases m
  {
    if m > 0 {
      LowBitsCut(m - 1, n, low / 2, high);
      assert low + Raised(m, high) == low % 2 + 2 * (low / 2 + Raised(m - 1, high));
    }
  }

  lemma ByteCut(n: nat, b: byte, high: nat)
    ensures LowBits(8 + n, b + 256 * high) == BitsOf(b) + LowBits(n, high)
  {
    assert Pow2(8) == 256 by { assert Pow2(4) == 16; }
    assert Raised(1, high) == 2 * high;
    assert Raised(2, high) == 4 * high;
    assert Raised(3, high) == 8 * high;
    assert Raised(4, high) == 16 * high;
    assert Raised(5, high) == 32 * high;
    assert Raised(6, high) == 64 * high;
    assert Raised(7, high) == 128 * high;
    LowBitsCut(8, n, b, high);
  }

  /** The four bytes of a number, least significant first, are its 32 bits in order. */
  lemma Le32Bits(v: u32)
    ensures Bits(Le32(v)) == LowBits(32, v)
  {
    var b := Le32(v);
    hide LowBits, BitsOf;
    ByteCut(24, b[0], v / 256);
    ByteCut(16, b[1], v / 256 / 256);
    ByteCut(8, b[2], v / 256 / 256 / 256);
    assert LowBits(8, b[3]) == BitsOf(b[3]) by { LastByte(b[3]); }
    assert b[1..][1..] == b[2..] && b[2..][1..] == b[3..] && b[3..][1..] == [];
    assert Bits(b[3..]) == BitsOf(b[3]) + [] == BitsOf(b[3]);
    assert Bits(b[2..]) == BitsOf(b[2]) + BitsOf(b[3]);
    assert Bits(b[1..]) == BitsOf(b[1]) + (BitsOf(b[2]) + BitsOf(b[3]));
    assert Bits(b) == BitsOf(b[0]) + (BitsOf(b[1]) + (BitsOf(b[2]) + BitsOf(b[3])));
  }

  lemma LastByte(b: byte)
    ensures LowBits(8, b) == BitsOf(b)
  {
  }

  /** A word, written little-endian, is fed to the register as its own bits. */
  lemma WordAsBytes(w: bv32)
    ensures Word(Bits(Le32(w as int))) == w
  {
    hide *;
    var bits := WordBits(32, w);
    AllWithin(w);
    WordOfBits(32, w);
    WordValue(bits);
    ValueIs(w);
    Le32Bits(w as int);
  }

  lemma ValueIs(w: bv32)
    ensures Value(w) == w as int
  {
  }

  // ---- the residue -------------------------------------------------------------

  lemma {:induction false} ShiftsAdd(m: nat, n: nat, c: bv32)
    ensures Shifts(m + n, c) == Shifts(n, Shifts(m, c))
    decreases m
  {
    hide Shift;
    if m > 0 {
      ShiftsAdd(m - 1, n, Shift(c));
    }
  }

  lemma AllOnesShifted()
    ensures Shifts(32, ALL_ONES) == 0xDEBB20E3
  {
    ShiftsAdd(8, 24, ALL_ONES);
    ShiftsAdd(8, 16, 0x2DFD1072);
    ShiftsAdd(8, 8, 0xBE26ED00);
    assert Shifts(8, ALL_ONES) == 0x2DFD1072;
    assert Shifts(8, 0x2DFD1072) == 0xBE26ED00;
    assert Shifts(8, 0xBE26ED00) == 0x00BE26ED;
    assert Shifts(8, 0x00BE26ED) == 0xDEBB20E3;
  }

  lemma MixSelf(c: bv32)
    ensures Mix(c, Mix(c, ALL_ONES)) == ALL_ONES
  {
  }

  /** A payload followed by its checksum leaves the same register, whatever the payload. */
  lemma Residue(data: bytes)
    ensures Feed(ALL_ONES, Bits(data + Le32(Checksum(data)))) == 0xDEBB20E3
  {
    var c := Feed(ALL_ONES, Bits(data));
    var w := Mix(c, ALL_ONES);
    hide Feed, Bits, Shifts, Mix, Le32;
    BitsAppend(data, Le32(w as int));
    FeedAppend(ALL_ONES, Bits(data), Bits(Le32(w as int)));
    WordAsBytes(w);
    FeedWord(c, Bits(Le32(w as int)));
    MixSelf(c);
    AllOnesShifted();
  }

  // ---- the check value ---------------------------------------------------------

  /** One byte of a computation carried out by hand. */
  lemma ByteFed(c: bv32, data: bytes, w: bv32, next: bv32)
    requires data != [] && ByteWord(data[0]) == w && Shifts(8, Mix(c, w)) == next
    ensures Feed(c, Bits(data)) == Feed(next, Bits(data[1..]))
  {
    hide Feed, Shifts, Mix, BitsOf;
    FeedWord(c, BitsOf(data[0]));
    FeedAppend(c, BitsOf(data[0]), Bits(data[1..]));
  }

  lemma WordStep(n: nat, b: bool, rest: nat)
    ensures Word(LowBits(n + 1, 2 * rest + if b then 1 else 0)) == Push(b, Word(LowBits(n, rest)))
  {
    hide Push;
    LowBitsStep(n, b, rest);
  }

  lemma WordOfThree()
    ensures Word(LowBits(4, 3)) == 3
  {
    assert Push(true, Push(true, Push(false, Push(false, 0)))) == 3;
    hide Push;
    WordStep(0, false, 0);
    WordStep(1, false, 0);
    WordStep(2, true, 0);
    WordStep(3, true, 1);
  }

  /** A digit as a word, from its four low bits. */
  lemma DigitWord(b: byte, b0: bool, b1: bool, b2: bool, b3: bool)
    requires b as int == 0x30 + (if b0 then 1 else 0) + (if b1 then 2 else 0) + (if b2 then 4 else 0) + (if b3 then 8 else 0)
    ensures ByteWord(b) == Push(b0, Push(b1, Push(b2, Push(b3, 3))))
  {
    hide Push, Word, LowBits;
    var v3 := 6 + if b3 then 1 else 0;
    var v2 := 2 * v3 + if b2 then 1 else 0;
    var v1 := 2 * v2 + if b1 then 1 else 0;
    WordOfThree();
    WordStep(4, b3, 3);
    WordStep(5, b2, v3);
    WordStep(6, b1, v2);
    WordStep(7, b0, v1);
  }

  lemma Digit1(data: bytes)
    requires data != [] && data[0] == 0x31
    ensures Feed(0xFFFFFFFF, Bits(data)) == Feed(0x7C231048, Bits(data[1..]))
  {
    assert Shifts(8, Mix(0xFFFFFFFF, 0x31)) == 0x7C231048;
    DigitWord(0x31, true, false, false, false);
    assert ByteWord(0x31) == 0x31;
    hide Feed, Shifts, Mix, BitsOf, Bits, Word;
    ByteFed(0xFFFFFFFF, data, 0x31, 0x7C231048);
  }

  lemma Digit2(data: bytes)
    requires data != [] && data[0] == 0x32
    ensures Feed(0x7C231048, Bits(data)) == Feed(0xB0ACBB32, Bits(data[1..]))
  {
    assert Shifts(8, Mix(0x7C231048, 0x32)) == 0xB0ACBB32;
    DigitWord(0x32, false, true, false, false);
    assert ByteWord(0x32) == 0x32;
    hide Feed, Shifts, Mix, BitsOf, Bits, Word;
    ByteFed(0x7C231048, data, 0x32, 0xB0ACBB32);
  }

  lemma Digit3(data: bytes)
    requires data != [] && data[0] == 0x33
    ensures Feed(0xB0ACBB32, Bits(data)) == Feed(0x77B79C2D, Bits(data[1..]))
  {
    assert Shifts(8, Mix(0xB0ACBB32, 0x33)) == 0x77B79C2D;
    DigitWord(0x33, true, true, false, false);
    assert ByteWord(0x33) == 0x33;
    hide Feed, Shifts, Mix, BitsOf, Bits, Word;
    ByteFed(0xB0ACBB32, data, 0x33, 0x77B79C2D);
  }

  lemma Digit4(data: bytes)
    requires data != [] && data[0] == 0x34
    ensures Feed(0x77B79C2D, Bits(data)) == Feed(0x641C1F5C, Bits(data[1..]))
  {
    assert Shifts(8, Mix(0x77B79C2D, 0x34)) == 0x641C1F5C;
    DigitWord(0x34, false, false, true, false);
    assert ByteWord(0x34) == 0x34;
    hide Feed, Shifts, Mix, BitsOf, Bits, Word;
    ByteFed(0x77B79C2D, data, 0x34, 0x641C1F5C);
  }

  lemma Digit5(data: bytes)
    requires data != [] && data[0] == 0x35
    ensures Feed(0x641C1F5C, Bits(data)) == Feed(0x340AC5E3, Bits(data[1..]))
  {
    assert Shifts(8, Mix(0x641C1F5C, 0x35)) == 0x340AC5E3;
    DigitWord(0x35, true, false, true, false);
    assert ByteWord(0x35) == 0x35;
    hide Feed, Shifts, Mix, BitsOf, Bits, Word;
    ByteFed(0x641C1F5C, data, 0x35, 0x340AC5E3);
  }

  lemma Digit6(data: bytes)
    requires data != [] && data[0] == 0x36
    ensures Feed(0x340AC5E3, Bits(data)) == Feed(0xF68D2C9E, Bits(data[1..]))
  {
    assert Shifts(8, Mix(0x340AC5E3, 0x36)) == 0xF68D2C9E;
    DigitWord(0x36, false, true, true, false);
    assert ByteWord(0x36) == 0x36;
    hide Feed, Shifts, Mix, BitsOf, Bits, Word;
    ByteFed(0x340AC5E3, data, 0x36, 0xF68D2C9E);
  }

  lemma Digit7(data: bytes)
    requires data != [] && data[0] == 0x37
    ensures Feed(0xF68D2C9E, Bits(data)) == Feed(0xAFFC9660, Bits(data[1..]))
  {
    assert Shifts(8, Mix(0xF68D2C9E, 0x37)) == 0xAFFC9660;
    DigitWord(0x37, true, true, true, false);
    assert ByteWord(0x37) == 0x37;
    hide Feed, Shifts, Mix, BitsOf, Bits, Word;
    ByteFed(0xF68D2C9E, data, 0x37, 0xAFFC9660);
  }

  lemma Digit8(data: bytes)
    requires data != [] && data[0] == 0x38
    ensures Feed(0xAFFC9660, Bits(data)) == Feed(0x651F2550, Bits(data[1..]))
  {
    assert Shifts(8, Mix(0xAFFC9660, 0x38)) == 0x651F2550;
    DigitWord(0x38, false, false, false, true);
    assert ByteWord(0x38) == 0x38;
    hide Feed, Shifts, Mix, BitsOf, Bits, Word;
    ByteFed(0xAFFC9660, data, 0x38, 0x651F2550);
  }

  lemma Digit9(data: bytes)
    requires data != [] && data[0] == 0x39
    ensures Feed(0x651F2550, Bits(data)) == Feed(0x340BC6D9, Bits(data[1..]))
  {
    assert Shifts(8, Mix(0x651F2550, 0x39)) == 0x340BC6D9;
    DigitWord(0x39, true, false, false, true);
    assert ByteWord(0x39) == 0x39;
    hide Feed, Shifts, Mix, BitsOf, Bits, Word;
    ByteFed(0x651F2550, data, 0x39, 0x340BC6D9);
  }

  /** The digits one to nine: the check value catalogued for this CRC. */
  lemma CheckValue()
    ensures Checksum([0x31, 0x32, 0x33, 0x34, 0x35, 0x36, 0x37, 0x38, 0x39]) == 0xCBF43926
  {
    var digits: bytes := [0x31, 0x32, 0x33, 0x34, 0x35, 0x36, 0x37, 0x38, 0x39];
    hide Feed, Bits;
    assert forall i | 1 <= i < 9 :: digits[i..][1..] == digits[i + 1..];
    Digit1(digits);
    Digit2(digits[1..]);
    Digit3(digits[2..]);
    Digit4(digits[3..]);
    Digit5(digits[4..]);
    Digit6(digits[5..]);
    Digit7(digits[6..]);
    Digit8(digits[7..]);
    Digit9(digits[8..]);
    assert digits[9..] == [];
    NothingFed(0x340BC6D9);
    assert Mix(0x340BC6D9, ALL_ONES) == 0xCBF43926;
  }

  lemma NothingFed(c: bv32)
    ensures Feed(c, Bits([])) == c
  {
  }
}
