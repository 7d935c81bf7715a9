/** The payload checksum: the reflected CRC-32 of section 8 of RFC 1952.
    The table-driven loop is proved against a bit-serial shift register. */
module Crc32 {
  import opened Bytes

  const POLYNOMIAL: bv32 := 0xEDB88320
  const ALL_ONES: bv32 := 0xFFFFFFFF

  // ---- the shift register, one bit at a time -------------------------------

  function Mix(c: bv32, w: bv32): bv32 {
    c ^ w
  }

  function Half(c: bv32): bv32 {
    c >> 1
  }

  /** One shift of the register, dividing by the polynomial when a one falls out. */
  function Shift(c: bv32): bv32 {
    if c & 1 == 1 then Mix(POLYNOMIAL, Half(c)) else Half(c)
  }

  function BitWord(b: bool): bv32 {
    if b then 1 else 0
  }

  /** The register after one message bit. */
  ghost function Absorb(c: bv32, b: bool): bv32 {
    Shift(Mix(c, BitWord(b)))
  }

  /** The register after a string of message bits. */
  ghost function Feed(c: bv32, bits: seq<bool>): bv32
    decreases |bits|
  {
    if bits == [] then c else Feed(Absorb(c, bits[0]), bits[1..])
  }

  /** The n low bits of a number in the order they are sent, least significant first. */
  function LowBits(n: nat, v: nat): (bits: seq<bool>)
    ensures |bits| == n
  {
    if n == 0 then [] else [v % 2 == 1] + LowBits(n - 1, v / 2)
  }

  function BitsOf(b: byte): (bits: seq<bool>)
    ensures |bits| == 8
  {
    LowBits(8, b)
  }

  ghost function Bits(data: bytes): (bits: seq<bool>)
    ensures |bits| == 8 * |data|
  {
    if data == [] then [] else BitsOf(data[0]) + Bits(data[1..])
  }

  /** Reference definition of the checksum. */
  ghost function Checksum(data: bytes): u32 {
    Mix(Feed(ALL_ONES, Bits(data)), ALL_ONES) as int
  }

  // ---- algebra of the register ----------------------------------------------

  lemma MixCommutes(a: bv32, b: bv32)
    ensures Mix(a, b) == Mix(b, a)
  {
  }

  lemma MixAssociates(a: bv32, b: bv32, c: bv32)
    ensures Mix(Mix(a, b), c) == Mix(a, Mix(b, c))
  {
  }

  lemma MixSwap(a: bv32, b: bv32, c: bv32, d: bv32)
    ensures Mix(Mix(a, b), Mix(c, d)) == Mix(Mix(a, c), Mix(b, d))
  {
    hide Mix;
    MixAssociates(a, b, Mix(c, d));
    MixAssociates(b, c, d);
    MixCommutes(b, c);
    MixAssociates(c, b, d);
    MixAssociates(a, c, Mix(b, d));
  }

  function Tap(c: bv32): bv32 {
    if c & 1 == 1 then POLYNOMIAL else 0
  }

  lemma MixZero(w: bv32)
    ensures Mix(0, w) == w
  {
  }

  lemma ShiftParts(c: bv32)
    ensures Shift(c) == Mix(Tap(c), Half(c))
  {
    MixZero(Half(c));
    hide Mix, Half;
  }

  lemma TapMix(a: bv32, b: bv32)
    ensures Tap(Mix(a, b)) == Mix(Tap(a), Tap(b))
  {
  }

  lemma HalfMix(a: bv32, b: bv32)
    ensures Half(Mix(a, b)) == Mix(Half(a), Half(b))
  {
  }

  /** The register is linear: it acts on each of two superposed states alone. */
  lemma ShiftMix(a: bv32, b: bv32)
    ensures Shift(Mix(a, b)) == Mix(Shift(a), Shift(b))
  {
    hide Shift, Tap, Half, Mix;
    ShiftParts(a);
    ShiftParts(b);
    ShiftParts(Mix(a, b));
    TapMix(a, b);
    HalfMix(a, b);
    MixSwap(Tap(a), Half(a), Tap(b), Half(b));
  }

  lemma ShiftInjective(a: bv32, b: bv32)
    requires Shift(a) == Shift(b)
    ensures a == b
  {
  }

  lemma MixInjective(a: bv32, b: bv32, w: bv32)
    requires Mix(a, w) == Mix(b, w) || Mix(w, a) == Mix(w, b)
    ensures a == b
  {
    assert (a ^ w) ^ w == a && (b ^ w) ^ w == b;
    assert w ^ (w ^ a) == a && w ^ (w ^ b) == b;
  }

  lemma AbsorbInjective(a: bv32, b: bv32, bit: bool)
    requires Absorb(a, bit) == Absorb(b, bit)
    ensures a == b
  {
    hide Shift, Mix, BitWord;
    ShiftInjective(Mix(a, BitWord(bit)), Mix(b, BitWord(bit)));
    MixInjective(a, b, BitWord(bit));
  }

  ghost function Shifts(n: nat, c: bv32): bv32 {
    if n == 0 then c else Shifts(n - 1, Shift(c))
  }

  lemma {:induction false} ShiftsInjective(n: nat, a: bv32, b: bv32)
    requires Shifts(n, a) == Shifts(n, b)
    ensures a == b
  {
    hide Shift;
    if n > 0 {
      ShiftsInjective(n - 1, Shift(a), Shift(b));
      ShiftInjective(a, b);
    }
  }

  // ---- short bit strings as words ---------------------------------------------

  function Double(w: bv32): bv32 {
    w << 1
  }

  function Push(b: bool, w: bv32): bv32 {
    if b then 1 | Double(w) else Double(w)
  }

  /** A bit string as a number, first bit least significant. */
  function Word(bits: seq<bool>): bv32 {
    if bits == [] then 0 else Push(bits[0], Word(bits[1..]))
  }

  /** The number with the low n bits set. */
  ghost function Low(n: nat): bv32 {
    if n == 0 then 0 else Push(true, Low(n - 1))
  }

  predicate Within(w: bv32, mask: bv32) {
    w | mask == mask
  }

  const HALF: bv32 := 0x7FFF_FFFF

  lemma EvenWithin(w: bv32, mask: bv32)
    requires Within(w, mask)
    ensures Within(Double(w), 1 | Double(mask))
  {
  }

  lemma OddWithin(w: bv32, mask: bv32)
    requires Within(w, mask)
    ensures Within(1 | Double(w), 1 | Double(mask))
  {
  }

  lemma PushWithin(b: bool, w: bv32, mask: bv32)
    requires Within(w, mask)
    ensures Within(Push(b, w), Push(true, mask))
  {
    hide Within, Double;
    if b {
      OddWithin(w, mask);
    } else {
      EvenWithin(w, mask);
    }
  }

  lemma {:induction false} LowGrows(m: nat, n: nat)
    requires m <= n
    ensures Within(Low(m), Low(n))
    decreases n
  {
    if 0 < m {
      LowGrows(m - 1, n - 1);
      hide Push, Within;
      PushWithin(true, Low(m - 1), Low(n - 1));
    }
  }

  lemma {:induction false} WordFits(bits: seq<bool>)
    ensures Within(Word(bits), Low(|bits|))
  {
    if bits != [] {
      WordFits(bits[1..]);
      hide Push, Within;
      PushWithin(bits[0], Word(bits[1..]), Low(|bits| - 1));
    }
  }

  lemma WithinTransitive(a: bv32, b: bv32, c: bv32)
    requires Within(a, b) && Within(b, c)
    ensures Within(a, c)
  {
  }

  lemma Low31()
    ensures Low(31) == HALF
  {
    assert Low(4) == 0xF && Low(8) == 0xFF;
    assert Low(12) == 0xFFF && Low(16) == 0xFFFF && Low(20) == 0xF_FFFF;
    assert Low(24) == 0xFF_FFFF && Low(28) == 0xFFF_FFFF;
  }

  lemma WordHasRoom(bits: seq<bool>)
    requires |bits| <= 31
    ensures Within(Word(bits), HALF)
  {
    WordFits(bits);
    LowGrows(|bits|, 31);
    Low31();
    hide Push, Within, Word, Low;
    WithinTransitive(Word(bits), Low(|bits|), HALF);
  }

  lemma PushInjective(a: bool, v: bv32, b: bool, w: bv32)
    requires Within(v, HALF) && Within(w, HALF)
    requires Push(a, v) == Push(b, w)
    ensures a == b && v == w
  {
  }

  lemma {:induction false} WordInjective(x: seq<bool>, y: seq<bool>)
    requires |x| == |y| <= 32 && Word(x) == Word(y)
    ensures x == y
  {
    hide Push, Within;
    if x != [] {
      WordHasRoom(x[1..]);
      WordHasRoom(y[1..]);
      PushInjective(x[0], Word(x[1..]), y[0], Word(y[1..]));
      WordInjective(x[1..], y[1..]);
      assert x == [x[0]] + x[1..] && y == [y[0]] + y[1..];
    }
  }

  lemma MixBit(b: bool, w: bv32)
    ensures Mix(BitWord(b), Double(w)) == Push(b, w)
  {
  }

  lemma ShiftUndoesDouble(w: bv32)
    requires Within(w, HALF)
    ensures Shift(Double(w)) == w
  {
  }

  lemma AbsorbMix(c: bv32, b: bool, w: bv32)
    requires Within(w, HALF)
    ensures Mix(Absorb(c, b), w) == Shift(Mix(c, Push(b, w)))
  {
    hide Shift, Mix, BitWord, Push, Within, Double;
    MixAssociates(c, BitWord(b), Double(w));
    MixBit(b, w);
    ShiftUndoesDouble(w);
    ShiftMix(Mix(c, BitWord(b)), Double(w));
  }

  /** Feeding at most 32 bits is adding them to the register and shifting that often. */
  lemma {:induction false} FeedWord(c: bv32, bits: seq<bool>)
    requires |bits| <= 32
    ensures Feed(c, bits) == Shifts(|bits|, Mix(c, Word(bits)))
    decreases |bits|
  {
    if bits == [] {
      assert Mix(c, 0) == c;
    } else {
      hide Shift, Mix, Absorb, Push, Within;
      FeedWord(Absorb(c, bits[0]), bits[1..]);
      WordHasRoom(bits[1..]);
      AbsorbMix(c, bits[0], Word(bits[1..]));
    }
  }

  lemma {:induction false} FeedAppend(c: bv32, x: seq<bool>, y: seq<bool>)
    ensures Feed(c, x + y) == Feed(Feed(c, x), y)
    decreases |x|
  {
    hide Absorb;
    if x == [] {
      assert x + y == y;
    } else {
      FeedAppend(Absorb(c, x[0]), x[1..], y);
      assert (x + y)[1..] == x[1..] + y;
    }
  }

  lemma {:induction false} FeedInjective(a: bv32, b: bv32, bits: seq<bool>)
    requires Feed(a, bits) == Feed(b, bits)
    ensures a == b
    decreases |bits|
  {
    hide Absorb;
    if bits != [] {
      FeedInjective(Absorb(a, bits[0]), Absorb(b, bits[0]), bits[1..]);
      AbsorbInjective(a, b, bits[0]);
    }
  }

  // ---- error detection --------------------------------------------------------

  lemma FeedShortInjective(c: bv32, x: seq<bool>, y: seq<bool>)
    requires |x| == |y| <= 32 && Feed(c, x) == Feed(c, y)
    ensures x == y
  {
    hide Mix, Feed, Word, Shifts;
    FeedWord(c, x);
    FeedWord(c, y);
    ShiftsInjective(|x|, Mix(c, Word(x)), Mix(c, Word(y)));
    MixInjective(Word(x), Word(y), c);
    WordInjective(x, y);
  }

  /** The register never ends alike on two streams that differ only in a short window. */
  lemma FeedDetectsBurst(c: bv32, before: seq<bool>, x: seq<bool>, y: seq<bool>, after: seq<bool>)
    requires |x| == |y| <= 32 && x != y
    ensures Feed(c, before + x + after) != Feed(c, before + y + after)
  {
    hide Feed;
    var mid := Feed(c, before);
    FeedAppend(c, before + x, after);
    FeedAppend(c, before + y, after);
    FeedAppend(c, before, x);
    FeedAppend(c, before, y);
    if Feed(Feed(mid, x), after) == Feed(Feed(mid, y), after) {
      FeedInjective(Feed(mid, x), Feed(mid, y), after);
      FeedShortInjective(mid, x, y);
    }
  }

  lemma {:induction false} BitsAppend(x: bytes, y: bytes)
    ensures Bits(x + y) == Bits(x) + Bits(y)
  {
    hide BitsOf;
    if x == [] {
      assert x + y == y;
    } else {
      BitsAppend(x[1..], y);
      assert (x + y)[1..] == x[1..] + y;
      SeqAssociates(BitsOf(x[0]), Bits(x[1..]), Bits(y));
    }
  }

  lemma {:induction false} BitsInjective(x: bytes, y: bytes)
    requires Bits(x) == Bits(y)
    ensures x == y
  {
    if x != [] {
      assert Bits(x)[..8] == BitsOf(x[0]) && Bits(y)[..8] == BitsOf(y[0]);
      assert Bits(x)[8..] == Bits(x[1..]) && Bits(y)[8..] == Bits(y[1..]);
      BitsOfInjective(x[0], y[0]);
      BitsInjective(x[1..], y[1..]);
      assert x == [x[0]] + x[1..] && y == [y[0]] + y[1..];
    }
  }

  ghost function Pow2(n: nat): nat {
    if n == 0 then 1 else 2 * Pow2(n - 1)
  }

  lemma {:induction false} LowBitsInjective(n: nat, a: nat, b: nat)
    requires a < Pow2(n) && b < Pow2(n) && LowBits(n, a) == LowBits(n, b)
    ensures a == b
  {
    if n > 0 {
      assert LowBits(n, a)[0] == LowBits(n, b)[0];
      assert LowBits(n, a)[1..] == LowBits(n - 1, a / 2) && LowBits(n, b)[1..] == LowBits(n - 1, b / 2);
      LowBitsInjective(n - 1, a / 2, b / 2);
    }
  }

  lemma BitsOfInjective(a: byte, b: byte)
    requires BitsOf(a) == BitsOf(b)
    ensures a == b
  {
    assert Pow2(8) == 256 by { assert Pow2(4) == 16; }
    LowBitsInjective(8, a, b);
  }

  lemma ChecksumReadsRegister(x: bytes, y: bytes)
    ensures Checksum(x) == Checksum(y) <==> Feed(ALL_ONES, Bits(x)) == Feed(ALL_ONES, Bits(y))
  {
    hide Feed, Bits, Mix;
    var (a, b) := (Feed(ALL_ONES, Bits(x)), Feed(ALL_ONES, Bits(y)));
    if Checksum(x) == Checksum(y) {
      WordOfInt(Mix(a, ALL_ONES));
      WordOfInt(Mix(b, ALL_ONES));
      MixInjective(a, b, ALL_ONES);
    }
  }

  lemma WordOfInt(w: bv32)
    ensures (w as int) as bv32 == w
  {
  }

  /** x and y differ, but only inside one window of at most 32 consecutive bits. */
  ghost predicate BurstError(x: bytes, y: bytes) {
    && |x| == |y| && x != y
    && exists lo: nat, hi: nat ::
         lo <= hi <= 8 * |x| && hi - lo <= 32
         && Bits(x)[..lo] == Bits(y)[..lo] && Bits(x)[hi..] == Bits(y)[hi..]
  }

  /** Two payloads that differ by one burst of at most 32 bits never share a checksum. */
  lemma ChecksumDetectsBurst(x: bytes, y: bytes)
    requires BurstError(x, y)
    ensures Checksum(x) != Checksum(y)
  {
    hide Feed, Bits;
    var (p, q) := (Bits(x), Bits(y));
    var lo: nat, hi: nat :|
      lo <= hi <= 8 * |x| && hi - lo <= 32 && p[..lo] == q[..lo] && p[hi..] == q[hi..];
    assert p == p[..lo] + p[lo..hi] + p[hi..] && q == p[..lo] + q[lo..hi] + p[hi..];
    if p[lo..hi] == q[lo..hi] {
      BitsInjective(x, y);
    } else {
      FeedDetectsBurst(ALL_ONES, p[..lo], p[lo..hi], q[lo..hi], p[hi..]);
      ChecksumReadsRegister(x, y);
    }
  }

  /** In bytes: damage confined to four consecutive bytes is always detected. */
  lemma ChecksumDetectsFourBytes(before: bytes, x: bytes, y: bytes, after: bytes)
    requires |x| == |y| <= 4 && x != y
    ensures Checksum(before + x + after) != Checksum(before + y + after)
  {
    hide Feed, Bits;
    var (p, q) := (before + x + after, before + y + after);
    BitsAppend(before + x, after);
    BitsAppend(before + y, after);
    BitsAppend(before, x);
    BitsAppend(before, y);
    if Bits(x) == Bits(y) {
      BitsInjective(x, y);
    } else {
      FeedDetectsBurst(ALL_ONES, Bits(before), Bits(x), Bits(y), Bits(after));
      ChecksumReadsRegister(p, q);
    }
  }

  // ---- the table-driven form ----------------------------------------------------

  /** A byte widened to the register width. */
  function ByteWord(b: byte): bv32 {
    Word(BitsOf(b))
  }

  lemma {:induction false} ShiftsMix(n: nat, a: bv32, b: bv32)
    ensures Shifts(n, Mix(a, b)) == Mix(Shifts(n, a), Shifts(n, b))
  {
    hide Shift, Mix;
    if n > 0 {
      ShiftMix(a, b);
      ShiftsMix(n - 1, Shift(a), Shift(b));
    }
  }

  function LowByte(c: bv32): bv32 {
    c & 0xFF
  }

  function HighBytes(c: bv32): bv32 {
    c & 0xFFFF_FF00
  }

  lemma SplitLowByte(c: bv32)
    ensures c == Mix(LowByte(c), HighBytes(c))
  {
  }

  lemma EightShifts(c: bv32)
    requires c & 0xFF == 0
    ensures Shift(Shift(Shift(Shift(Shift(Shift(Shift(Shift(c)))))))) == c >> 8
  {
  }

  lemma ShiftsOfHighBytes(c: bv32)
    requires c & 0xFF == 0
    ensures Shifts(8, c) == c >> 8
  {
    hide Shift;
    EightShifts(c);
    var (d, e) := (Shift(Shift(c)), Shift(Shift(Shift(Shift(c)))));
    assert Shifts(8, c) == Shifts(6, d);
    assert Shifts(6, d) == Shifts(4, e);
    assert Shifts(4, e) == Shifts(2, Shift(Shift(e)));
    assert Shifts(2, Shift(Shift(e))) == Shifts(0, Shift(Shift(Shift(Shift(e)))));
  }

  lemma HighBytesOfMix(c: bv32, w: bv32)
    requires Within(w, 0xFF)
    ensures HighBytes(Mix(c, w)) >> 8 == c >> 8
    ensures HighBytes(Mix(c, w)) & 0xFF == 0
  {
  }

  lemma ByteWordFits(b: byte)
    ensures Within(ByteWord(b), 0xFF)
  {
    WordFits(BitsOf(b));
    assert Low(8) == 0xFF by { assert Low(4) == 0xF; }
  }

  /** One table lookup advances the register by a whole byte. */
  lemma LookupStep(c: bv32, b: byte)
    ensures Feed(c, BitsOf(b)) == Mix(Shifts(8, LowByte(Mix(c, ByteWord(b)))), c >> 8)
  {
    hide Feed, Shifts, Mix, BitsOf, Word, Within, LowByte, HighBytes;
    var x := Mix(c, ByteWord(b));
    FeedWord(c, BitsOf(b));
    ByteWordFits(b);
    SplitLowByte(x);
    ShiftsMix(8, LowByte(x), HighBytes(x));
    HighBytesOfMix(c, ByteWord(b));
    ShiftsOfHighBytes(HighBytes(x));
  }

  method BuildTable() returns (table: array<bv32>)
    ensures fresh(table) && table.Length == 256
    ensures forall j :: 0 <= j < 256 ==> table[j] == Shifts(8, j as bv32)
  {
    hide Shift;
    table := new bv32[256];
    for i := 0 to 256
      invariant forall j :: 0 <= j < i ==> table[j] == Shifts(8, j as bv32)
    {
      var c := i as bv32;
      for k := 0 to 8
        invariant Shifts(8 - k, c) == Shifts(8, i as bv32)
      {
        c := Shift(c);
      }
      table[i] := c;
    }
  }

  /** The table-driven loop computes the bit-serial checksum. */
  method Compute(data: bytes) returns (crc: u32)
    ensures crc == Checksum(data)
  {
    hide Shift, Mix, LowByte, BitsOf, Word, Feed;
    var table := BuildTable();
    var c := ALL_ONES;
    assert data[0..] == data;
    for i := 0 to |data|
      invariant forall j :: 0 <= j < 256 ==> table[j] == Shifts(8, j as bv32)
      invariant Feed(c, Bits(data[i..])) == Feed(ALL_ONES, Bits(data))
    {
      var index := LowByte(Mix(c, ByteWord(data[i])));
      LowByteIsIndex(Mix(c, ByteWord(data[i])));
      WordOfInt(index);
      LookupStep(c, data[i]);
      assert Bits(data[i..]) == BitsOf(data[i]) + Bits(data[i + 1..]) by {
        assert data[i..][1..] == data[i + 1..];
      }
      FeedAppend(c, BitsOf(data[i]), Bits(data[i + 1..]));
      assert table[index as int] == Shifts(8, index);
      c := Mix(table[index as int], c >> 8);
    }
    assert Feed(c, []) == c by { FeedNothing(c); }
    crc := Mix(c, ALL_ONES) as int;
  }

  lemma FeedNothing(c: bv32)
    ensures Feed(c, []) == c
  {
  }

  lemma LowByteIsIndex(c: bv32)
    ensures LowByte(c) as int < 256
  {
  }
}
