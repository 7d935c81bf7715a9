/** Bytes, fixed-width unsigned integers and their little-endian layout,
    as shared by the frame codec and by the message serialisers. */
module Bytes {

  type byte = i: int | 0 <= i < 256
  type bytes = seq<byte>
  type u16 = i: int | 0 <= i < 0x1_0000
  type u32 = i: int | 0 <= i < 0x1_0000_0000

  /** static_cast<std::uint32_t>: keeps the low 32 bits. */
  function TruncateU32(n: nat): u32 {
    n % 0x1_0000_0000
  }

  function Le16(v: u16): (b: bytes)
    ensures |b| == 2
  {
    [v % 256, v / 256]
  }

  function Le32(v: u32): (b: bytes)
    ensures |b| == 4
  {
    [v % 256, v / 256 % 256, v / 256 / 256 % 256, v / 256 / 256 / 256]
  }

  function GetLe16(b: bytes): u16
    requires |b| >= 2
  {
    b[0] as int + 256 * (b[1] as int)
  }

  function GetLe32(b: bytes): u32
    requires |b| >= 4
  {
    b[0] as int + 256 * (b[1] as int + 256 * (b[2] as int + 256 * (b[3] as int)))
  }

  lemma DivMod256(low: byte, high: nat)
    ensures (low + 256 * high) % 256 == low && (low + 256 * high) / 256 == high
  {
  }

  lemma Le16RoundTrip(v: u16, rest: bytes)
    ensures GetLe16(Le16(v) + rest) == v
  {
  }

  lemma Le32RoundTrip(v: u32, rest: bytes)
    ensures GetLe32(Le32(v) + rest) == v
  {
  }

  lemma Le32Unique(b: bytes)
    requires |b| >= 4
    ensures Le32(GetLe32(b)) == b[..4]
  {
    var b3: nat := b[3];
    var b23: nat := b[2] as int + 256 * b3;
    DivMod256(b[2], b3);
    DivMod256(b[1], b23);
    DivMod256(b[0], b[1] as int + 256 * b23);
  }

  lemma SeqAssociates<T>(a: seq<T>, b: seq<T>, c: seq<T>)
    ensures a + (b + c) == (a + b) + c
  {
  }

  /** The concatenation of a list of strings. */
  function Flatten<T>(parts: seq<seq<T>>): seq<T> {
    if parts == [] then [] else parts[0] + Flatten(parts[1..])
  }

  lemma {:induction false} FlattenAppend<T>(xs: seq<seq<T>>, ys: seq<seq<T>>)
    ensures Flatten(xs + ys) == Flatten(xs) + Flatten(ys)
  {
    if xs == [] {
      assert xs + ys == ys;
    } else {
      FlattenAppend(xs[1..], ys);
      assert (xs + ys)[1..] == xs[1..] + ys;
      SeqAssociates(xs[0], Flatten(xs[1..]), Flatten(ys));
    }
  }

  lemma FlattenNothing<T>()
    ensures Flatten<T>([]) == []
  {
  }

  lemma FlattenSnoc<T>(xs: seq<seq<T>>, x: seq<T>)
    ensures Flatten(xs + [x]) == Flatten(xs) + x
  {
    FlattenAppend(xs, [x]);
    assert Flatten([x]) == x + Flatten([]);
  }
}
