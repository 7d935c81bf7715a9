/** The frame layout: len(4) cmd(2) flags(1) ver(1) seq(4) crc(4) payload,
    where len counts the bytes after itself and crc covers the payload. */
module FrameCodec {
  import opened Bytes
  import Crc32

  const HEADER_AFTER_LEN := 12
  const HEADER_TOTAL := 16
  const MAX_FRAME_BYTES := 0x10_0000

  datatype Header = Header(cmd: u16, flags: byte, ver: byte, seqNo: u32, crc: u32)

  datatype Message = Message(cmd: u16, flags: byte, ver: byte, seqNo: u32, payload: bytes)

  // ---- packing -----------------------------------------------------------------

  function HeaderBytes(len: u32, h: Header): (b: bytes)
    ensures |b| == HEADER_TOTAL
  {
    Le32(len) + Le16(h.cmd) + [h.flags, h.ver] + Le32(h.seqNo) + Le32(h.crc)
  }

  ghost function HeaderOf(m: Message): Header {
    Header(m.cmd, m.flags, m.ver, m.seqNo, Crc32.Checksum(m.payload))
  }

  /** The bytes of a frame; the length word is truncated to 32 bits. */
  ghost function Frame(m: Message): bytes {
    HeaderBytes(TruncateU32(HEADER_AFTER_LEN + |m.payload|), HeaderOf(m)) + m.payload
  }

  method PutLe16(out: array<byte>, at: nat, v: u16)
    requires at + 2 <= out.Length
    modifies out
    ensures out[..] == old(out[..at]) + Le16(v) + old(out[at + 2..])
  {
    out[at] := v % 256;
    out[at + 1] := v / 256;
  }

  method PutLe32(out: array<byte>, at: nat, v: u32)
    requires at + 4 <= out.Length
    modifies out
    ensures out[..] == old(out[..at]) + Le32(v) + old(out[at + 4..])
  {
    out[at] := v % 256;
    out[at + 1] := v / 256 % 256;
    out[at + 2] := v / 256 / 256 % 256;
    out[at + 3] := v / 256 / 256 / 256;
  }

  method CopyPayload(out: array<byte>, payload: bytes)
    requires out.Length == HEADER_TOTAL + |payload|
    modifies out
    ensures out[..] == old(out[..HEADER_TOTAL]) + payload
  {
    for i := 0 to |payload|
      invariant out[..HEADER_TOTAL] == old(out[..HEADER_TOTAL])
      invariant out[HEADER_TOTAL..HEADER_TOTAL + i] == payload[..i]
    {
      out[HEADER_TOTAL + i] := payload[i];
    }
    assert out[..] == out[..HEADER_TOTAL] + out[HEADER_TOTAL..HEADER_TOTAL + |payload|];
  }

  /** Everything in front of the checksum. */
  function FieldBytes(len: u32, m: Message): (b: bytes)
    ensures |b| == 12
  {
    Le32(len) + Le16(m.cmd) + [m.flags, m.ver] + Le32(m.seqNo)
  }

  method PutFields(out: array<byte>, len: u32, m: Message)
    requires out.Length >= HEADER_TOTAL
    modifies out
    ensures out[..12] == FieldBytes(len, m)
  {
    hide Le16, Le32;
    PutLe32(out, 0, len);
    PutLe16(out, 4, m.cmd);
    assert out[..6] == Le32(len) + Le16(m.cmd);
    out[6] := m.flags;
    out[7] := m.ver;
    assert out[..8] == out[..6] + [m.flags, m.ver];
    PutLe32(out, 8, m.seqNo);
  }

  /** Fills the buffer field by field, the checksum last. */
  method Pack(cmd: u16, flags: byte, ver: byte, seqNo: u32, payload: bytes) returns (out: array<byte>)
    ensures fresh(out) && out[..] == Frame(Message(cmd, flags, ver, seqNo, payload))
  {
    hide Le16, Le32, FieldBytes, TruncateU32, Crc32.Checksum;
    ghost var m := Message(cmd, flags, ver, seqNo, payload);
    out := new byte[HEADER_TOTAL + |payload|];
    var len := TruncateU32(HEADER_AFTER_LEN + |payload|);
    PutFields(out, len, Message(cmd, flags, ver, seqNo, payload));
    CopyPayload(out, payload);
    assert out[..12] == out[..HEADER_TOTAL][..12] == FieldBytes(len, m);
    assert out[HEADER_TOTAL..] == payload;
    var crc := Crc32.Compute(out[HEADER_TOTAL..]);
    PutLe32(out, 12, crc);
    FieldsThenChecksum(len, m);
    assert out[..] == FieldBytes(len, m) + Le32(crc) + payload;
  }

  lemma FieldsThenChecksum(len: u32, m: Message)
    ensures HeaderBytes(len, HeaderOf(m)) == FieldBytes(len, m) + Le32(Crc32.Checksum(m.payload))
  {
    hide Le16, Le32, Crc32.Checksum;
  }

  // ---- parsing -----------------------------------------------------------------

  datatype Verdict =
    | NeedMore
    | Desync
    | Parsed(hdr: Header, payload: bytes, crcOk: bool, total: nat)

  function HeaderAt(s: bytes): Header
    requires |s| >= HEADER_TOTAL
  {
    Header(GetLe16(s[4..]), s[6], s[7], GetLe32(s[8..]), GetLe32(s[12..]))
  }

  /** What the unread bytes s start with. */
  ghost function Head(s: bytes): (v: Verdict)
    ensures v.Parsed? ==> HEADER_TOTAL <= v.total <= |s|
  {
    if |s| < 4 then NeedMore
    else
      var len := GetLe32(s);
      if len > MAX_FRAME_BYTES then Desync
      else if |s| < 4 + len then NeedMore
      else if len < HEADER_AFTER_LEN then Desync
      else
        var payload := s[HEADER_TOTAL..4 + len];
        Parsed(HeaderAt(s), payload, Crc32.Checksum(payload) == HeaderAt(s).crc, 4 + len)
  }

  method TryParseOne(acc: bytes, offset: nat)
    returns (ok: bool, next: nat, hdr: Header, payload: bytes, crcOk: bool)
    requires offset <= |acc|
    ensures ok <==> Head(acc[offset..]).Parsed?
    ensures ok ==> offset <= next && Head(acc[offset..]) == Parsed(hdr, payload, crcOk, next - offset)
    ensures !ok ==> next == if Head(acc[offset..]).Desync? then |acc| else offset
  {
    ok, next, hdr, payload, crcOk := false, offset, Header(0, 0, 1, 0, 0), [], false;
    var avail := |acc| - offset;
    if avail < 4 {
      return;
    }
    var base := acc[offset..];
    var len := GetLe32(base);
    if len > MAX_FRAME_BYTES {
      next := |acc|;
      return;
    }
    var total := 4 + len;
    if avail < total {
      return;
    }
    if len < HEADER_AFTER_LEN {
      next := |acc|;
      return;
    }
    hdr := Header(GetLe16(base[4..]), base[6], base[7], GetLe32(base[8..]), GetLe32(base[12..]));
    payload := base[HEADER_TOTAL..total];
    var crc := Crc32.Compute(payload);
    crcOk := crc == hdr.crc;
    ok, next := true, offset + total;
  }

  // ---- laws --------------------------------------------------------------------

  predicate Fits(m: Message) {
    HEADER_AFTER_LEN + |m.payload| <= MAX_FRAME_BYTES
  }

  lemma HeaderFields(len: u32, h: Header, rest: bytes)
    ensures var s := HeaderBytes(len, h) + rest; GetLe32(s) == len && HeaderAt(s) == h
  {
    hide Le16, Le32;
    var s := HeaderBytes(len, h) + rest;
    assert s == Le32(len) + s[4..];
    assert s[4..] == Le16(h.cmd) + s[6..];
    assert s[8..] == Le32(h.seqNo) + s[12..];
    assert s[12..] == Le32(h.crc) + s[16..];
    Le32RoundTrip(len, s[4..]);
    Le16RoundTrip(h.cmd, s[6..]);
    Le32RoundTrip(h.seqNo, s[12..]);
    Le32RoundTrip(h.crc, s[16..]);
  }

  /** What the parser makes of m's header followed by any payload of m's length. */
  lemma HeadOfTampered(m: Message, payload: bytes, rest: bytes)
    requires Fits(m) && |payload| == |m.payload|
    ensures Head(HeaderBytes(HEADER_AFTER_LEN + |m.payload|, HeaderOf(m)) + payload + rest)
         == Parsed(HeaderOf(m), payload, Crc32.Checksum(payload) == Crc32.Checksum(m.payload),
                   HEADER_TOTAL + |payload|)
  {
    hide HeaderBytes, HeaderAt, GetLe32, Crc32.Checksum;
    var header := HeaderBytes(HEADER_AFTER_LEN + |m.payload|, HeaderOf(m));
    var s := header + payload + rest;
    assert s == header + (payload + rest);
    HeaderFields(HEADER_AFTER_LEN + |m.payload|, HeaderOf(m), payload + rest);
    assert s[HEADER_TOTAL..HEADER_TOTAL + |payload|] == payload;
  }

  /** A packed frame is parsed back, whatever follows it, exactly when it fits the limit. */
  lemma PackParse(m: Message, rest: bytes)
    ensures Head(Frame(m) + rest) == Parsed(HeaderOf(m), m.payload, true, |Frame(m)|) <==> 12 + |m.payload| <= 0x10_0000
  {
    hide HeaderBytes, HeaderAt, GetLe32, Crc32.Checksum;
    if Fits(m) {
      HeadOfTampered(m, m.payload, rest);
    } else {
      var len := TruncateU32(HEADER_AFTER_LEN + |m.payload|);
      var s := Frame(m) + rest;
      assert s == HeaderBytes(len, HeaderOf(m)) + (m.payload + rest);
      HeaderFields(len, HeaderOf(m), m.payload + rest);
    }
  }

  /** A frame that parses with a good checksum is what pack makes of its fields. */
  lemma ParsePack(s: bytes)
    requires Head(s).Parsed? && Head(s).crcOk
    ensures var v := Head(s);
            s[..v.total] == Frame(Message(v.hdr.cmd, v.hdr.flags, v.hdr.ver, v.hdr.seqNo, v.payload))
  {
    hide Le32, GetLe32, Crc32.Checksum;
    var v := Head(s);
    Le32Unique(s);
    Le32Unique(s[8..]);
    Le32Unique(s[12..]);
    assert Le16(GetLe16(s[4..])) == s[4..6];
    assert s[..v.total] == s[..4] + s[4..6] + [s[6], s[7]] + s[8..12] + s[12..16] + s[16..v.total];
  }

  /** Bytes that arrive later never change a verdict already reached. */
  lemma HeadStable(s: bytes, more: bytes)
    requires !Head(s).NeedMore?
    ensures Head(s + more) == Head(s)
  {
    hide Crc32.Checksum;
    var len := GetLe32(s);
    assert GetLe32(s + more) == len;
    if Head(s).Parsed? {
      assert (s + more)[HEADER_TOTAL..4 + len] == s[HEADER_TOTAL..4 + len];
      assert HeaderAt(s + more) == HeaderAt(s);
    }
  }

  lemma HeadOfPartialFrame(m: Message, n: nat)
    requires Fits(m) && n < |Frame(m)|
    ensures Head(Frame(m)[..n]) == NeedMore
  {
    hide HeaderBytes, HeaderAt, Crc32.Checksum;
    var s := Frame(m)[..n];
    if n >= 4 {
      HeaderFields(HEADER_AFTER_LEN + |m.payload|, HeaderOf(m), m.payload);
      assert GetLe32(s) == GetLe32(Frame(m));
    }
  }

  // ---- the layout, byte by byte ------------------------------------------------

  /** A number of four bytes, the first the least significant. */
  function Number(b: bytes): nat
    requires |b| == 4
  {
    b[0] as int + 0x100 * (b[1] as int) + 0x1_0000 * (b[2] as int) + 0x100_0000 * (b[3] as int)
  }

  lemma NumberOfLe32(v: u32)
    ensures Number(Le32(v)) == v
  {
  }

  /** Where each field of a frame is, and in which order its bytes come. */
  lemma FrameLayout(m: Message)
    requires Fits(m)
    ensures var s := Frame(m);
            && |s| == 16 + |m.payload| && s[16..] == m.payload
            && Number(s[0..4]) == 12 + |m.payload|
            && s[4] as int + 0x100 * (s[5] as int) == m.cmd && s[6] == m.flags && s[7] == m.ver
            && Number(s[8..12]) == m.seqNo && Number(s[12..16]) == Crc32.Checksum(m.payload)
  {
    var (s, len) := (Frame(m), TruncateU32(12 + |m.payload|));
    NumberOfLe32(len);
    NumberOfLe32(m.seqNo);
    NumberOfLe32(Crc32.Checksum(m.payload));
    hide Number, Le32;
    assert s[0..4] == Le32(len);
    assert s[4..6] == Le16(m.cmd);
    assert s[8..12] == Le32(m.seqNo);
    assert s[12..16] == Le32(Crc32.Checksum(m.payload));
    assert s[4] == s[4..6][0] && s[5] == s[4..6][1];
  }

  /** The parser gives up exactly on a length over 2^20, or on one under 12 whose bytes are there. */
  lemma GivesUpIff(s: bytes)
    ensures Head(s).Desync? <==>
              |s| >= 4 && var len := Number(s[..4]); len > 0x10_0000 || (len < 12 && |s| >= 4 + len)
  {
    if |s| >= 4 {
      assert Number(s[..4]) == GetLe32(s);
      hide Number, GetLe32;
    }
  }

  /** It asks for more exactly while the length, or what a length up to 2^20 announces, is incomplete. */
  lemma AsksForMoreIff(s: bytes)
    ensures Head(s).NeedMore? <==>
              |s| < 4 || var len := Number(s[..4]); len <= 0x10_0000 && |s| < 4 + len
  {
    if |s| >= 4 {
      assert Number(s[..4]) == GetLe32(s);
      hide Number, GetLe32;
    }
  }
}
