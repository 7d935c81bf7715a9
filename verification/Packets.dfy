/** The login, chat and combat messages whose parsers check every read. */
module Packets {
  import opened Bytes
  import opened Wrappers
  import opened Messages

  datatype Kind = KLoginReq | KLoginRes | KChatReq | KChatBroadcast | KChatFilterReq | KCombatResult

  datatype Packet =
    | LoginReq(playerName: bytes, sessionToken: bytes)
    | LoginRes(success: bool, message: bytes, playerId: u32, mapId: u32)
    | ChatReq(text: bytes, channel: byte, targetId: u32)
    | ChatBroadcast(senderId: u32, senderName: bytes, text: bytes, channel: byte, timestamp: u32)
    | ChatFilterReq(filterType: byte, targetMessage: bytes, reporterId: u32)
    | CombatResult(winnerId: u32, loserId: u32, experience: u32, gold: u32, itemIds: seq<u32>, timestamp: u32)

  function Schema(k: Kind): seq<Field> {
    match k
    case KLoginReq => [Text, Text]
    case KLoginRes => [Flag, Text, U32, U32]
    case KChatReq => [Text, U8, U32]
    case KChatBroadcast => [U32, Text, Text, U8, U32]
    case KChatFilterReq => [U8, Text, U32]
    case KCombatResult => [U32, U32, U32, U32, Words, U32]
  }

  function KindOf(p: Packet): Kind {
    match p
    case LoginReq(_, _) => KLoginReq
    case LoginRes(_, _, _, _) => KLoginRes
    case ChatReq(_, _, _) => KChatReq
    case ChatBroadcast(_, _, _, _, _) => KChatBroadcast
    case ChatFilterReq(_, _, _) => KChatFilterReq
    case CombatResult(_, _, _, _, _, _) => KCombatResult
  }

  function Values(p: Packet): seq<Value> {
    match p
    case LoginReq(name, token) => [Str(name), Str(token)]
    case LoginRes(ok, m, id, mapId) => [Bool(ok), Str(m), Word(id), Word(mapId)]
    case ChatReq(t, c, id) => [Str(t), Byte(c), Word(id)]
    case ChatBroadcast(id, n, t, c, ts) => [Word(id), Str(n), Str(t), Byte(c), Word(ts)]
    case ChatFilterReq(f, t, id) => [Byte(f), Str(t), Word(id)]
    case CombatResult(w, l, x, g, items, ts) => [Word(w), Word(l), Word(x), Word(g), List(items), Word(ts)]
  }

  /** Strings and lists are short enough for their 32-bit length words. */
  predicate InRange(p: Packet) {
    match p
    case LoginReq(name, token) => |name| < 0x1_0000_0000 && |token| < 0x1_0000_0000
    case LoginRes(_, m, _, _) => |m| < 0x1_0000_0000
    case ChatReq(t, _, _) => |t| < 0x1_0000_0000
    case ChatBroadcast(_, n, t, _, _) => |n| < 0x1_0000_0000 && |t| < 0x1_0000_0000
    case ChatFilterReq(_, t, _) => |t| < 0x1_0000_0000
    case CombatResult(_, _, _, _, items, _) => |items| < 0x1_0000_0000
  }

  function Serialize(p: Packet): bytes {
    EncodeAll(Values(p))
  }

  lemma {:induction false} ConformsAt(fs: seq<Field>, vs: seq<Value>)
    ensures ConformsAll(fs, vs) <==> |fs| == |vs| && forall i | 0 <= i < |fs| :: Conforms(fs[i], vs[i])
    decreases |fs|
  {
    if fs != [] && vs != [] {
      ConformsAt(fs[1..], vs[1..]);
      if |fs| == |vs| {
        assert forall i | 0 <= i < |fs| - 1 :: fs[1..][i] == fs[i + 1] && vs[1..][i] == vs[i + 1];
        assert forall i | 1 <= i < |fs| :: fs[i] == fs[1..][i - 1] && vs[i] == vs[1..][i - 1];
      }
    }
  }

  lemma ValuesConform(p: Packet)
    ensures ConformsAll(Schema(KindOf(p)), Values(p)) <==> InRange(p)
  {
    var (fs, vs) := (Schema(KindOf(p)), Values(p));
    ConformsAt(fs, vs);
    hide ConformsAll;
    if forall i | 0 <= i < |fs| :: Conforms(fs[i], vs[i]) {
      match p {
        case LoginReq(_, _) => assert Conforms(fs[0], vs[0]) && Conforms(fs[1], vs[1]);
        case LoginRes(_, _, _, _) => assert Conforms(fs[1], vs[1]);
        case ChatReq(_, _, _) => assert Conforms(fs[0], vs[0]);
        case ChatBroadcast(_, _, _, _, _) => assert Conforms(fs[1], vs[1]) && Conforms(fs[2], vs[2]);
        case ChatFilterReq(_, _, _) => assert Conforms(fs[1], vs[1]);
        case CombatResult(_, _, _, _, _, _) => assert Conforms(fs[4], vs[4]);
      }
    }
  }

  function PacketOf(k: Kind, vs: seq<Value>): (p: Packet)
    requires ConformsAll(Schema(k), vs)
  {
    ConformsAt(Schema(k), vs);
    assert forall i | 0 <= i < |vs| :: Conforms(Schema(k)[i], vs[i]);
    match k
    case KLoginReq =>
      assert Conforms(Text, vs[0]) && Conforms(Text, vs[1]);
      LoginReq(vs[0].s, vs[1].s)
    case KLoginRes =>
      assert Conforms(Flag, vs[0]) && Conforms(Text, vs[1]) && Conforms(U32, vs[2]) && Conforms(U32, vs[3]);
      LoginRes(vs[0].f, vs[1].s, vs[2].w, vs[3].w)
    case KChatReq =>
      assert Conforms(Text, vs[0]) && Conforms(U8, vs[1]) && Conforms(U32, vs[2]);
      ChatReq(vs[0].s, vs[1].b, vs[2].w)
    case KChatBroadcast =>
      assert Conforms(U32, vs[0]) && Conforms(Text, vs[1]) && Conforms(Text, vs[2]);
      assert Conforms(U8, vs[3]) && Conforms(U32, vs[4]);
      ChatBroadcast(vs[0].w, vs[1].s, vs[2].s, vs[3].b, vs[4].w)
    case KChatFilterReq =>
      assert Conforms(U8, vs[0]) && Conforms(Text, vs[1]) && Conforms(U32, vs[2]);
      ChatFilterReq(vs[0].b, vs[1].s, vs[2].w)
    case KCombatResult =>
      assert Conforms(U32, vs[0]) && Conforms(U32, vs[1]) && Conforms(U32, vs[2]);
      assert Conforms(U32, vs[3]) && Conforms(Words, vs[4]) && Conforms(U32, vs[5]);
      CombatResult(vs[0].w, vs[1].w, vs[2].w, vs[3].w, vs[4].ws, vs[5].w)
  }

  function Parsed(k: Kind, s: bytes): Option<Packet> {
    var r := DecodeAll(Schema(k), s);
    if r.None? then None else Some(PacketOf(k, r.value.value))
  }

  lemma {:induction false} PacketOfValues(p: Packet)
    requires InRange(p)
    ensures ConformsAll(Schema(KindOf(p)), Values(p)) && PacketOf(KindOf(p), Values(p)) == p
  {
    ValuesConform(p);
  }

  lemma ValuesOfPacket(k: Kind, vs: seq<Value>)
    requires ConformsAll(Schema(k), vs)
    ensures KindOf(PacketOf(k, vs)) == k && Values(PacketOf(k, vs)) == vs
  {
    ConformsAt(Schema(k), vs);
    assert forall i | 0 <= i < |vs| :: Conforms(Schema(k)[i], vs[i]);
    hide ConformsAll;
  }

  /** A serialised message parses back to itself, whatever bytes follow it. */
  lemma ParseSerialize(p: Packet, rest: bytes)
    requires InRange(p)
    ensures Parsed(KindOf(p), Serialize(p) + rest) == Some(p)
  {
    hide DecodeAll, EncodeAll, ConformsAll, Schema, Values;
    PacketOfValues(p);
    RoundTrip(Schema(KindOf(p)), Values(p), rest);
  }

  /** A message that parses serialises back to the bytes it consumed; for login_res, the
      one layout with a flag, exactly when the flag byte is zero or one. */
  lemma SerializeParse(k: Kind, s: bytes)
    requires Parsed(k, s).Some?
    ensures var p := Parsed(k, s).value;
            KindOf(p) == k && (Serialize(p) <= s <==> (k.KLoginRes? ==> s != [] && s[0] <= 1))
  {
    var r := DecodeAll(Schema(k), s).value;
    ValuesOfPacket(k, r.value);
    ReEncode(Schema(k), s);
    FlagsOf(k, s);
    EncodedSizeAll(Schema(k), s);
    hide DecodeAll, EncodeAll, ConformsAll, Schema, Values, CleanFlags;
  }

  lemma {:induction false} EncodedSizeAll(fs: seq<Field>, s: bytes)
    requires DecodeAll(fs, s).Some?
    ensures |EncodeAll(DecodeAll(fs, s).value.value)| == DecodeAll(fs, s).value.size
    decreases |fs|
  {
    hide Encode, Decode, Conforms;
    if fs != [] {
      var (first, r) := (Decode(fs[0], s).value, DecodeAll(fs, s).value);
      EncodedSize(fs[0], s);
      EncodedSizeAll(fs[1..], s[first.size..]);
      assert r.value[1..] == DecodeAll(fs[1..], s[first.size..]).value.value;
    }
  }

  lemma {:induction false} NoFlags(fs: seq<Field>, s: bytes)
    requires DecodeAll(fs, s).Some? && Flag !in fs
    ensures CleanFlags(fs, s)
    decreases |fs|
  {
    hide Decode;
    if fs != [] {
      NoFlags(fs[1..], s[Decode(fs[0], s).value.size..]);
    }
  }

  lemma FlagsOf(k: Kind, s: bytes)
    requires DecodeAll(Schema(k), s).Some?
    ensures CleanFlags(Schema(k), s) <==> (k.KLoginRes? ==> s != [] && s[0] <= 1)
  {
    var fs := Schema(k);
    if k.KLoginRes? {
      assert fs[1..] == [Text, U32, U32];
      NoFlags(fs[1..], s[1..]);
    } else {
      NoFlags(fs, s);
    }
  }

  /** Cut short anywhere, a message is rejected. */
  lemma TruncatedRejected(p: Packet, n: nat)
    requires InRange(p) && n < |Serialize(p)|
    ensures Parsed(KindOf(p), Serialize(p)[..n]) == None
  {
    hide DecodeAll, EncodeAll, ConformsAll, Schema, Values;
    PacketOfValues(p);
    TruncationRejected(Schema(KindOf(p)), Values(p), n);
  }

  /** No message is a prefix of another of its kind. */
  lemma PacketsPrefixFree(p: Packet, q: Packet)
    requires InRange(p) && InRange(q) && KindOf(p) == KindOf(q) && Serialize(p) <= Serialize(q)
    ensures p == q
  {
    hide DecodeAll, EncodeAll, ConformsAll, Schema, Values;
    PacketOfValues(p);
    PacketOfValues(q);
    PrefixFree(Schema(KindOf(p)), Values(p), Values(q));
  }

  // ---- the parsers and a serialiser as they move a cursor -----------------------------------

  /** The rest of a chain, after the fields in vs have been read. */
  function Continue(fs: seq<Field>, s: bytes, vs: seq<Value>): Option<seq<Value>> {
    var r := DecodeAll(fs, s);
    if r.None? then None else Some(vs + r.value.value)
  }

  lemma ContinueStep(fs: seq<Field>, s: bytes, vs: seq<Value>)
    requires fs != []
    ensures var r := Decode(fs[0], s);
            Continue(fs, s, vs) == if r.None? then None else Continue(fs[1..], s[r.value.size..], vs + [r.value.value])
  {
    hide Decode;
    var r := Decode(fs[0], s);
    if r.Some? && DecodeAll(fs[1..], s[r.value.size..]).Some? {
      SeqAssociates(vs, [r.value.value], DecodeAll(fs[1..], s[r.value.size..]).value.value);
    }
  }

  lemma ContinueWord(fs: seq<Field>, s: bytes, vs: seq<Value>)
    requires fs != [] && fs[0] == U32
    ensures Continue(fs, s, vs) ==
      if |s| < 4 then None else Continue(fs[1..], s[4..], vs + [Word(GetLe32(s))])
  {
    hide GetLe32, Continue;
    ContinueStep(fs, s, vs);
  }

  lemma ContinueDone(s: bytes, vs: seq<Value>)
    ensures Continue([], s, vs) == Some(vs)
  {
    assert vs + [] == vs;
  }

  /** read_lp_string: the length word and then as many bytes, if they are there. */
  method ReadLpString(buf: bytes, p: nat) returns (ok: bool, next: nat, out: bytes)
    requires p <= |buf|
    ensures p <= next <= |buf|
    ensures Decode(Text, buf[p..]) == if ok then Some(Read(Str(out), next - p)) else None
  {
    ok, next, out := false, p, [];
    if |buf| - p < 4 {
      return;
    }
    var len := GetLe32(buf[p..]);
    next := p + 4;
    if len > |buf| - next {
      return;
    }
    out := buf[next..next + len];
    next := next + len;
    ok := true;
    assert buf[p..][4..4 + len] == out;
  }

  method ParseLoginReq(buf: bytes) returns (r: Option<Packet>)
    ensures r == Parsed(KLoginReq, buf)
  {
    hide Decode;
    ghost var fs := Schema(KLoginReq);
    assert buf[0..] == buf && fs[1..] == [Text] && [Text][1..] == [];
    ContinueStep(fs, buf, []);
    var ok, p, name := ReadLpString(buf, 0);
    if !ok {
      return None;
    }
    ContinueStep([Text], buf[p..], [Str(name)]);
    var token;
    ok, p, token := ReadLpString(buf, p);
    if !ok {
      return None;
    }
    ContinueDone(buf[p..], [Str(name), Str(token)]);
    return Some(LoginReq(name, token));
  }

  /** The two numbers that end login_res, read under one bounds check. */
  lemma TwoWords(s: bytes, vs: seq<Value>)
    ensures Continue([U32, U32], s, vs) ==
      if |s| < 8 then None else Some(vs + [Word(GetLe32(s)), Word(GetLe32(s[4..]))])
  {
    hide GetLe32, Continue;
    assert [U32, U32][1..] == [U32] && [U32][1..] == [];
    ContinueWord([U32, U32], s, vs);
    if |s| >= 4 {
      var us := vs + [Word(GetLe32(s))];
      ContinueWord([U32], s[4..], us);
      if |s| >= 8 {
        var w := Word(GetLe32(s[4..]));
        ContinueDone(s[4..][4..], us + [w]);
        assert us + [w] == vs + [Word(GetLe32(s)), w];
      }
    }
  }

  lemma ParsedByContinue(k: Kind, s: bytes)
    ensures var vs := Continue(Schema(k), s, []);
            vs.Some? ==> ConformsAll(Schema(k), vs.value)
    ensures Parsed(k, s) ==
      var vs := Continue(Schema(k), s, []);
      if vs.None? then None else Some(PacketOf(k, vs.value))
  {
    hide Schema;
    var r := DecodeAll(Schema(k), s);
    if r.Some? {
      assert [] + r.value.value == r.value.value;
    }
  }

  /** login_res: the two numbers at the end share one bounds check. */
  method ParseLoginRes(buf: bytes) returns (r: Option<Packet>)
    ensures r == Parsed(KLoginRes, buf)
  {
    ParsedByContinue(KLoginRes, buf);
    hide GetLe32, Continue, Parsed;
    ghost var fs := Schema(KLoginRes);
    assert fs[1..] == [Text, U32, U32] && fs[1..][1..] == [U32, U32];
    ContinueStep(fs, buf, []);
    if |buf| <= 0 {
      return None;
    }
    var success := buf[0] != 0;
    assert [] + [Bool(success)] == [Bool(success)];
    ContinueStep(fs[1..], buf[1..], [Bool(success)]);
    var ok, p, message := ReadLpString(buf, 1);
    if !ok {
      return None;
    }
    assert buf[1..][p - 1..] == buf[p..];
    assert [Bool(success)] + [Str(message)] == [Bool(success), Str(message)];
    TwoWords(buf[p..], [Bool(success), Str(message)]);
    if p + 8 > |buf| {
      return None;
    }
    assert buf[p..][4..] == buf[p + 4..];
    return Some(LoginRes(success, message, GetLe32(buf[p..]), GetLe32(buf[p + 4..])));
  }

  lemma {:induction false} WordsSnoc(n: nat, s: bytes)
    requires 4 * (n + 1) <= |s|
    ensures DecodeWords(n + 1, s).value == DecodeWords(n, s).value + [GetLe32(s[4 * n..])]
    decreases n
  {
    hide GetLe32;
    if n > 0 {
      WordsSnoc(n - 1, s[4..]);
      assert s[4..][4 * (n - 1)..] == s[4 * n..];
    } else {
      assert s[0..] == s;
    }
  }

  lemma {:induction false} EncodeWordsSnoc(ws: seq<u32>, w: u32)
    ensures EncodeWords(ws + [w]) == EncodeWords(ws) + Le32(w)
  {
    hide Le32;
    if ws == [] {
      assert ws + [w] == [w] && [w][1..] == [] && EncodeWords([w]) == Le32(w) + [];
    } else {
      EncodeWordsSnoc(ws[1..], w);
      assert (ws + [w])[1..] == ws[1..] + [w];
      SeqAssociates(Le32(ws[0]), EncodeWords(ws[1..]), Le32(w));
    }
  }

  /** The layout of combat_result_notify in one step. */
  lemma CombatResultShape(s: bytes)
    ensures Parsed(KCombatResult, s) ==
      if |s| < 20 || |s| < 24 + 4 * GetLe32(s[16..]) then None
      else
        var n := GetLe32(s[16..]);
        Some(CombatResult(GetLe32(s), GetLe32(s[4..]), GetLe32(s[8..]), GetLe32(s[12..]),
                          DecodeWords(n, s[20..]).value, GetLe32(s[20 + 4 * n..])))
  {
    ParsedByContinue(KCombatResult, s);
    hide GetLe32, DecodeWords, Continue, Parsed;
    var fs := Schema(KCombatResult);
    assert fs[4..] == [Words, U32];
    FourWords(fs, s);
    if |s| >= 16 {
      var vs := [Word(GetLe32(s)), Word(GetLe32(s[4..])), Word(GetLe32(s[8..])), Word(GetLe32(s[12..]))];
      if |s| >= 20 {
        CombatResultTail(s, vs);
      } else {
        ContinueStep(fs[4..], s[16..], vs);
      }
    }
  }

  lemma FourWords(fs: seq<Field>, s: bytes)
    requires |fs| >= 4 && fs[..4] == [U32, U32, U32, U32]
    ensures Continue(fs, s, []) ==
      if |s| < 16 then None
      else Continue(fs[4..], s[16..],
                    [Word(GetLe32(s)), Word(GetLe32(s[4..])), Word(GetLe32(s[8..])), Word(GetLe32(s[12..]))])
  {
    hide GetLe32, Continue;
    assert forall i :: 0 <= i < 4 ==> fs[i] == fs[..4][i];
    assert fs[1..][1..] == fs[2..] && fs[2..][1..] == fs[3..] && fs[3..][1..] == fs[4..];
    ContinueWord(fs, s, []);
    if |s| >= 4 {
      var vs := [Word(GetLe32(s))];
      assert [] + vs == vs;
      ContinueWord(fs[1..], s[4..], vs);
      if |s| >= 8 {
        assert s[4..][4..] == s[8..];
        vs := vs + [Word(GetLe32(s[4..]))];
        ContinueWord(fs[2..], s[8..], vs);
        if |s| >= 12 {
          assert s[8..][4..] == s[12..];
          vs := vs + [Word(GetLe32(s[8..]))];
          ContinueWord(fs[3..], s[12..], vs);
          if |s| >= 16 {
            assert s[12..][4..] == s[16..];
            vs := vs + [Word(GetLe32(s[12..]))];
            assert vs == [Word(GetLe32(s)), Word(GetLe32(s[4..])), Word(GetLe32(s[8..])), Word(GetLe32(s[12..]))];
          }
        }
      }
    }
  }

  lemma CombatResultTail(s: bytes, vs: seq<Value>)
    requires |s| >= 20
    ensures Continue([Words, U32], s[16..], vs) ==
      var n := GetLe32(s[16..]);
      if |s| < 24 + 4 * n then None
      else Some(vs + [List(DecodeWords(n, s[20..]).value), Word(GetLe32(s[20 + 4 * n..]))])
  {
    hide GetLe32, DecodeWords, Continue;
    var n := GetLe32(s[16..]);
    assert [Words, U32][1..] == [U32] && [U32][1..] == [] && s[16..][4..] == s[20..];
    ContinueStep([Words, U32], s[16..], vs);
    if 20 + 4 * n <= |s| {
      var ws := DecodeWords(n, s[20..]).value;
      assert s[16..][4 + 4 * n..] == s[20 + 4 * n..];
      ContinueStep([U32], s[20 + 4 * n..], vs + [List(ws)]);
      if 24 + 4 * n <= |s| {
        var w := Word(GetLe32(s[20 + 4 * n..]));
        ContinueDone(s[20 + 4 * n..][4..], vs + [List(ws)] + [w]);
        assert vs + [List(ws)] + [w] == vs + [List(ws), w];
      }
    }
  }

  /** combat_result_notify: one check for the fixed part, one per item, one for the end. */
  method ParseCombatResult(buf: bytes) returns (r: Option<Packet>)
    ensures r == Parsed(KCombatResult, buf)
  {
    CombatResultShape(buf);
    hide GetLe32, Parsed;
    if 20 > |buf| {
      return None;
    }
    var (winner, loser) := (GetLe32(buf), GetLe32(buf[4..]));
    var (experience, gold) := (GetLe32(buf[8..]), GetLe32(buf[12..]));
    var count := GetLe32(buf[16..]);
    var p := 20;
    var items: seq<u32> := [];
    for i := 0 to count
      invariant p == 20 + 4 * i <= |buf| && DecodeWords(i, buf[20..]) == Some(items)
    {
      if p + 4 > |buf| {
        return None;
      }
      WordsSnoc(i, buf[20..]);
      assert buf[20..][4 * i..] == buf[p..];
      items := items + [GetLe32(buf[p..])];
      p := p + 4;
    }
    if p + 4 > |buf| {
      return None;
    }
    return Some(CombatResult(winner, loser, experience, gold, items, GetLe32(buf[p..])));
  }

  // ---- the chat parsers: one checked read after another ---------------------------------------

  /** The first i fields of fs were read from buf[..p] and are vs. */
  ghost predicate ReadSoFar(fs: seq<Field>, buf: bytes, i: nat, p: nat, vs: seq<Value>) {
    i <= |fs| && p <= |buf| && Continue(fs, buf, []) == Continue(fs[i..], buf[p..], vs)
  }

  lemma ReadNext(fs: seq<Field>, buf: bytes, i: nat, p: nat, vs: seq<Value>)
    requires ReadSoFar(fs, buf, i, p, vs) && i < |fs|
    ensures var r := Decode(fs[i], buf[p..]);
            if r.None? then Continue(fs, buf, []) == None
            else ReadSoFar(fs, buf, i + 1, p + r.value.size, vs + [r.value.value])
  {
    hide Decode, Continue;
    ContinueStep(fs[i..], buf[p..], vs);
    assert fs[i..][1..] == fs[i + 1..];
    var r := Decode(fs[i], buf[p..]);
    if r.Some? {
      assert buf[p..][r.value.size..] == buf[p + r.value.size..];
    }
  }

  lemma StartRead(fs: seq<Field>, buf: bytes)
    ensures ReadSoFar(fs, buf, 0, 0, [])
  {
    assert fs[0..] == fs && buf[0..] == buf;
  }

  method ReadByte(ghost fs: seq<Field>, buf: bytes, ghost i: nat, p: nat, ghost vs: seq<Value>)
    returns (ok: bool, next: nat, b: byte)
    requires ReadSoFar(fs, buf, i, p, vs) && i < |fs| && fs[i] == U8
    ensures if ok then ReadSoFar(fs, buf, i + 1, next, vs + [Byte(b)]) else Continue(fs, buf, []) == None
  {
    ReadNext(fs, buf, i, p, vs);
    if p < |buf| {
      return true, p + 1, buf[p];
    }
    return false, p, 0;
  }

  method ReadLe32(ghost fs: seq<Field>, buf: bytes, ghost i: nat, p: nat, ghost vs: seq<Value>)
    returns (ok: bool, next: nat, w: u32)
    requires ReadSoFar(fs, buf, i, p, vs) && i < |fs| && fs[i] == U32
    ensures if ok then ReadSoFar(fs, buf, i + 1, next, vs + [Word(w)]) else Continue(fs, buf, []) == None
  {
    hide GetLe32, Continue;
    ReadNext(fs, buf, i, p, vs);
    if p + 4 <= |buf| {
      return true, p + 4, GetLe32(buf[p..]);
    }
    return false, p, 0;
  }

  method ReadText(ghost fs: seq<Field>, buf: bytes, ghost i: nat, p: nat, ghost vs: seq<Value>)
    returns (ok: bool, next: nat, s: bytes)
    requires ReadSoFar(fs, buf, i, p, vs) && i < |fs| && fs[i] == Text
    ensures if ok then ReadSoFar(fs, buf, i + 1, next, vs + [Str(s)]) else Continue(fs, buf, []) == None
  {
    hide Decode, Continue;
    ReadNext(fs, buf, i, p, vs);
    ok, next, s := ReadLpString(buf, p);
  }

  lemma ReadAll(k: Kind, buf: bytes, p: nat, vs: seq<Value>)
    requires ReadSoFar(Schema(k), buf, |Schema(k)|, p, vs)
    ensures ConformsAll(Schema(k), vs) && Parsed(k, buf) == Some(PacketOf(k, vs))
  {
    var fs := Schema(k);
    ParsedByContinue(k, buf);
    hide Schema, Continue, Parsed, PacketOf;
    assert fs[|fs|..] == [];
    ContinueDone(buf[p..], vs);
  }

  method ParseChatReq(buf: bytes) returns (r: Option<Packet>)
    ensures r == Parsed(KChatReq, buf)
  {
    ghost var fs := Schema(KChatReq);
    ParsedByContinue(KChatReq, buf);
    StartRead(fs, buf);
    hide Continue, Parsed, ReadSoFar;
    ghost var vs: seq<Value> := [];
    var ok, p, text := ReadText(fs, buf, 0, 0, vs);
    if !ok { return None; }
    vs := vs + [Str(text)];
    var channel;
    ok, p, channel := ReadByte(fs, buf, 1, p, vs);
    if !ok { return None; }
    vs := vs + [Byte(channel)];
    var targetId;
    ok, p, targetId := ReadLe32(fs, buf, 2, p, vs);
    if !ok { return None; }
    vs := vs + [Word(targetId)];
    assert vs == [Str(text), Byte(channel), Word(targetId)];
    ReadAll(KChatReq, buf, p, vs);
    return Some(ChatReq(text, channel, targetId));
  }

  method ParseChatBroadcast(buf: bytes) returns (r: Option<Packet>)
    ensures r == Parsed(KChatBroadcast, buf)
  {
    ghost var fs := Schema(KChatBroadcast);
    ParsedByContinue(KChatBroadcast, buf);
    StartRead(fs, buf);
    hide Continue, Parsed, ReadSoFar;
    ghost var vs: seq<Value> := [];
    var ok, p, senderId := ReadLe32(fs, buf, 0, 0, vs);
    if !ok { return None; }
    vs := vs + [Word(senderId)];
    var name;
    ok, p, name := ReadText(fs, buf, 1, p, vs);
    if !ok { return None; }
    vs := vs + [Str(name)];
    var text;
    ok, p, text := ReadText(fs, buf, 2, p, vs);
    if !ok { return None; }
    vs := vs + [Str(text)];
    var channel;
    ok, p, channel := ReadByte(fs, buf, 3, p, vs);
    if !ok { return None; }
    vs := vs + [Byte(channel)];
    var timestamp;
    ok, p, timestamp := ReadLe32(fs, buf, 4, p, vs);
    if !ok { return None; }
    vs := vs + [Word(timestamp)];
    assert vs == [Word(senderId), Str(name), Str(text), Byte(channel), Word(timestamp)];
    ReadAll(KChatBroadcast, buf, p, vs);
    return Some(ChatBroadcast(senderId, name, text, channel, timestamp));
  }

  method ParseChatFilterReq(buf: bytes) returns (r: Option<Packet>)
    ensures r == Parsed(KChatFilterReq, buf)
  {
    ghost var fs := Schema(KChatFilterReq);
    ParsedByContinue(KChatFilterReq, buf);
    StartRead(fs, buf);
    hide Continue, Parsed, ReadSoFar;
    ghost var vs: seq<Value> := [];
    var ok, p, filterType := ReadByte(fs, buf, 0, 0, vs);
    if !ok { return None; }
    vs := vs + [Byte(filterType)];
    var text;
    ok, p, text := ReadText(fs, buf, 1, p, vs);
    if !ok { return None; }
    vs := vs + [Str(text)];
    var reporterId;
    ok, p, reporterId := ReadLe32(fs, buf, 2, p, vs);
    if !ok { return None; }
    vs := vs + [Word(reporterId)];
    assert vs == [Byte(filterType), Str(text), Word(reporterId)];
    ReadAll(KChatFilterReq, buf, p, vs);
    return Some(ChatFilterReq(filterType, text, reporterId));
  }

  // ---- the serialisers as they append to a buffer ---------------------------------------------

  lemma {:induction false} EncodeSnoc(vs: seq<Value>, v: Value)
    ensures EncodeAll(vs + [v]) == EncodeAll(vs) + Encode(v)
  {
    hide Encode;
    if vs == [] {
      assert vs + [v] == [v] && [v][1..] == [];
    } else {
      EncodeSnoc(vs[1..], v);
      assert (vs + [v])[1..] == vs[1..] + [v];
      SeqAssociates(Encode(vs[0]), EncodeAll(vs[1..]), Encode(v));
    }
  }

  /** The buffer holds the first i of the fields vs. */
  ghost predicate Wrote(out: bytes, vs: seq<Value>, i: nat) {
    i <= |vs| && out == EncodeAll(vs[..i])
  }

  lemma WroteNext(out: bytes, vs: seq<Value>, i: nat)
    requires Wrote(out, vs, i) && i < |vs|
    ensures Wrote(out + Encode(vs[i]), vs, i + 1)
  {
    EncodeSnoc(vs[..i], vs[i]);
    assert vs[..i + 1] == vs[..i] + [vs[i]];
  }

  method PushByte(out: bytes, b: byte, ghost vs: seq<Value>, ghost i: nat) returns (next: bytes)
    requires Wrote(out, vs, i) && i < |vs| && Encode(vs[i]) == [b]
    ensures Wrote(next, vs, i + 1)
  {
    WroteNext(out, vs, i);
    next := out + [b];
  }

  method WriteLe32(out: bytes, w: u32, ghost vs: seq<Value>, ghost i: nat) returns (next: bytes)
    requires Wrote(out, vs, i) && i < |vs| && vs[i] == Word(w)
    ensures Wrote(next, vs, i + 1)
  {
    hide Le32, Wrote;
    WroteNext(out, vs, i);
    next := out + Le32(w);
  }

  method WriteLpString(out: bytes, s: bytes, ghost vs: seq<Value>, ghost i: nat) returns (next: bytes)
    requires Wrote(out, vs, i) && i < |vs| && vs[i] == Str(s)
    ensures Wrote(next, vs, i + 1)
  {
    hide Le32, TruncateU32, Wrote;
    WroteNext(out, vs, i);
    next := out + Le32(TruncateU32(|s|));
    next := next + s;
    SeqAssociates(out, Le32(TruncateU32(|s|)), s);
  }

  method SerializeLoginReq(m: Packet) returns (out: bytes)
    requires m.LoginReq?
    ensures out == Serialize(m)
  {
    hide EncodeAll;
    ghost var vs := Values(m);
    out := Begin(vs);
    out := WriteLpString(out, m.playerName, vs, 0);
    out := WriteLpString(out, m.sessionToken, vs, 1);
    assert vs[..2] == vs;
  }

  method Begin(ghost vs: seq<Value>) returns (out: bytes)
    ensures Wrote(out, vs, 0)
  {
    out := [];
  }

  method SerializeLoginRes(m: Packet) returns (out: bytes)
    requires m.LoginRes?
    ensures out == Serialize(m)
  {
    hide EncodeAll;
    ghost var vs := Values(m);
    out := Begin(vs);
    out := PushByte(out, if m.success then 1 else 0, vs, 0);
    out := WriteLpString(out, m.message, vs, 1);
    out := WriteLe32(out, m.playerId, vs, 2);
    out := WriteLe32(out, m.mapId, vs, 3);
    assert vs[..4] == vs;
  }

  method SerializeChatReq(m: Packet) returns (out: bytes)
    requires m.ChatReq?
    ensures out == Serialize(m)
  {
    hide EncodeAll;
    ghost var vs := Values(m);
    out := Begin(vs);
    out := WriteLpString(out, m.text, vs, 0);
    out := PushByte(out, m.channel, vs, 1);
    out := WriteLe32(out, m.targetId, vs, 2);
    assert vs[..3] == vs;
  }

  method SerializeChatBroadcast(m: Packet) returns (out: bytes)
    requires m.ChatBroadcast?
    ensures out == Serialize(m)
  {
    hide EncodeAll;
    ghost var vs := Values(m);
    out := Begin(vs);
    out := WriteLe32(out, m.senderId, vs, 0);
    out := WriteLpString(out, m.senderName, vs, 1);
    out := WriteLpString(out, m.text, vs, 2);
    out := PushByte(out, m.channel, vs, 3);
    out := WriteLe32(out, m.timestamp, vs, 4);
    assert vs[..5] == vs;
  }

  method SerializeChatFilterReq(m: Packet) returns (out: bytes)
    requires m.ChatFilterReq?
    ensures out == Serialize(m)
  {
    hide EncodeAll;
    ghost var vs := Values(m);
    out := Begin(vs);
    out := PushByte(out, m.filterType, vs, 0);
    out := WriteLpString(out, m.targetMessage, vs, 1);
    out := WriteLe32(out, m.reporterId, vs, 2);
    assert vs[..3] == vs;
  }

  method WriteItems(out: bytes, items: seq<u32>, ghost vs: seq<Value>, ghost i: nat) returns (next: bytes)
    requires Wrote(out, vs, i) && i < |vs| && vs[i] == List(items)
    ensures Wrote(next, vs, i + 1)
  {
    hide Le32, TruncateU32, Wrote;
    WroteNext(out, vs, i);
    next := out + Le32(TruncateU32(|items|));
    ghost var head := next;
    for k := 0 to |items|
      invariant next == head + EncodeWords(items[..k])
    {
      assert items[..k + 1] == items[..k] + [items[k]];
      EncodeWordsSnoc(items[..k], items[k]);
      SeqAssociates(head, EncodeWords(items[..k]), Le32(items[k]));
      next := next + Le32(items[k]);
    }
    assert items[..|items|] == items;
    SeqAssociates(out, Le32(TruncateU32(|items|)), EncodeWords(items));
  }

  method SerializeCombatResult(m: Packet) returns (out: bytes)
    requires m.CombatResult?
    ensures out == Serialize(m)
  {
    hide EncodeAll;
    ghost var vs := Values(m);
    out := Begin(vs);
    out := WriteLe32(out, m.winnerId, vs, 0);
    out := WriteLe32(out, m.loserId, vs, 1);
    out := WriteLe32(out, m.experience, vs, 2);
    out := WriteLe32(out, m.gold, vs, 3);
    out := WriteItems(out, m.itemIds, vs, 4);
    out := WriteLe32(out, m.timestamp, vs, 5);
    assert vs[..6] == vs;
  }

  // ---- the layouts, written out ---------------------------------------------------------------

  /** A string as it is sent: its length in four bytes, least significant first, and its bytes. */
  function Sent(s: bytes): bytes {
    Le32(TruncateU32(|s|)) + s
  }

  lemma {:induction false} EncodeParts(vs: seq<Value>)
    ensures EncodeAll(vs) == Flatten(seq(|vs|, i requires 0 <= i < |vs| => Encode(vs[i])))
  {
    hide Encode;
    var parts := seq(|vs|, i requires 0 <= i < |vs| => Encode(vs[i]));
    if vs != [] {
      EncodeParts(vs[1..]);
      assert parts[1..] == seq(|vs[1..]|, i requires 0 <= i < |vs[1..]| => Encode(vs[1..][i]));
    }
  }

  /** The bytes of each message, field by field. */
  lemma Layout(p: Packet)
    ensures Serialize(p) == Flatten(
              match p
              case LoginReq(name, token) => [Sent(name), Sent(token)]
              case LoginRes(ok, message, id, mapId) => [[if ok then 1 else 0], Sent(message), Le32(id), Le32(mapId)]
              case ChatReq(text, channel, id) => [Sent(text), [channel], Le32(id)]
              case ChatBroadcast(id, name, text, channel, time) => [Le32(id), Sent(name), Sent(text), [channel], Le32(time)]
              case ChatFilterReq(kind, text, id) => [[kind], Sent(text), Le32(id)]
              case CombatResult(winner, loser, exp, gold, items, time) =>
                [Le32(winner), Le32(loser), Le32(exp), Le32(gold),
                 Le32(TruncateU32(|items|)) + EncodeWords(items), Le32(time)])
  {
    var vs := Values(p);
    var parts := seq(|vs|, i requires 0 <= i < |vs| => Encode(vs[i]));
    EncodeParts(vs);
    hide Flatten, EncodeAll, Le32, TruncateU32, EncodeWords;
    match p
    case LoginReq(name, token) => assert parts == [Sent(name), Sent(token)];
    case LoginRes(ok, message, id, mapId) =>
      assert parts == [[if ok then 1 else 0], Sent(message), Le32(id), Le32(mapId)];
    case ChatReq(text, channel, id) => assert parts == [Sent(text), [channel], Le32(id)];
    case ChatBroadcast(id, name, text, channel, time) =>
      assert parts == [Le32(id), Sent(name), Sent(text), [channel], Le32(time)];
    case ChatFilterReq(kind, text, id) => assert parts == [[kind], Sent(text), Le32(id)];
    case CombatResult(winner, loser, exp, gold, items, time) =>
      assert parts == [Le32(winner), Le32(loser), Le32(exp), Le32(gold),
                       Le32(TruncateU32(|items|)) + EncodeWords(items), Le32(time)];
  }
}
