/** Message payloads: sequences of fixed-width, length-prefixed and counted fields. The
    laws are proved once for every layout and then read off for the messages. */
module Messages {
  import opened Bytes
  import opened Wrappers

  datatype Field = U8 | Flag | U32 | Text | Words

  datatype Value = Byte(b: byte) | Bool(f: bool) | Word(w: u32) | Str(s: bytes) | List(ws: seq<u32>)

  /** A decoded value and the number of bytes it took. */
  datatype Read<T> = Read(value: T, size: nat)

  predicate Conforms(f: Field, v: Value) {
    match f
    case U8 => v.Byte?
    case Flag => v.Bool?
    case U32 => v.Word?
    case Text => v.Str? && |v.s| < 0x1_0000_0000
    case Words => v.List? && |v.ws| < 0x1_0000_0000
  }

  // ---- one field ---------------------------------------------------------------------

  function EncodeWords(ws: seq<u32>): (b: bytes)
    ensures |b| == 4 * |ws|
  {
    if ws == [] then [] else Le32(ws[0]) + EncodeWords(ws[1..])
  }

  function Encode(v: Value): bytes {
    match v
    case Byte(b) => [b]
    case Bool(f) => [if f then 1 else 0]
    case Word(w) => Le32(w)
    case Str(s) => Le32(TruncateU32(|s|)) + s
    case List(ws) => Le32(TruncateU32(|ws|)) + EncodeWords(ws)
  }

  function DecodeWords(n: nat, s: bytes): (r: Option<seq<u32>>)
    ensures r.Some? <==> 4 * n <= |s|
    ensures r.Some? ==> |r.value| == n
    decreases n
  {
    if n == 0 then Some([])
    else if |s| < 4 then None
    else
      var r := DecodeWords(n - 1, s[4..]);
      if r.None? then None else Some([GetLe32(s)] + r.value)
  }

  function Decode(f: Field, s: bytes): (r: Option<Read<Value>>)
    ensures r.Some? ==> r.value.size <= |s| && Conforms(f, r.value.value)
  {
    match f
    case U8 => if |s| < 1 then None else Some(Read(Byte(s[0]), 1))
    case Flag => if |s| < 1 then None else Some(Read(Bool(s[0] != 0), 1))
    case U32 => if |s| < 4 then None else Some(Read(Word(GetLe32(s)), 4))
    case Text =>
      if |s| < 4 then None
      else
        var len := GetLe32(s);
        if len > |s| - 4 then None else Some(Read(Str(s[4..4 + len]), 4 + len))
    case Words =>
      if |s| < 4 then None
      else
        var n := GetLe32(s);
        var ws := DecodeWords(n, s[4..]);
        if ws.None? then None else Some(Read(List(ws.value), 4 + 4 * n))
  }

  lemma {:induction false} WordsRoundTrip(ws: seq<u32>, rest: bytes)
    ensures DecodeWords(|ws|, EncodeWords(ws) + rest) == Some(ws)
  {
    if ws != [] {
      hide Le32, GetLe32;
      WordsRoundTrip(ws[1..], rest);
      var s := EncodeWords(ws) + rest;
      assert s == Le32(ws[0]) + (EncodeWords(ws[1..]) + rest);
      Le32RoundTrip(ws[0], EncodeWords(ws[1..]) + rest);
      assert s[4..] == EncodeWords(ws[1..]) + rest;
      assert ws == [ws[0]] + ws[1..];
    }
  }

  lemma {:induction false} WordsUnique(n: nat, s: bytes)
    requires 4 * n <= |s|
    ensures EncodeWords(DecodeWords(n, s).value) == s[..4 * n]
    decreases n
  {
    if n > 0 {
      hide Le32, GetLe32;
      WordsUnique(n - 1, s[4..]);
      Le32Unique(s);
      var ws := DecodeWords(n, s).value;
      assert ws[1..] == DecodeWords(n - 1, s[4..]).value;
      assert s[..4 * n] == s[..4] + s[4..][..4 * (n - 1)];
    }
  }

  lemma {:induction false} WordsStable(n: nat, s: bytes, more: bytes)
    requires 4 * n <= |s|
    ensures DecodeWords(n, s + more) == DecodeWords(n, s)
    decreases n
  {
    if n > 0 {
      WordsStable(n - 1, s[4..], more);
      assert (s + more)[4..] == s[4..] + more;
    }
  }

  lemma FieldRoundTrip(f: Field, v: Value, rest: bytes)
    requires Conforms(f, v)
    ensures Decode(f, Encode(v) + rest) == Some(Read(v, |Encode(v)|))
  {
    hide Le32, GetLe32;
    var s := Encode(v) + rest;
    match v
    case Byte(b) =>
    case Bool(b) =>
    case Word(w) => Le32RoundTrip(w, rest);
    case Str(t) =>
      Le32RoundTrip(|t|, t + rest);
      assert s == Le32(|t|) + (t + rest);
      assert s[4..4 + |t|] == t;
    case List(ws) =>
      Le32RoundTrip(|ws|, EncodeWords(ws) + rest);
      assert s == Le32(|ws|) + (EncodeWords(ws) + rest);
      assert s[4..] == EncodeWords(ws) + rest;
      WordsRoundTrip(ws, rest);
  }

  /** A decoded field encodes back to the bytes it came from, unless it is a flag whose
      byte is neither zero nor one. */
  lemma FieldUnique(f: Field, s: bytes)
    requires Decode(f, s).Some?
    ensures var r := Decode(f, s).value;
            (Encode(r.value) == s[..r.size]) <==> (f.Flag? ==> s[0] <= 1)
  {
    hide Le32, GetLe32;
    var r := Decode(f, s).value;
    match f
    case U8 =>
    case Flag => assert s[..1] == [s[0]];
    case U32 => Le32Unique(s);
    case Text =>
      Le32Unique(s);
      assert s[..r.size] == s[..4] + s[4..r.size];
    case Words =>
      Le32Unique(s);
      WordsUnique(GetLe32(s), s[4..]);
      assert s[..r.size] == s[..4] + s[4..][..r.size - 4];
  }

  lemma FieldStable(f: Field, s: bytes, more: bytes)
    requires Decode(f, s).Some?
    ensures Decode(f, s + more) == Decode(f, s)
  {
    if |s| >= 4 {
      assert GetLe32(s + more) == GetLe32(s);
      assert (s + more)[4..] == s[4..] + more;
      if f.Text? {
        assert (s + more)[4..4 + GetLe32(s)] == s[4..4 + GetLe32(s)];
      } else if f.Words? {
        WordsStable(GetLe32(s), s[4..], more);
      }
    }
  }

  // ---- a whole payload ------------------------------------------------------------------

  predicate ConformsAll(fs: seq<Field>, vs: seq<Value>)
    decreases |fs|
  {
    if fs == [] || vs == [] then fs == [] && vs == []
    else Conforms(fs[0], vs[0]) && ConformsAll(fs[1..], vs[1..])
  }

  function EncodeAll(vs: seq<Value>): bytes {
    if vs == [] then [] else Encode(vs[0]) + EncodeAll(vs[1..])
  }

  /** The parsers' short-circuit chain: each field is read where the one before it ended. */
  function DecodeAll(fs: seq<Field>, s: bytes): (r: Option<Read<seq<Value>>>)
    ensures r.Some? ==> r.value.size <= |s| && ConformsAll(fs, r.value.value)
    decreases |fs|
  {
    if fs == [] then Some(Read([], 0))
    else
      var first := Decode(fs[0], s);
      if first.None? then None
      else
        var later := DecodeAll(fs[1..], s[first.value.size..]);
        if later.None? then None
        else Some(Read([first.value.value] + later.value.value, first.value.size + later.value.size))
  }

  /** Whatever follows a serialised payload, it parses back to the same fields. */
  lemma {:induction false} RoundTrip(fs: seq<Field>, vs: seq<Value>, rest: bytes)
    requires ConformsAll(fs, vs)
    ensures DecodeAll(fs, EncodeAll(vs) + rest) == Some(Read(vs, |EncodeAll(vs)|))
    decreases |fs|
  {
    hide Encode, Decode, Conforms;
    if fs != [] {
      var (head, tail) := (Encode(vs[0]), EncodeAll(vs[1..]) + rest);
      assert EncodeAll(vs) + rest == head + tail by {
        SeqAssociates(head, EncodeAll(vs[1..]), rest);
      }
      FieldRoundTrip(fs[0], vs[0], tail);
      RoundTrip(fs[1..], vs[1..], rest);
      assert (head + tail)[|head|..] == tail;
      assert vs == [vs[0]] + vs[1..];
    }
  }

  /** Every flag byte that is read is zero or one. */
  predicate CleanFlags(fs: seq<Field>, s: bytes)
    decreases |fs|
  {
    fs == [] || (Decode(fs[0], s).Some? && (fs[0].Flag? ==> s[0] <= 1)
                 && CleanFlags(fs[1..], s[Decode(fs[0], s).value.size..]))
  }

  /** A payload that parses serialises back to the bytes it consumed exactly when its
      flag bytes are zero or one. */
  lemma {:induction false} ReEncode(fs: seq<Field>, s: bytes)
    requires DecodeAll(fs, s).Some?
    ensures var r := DecodeAll(fs, s).value;
            EncodeAll(r.value) == s[..r.size] <==> CleanFlags(fs, s)
    decreases |fs|
  {
    hide Encode, Decode, Conforms;
    if fs != [] {
      var (first, r) := (Decode(fs[0], s).value, DecodeAll(fs, s).value);
      var k := first.size;
      var later := DecodeAll(fs[1..], s[k..]).value;
      FieldUnique(fs[0], s);
      EncodedSize(fs[0], s);
      ReEncode(fs[1..], s[k..]);
      assert r.value[1..] == later.value;
      SplitEqual(Encode(first.value), EncodeAll(later.value), s, k, later.size);
    }
  }

  lemma SplitEqual(a: bytes, b: bytes, s: bytes, k: nat, m: nat)
    requires |a| == k && k + m <= |s|
    ensures a + b == s[..k + m] <==> a == s[..k] && b == s[k..][..m]
  {
    assert s[..k + m] == s[..k] + s[k..][..m];
    if a + b == s[..k + m] {
      assert a == (a + b)[..k] && b == (a + b)[k..];
    }
  }

  lemma EncodedSize(f: Field, s: bytes)
    requires Decode(f, s).Some?
    ensures |Encode(Decode(f, s).value.value)| == Decode(f, s).value.size
  {
    hide Le32, GetLe32;
  }

  lemma {:induction false} Stable(fs: seq<Field>, s: bytes, more: bytes)
    requires DecodeAll(fs, s).Some?
    ensures DecodeAll(fs, s + more) == DecodeAll(fs, s)
    decreases |fs|
  {
    hide Decode, ConformsAll;
    if fs != [] {
      FieldStable(fs[0], s, more);
      var k := Decode(fs[0], s).value.size;
      assert (s + more)[k..] == s[k..] + more;
      Stable(fs[1..], s[k..], more);
    }
  }

  /** A payload cut short anywhere is rejected. */
  lemma TruncationRejected(fs: seq<Field>, vs: seq<Value>, n: nat)
    requires ConformsAll(fs, vs) && n < |EncodeAll(vs)|
    ensures DecodeAll(fs, EncodeAll(vs)[..n]).None?
  {
    hide DecodeAll, EncodeAll;
    var all := EncodeAll(vs);
    if DecodeAll(fs, all[..n]).Some? {
      Stable(fs, all[..n], all[n..]);
      assert all[..n] + all[n..] == all && all + [] == all;
      RoundTrip(fs, vs, []);
    }
  }

  /** No payload of a layout is a prefix of a different one. */
  lemma PrefixFree(fs: seq<Field>, vs: seq<Value>, ws: seq<Value>)
    requires ConformsAll(fs, vs) && ConformsAll(fs, ws) && EncodeAll(vs) <= EncodeAll(ws)
    ensures vs == ws
  {
    hide DecodeAll, EncodeAll;
    var (a, b) := (EncodeAll(vs), EncodeAll(ws));
    assert b == a + b[|a|..] && b + [] == b;
    RoundTrip(fs, vs, b[|a|..]);
    RoundTrip(fs, ws, []);
  }
}
