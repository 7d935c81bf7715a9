/** Parsing a byte stream that arrives in arbitrary pieces: the accumulator's
    behaviour, compared with parsing the whole stream at once. */
module FrameStream {
  import opened Bytes
  import opened FrameCodec
  import Crc32

  datatype Event = Delivered(cmd: u16, payload: bytes) | Dropped

  /** One-shot parse: the frames before the parser meets an ill-formed length, and what is left. */
  datatype Scan = Scan(events: seq<Event>, rest: bytes, desynced: bool)

  /** What the receiver has passed on and what it still holds. */
  datatype Received = Received(events: seq<Event>, tail: bytes)

  ghost function EventOf(v: Verdict): Event
    requires v.Parsed?
  {
    if v.crcOk then Delivered(v.hdr.cmd, v.payload) else Dropped
  }

  ghost function ScanAll(s: bytes): Scan
    decreases |s|
  {
    match Head(s)
    case NeedMore => Scan([], s, false)
    case Desync => Scan([], s, true)
    case Parsed(_, _, _, total) =>
      var r := ScanAll(s[total..]);
      Scan([EventOf(Head(s))] + r.events, r.rest, r.desynced)
  }

  /** One pass of the parse loop over the unread bytes: an ill-formed length
      word discards everything buffered at that moment. */
  ghost function Drain(s: bytes): Received {
    var r := ScanAll(s);
    Received(r.events, if r.desynced then [] else r.rest)
  }

  /** The receiver over a list of reads, starting from unread bytes. */
  ghost function RunFrom(tail: bytes, chunks: seq<bytes>): Received
    decreases |chunks|
  {
    if chunks == [] then Received([], tail)
    else
      var first := Drain(tail + chunks[0]);
      var later := RunFrom(first.tail, chunks[1..]);
      Received(first.events + later.events, later.tail)
  }

  ghost function Run(chunks: seq<bytes>): Received {
    RunFrom([], chunks)
  }

  lemma DrainStep(s: bytes)
    ensures var v := Head(s);
            match v
            case NeedMore => Drain(s) == Received([], s)
            case Desync => Drain(s) == Received([], [])
            case Parsed(_, _, _, total) =>
              var r := Drain(s[total..]); Drain(s) == Received([EventOf(v)] + r.events, r.tail)
  {
    hide Head;
  }

  lemma {:induction false} RunSnoc(tail: bytes, chunks: seq<bytes>, chunk: bytes)
    ensures var r := RunFrom(tail, chunks);
            var d := Drain(r.tail + chunk);
            RunFrom(tail, chunks + [chunk]) == Received(r.events + d.events, d.tail)
    decreases |chunks|
  {
    hide Drain;
    if chunks == [] {
      assert chunks + [chunk] == [chunk] && [chunk][1..] == [];
      var d := Drain(tail + chunk);
      assert RunFrom(tail, [chunk]) == Received(d.events + [], d.tail);
    } else {
      RunSnoc(Drain(tail + chunks[0]).tail, chunks[1..], chunk);
      assert (chunks + [chunk])[1..] == chunks[1..] + [chunk];
    }
  }

  // ---- chunk independence --------------------------------------------------------

  /** How a scan continues when more bytes arrive. */
  lemma {:induction false} ScanMore(s: bytes, more: bytes)
    ensures var (a, b) := (ScanAll(s), ScanAll(s + more));
            if a.desynced then b == Scan(a.events, a.rest + more, true)
            else var c := ScanAll(a.rest + more); b == Scan(a.events + c.events, c.rest, c.desynced)
    decreases |s|
  {
    hide Head;
    if !Head(s).NeedMore? {
      HeadStable(s, more);
      if Head(s).Parsed? {
        var total := Head(s).total;
        ScanMore(s[total..], more);
        assert (s + more)[total..] == s[total..] + more;
      }
    }
  }

  lemma {:induction false} RestIsScanned(s: bytes)
    requires !ScanAll(s).desynced
    ensures var r := ScanAll(s).rest; ScanAll(r) == Scan([], r, false)
    decreases |s|
  {
    hide Head;
    if Head(s).Parsed? {
      RestIsScanned(s[Head(s).total..]);
    }
  }

  /** The parser meets no ill-formed length before the last byte of s: an over-long one counts
      from its own four bytes on, a short one once the bytes it announces are there. */
  ghost predicate SyncedBeforeEnd(s: bytes) {
    s == [] || !ScanAll(s[..|s| - 1]).desynced
  }

  lemma SyncedPrefix(s: bytes, more: bytes)
    requires SyncedBeforeEnd(s + more)
    ensures SyncedBeforeEnd(s)
    ensures more != [] ==> !ScanAll(s).desynced
  {
    hide ScanAll;
    if more != [] {
      var t := (s + more)[..|s + more| - 1];
      assert t == s + more[..|more| - 1];
      ScanMore(s, more[..|more| - 1]);
    }
    if s != [] {
      assert s == s[..|s| - 1] + s[|s| - 1..];
      if more == [] {
        assert s + more == s;
      } else {
        ScanMore(s[..|s| - 1], s[|s| - 1..]);
      }
    }
  }

  lemma {:induction false} RunFromNothing(tail: bytes, chunks: seq<bytes>)
    requires ScanAll(tail) == Scan([], tail, false) && Flatten(chunks) == []
    ensures RunFrom(tail, chunks) == Received([], tail)
    decreases |chunks|
  {
    hide ScanAll;
    if chunks != [] {
      assert chunks[0] == [] && tail + chunks[0] == tail;
      RunFromNothing(tail, chunks[1..]);
    }
  }

  lemma {:induction false} RunMatchesDrain(tail: bytes, chunks: seq<bytes>)
    requires ScanAll(tail) == Scan([], tail, false)
    requires SyncedBeforeEnd(tail + Flatten(chunks))
    ensures RunFrom(tail, chunks) == Drain(tail + Flatten(chunks))
    decreases |chunks|
  {
    hide ScanAll, SyncedBeforeEnd;
    if chunks == [] {
      assert tail + Flatten(chunks) == tail;
    } else {
      var (s, later) := (tail + chunks[0], Flatten(chunks[1..]));
      SeqAssociates(tail, chunks[0], later);
      SyncedPrefix(s, later);
      if ScanAll(s).desynced {
        assert s + later == s;
        ScanNothing();
        RunFromNothing([], chunks[1..]);
      } else {
        RestIsScanned(s);
        ScanMore(s, later);
        RestSynced(s, later);
        RunMatchesDrain(ScanAll(s).rest, chunks[1..]);
      }
    }
  }

  lemma ScanNothing()
    ensures ScanAll([]) == Scan([], [], false)
  {
  }

  lemma RestSynced(s: bytes, more: bytes)
    requires !ScanAll(s).desynced && SyncedBeforeEnd(s + more)
    ensures SyncedBeforeEnd(ScanAll(s).rest + more)
  {
    hide ScanAll;
    var r := ScanAll(s).rest;
    if more != [] {
      assert (s + more)[..|s + more| - 1] == s + more[..|more| - 1];
      assert (r + more)[..|r + more| - 1] == r + more[..|more| - 1];
      ScanMore(s, more[..|more| - 1]);
    } else if r != [] {
      RestIsScanned(s);
      assert r + more == r && r == r[..|r| - 1] + r[|r| - 1..];
      ScanMore(r[..|r| - 1], r[|r| - 1..]);
    }
  }

  /** Every way of cutting s into reads delivers the same frames and leaves the same tail. */
  ghost predicate ChunkIndependent(s: bytes) {
    forall chunks: seq<bytes> | Flatten(chunks) == s :: Run(chunks) == Drain(s)
  }

  /** Chunk independence holds exactly for the streams in which the parser meets no
      ill-formed length before the last byte. */
  lemma ChunkIndependence(s: bytes)
    ensures ChunkIndependent(s) <==> SyncedBeforeEnd(s)
  {
    hide ScanAll;
    if SyncedBeforeEnd(s) {
      forall chunks: seq<bytes> | Flatten(chunks) == s
        ensures Run(chunks) == Drain(s)
      {
        ScanNothing();
        assert [] + Flatten(chunks) == s;
        RunMatchesDrain([], chunks);
      }
    } else {
      LateByteSurvives(s);
    }
  }

  /** The last byte, read on its own after a desync, is kept; read together with it, it is lost. */
  lemma LateByteSurvives(s: bytes)
    requires !SyncedBeforeEnd(s)
    ensures !ChunkIndependent(s)
  {
    hide ScanAll;
    var (early, last) := (s[..|s| - 1], s[|s| - 1..]);
    var chunks: seq<bytes> := [early, last];
    assert early + last == s;
    TwoChunks(early, last);
    OneByteScan(last);
    assert Run(chunks).tail == last;
    ScanMore(early, last);
    assert Drain(s).tail == [];
  }

  /** For instance: an over-long length word and one byte after it. */
  lemma DesyncExample()
    ensures !ChunkIndependent([255, 255, 255, 255, 7])
  {
    var s: bytes := [255, 255, 255, 255, 7];
    var early := s[..|s| - 1];
    assert GetLe32(early) > MAX_FRAME_BYTES;
    assert Head(early).Desync?;
    LateByteSurvives(s);
  }

  lemma TwoChunks(a: bytes, b: bytes)
    ensures Flatten([a, b]) == a + b
    ensures Run([a, b]).tail == Drain(Drain(a).tail + b).tail
  {
    hide Drain;
    assert [a, b][1..] == [b] && [b][1..] == [];
    assert Flatten([b]) == b + Flatten([]) == b;
    assert [] + a == a;
    var first := Drain(a);
    assert RunFrom(first.tail, [b]).tail == Drain(first.tail + b).tail;
  }

  lemma OneByteScan(s: bytes)
    requires |s| == 1
    ensures Drain([] + s) == Received([], s)
  {
    assert [] + s == s;
  }

  /** Whatever the stream, the frames before the first ill-formed length met come first. */
  lemma {:induction false} RunExtendsScan(tail: bytes, chunks: seq<bytes>)
    requires ScanAll(tail) == Scan([], tail, false)
    ensures ScanAll(tail + Flatten(chunks)).events <= RunFrom(tail, chunks).events
    decreases |chunks|
  {
    hide ScanAll;
    if chunks == [] {
      assert tail + Flatten(chunks) == tail;
    } else {
      var (s, later) := (tail + chunks[0], Flatten(chunks[1..]));
      SeqAssociates(tail, chunks[0], later);
      ScanMore(s, later);
      if !ScanAll(s).desynced {
        RestIsScanned(s);
        RunExtendsScan(ScanAll(s).rest, chunks[1..]);
      }
    }
  }

  /** Whatever the stream, the receiver never holds more than one incomplete frame. */
  lemma {:induction false} RestIsShort(s: bytes)
    ensures |Drain(s).tail| <= 0x10_0000 + 3
    decreases |s|
  {
    if Head(s).Parsed? {
      hide Head;
      RestIsShort(s[Head(s).total..]);
    }
  }

  // ---- streams of packed frames ------------------------------------------------

  ghost function Stream(ms: seq<Message>): bytes {
    if ms == [] then [] else Frame(ms[0]) + Stream(ms[1..])
  }

  function Deliveries(ms: seq<Message>): seq<Event> {
    seq(|ms|, i requires 0 <= i < |ms| => Delivered(ms[i].cmd, ms[i].payload))
  }

  ghost predicate AllFit(ms: seq<Message>) {
    forall m | m in ms :: Fits(m)
  }

  lemma ScanOneFrame(m: Message, payload: bytes, rest: bytes)
    requires Fits(m) && |payload| == |m.payload|
    ensures var s := HeaderBytes(HEADER_AFTER_LEN + |m.payload|, HeaderOf(m)) + payload + rest;
            var r := ScanAll(rest);
            var e := if Crc32.Checksum(payload) == Crc32.Checksum(m.payload)
                     then Delivered(m.cmd, payload) else Dropped;
            ScanAll(s) == Scan([e] + r.events, r.rest, r.desynced)
  {
    hide Head, HeaderBytes, Crc32.Checksum;
    HeadOfTampered(m, payload, rest);
    var s := HeaderBytes(HEADER_AFTER_LEN + |m.payload|, HeaderOf(m)) + payload + rest;
    assert s[HEADER_TOTAL + |payload|..] == rest;
  }

  lemma {:induction false} ScanFrames(ms: seq<Message>, rest: bytes)
    requires AllFit(ms)
    ensures var r := ScanAll(rest);
            ScanAll(Stream(ms) + rest) == Scan(Deliveries(ms) + r.events, r.rest, r.desynced)
    decreases |ms|
  {
    hide ScanAll, Frame;
    if ms == [] {
      assert Stream(ms) + rest == rest;
    } else {
      ScanFrames(ms[1..], rest);
      FrameShape(ms[0]);
      SeqAssociates(Frame(ms[0]), Stream(ms[1..]), rest);
      ScanOneFrame(ms[0], ms[0].payload, Stream(ms[1..]) + rest);
      assert Deliveries(ms) == [Delivered(ms[0].cmd, ms[0].payload)] + Deliveries(ms[1..]);
    }
  }

  lemma FrameShape(m: Message)
    requires Fits(m)
    ensures Frame(m) == HeaderBytes(HEADER_AFTER_LEN + |m.payload|, HeaderOf(m)) + m.payload
    ensures |Frame(m)| == HEADER_TOTAL + |m.payload|
  {
    hide HeaderBytes, Crc32.Checksum;
  }

  /** Any prefix of a stream of frames delivers the first k of them, all of them
      once the stream is complete. */
  lemma {:induction false} ScanPrefix(ms: seq<Message>, n: nat) returns (k: nat)
    requires AllFit(ms) && n <= |Stream(ms)|
    ensures k <= |ms| && (n == |Stream(ms)| ==> k == |ms|)
    ensures var r := ScanAll(Stream(ms)[..n]); r.events == Deliveries(ms[..k]) && !r.desynced
    ensures n == |Stream(ms)| ==> ScanAll(Stream(ms)[..n]).rest == []
    decreases |ms|
  {
    hide ScanAll, Frame;
    if ms == [] {
      ScanNothing();
      return 0;
    }
    FrameShape(ms[0]);
    var size := |Frame(ms[0])|;
    if n < size {
      assert Stream(ms)[..n] == Frame(ms[0])[..n];
      PartialFrameScan(ms[0], n);
      return 0;
    }
    k := ScanPrefix(ms[1..], n - size);
    assert Stream(ms)[..n] == Frame(ms[0]) + Stream(ms[1..])[..n - size];
    ScanOneFrame(ms[0], ms[0].payload, Stream(ms[1..])[..n - size]);
    assert Deliveries(ms[..k + 1]) == [Delivered(ms[0].cmd, ms[0].payload)] + Deliveries(ms[1..][..k]);
    k := k + 1;
  }

  lemma PartialFrameScan(m: Message, n: nat)
    requires Fits(m) && n < |Frame(m)|
    ensures ScanAll(Frame(m)[..n]) == Scan([], Frame(m)[..n], false)
  {
    HeadOfPartialFrame(m, n);
  }

  /** A frame whose payload was damaged by one short burst is dropped, and only that
      frame: every other frame is delivered in order, however the stream is cut. */
  lemma ErrorContainment(before: seq<Message>, m: Message, payload: bytes, after: seq<Message>,
                         chunks: seq<bytes>)
    requires AllFit(before) && Fits(m) && AllFit(after)
    requires Crc32.BurstError(m.payload, payload)
    requires Flatten(chunks) == Stream(before)
               + (HeaderBytes(HEADER_AFTER_LEN + |m.payload|, HeaderOf(m)) + payload + Stream(after))
    ensures Run(chunks) == Received(Deliveries(before) + [Dropped] + Deliveries(after), [])
  {
    hide ScanAll, Stream, Deliveries, HeaderBytes, Run, AllFit, Crc32.Checksum, Crc32.BurstError;
    var damaged := HeaderBytes(HEADER_AFTER_LEN + |m.payload|, HeaderOf(m)) + payload + Stream(after);
    BurstDetected(m.payload, payload);
    ScanOneFrame(m, payload, Stream(after));
    ScanFramesOnly(after);
    ScanFrames(before, damaged);
    SeqAssociates(Deliveries(before), [Dropped], Deliveries(after));
    NotDesynced(Flatten(chunks));
    ChunkIndependence(Flatten(chunks));
    assert Run(chunks) == Drain(Flatten(chunks));
  }

  lemma ScanFramesOnly(ms: seq<Message>)
    requires AllFit(ms)
    ensures ScanAll(Stream(ms)) == Scan(Deliveries(ms), [], false)
  {
    hide ScanAll, Stream, Deliveries, AllFit;
    ScanNothing();
    ScanFrames(ms, []);
    assert Stream(ms) + [] == Stream(ms) && Deliveries(ms) + [] == Deliveries(ms);
  }

  lemma BurstDetected(x: bytes, y: bytes)
    requires Crc32.BurstError(x, y)
    ensures |x| == |y| && Crc32.Checksum(x) != Crc32.Checksum(y)
  {
    Crc32.ChecksumDetectsBurst(x, y);
  }

  lemma NotDesynced(s: bytes)
    requires !ScanAll(s).desynced
    ensures SyncedBeforeEnd(s)
  {
    hide ScanAll;
    if s != [] {
      assert s == s[..|s| - 1] + s[|s| - 1..];
      ScanMore(s[..|s| - 1], s[|s| - 1..]);
    }
  }
}
