/**
 Records on disk. A record is framed as magic, length, checksum and payload; a
 segment file is read from some offset on, frame after frame, until the first one
 that is short or damaged.
 */
module Frames {
  import opened Crc

  const MAGIC: nat := 0x4E53_5031
  const HEADER: nat := 12
  const LIMIT: nat := 0x1_0000_0000

  // ---- little-endian words ----

  function PutU32(v: nat): (b: Bytes)
    requires v < LIMIT
    ensures |b| == 4
  {
    [v % 256, v / 0x100 % 256, v / 0x1_0000 % 256, v / 0x100_0000 % 256]
  }

  function GetU32(b: Bytes): (v: nat)
    requires |b| == 4
    ensures v < LIMIT
  {
    var b0: int, b1: int, b2: int, b3: int := b[0], b[1], b[2], b[3];
    b0 + 0x100 * b1 + 0x1_0000 * b2 + 0x100_0000 * b3
  }

  lemma WordRoundTrip(v: nat)
    requires v < LIMIT
    ensures GetU32(PutU32(v)) == v
  {
    assert v / 0x1_0000 == v / 0x100 / 0x100;
    assert v / 0x100_0000 == v / 0x1_0000 / 0x100;
  }

  lemma WordRoundTripBack(b: Bytes)
    requires |b| == 4
    ensures PutU32(GetU32(b)) == b
  {
    FourBytes(b[0], b[1], b[2], b[3]);
    assert b == [b[0], b[1], b[2], b[3]];
  }

  lemma FourBytes(b0: int, b1: int, b2: int, b3: int)
    requires 0 <= b0 < 256 && 0 <= b1 < 256 && 0 <= b2 < 256 && 0 <= b3 < 256
    ensures
      var v := b0 + 0x100 * b1 + 0x1_0000 * b2 + 0x100_0000 * b3;
      v % 256 == b0 && v / 0x100 % 256 == b1 && v / 0x1_0000 % 256 == b2 && v / 0x100_0000 % 256 == b3
  {
    var v := b0 + 0x100 * b1 + 0x1_0000 * b2 + 0x100_0000 * b3;
    var q2 := b2 + 0x100 * b3;
    var q1 := b1 + 0x100 * q2;
    LowByte(b0, q1);
    LowByte(b1, q2);
    LowByte(b2, b3);
    assert v == b0 + 0x100 * q1;
    assert v / 0x1_0000 == v / 0x100 / 0x100 && v / 0x100_0000 == v / 0x1_0000 / 0x100;
  }

  lemma LowByte(low: int, rest: nat)
    requires 0 <= low < 256
    ensures (low + 0x100 * rest) % 256 == low && (low + 0x100 * rest) / 0x100 == rest
  {}

  // ---- one frame ----

  function Frame(p: Bytes): (f: Bytes)
    requires |p| < LIMIT
    ensures |f| == HEADER + |p|
  {
    ChecksumFits(p);
    PutU32(MAGIC) + PutU32(|p|) + PutU32(Checksum(p)) + p
  }

  /** What `commit` checks of the bytes ahead of it: a whole header with the magic. */
  predicate HasHeader(t: Bytes): (ok: bool)
    ensures ok ==> |t| >= HEADER
  {
    |t| >= HEADER && GetU32(t[..4]) == MAGIC
  }

  /** Bytes the header claims for its frame. */
  function Span(t: Bytes): (n: nat)
    requires |t| >= HEADER
    ensures n >= HEADER
  {
    HEADER + GetU32(t[4..8])
  }

  /** What `peek` checks: header, a complete payload, and the checksum. */
  predicate Intact(t: Bytes): (ok: bool)
    ensures ok ==> HasHeader(t) && Span(t) <= |t|
  {
    HasHeader(t) && Span(t) <= |t| && Checksum(t[HEADER..Span(t)]) == GetU32(t[8..12])
  }

  lemma IntactExtends(t: Bytes, u: Bytes)
    requires |t| >= HEADER
    ensures HasHeader(t + u) == HasHeader(t) && Span(t + u) == Span(t)
    ensures Span(t) <= |t| ==> Intact(t + u) == Intact(t) && (t + u)[HEADER..Span(t)] == t[HEADER..Span(t)]
    ensures Span(t) <= |t| ==> (t + u)[Span(t)..] == t[Span(t)..] + u
  {
    hide Checksum, GetU32;
    assert (t + u)[..4] == t[..4] && (t + u)[4..8] == t[4..8] && (t + u)[8..12] == t[8..12];
    if Span(t) <= |t| {
      assert (t + u)[HEADER..Span(t)] == t[HEADER..Span(t)];
    }
  }

  lemma FrameIntact(p: Bytes)
    requires |p| < LIMIT
    ensures Intact(Frame(p)) && Span(Frame(p)) == |Frame(p)| && Frame(p)[HEADER..] == p
  {
    hide Checksum, GetU32, PutU32;
    var f := Frame(p);
    ChecksumFits(p);
    WordRoundTrip(MAGIC);
    WordRoundTrip(|p|);
    WordRoundTrip(Checksum(p));
    assert f[..4] == PutU32(MAGIC) && f[4..8] == PutU32(|p|) && f[8..12] == PutU32(Checksum(p));
    assert f[HEADER..] == f[HEADER..Span(f)] == p;
  }

  /**
   The bytes of a frame: the magic 31 50 53 4E, length and checksum of the payload with the low
   byte first, and the payload.
   */
  lemma FrameBytes(p: Bytes)
    requires |p| < LIMIT
    ensures
      var f := Frame(p);
      && |f| == 12 + |p| && f[0] == 0x31 && f[1] == 0x50 && f[2] == 0x53 && f[3] == 0x4E
      && f[4] as int + 0x100 * f[5] as int + 0x1_0000 * f[6] as int + 0x100_0000 * f[7] as int == |p|
      && f[8] as int + 0x100 * f[9] as int + 0x1_0000 * f[10] as int + 0x100_0000 * f[11] as int == Checksum(p)
      && f[12..] == p
  {
    hide Checksum, PutU32;
    var f := Frame(p);
    ChecksumFits(p);
    WordRoundTrip(|p|);
    WordRoundTrip(Checksum(p));
    MagicBytes();
    var a, b, c := PutU32(MAGIC), PutU32(|p|), PutU32(Checksum(p));
    assert f[..4] == a && f[4..8] == b && f[8..12] == c && f[12..] == p;
    assert f[0] == a[0] && f[1] == a[1] && f[2] == a[2] && f[3] == a[3];
    assert f[4] == b[0] && f[5] == b[1] && f[6] == b[2] && f[7] == b[3];
    assert f[8] == c[0] && f[9] == c[1] && f[10] == c[2] && f[11] == c[3];
  }

  lemma MagicBytes()
    ensures PutU32(MAGIC) == [0x31, 0x50, 0x53, 0x4E]
  {}

  /** What `commit` goes by: twelve bytes, the first four the magic. */
  lemma SkippedIff(t: Bytes)
    ensures HasHeader(t) <==> |t| >= 12 && t[0] == 0x31 && t[1] == 0x50 && t[2] == 0x53 && t[3] == 0x4E
    ensures |t| >= 12 ==> Span(t) == 12 + (t[4] as int + 0x100 * t[5] as int + 0x1_0000 * t[6] as int + 0x100_0000 * t[7] as int)
  {
    if |t| >= 12 {
      hide GetU32, PutU32;
      MagicBytes();
      WordRoundTrip(MAGIC);
      WordRoundTripBack(t[..4]);
      assert t[..4] == [t[0], t[1], t[2], t[3]];
      WordIs(t[4..8]);
    }
  }

  lemma WordIs(b: Bytes)
    requires |b| == 4
    ensures GetU32(b) == b[0] as int + 0x100 * b[1] as int + 0x1_0000 * b[2] as int + 0x100_0000 * b[3] as int
  {}

  /** What `peek` accepts: the magic, all of the payload there, and the payload's checksum. */
  lemma AcceptedIff(t: Bytes)
    ensures Intact(t) <==>
      && |t| >= 12 && t[0] == 0x31 && t[1] == 0x50 && t[2] == 0x53 && t[3] == 0x4E
      && var n := t[4] as int + 0x100 * t[5] as int + 0x1_0000 * t[6] as int + 0x100_0000 * t[7] as int;
      && 12 + n <= |t|
      && Checksum(t[12..12 + n]) == t[8] as int + 0x100 * t[9] as int + 0x1_0000 * t[10] as int + 0x100_0000 * t[11] as int
  {
    hide Checksum, GetU32, HasHeader, Span;
    SkippedIff(t);
    if |t| >= 12 { WordIs(t[8..12]); }
  }

  // ---- a stream of frames ----

  /** A record together with the place on disk that identifies it. */
  datatype Entry = Entry(seg: nat, off: nat, payload: Bytes)

  /** The records `peek` accepts in `t`, the bytes of segment `seg` from offset `off` on. */
  function Parse(t: Bytes, seg: nat, off: nat): (es: seq<Entry>)
    decreases |t|
  {
    if Intact(t) then
      [Entry(seg, off, t[HEADER..Span(t)])] + Parse(t[Span(t)..], seg, off + Span(t))
    else []
  }

  /** Bytes covered by the accepted records. */
  function Covered(t: Bytes): (n: nat)
    ensures n <= |t|
    decreases |t|
  {
    if Intact(t) then Span(t) + Covered(t[Span(t)..]) else 0
  }

  /** Every byte belongs to an accepted record: no torn or damaged tail. */
  predicate Framed(t: Bytes) { Covered(t) == |t| }

  /** Offset `n` is where some accepted record starts, or where the last one ends. */
  predicate OnChain(t: Bytes, n: nat)
    decreases |t|
  {
    n == 0 || (Intact(t) && n >= Span(t) && OnChain(t[Span(t)..], n - Span(t)))
  }

  function Tail(s: Bytes, off: nat): Bytes {
    if off <= |s| then s[off..] else []
  }

  lemma TailTail(s: Bytes, m: nat, n: nat)
    ensures Tail(Tail(s, m), n) == Tail(s, m + n)
  {}

  /** Whatever is written behind the accepted records leaves them in place. */
  lemma {:induction false} ParseExtends(t: Bytes, u: Bytes, seg: nat, off: nat)
    ensures Parse(t, seg, off) <= Parse(t + u, seg, off)
    decreases |t|
  {
    hide Intact, HasHeader, Span, Checksum;
    if Intact(t) {
      IntactExtends(t, u);
      ParseExtends(t[Span(t)..], u, seg, off + Span(t));
    }
  }

  lemma ParseNext(t: Bytes, seg: nat, off: nat)
    requires Intact(t)
    ensures Parse(t, seg, off) == [Entry(seg, off, t[HEADER..Span(t)])] + Parse(t[Span(t)..], seg, off + Span(t))
    ensures Covered(t) == Span(t) + Covered(t[Span(t)..])
  {
    hide Intact, HasHeader, Span, Checksum;
  }

  lemma ParseStops(t: Bytes, seg: nat, off: nat)
    requires !Intact(t)
    ensures Parse(t, seg, off) == [] && Covered(t) == 0
  {
    hide Intact;
  }

  lemma FramedStarts(t: Bytes)
    requires Framed(t) && t != []
    ensures Intact(t) && Framed(t[Span(t)..])
  {
    hide Intact, HasHeader, Span, Checksum;
  }

  lemma ParseBehindNothing(u: Bytes, seg: nat, off: nat)
    ensures Parse([] + u, seg, off) == Parse([], seg, off) + Parse(u, seg, off) && Covered([] + u) == Covered(u)
  {
    hide Checksum, GetU32, Span;
    assert [] + u == u;
  }

  lemma {:induction false} ParseAppend(t: Bytes, u: Bytes, seg: nat, off: nat)
    requires Framed(t)
    ensures Parse(t + u, seg, off) == Parse(t, seg, off) + Parse(u, seg, off + |t|)
    ensures Covered(t + u) == |t| + Covered(u)
    decreases |t|
  {
    hide Intact, HasHeader, Span, Checksum, Parse, Covered, Framed;
    if t == [] {
      ParseBehindNothing(u, seg, off);
    } else {
      FramedStarts(t);
      IntactExtends(t, u);
      var n, rest := Span(t), t[Span(t)..];
      ParseAppend(rest, u, seg, off + n);
      ParseNext(t, seg, off);
      ParseNext(t + u, seg, off);
      assert off + n + |rest| == off + |t|;
    }
  }

  lemma {:induction false} OnChainExtends(t: Bytes, u: Bytes, n: nat)
    requires OnChain(t, n)
    ensures n <= |t| && OnChain(t + u, n)
    decreases |t|
  {
    hide Intact, HasHeader, Span, Checksum;
    if n > 0 {
      IntactExtends(t, u);
      OnChainExtends(t[Span(t)..], u, n - Span(t));
    }
  }

  lemma {:induction false} OnChainFramed(t: Bytes, n: nat)
    requires OnChain(t, n)
    ensures n <= |t| && (Framed(t) <==> Framed(t[n..]))
    decreases |t|
  {
    hide Intact, HasHeader, Span, Checksum;
    if n > 0 {
      OnChainFramed(t[Span(t)..], n - Span(t));
      assert t[Span(t)..][n - Span(t)..] == t[n..];
    } else {
      assert t[n..] == t;
    }
  }

  lemma {:induction false} OnChainStep(t: Bytes, n: nat)
    requires OnChain(t, n) && n <= |t| && Intact(t[n..])
    ensures OnChain(t, n + Span(t[n..]))
    decreases |t|
  {
    hide Intact, HasHeader, Span, Checksum;
    if n > 0 {
      assert t[Span(t)..][n - Span(t)..] == t[n..];
      OnChainStep(t[Span(t)..], n - Span(t));
    } else {
      assert t[0..] == t;
    }
  }

  lemma FrameParses(p: Bytes, seg: nat, off: nat)
    requires |p| < LIMIT
    ensures Parse(Frame(p), seg, off) == [Entry(seg, off, p)] && Framed(Frame(p))
  {
    hide Intact, HasHeader, Span, Checksum, Frame;
    FrameIntact(p);
    var f := Frame(p);
    assert f[HEADER..Span(f)] == f[HEADER..];
    assert Parse(f[Span(f)..], seg, off + Span(f)) == [];
  }

  /** Every record returned lies inside the bytes read. */
  lemma {:induction false} ParseRange(t: Bytes, seg: nat, off: nat)
    ensures forall e :: e in Parse(t, seg, off) ==> e.seg == seg && off <= e.off < off + |t| && e.off + HEADER + |e.payload| <= off + Covered(t)
    decreases |t|
  {
    hide Intact, HasHeader, Span, Checksum;
    if Intact(t) {
      ParseRange(t[Span(t)..], seg, off + Span(t));
    }
  }

  /**
   A record written at the end of `t` is found by a reader of `t` exactly when
   nothing torn or damaged stands before it.
   */
  lemma {:induction false} FoundIffFramed(t: Bytes, p: Bytes, seg: nat, off: nat)
    requires |p| < LIMIT
    ensures Entry(seg, off + |t|, p) in Parse(t + Frame(p), seg, off) <==> Framed(t)
    decreases |t|
  {
    hide Intact, HasHeader, Span, Checksum, Frame, Parse, Covered;
    var f := Frame(p);
    if Framed(t) {
      ParseAppend(t, f, seg, off);
      FrameParses(p, seg, off + |t|);
      assert Parse(t + f, seg, off)[|Parse(t, seg, off)|] == Entry(seg, off + |t|, p);
    } else if Intact(t) {
      IntactExtends(t, f);
      ParseNext(t, seg, off);
      ParseNext(t + f, seg, off);
      FoundIffFramed(t[Span(t)..], p, seg, off + Span(t));
    } else if Intact(t + f) {
      // The first frame of t + f, if accepted at all, ends behind |t|.
      var u := t + f;
      if |t| >= HEADER { IntactExtends(t, f); }
      assert Span(u) > |t|;
      ParseNext(u, seg, off);
      ParseRange(u[Span(u)..], seg, off + Span(u));
    } else {
      ParseStops(t + f, seg, off);
    }
  }

  function Stream(ps: seq<Bytes>): Bytes
    requires forall p :: p in ps ==> |p| < LIMIT
  {
    if ps == [] then [] else Frame(ps[0]) + Stream(ps[1..])
  }

  function Payloads(es: seq<Entry>): seq<Bytes> {
    if es == [] then [] else [es[0].payload] + Payloads(es[1..])
  }

  lemma {:induction false} PayloadsAppend(a: seq<Entry>, b: seq<Entry>)
    ensures Payloads(a + b) == Payloads(a) + Payloads(b)
  {
    if a == [] {
      assert a + b == b;
    } else {
      assert (a + b)[1..] == a[1..] + b;
      PayloadsAppend(a[1..], b);
    }
  }

  /** Frames written one after another read back as written, whatever stands behind them. */
  lemma {:induction false} StreamReadsBack(ps: seq<Bytes>, tail: Bytes, seg: nat, off: nat)
    requires forall p :: p in ps ==> |p| < LIMIT
    ensures Payloads(Parse(Stream(ps) + tail, seg, off)) == ps + Payloads(Parse(tail, seg, off + |Stream(ps)|))
  {
    hide Frame, Parse, Payloads, Stream;
    StreamParts(ps, tail);
    if ps == [] {
      assert ps + Payloads(Parse(tail, seg, off)) == Payloads(Parse(tail, seg, off));
    } else {
      var f, rest := Frame(ps[0]), Stream(ps[1..]) + tail;
      FirstReadsBack(ps[0], rest, seg, off);
      StreamReadsBack(ps[1..], tail, seg, off + |f|);
      Regroup(ps, Payloads(Parse(tail, seg, off + |Stream(ps)|)));
    }
  }

  lemma StreamParts(ps: seq<Bytes>, tail: Bytes)
    requires forall p :: p in ps ==> |p| < LIMIT
    ensures ps == [] ==> Stream(ps) == [] && Stream(ps) + tail == tail
    ensures ps != [] ==> Stream(ps) + tail == Frame(ps[0]) + (Stream(ps[1..]) + tail)
    ensures ps != [] ==> |Stream(ps)| == |Frame(ps[0])| + |Stream(ps[1..])|
  {
    hide Frame;
  }

  lemma Regroup(ps: seq<Bytes>, rest: seq<Bytes>)
    requires ps != []
    ensures [ps[0]] + (ps[1..] + rest) == ps + rest
  {}

  lemma FirstReadsBack(p: Bytes, rest: Bytes, seg: nat, off: nat)
    requires |p| < LIMIT
    ensures Payloads(Parse(Frame(p) + rest, seg, off)) == [p] + Payloads(Parse(rest, seg, off + |Frame(p)|))
  {
    hide Intact, HasHeader, Span, Checksum, Frame, Parse, Covered;
    FrameParses(p, seg, off);
    ParseAppend(Frame(p), rest, seg, off);
    PayloadsAppend([Entry(seg, off, p)], Parse(rest, seg, off + |Frame(p)|));
    assert Payloads([Entry(seg, off, p)]) == [p];
  }

  /** A write cut short anywhere leaves nothing a reader would accept. */
  lemma TornFrameRejected(p: Bytes, k: nat)
    requires |p| < LIMIT && k < |Frame(p)|
    ensures !Intact(Frame(p)[..k])
  {
    hide Checksum, GetU32, PutU32;
    var t := Frame(p)[..k];
    FrameIntact(p);
    if k >= HEADER {
      IntactExtends(t, Frame(p)[k..]);
      assert t + Frame(p)[k..] == Frame(p);
    }
  }

  /**
   Frame stream with a torn end: any list of records followed by any proper prefix
   of one more frame reads back as exactly the list.
   */
  lemma TornStreamReadsBack(ps: seq<Bytes>, p: Bytes, k: nat, seg: nat, off: nat)
    requires forall q :: q in ps ==> |q| < LIMIT
    requires |p| < LIMIT && k < |Frame(p)|
    ensures Payloads(Parse(Stream(ps) + Frame(p)[..k], seg, off)) == ps
  {
    hide Intact, HasHeader, Span, Checksum, Frame;
    StreamReadsBack(ps, Frame(p)[..k], seg, off);
    TornFrameRejected(p, k);
    assert ps + [] == ps;
  }

  /** Damage inside four consecutive payload bytes is caught, and reading stops before it. */
  lemma DamagedRecordStopsReading(ps: seq<Bytes>, a: Bytes, x: Bytes, y: Bytes, b: Bytes, rest: Bytes, seg: nat, off: nat)
    requires forall q :: q in ps ==> |q| < LIMIT
    requires |x| == |y| <= 4 && x != y && |a + x + b| < LIMIT
    ensures
      var header := Frame(a + x + b)[..HEADER];
      Payloads(Parse(Stream(ps) + (header + (a + y + b) + rest), seg, off)) == ps
  {
    hide Intact, HasHeader, Span, Frame, Parse, Stream, Payloads;
    var t := Frame(a + x + b)[..HEADER] + (a + y + b);
    DamagedRejected(a, x, y, b);
    IntactExtends(t, rest);
    StreamReadsBack(ps, t + rest, seg, off);
    NotRead(t + rest, seg, off + |Stream(ps)|);
    assert ps + [] == ps;
  }

  lemma DamagedRejected(a: Bytes, x: Bytes, y: Bytes, b: Bytes)
    requires |x| == |y| <= 4 && x != y && |a + x + b| < LIMIT
    ensures
      var t := Frame(a + x + b)[..HEADER] + (a + y + b);
      |t| >= HEADER && Span(t) == |t| && !Intact(t)
  {
    hide Checksum, GetU32, PutU32;
    var p, q := a + x + b, a + y + b;
    var t := Frame(p)[..HEADER] + q;
    FrameIntact(p);
    ChecksumFits(p);
    WordRoundTrip(Checksum(p));
    assert t[4..8] == Frame(p)[4..8] && t[8..12] == Frame(p)[8..12] == PutU32(Checksum(p));
    FourByteChangeDetected(a, x, y, b);
    assert t[HEADER..Span(t)] == q;
  }

  lemma NotRead(t: Bytes, seg: nat, off: nat)
    requires !Intact(t)
    ensures Payloads(Parse(t, seg, off)) == []
  {}
}
