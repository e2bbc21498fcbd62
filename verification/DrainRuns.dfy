/**
 Drains inside runs. A drain is a series of deliveries and commits of the run model, so whatever
 holds of every run holds across drains; and a kill behind the header of a frame is enough to
 make a later drain resend one record for ever.
 */
module DrainRuns {
  import opened Options
  import opened Crc
  import opened Frames
  import opened SegmentStore
  import opened Fifo
  import opened Appends
  import opened Runs
  import opened Layouts
  import opened SpoolLayouts
  import opened DrainRounds

  // ---- a drain is a series of steps ----

  /** Worlds that follow one another by these events. */
  ghost predicate Follows(ws: seq<World>, cfg: Config, evs: seq<Event>) {
    && |ws| == |evs| + 1
    && forall i :: 0 <= i < |evs| ==> Enabled(ws[i], cfg, evs[i]) && Next(ws[i], cfg, evs[i], ws[i + 1])
  }

  /** One accepted batch: the server has it, then it is committed. */
  lemma RoundSteps(w: World, cfg: Config, batch: nat) returns (w1: World, w2: World)
    ensures
      var k := |Take(View(w.st), batch)|;
      && Enabled(w, cfg, Delivered(batch)) && Next(w, cfg, Delivered(batch), w1)
      && Enabled(w1, cfg, CommitDone(k)) && Next(w1, cfg, CommitDone(k), w2)
    ensures w2.st == Round(w.st, batch)
    ensures w2.accepted == w.accepted && w2.torn == w.torn && w2.evicted == w.evicted
    ensures forall e :: e in w2.delivered <==> e in w.delivered || e in Take(View(w.st), batch)
  {
    hide View, Commit;
    var k := |Take(View(w.st), batch)|;
    w1 := w.(delivered := w.delivered + set e | e in Take(View(w.st), batch));
    assert Take(View(w.st), batch) == View(w.st)[..k];
    var st := Commit(w.st, k).st;
    w2 := w1.(st := st, saved := Some(Cursor(st.seg, st.off)));
  }

  lemma {:induction false} NothingSent(st: Store, batch: nat, n: nat)
    requires n == 0 || Take(View(st), batch) == []
    ensures Rounds(st, batch, n) == st && Sent(st, batch, n) == []
    decreases n
  {
    hide View, Commit;
    if n > 0 {
      CommitNothing(st, 0);
      NothingSent(st, batch, n - 1);
    }
  }

  /** The rounds of a drain as steps of the run model. */
  lemma {:induction false} DrainSteps(w: World, cfg: Config, batch: nat, n: nat) returns (ws: seq<World>, evs: seq<Event>)
    ensures Follows(ws, cfg, evs) && ws[0] == w
    ensures
      var end := ws[|evs|];
      && end.st == Rounds(w.st, batch, n)
      && end.accepted == w.accepted && end.torn == w.torn && end.evicted == w.evicted
      && forall e :: e in end.delivered <==> e in w.delivered || e in Sent(w.st, batch, n)
    decreases n
  {
    hide View, Round, Enabled, Next;
    if n == 0 || Take(View(w.st), batch) == [] {
      ws, evs := [w], [];
      NothingSent(w.st, batch, n);
    } else {
      var w1, w2 := RoundSteps(w, cfg, batch);
      var rest, acts := DrainSteps(w2, cfg, batch, n - 1);
      evs := [Delivered(batch), CommitDone(|Take(View(w.st), batch)|)] + acts;
      ws := [w, w1] + rest;
      TwoMore(w, w1, rest, cfg, evs[0], evs[1], acts);
    }
  }

  lemma TwoMore(w: World, w1: World, rest: seq<World>, cfg: Config, a: Event, b: Event, acts: seq<Event>)
    requires Follows(rest, cfg, acts)
    requires Enabled(w, cfg, a) && Next(w, cfg, a, w1) && Enabled(w1, cfg, b) && Next(w1, cfg, b, rest[0])
    ensures Follows([w, w1] + rest, cfg, [a, b] + acts)
  {
    hide Enabled, Next;
    var ws, evs := [w, w1] + rest, [a, b] + acts;
    forall i | 0 <= i < |evs| ensures Enabled(ws[i], cfg, evs[i]) && Next(ws[i], cfg, evs[i], ws[i + 1]) {
      if i >= 2 {
        assert ws[i] == rest[i - 2] && evs[i] == acts[i - 2] && ws[i + 1] == rest[i - 1];
      }
    }
  }

  lemma RunThen(ws: seq<World>, cfg: Config, evs: seq<Event>, more: seq<World>, acts: seq<Event>)
    requires IsRun(ws, cfg, evs) && Follows(more, cfg, acts) && more[0] == ws[|evs|]
    ensures IsRun(ws + more[1..], cfg, evs + acts)
    ensures (ws + more[1..])[|evs| + |acts|] == more[|acts|]
  {
    hide Enabled, Next;
    var all, es := ws + more[1..], evs + acts;
    forall i | 0 <= i < |es| ensures Enabled(all[i], cfg, es[i]) && Next(all[i], cfg, es[i], all[i + 1]) {
      if i >= |evs| {
        assert all[i] == more[i - |evs|] && es[i] == acts[i - |evs|] && all[i + 1] == more[i - |evs| + 1];
      }
    }
  }

  /**
   A run followed by a drain of `n` accepted batches is a run, and after it every accepted record
   that did not land behind a torn frame was delivered, was evicted or is pending.
   */
  lemma DrainLosesNothing(ws: seq<World>, cfg: Config, evs: seq<Event>, batch: nat, n: nat)
    returns (ws': seq<World>, evs': seq<Event>)
    requires IsRun(ws, cfg, evs) && cfg.segmentBytes > 0
    ensures IsRun(ws', cfg, evs')
    ensures
      var w, end := ws[|evs|], ws'[|evs'|];
      && end.st == Rounds(w.st, batch, n) && end.accepted == w.accepted
      && forall e :: e in w.accepted && e !in w.torn ==>
          e in w.delivered || e in Sent(w.st, batch, n) || e in w.evicted || e in View(Rounds(w.st, batch, n))
  {
    hide View, Rounds, Sent, Enabled, Next;
    var w := ws[|evs|];
    var more, acts := DrainSteps(w, cfg, batch, n);
    RunThen(ws, cfg, evs, more, acts);
    ws', evs' := ws + more[1..], evs + acts;
    forall e | e in w.accepted && e !in w.torn
      ensures e in w.delivered || e in Sent(w.st, batch, n) || e in w.evicted || e in View(Rounds(w.st, batch, n))
    {
      NothingLost(ws', cfg, evs', |evs'|, e);
    }
  }

  // ---- a kill behind a header ----

  /** The header of a frame with a payload, and nothing behind it. */
  function Header(p: Bytes): Bytes
    requires |p| < LIMIT
  {
    Frame(p)[..HEADER]
  }

  lemma HeaderIs(p: Bytes)
    requires 0 < |p| < LIMIT
    ensures HasHeader(Header(p)) && Span(Header(p)) > HEADER && !Intact(Header(p))
  {
    hide GetU32, Checksum, PutU32;
    FrameIntact(p);
    var f := Frame(p);
    assert Header(p)[..4] == f[..4] && Header(p)[4..8] == f[4..8];
    TornFrameRejected(p, HEADER);
  }

  lemma HeaderCounts(p: Bytes)
    requires 0 < |p| < LIMIT
    ensures Counts(Header(p)) == [0, 0]
  {
    hide HasHeader, Intact, Span, Parse, Frame;
    HeaderIs(p);
    assert |Header(p)| == HEADER;
    assert Tail(Header(p), Span(Header(p))) == [];
    ParseStops(Header(p), 0, 0);
    EmptyCounts();
  }

  lemma EmptyCounts()
    ensures Counts([]) == [0]
  {}

  lemma FrameCounts(a: Bytes, rest: Bytes)
    requires |a| < LIMIT
    ensures Counts(Frame(a) + rest) == [1 + |Parse(rest, 0, |Frame(a)|)|] + Counts(rest)
    ensures forall seg :: Parse(Frame(a) + rest, seg, 0) == [Entry(seg, 0, a)] + Parse(rest, seg, |Frame(a)|)
  {
    hide HasHeader, Intact, Span, Parse, Frame, Covered;
    var f := Frame(a);
    FrameIntact(a);
    IntactExtends(f, rest);
    assert Tail(f + rest, Span(f + rest)) == rest by { assert f[Span(f)..] == []; assert [] + rest == rest; }
    forall seg: nat ensures Parse(f + rest, seg, 0) == [Entry(seg, 0, a)] + Parse(rest, seg, |f|) {
      FrameParses(a, seg, 0);
      ParseAppend(f, rest, seg, 0);
    }
  }

  /** One record, the header of another behind it, and one record in the next segment. */
  function HeaderStore(a: Bytes, p: Bytes, b: Bytes): Store
    requires |a| < LIMIT && |p| < LIMIT && |b| < LIMIT
  {
    Store(map[1 := Frame(a) + Header(p), 2 := Frame(b)], [1, 2], 1, 0)
  }

  lemma HeaderStoreParts(a: Bytes, p: Bytes, b: Bytes)
    requires |a| < LIMIT && 0 < |p| < LIMIT && |b| < LIMIT
    ensures
      var st := HeaderStore(a, p, b);
      && Sound(st) && After(st.ids, st.seg) == [2]
      && ViewFrom(st.files, [2]) == [Entry(2, 0, b)]
      && View(st) == [Entry(1, 0, a), Entry(2, 0, b)]
      && LayoutOf(st) == [[1, 0, 0], [1, 0]]
  {
    hide Frame, Header, Parse, Counts, View, LayoutOf, Sound, After, ViewFrom;
    var t := Frame(a) + Header(p);
    TwoSegments(t, Frame(b));
    HeaderIs(p);
    FrameCounts(a, Header(p));
    ParseStops(Header(p), 1, |Frame(a)|);
    ParseStops(Header(p), 0, |Frame(a)|);
    HeaderCounts(p);
    FrameCounts(b, []);
    assert Frame(b) + [] == Frame(b);
    ParseNothing(0, |Frame(b)|);
    FrameParses(b, 2, 0);
    EmptyCounts();
    assert Parse(t, 1, 0) == [Entry(1, 0, a)];
    assert Counts(t) == [1, 0, 0] && Counts(Frame(b)) == [1, 0];
  }

  lemma TwoSegments(t: Bytes, u: Bytes)
    ensures
      var st := Store(map[1 := t, 2 := u], [1, 2], 1, 0);
      && Sound(st) && After(st.ids, st.seg) == [2] && ViewFrom(st.files, [2]) == Parse(u, 2, 0)
      && View(st) == Parse(t, 1, 0) + Parse(u, 2, 0) && LayoutOf(st) == [Counts(t), Counts(u)]
  {
    hide Parse, Counts, After, ViewFrom, LayoutFrom, Ascending, Tail;
    var st := Store(map[1 := t, 2 := u], [1, 2], 1, 0);
    AfterOne();
    assert Tail(t, 0) == t && Tail(u, 0) == u by { WholeTail(t); WholeTail(u); }
    ViewFromNone(st.files, 2);
    OneLayout(st.files, 2);
  }

  lemma AfterOne()
    ensures Ascending([1, 2]) && After([1, 2], 1) == [2]
  {
    hide After;
    var ids := [1, 2];
    assert ids[0] == 1 && ids[1..] == [2];
    AfterHead(ids);
  }

  lemma WholeTail(t: Bytes)
    ensures Tail(t, 0) == t
  {}

  lemma OneLayout(files: Files, id: nat)
    requires id in files
    ensures LayoutFrom(files, [id]) == [Counts(files[id])]
  {
    hide Counts;
    assert [id][1..] == [];
    assert LayoutFrom(files, []) == [];
  }

  /** The commit of both records skips the bare header as well and stops in front of the second record. */
  lemma HeaderRound(a: Bytes, p: Bytes, b: Bytes, batch: nat)
    requires |a| < LIMIT && 0 < |p| < LIMIT && |b| < LIMIT && batch >= 2
    ensures
      var st := Round(HeaderStore(a, p, b), batch);
      Sound(st) && View(st) == [Entry(2, 0, b)] && Stopped(LayoutOf(st))
  {
    hide HeaderStore, View, Sound, LayoutOf, Commit, Walk, Tail, After, ViewFrom, Counts, LayoutFrom, Current;
    var st := HeaderStore(a, p, b);
    HeaderStoreParts(a, p, b);
    SoundCursor(st);
    LayoutParts(st);
    assert |Take(View(st), batch)| == 2;
    CommitLayout(st, 2);
    CutTwo();
    CommitParts(st, 2);
    WalkCounts(Tail(st.files[st.seg], st.off), 2);
    LayoutQueue(Commit(st, 2).st);
    MovedViewIs(st, Walk(Tail(st.files[st.seg], st.off), 2));
  }

  lemma CutTwo()
    ensures Cut([[1, 0, 0], [1, 0]], 2) == [[0], [1, 0]] && Queue([[0], [1, 0]]) == 1
  {
    var q: Segment, r: Segment := [1, 0, 0], [1, 0];
    var qs: Layout := [q, r];
    assert Skips(q) == 2 && q[2..] == [0] && qs[1..] == [r];
    var e: Segment := [0];
    var done: Layout := [e, r];
    assert done[1..] == [r] && [r][1..] == [];
    assert Queue([r]) == 1;
  }

  lemma MovedViewIs(st: Store, w: Walked)
    ensures View(Moved(st, w)) == Current(Moved(st, w)) + ViewFrom(st.files, After(st.ids, st.seg))
  {}

  lemma {:induction false} HeaderResends(a: Bytes, p: Bytes, b: Bytes, batch: nat, n: nat)
    requires |a| < LIMIT && 0 < |p| < LIMIT && |b| < LIMIT && batch >= 2 && n > 0
    ensures View(Rounds(HeaderStore(a, p, b), batch, n)) == [Entry(2, 0, b)]
  {
    hide HeaderStore, View, Sound, LayoutOf, Stopped, Round, Sent;
    HeaderRound(a, p, b, batch);
    StoppedResends(Round(HeaderStore(a, p, b), batch), batch, n - 1);
  }

  // ---- the run that gets there ----

  function HeaderTorn(a: Bytes, p: Bytes): Store
    requires |a| < LIMIT && |p| < LIMIT
  {
    Store(map[1 := Frame(a) + Header(p)], [1], 1, 0)
  }

  lemma FirstStep(cfg: Config, a: Bytes)
    requires |a| < LIMIT && cfg.segmentBytes > 0
    ensures
      var w1 := World(OneRecord(a, 0), Some(Cursor(1, 0)), {Entry(1, 0, a)}, {}, {}, {});
      Enabled(FRESH, cfg, AppendDone(a)) && Next(FRESH, cfg, AppendDone(a), w1)
  {
    hide Frame, Framed, View;
    FirstAppend(cfg, a);
    EmptyFramed();
    var wr := Write(FRESH.st, cfg, a);
    assert Lost(wr, 0) == {};
  }

  lemma SecondStep(cfg: Config, a: Bytes, p: Bytes)
    requires |a| < LIMIT && 0 < |p| < LIMIT && |Frame(a)| < cfg.segmentBytes
    ensures
      var w1 := World(OneRecord(a, 0), Some(Cursor(1, 0)), {Entry(1, 0, a)}, {}, {}, {});
      var ev := AppendKilled(p, HEADER, 0);
      Enabled(w1, cfg, ev) && Next(w1, cfg, ev, w1.(st := HeaderTorn(a, p)))
  {
    hide Frame, View;
    var st := OneRecord(a, 0);
    var partial := Partial(st, cfg, p, HEADER);
    assert Roll(st, cfg) == st;
    assert partial == HeaderTorn(a, p);
    assert partial.ids[..0] == [];
    MinusNothing(partial.files);
    assert Lost(partial, 0) == {};
  }

  lemma ThirdStep(cfg: Config, a: Bytes, p: Bytes, b: Bytes)
    requires |a| < LIMIT && 0 < |p| < LIMIT && |b| < LIMIT && 0 < cfg.segmentBytes <= |Frame(a)| + HEADER
    requires cfg.maxBytes >= |Frame(a)| + HEADER + |Frame(b)|
    ensures
      var e := Entry(1, 0, a);
      var w2 := World(HeaderTorn(a, p), Some(Cursor(1, 0)), {e}, {}, {}, {});
      var w3 := World(HeaderStore(a, p, b), Some(Cursor(1, 0)), {e, Entry(2, 0, b)}, {}, {}, {});
      Enabled(w2, cfg, AppendDone(b)) && Next(w2, cfg, AppendDone(b), w3)
  {
    hide Frame, Framed, View;
    var st := HeaderTorn(a, p);
    HeaderWrite(cfg, a, p, b);
    EmptyFramed();
    assert Lost(Write(st, cfg, b), 0) == {};
  }

  lemma HeaderWrite(cfg: Config, a: Bytes, p: Bytes, b: Bytes)
    requires |a| < LIMIT && 0 < |p| < LIMIT && |b| < LIMIT && 0 < cfg.segmentBytes <= |Frame(a)| + HEADER
    requires cfg.maxBytes >= |Frame(a)| + HEADER + |Frame(b)|
    ensures
      var st := HeaderTorn(a, p);
      && Write(st, cfg, b) == HeaderStore(a, p, b) == Append(st, cfg, b) && EvictCount(Write(st, cfg, b), cfg) == 0
      && NewEntry(st, cfg, b) == Entry(2, 0, b) && Content(Roll(st, cfg).files, Last(Roll(st, cfg).ids)) == []
  {
    hide Frame;
    var st := HeaderTorn(a, p);
    FullRoll(st, cfg);
    assert Roll(st, cfg).ids == [1, 2];
    var wr := Write(st, cfg, b);
    assert [] + Frame(b) == Frame(b);
    assert wr == HeaderStore(a, p, b);
    assert [1, 2][1..] == [2] && [2][1..] == [];
    assert Total(wr.files, [2]) == |Frame(b)|;
    assert !OverBudget(wr, cfg);
  }

  lemma ThreeSteps(w1: World, w2: World, w3: World, cfg: Config, a: Event, b: Event, c: Event)
    requires Enabled(FRESH, cfg, a) && Next(FRESH, cfg, a, w1)
    requires Enabled(w1, cfg, b) && Next(w1, cfg, b, w2)
    requires Enabled(w2, cfg, c) && Next(w2, cfg, c, w3)
    ensures IsRun([FRESH, w1, w2, w3], cfg, [a, b, c])
  {
    hide Enabled, Next;
    var ws, evs := [FRESH, w1, w2, w3], [a, b, c];
    forall i | 0 <= i < |evs| ensures Enabled(ws[i], cfg, evs[i]) && Next(ws[i], cfg, evs[i], ws[i + 1]) {
      assert i == 0 || i == 1 || i == 2;
    }
  }

  /**
   Append a record, die while appending another right behind its header, reopen, append once more
   onto a new segment. No record landed behind a torn frame and two are pending, but a drain with
   any batch of two or more sends the last one for ever.
   */
  lemma TornHeaderStalls(cfg: Config, a: Bytes, p: Bytes, b: Bytes) returns (ws: seq<World>, evs: seq<Event>)
    requires |a| < LIMIT && 0 < |p| < LIMIT && |b| < LIMIT
    requires |Frame(a)| < cfg.segmentBytes <= |Frame(a)| + HEADER
    requires cfg.maxBytes >= |Frame(a)| + HEADER + |Frame(b)|
    ensures IsRun(ws, cfg, evs) && |ws| == 4 && ws[3].torn == {}
    ensures View(ws[3].st) == [Entry(1, 0, a), Entry(2, 0, b)]
    ensures LayoutOf(ws[3].st) == [[1, 0, 0], [1, 0]]
    ensures forall batch, n :: batch >= 2 && n > 0 ==> View(Rounds(ws[3].st, batch, n)) == [Entry(2, 0, b)]
  {
    hide Frame, View, Rounds, LayoutOf, Next, Enabled, HeaderStore, IsRun, OneRecord, HeaderTorn;
    var e := Entry(1, 0, a);
    var w1 := World(OneRecord(a, 0), Some(Cursor(1, 0)), {e}, {}, {}, {});
    var w2 := w1.(st := HeaderTorn(a, p));
    var w3 := World(HeaderStore(a, p, b), Some(Cursor(1, 0)), {e, Entry(2, 0, b)}, {}, {}, {});
    FirstStep(cfg, a);
    SecondStep(cfg, a, p);
    ThirdStep(cfg, a, p, b);
    ws, evs := [FRESH, w1, w2, w3], [AppendDone(a), AppendKilled(p, HEADER, 0), AppendDone(b)];
    ThreeSteps(w1, w2, w3, cfg, evs[0], evs[1], evs[2]);
    HeaderStoreParts(a, p, b);
    forall batch: nat, n: nat | batch >= 2 && n > 0 ensures View(Rounds(w3.st, batch, n)) == [Entry(2, 0, b)] {
      HeaderResends(a, p, b, batch, n);
    }
  }
}
