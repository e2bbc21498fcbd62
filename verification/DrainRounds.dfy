/**
 Draining against a server that accepts everything: peek a batch, commit it, again. Whatever bytes
 the files of a sound spool hold, the drain empties the spool exactly when the schedule of its commits never ends where a segment
 that is not the last has nothing more to skip, and it releases exactly what it delivers exactly
 when the segments are regular and no batch ends at such a place.
 */
module DrainRounds {
  import opened Crc
  import opened Frames
  import opened SegmentStore
  import opened Fifo
  import opened Appends
  import opened Layouts
  import opened SpoolLayouts

  function Round(st: Store, batch: nat): Store {
    Commit(st, |Take(View(st), batch)|).st
  }

  function Rounds(st: Store, batch: nat, n: nat): Store
    decreases n
  {
    if n == 0 then st else Rounds(Round(st, batch), batch, n - 1)
  }

  /** The records of the first `n` batches posted, in order. */
  function Sent(st: Store, batch: nat, n: nat): seq<Entry>
    decreases n
  {
    if n == 0 then [] else Take(View(st), batch) + Sent(Round(st, batch), batch, n - 1)
  }

  lemma {:induction false} RoundsLast(st: Store, batch: nat, n: nat)
    ensures Rounds(st, batch, n + 1) == Round(Rounds(st, batch, n), batch)
    ensures Sent(st, batch, n + 1) == Sent(st, batch, n) + Take(View(Rounds(st, batch, n)), batch)
    decreases n
  {
    hide Round, View;
    if n > 0 {
      RoundsLast(Round(st, batch), batch, n - 1);
    }
  }

  lemma {:induction false} RoundsEmpty(st: Store, batch: nat, n: nat)
    requires View(st) == []
    ensures Rounds(st, batch, n) == st
    decreases n
  {
    hide View;
    if n > 0 { RoundsEmpty(st, batch, n - 1); }
  }

  // ---- rounds on the layout ----

  lemma RoundLayout(st: Store, batch: nat)
    requires Sound(st)
    ensures Sound(Round(st, batch)) && LayoutOf(Round(st, batch)) == Step(LayoutOf(st), batch)
  {
    hide View, Commit, LayoutOf, Cut, Sound, Queue;
    LayoutQueue(st);
    CommitLayout(st, |Take(View(st), batch)|);
  }

  lemma {:induction false} RoundsLayout(st: Store, batch: nat, n: nat)
    requires Sound(st)
    ensures Sound(Rounds(st, batch, n)) && LayoutOf(Rounds(st, batch, n)) == Steps(LayoutOf(st), batch, n)
    ensures |View(Rounds(st, batch, n))| == Queue(Steps(LayoutOf(st), batch, n))
    decreases n
  {
    hide View, Round, LayoutOf, Step, Sound, Queue;
    LayoutQueue(st);
    if n > 0 {
      RoundLayout(st, batch);
      RoundsLayout(Round(st, batch), batch, n - 1);
    }
  }

  /** With a stall ahead, no number of rounds empties the spool. */
  lemma RoundsStall(st: Store, batch: nat, n: nat)
    requires Sound(st) && Stalls(LayoutOf(st), batch)
    ensures View(Rounds(st, batch, n)) != []
  {
    hide View, Rounds, LayoutOf, Stalls, Steps, Sound, Queue;
    RoundsLayout(st, batch, n);
    StepsStall(LayoutOf(st), batch, n);
  }

  /** Without a stall there are at most as many deliveries as there are frames to skip. */
  lemma DeliveriesBounded(st: Store, batch: nat, n: nat)
    requires Sound(st) && batch > 0 && !Stalls(LayoutOf(st), batch)
    requires View(Rounds(st, batch, n)) != []
    ensures n < FrameCount(LayoutOf(st))
  {
    hide View, Rounds, LayoutOf, Stalls, Steps, Sound, FrameCount, Queue;
    RoundsLayout(st, batch, n);
    LayoutValid(st);
    StepsBounded(LayoutOf(st), batch, n);
  }

  /**
   On any disk, against a server that always accepts, the drain loop ends with an empty spool
   if and only if its schedule does not stall.
   */
  lemma DrainEmptiesIff(st: Store, batch: nat)
    requires Sound(st) && batch > 0
    ensures (exists n :: View(Rounds(st, batch, n)) == []) <==> !Stalls(LayoutOf(st), batch)
  {
    hide View, Rounds, LayoutOf, Stalls, Sound, FrameCount;
    if Stalls(LayoutOf(st), batch) {
      forall n: nat ensures View(Rounds(st, batch, n)) != [] {
        RoundsStall(st, batch, n);
      }
    } else {
      var n := FrameCount(LayoutOf(st));
      if View(Rounds(st, batch, n)) != [] {
        DeliveriesBounded(st, batch, n);
      }
      assert View(Rounds(st, batch, n)) == [];
    }
  }

  // ---- rounds that release what they deliver ----

  /** Every round takes exactly its batch off the queue. */
  ghost predicate RoundsAreFifo(st: Store, batch: nat) {
    forall n :: View(Rounds(st, batch, n)) == Drop(View(st), Times(n, batch))
  }

  lemma SameEnd<T>(s: seq<T>, t: seq<T>)
    requires EndsWith(s, t) && |s| == |t|
    ensures s == t
  {}

  lemma RoundInStep(st: Store, batch: nat)
    requires Sound(st) && |View(Round(st, batch))| == Less(|View(st)|, batch)
    ensures View(Round(st, batch)) == Drop(View(st), batch)
  {
    hide View, Commit, Ascending;
    var k := |Take(View(st), batch)|;
    CommitSafe(st, k);
    assert Drop(View(st), k) == Drop(View(st), batch);
    SameEnd(View(Round(st, batch)), Drop(View(st), batch));
  }

  lemma {:induction false} InStepIsFifo(st: Store, batch: nat, n: nat)
    requires Sound(st) && batch > 0 && InStep(LayoutOf(st), batch)
    ensures View(Rounds(st, batch, n)) == Drop(View(st), Times(n, batch))
    decreases n
  {
    hide View, Round, LayoutOf, Step, Sound, Queue, InStep;
    LayoutQueue(st);
    if View(st) == [] {
      RoundsEmpty(st, batch, n);
    } else if n > 0 {
      InStepNext(LayoutOf(st), batch);
      RoundLayout(st, batch);
      LayoutQueue(Round(st, batch));
      RoundInStep(st, batch);
      InStepIsFifo(Round(st, batch), batch, n - 1);
      DropTwice(View(st), batch, Times(n - 1, batch));
    }
  }

  lemma DropTwice<T>(s: seq<T>, m: nat, n: nat)
    ensures Drop(Drop(s, m), n) == Drop(s, m + n)
  {}

  lemma FifoInStep(st: Store, batch: nat)
    requires Sound(st)
    ensures RoundsAreFifo(st, batch) ==> InStep(LayoutOf(st), batch)
  {
    hide View, Rounds, LayoutOf, Steps, Sound, Queue;
    if RoundsAreFifo(st, batch) {
      LayoutQueue(st);
      forall n: nat ensures Queue(Steps(LayoutOf(st), batch, n)) == Less(Queue(LayoutOf(st)), Times(n, batch)) {
        RoundsLayout(st, batch, n);
        assert View(Rounds(st, batch, n)) == Drop(View(st), Times(n, batch));
      }
    }
  }

  /**
   On any disk, every round releases exactly the batch it delivered if and only if the segments
   are regular and no batch ends where a segment that is not the last ends.
   */
  lemma RoundsFifoIff(st: Store, batch: nat)
    requires Sound(st) && batch > 0
    ensures RoundsAreFifo(st, batch) <==> Regular(LayoutOf(st)) && Aligned(LayoutOf(st), batch)
  {
    hide View, Rounds, LayoutOf, InStep, Regular, Aligned, Sound;
    LayoutValid(st);
    InStepIff(LayoutOf(st), batch);
    FifoInStep(st, batch);
    if InStep(LayoutOf(st), batch) {
      forall n: nat ensures View(Rounds(st, batch, n)) == Drop(View(st), Times(n, batch)) {
        InStepIsFifo(st, batch, n);
      }
    }
  }

  // ---- what the server gets ----

  lemma {:induction false} RoundsAscending(st: Store, batch: nat, n: nat)
    requires Ascending(st.ids)
    ensures Ascending(Rounds(st, batch, n).ids)
    decreases n
  {
    hide Commit, View, Ascending;
    if n > 0 {
      CommitAscending(st, |Take(View(st), batch)|);
      RoundsAscending(Round(st, batch), batch, n - 1);
    }
  }

  /** On any disk, every record pending before a drain was posted or is still pending. */
  lemma {:induction false} SentOrPending(st: Store, batch: nat, n: nat, e: Entry)
    requires Ascending(st.ids) && e in View(st)
    ensures e in Sent(st, batch, n) || e in View(Rounds(st, batch, n))
    decreases n
  {
    hide Commit, View, Ascending;
    if n > 0 {
      var k := |Take(View(st), batch)|;
      CommitSafe(st, k);
      CommitAscending(st, k);
      if e !in Take(View(st), batch) {
        RestKept(View(st), batch, View(Round(st, batch)), e);
        SentOrPending(Round(st, batch), batch, n - 1, e);
      }
    }
  }

  lemma RestKept<T>(view: seq<T>, batch: nat, after: seq<T>, e: T)
    requires EndsWith(after, Drop(view, |Take(view, batch)|)) && e in view && e !in Take(view, batch)
    ensures e in after
  {
    var k := |Take(view, batch)|;
    assert view == view[..k] + view[k..];
    assert e in Drop(view, k);
    assert after == after[..|after| - |Drop(view, k)|] + Drop(view, k);
  }

  /** The server gets the queue itself: in order, nothing twice, nothing skipped. */
  ghost predicate SentInOrder(st: Store, batch: nat) {
    forall n :: Sent(st, batch, n) == Take(View(st), Times(n, batch))
  }

  lemma {:induction false} FifoSendsInOrder(st: Store, batch: nat, n: nat)
    requires RoundsAreFifo(st, batch)
    ensures Sent(st, batch, n) == Take(View(st), Times(n, batch))
    decreases n
  {
    hide View, Rounds, Sent, Times, Take, Drop;
    if n == 0 {
      SentStart(st, batch);
      TakeNone(View(st), batch);
    } else {
      FifoSendsInOrder(st, batch, n - 1);
      RoundsLast(st, batch, n - 1);
      assert View(Rounds(st, batch, n - 1)) == Drop(View(st), Times(n - 1, batch));
      TakeMore(View(st), Times(n - 1, batch), batch);
      TimesLast(n - 1, batch);
    }
  }

  lemma SentStart(st: Store, batch: nat)
    ensures Sent(st, batch, 0) == [] && Rounds(st, batch, 0) == st
  {}

  lemma TakeNone<T>(s: seq<T>, batch: nat)
    ensures Take(s, Times(0, batch)) == []
  {}

  lemma TakeMore<T>(s: seq<T>, m: nat, b: nat)
    ensures Take(s, m) + Take(Drop(s, m), b) == Take(s, m + b)
  {}

  /** Records sent and records pending together never get fewer. */
  lemma {:induction false} SentAndPending(st: Store, batch: nat, m: nat, n: nat)
    requires Ascending(st.ids) && m <= n
    ensures
      |Sent(st, batch, m)| + |View(Rounds(st, batch, m))| <= |Sent(st, batch, n)| + |View(Rounds(st, batch, n))|
    decreases n
  {
    hide View, Rounds, Sent, Commit, Ascending;
    if m < n {
      SentAndPending(st, batch, m, n - 1);
      RoundsLast(st, batch, n - 1);
      RoundsAscending(st, batch, n - 1);
      CommitSafe(Rounds(st, batch, n - 1), |Take(View(Rounds(st, batch, n - 1)), batch)|);
    }
  }

  lemma {:induction false} SentEachRound(st: Store, batch: nat, n: nat)
    requires batch > 0 && forall m :: 0 <= m < n ==> View(Rounds(st, batch, m)) != []
    ensures |Sent(st, batch, n)| >= n
    decreases n
  {
    hide View, Rounds, Sent, Round;
    if n > 0 {
      SentEachRound(st, batch, n - 1);
      RoundsLast(st, batch, n - 1);
    }
  }

  lemma {:induction false} StaysEmpty(st: Store, batch: nat, m: nat, n: nat)
    requires View(Rounds(st, batch, m)) == [] && m <= n
    ensures View(Rounds(st, batch, n)) == []
    decreases n
  {
    hide View, Rounds, Commit;
    if m < n {
      StaysEmpty(st, batch, m, n - 1);
      RoundsLast(st, batch, n - 1);
      RoundOfNothing(Rounds(st, batch, n - 1), batch);
    }
  }

  lemma RoundOfNothing(st: Store, batch: nat)
    requires View(st) == []
    ensures Round(st, batch) == st
  {
    hide View;
  }

  lemma InOrderEmpties(st: Store, batch: nat) returns (n: nat)
    requires batch > 0 && SentInOrder(st, batch)
    ensures View(Rounds(st, batch, n)) == []
  {
    hide View, Rounds, Sent, Times;
    n := |View(st)| + 1;
    assert |Sent(st, batch, n)| <= |View(st)|;
    if forall m :: 0 <= m < n ==> View(Rounds(st, batch, m)) != [] {
      SentEachRound(st, batch, n);
    } else {
      n :| 0 <= n && View(Rounds(st, batch, n)) == [];
    }
  }

  lemma InOrderInStep(st: Store, batch: nat, n: nat)
    requires Sound(st) && batch > 0 && SentInOrder(st, batch)
    ensures |View(Rounds(st, batch, n))| == Less(|View(st)|, Times(n, batch))
  {
    hide View, Rounds, Sent, Ascending, Times;
    var last := InOrderEmpties(st, batch);
    var end := if n < last then last else n;
    SentStart(st, batch);
    SentAndPending(st, batch, 0, n);
    SentAndPending(st, batch, n, end);
    StaysEmpty(st, batch, last, end);
    assert |Sent(st, batch, end)| <= |View(st)|;
  }

  /**
   On any disk, the server gets the queue in order with nothing twice if and only if the segments
   are regular and no batch ends where a segment that is not the last ends.
   */
  lemma SentInOrderIff(st: Store, batch: nat)
    requires Sound(st) && batch > 0
    ensures SentInOrder(st, batch) <==> Regular(LayoutOf(st)) && Aligned(LayoutOf(st), batch)
  {
    hide View, Rounds, Sent, LayoutOf, Regular, Aligned, Sound, Steps, Queue, Times;
    RoundsFifoIff(st, batch);
    if RoundsAreFifo(st, batch) {
      forall n: nat ensures Sent(st, batch, n) == Take(View(st), Times(n, batch)) {
        FifoSendsInOrder(st, batch, n);
      }
    }
    if SentInOrder(st, batch) {
      LayoutQueue(st);
      forall n: nat ensures Queue(Steps(LayoutOf(st), batch, n)) == Less(Queue(LayoutOf(st)), Times(n, batch)) {
        InOrderInStep(st, batch, n);
        RoundsLayout(st, batch, n);
      }
      LayoutValid(st);
      InStepIff(LayoutOf(st), batch);
    }
  }

  /** A drain that sends in order makes at most as many deliveries as there are records. */
  lemma InOrderBounded(st: Store, batch: nat, n: nat)
    requires batch > 0 && RoundsAreFifo(st, batch) && View(Rounds(st, batch, n)) != []
    ensures n < |View(st)|
  {
    hide View, Rounds;
    assert View(Rounds(st, batch, n)) == Drop(View(st), Times(n, batch));
    TimesAtLeast(n, batch);
  }

  // ---- well-framed spools ----

  lemma {:induction false} FramedCounts(t: Bytes)
    requires Framed(t)
    ensures Counts(t)[0] == Skips(Counts(t)) && (t != [] ==> Skips(Counts(t)) > 0)
    decreases |t|
  {
    hide Intact, HasHeader, Span, Parse;
    ParseFront(t, 0, 0);
    if t != [] {
      var rest := Tail(t, Span(t));
      assert rest == t[Span(t)..];
      FramedCounts(rest);
      ParseLength(rest, 0, Span(t));
    } else {
      CountsFront(t);
    }
  }

  lemma {:induction false} FramedSolid(files: Files, ids: seq<nat>)
    requires Ascending(ids) && forall id :: id in ids ==> id in files && Framed(files[id])
    requires forall a, b :: a in files && b in files && a < b ==> files[a] != []
    ensures Solid(LayoutFrom(files, ids))
  {
    hide Counts, Framed, Ascending, Queue;
    if |ids| > 1 {
      AscendingTail(ids);
      assert ids[1..][0] in ids[1..];
      FramedCounts(files[ids[0]]);
      FramedSolid(files, ids[1..]);
      assert LayoutFrom(files, ids)[1..] == LayoutFrom(files, ids[1..]);
    }
  }

  /** The segments of a well-framed spool are regular. */
  lemma WellFramedRegular(st: Store)
    requires WellFramed(st)
    ensures Regular(LayoutOf(st))
  {
    hide Counts, Framed, Ascending, Queue, OnChain, After, LayoutFrom, Solid;
    LayoutParts(st);
    if st.ids != [] {
      CursorFramed(st);
      FramedCounts(st.files[st.seg][st.off..]);
      AfterOfAscending(st.ids, st.seg);
      FramedSolid(st.files, After(st.ids, st.seg));
    }
  }

  /** On a well-framed spool a drain empties the spool exactly when no batch ends at a segment end. */
  lemma WellFramedEmptiesIff(st: Store, batch: nat)
    requires WellFramed(st) && batch > 0
    ensures (exists n :: View(Rounds(st, batch, n)) == []) <==> Aligned(LayoutOf(st), batch)
  {
    hide View, Rounds, LayoutOf, Regular, Aligned, Stalls, Framed, OnChain, Ascending;
    WellFramedRegular(st);
    LayoutValid(st);
    StallsIffMisaligned(LayoutOf(st), batch);
    DrainEmptiesIff(st, batch);
  }

  // ---- a stopped spool ----

  /** With nothing to skip at the cursor the same batch goes out on every round, and nothing is released. */
  lemma {:induction false} StoppedResends(st: Store, batch: nat, n: nat)
    requires Sound(st) && Stopped(LayoutOf(st)) && View(st) != [] && batch > 0
    ensures Rounds(st, batch, n) == st && |Sent(st, batch, n)| >= n
    ensures forall e :: e in Sent(st, batch, n) ==> e in Take(View(st), batch)
    decreases n
  {
    hide View, Commit, LayoutOf, After, HasHeader, Tail, Ascending;
    if n > 0 {
      LayoutParts(st);
      CountsFront(Tail(st.files[st.seg], st.off));
      CommitIdleIff(st, |Take(View(st), batch)|);
      StoppedResends(st, batch, n - 1);
    }
  }

  lemma ParkedStops(st: Store)
    requires WellFramed(st) && Parked(st)
    ensures Stopped(LayoutOf(st))
  {
    hide View, LayoutOf, After, HasHeader, Tail, Framed, OnChain, Ascending;
    LayoutParts(st);
    CountsFront(Tail(st.files[st.seg], st.off));
    ParkedIff(st);
  }

  lemma ParkedResends(st: Store, batch: nat, n: nat)
    requires WellFramed(st) && Parked(st) && View(st) != [] && batch > 0
    ensures Rounds(st, batch, n) == st
  {
    hide View, LayoutOf, Parked, Framed, OnChain, Ascending, Rounds, Sent, Stopped;
    ParkedStops(st);
    StoppedResends(st, batch, n);
  }

  /**
   A parked spool is three calls away from an empty directory: fill a segment, commit it,
   append again. From then on a drain against a willing server never ends.
   */
  lemma StallReachable(cfg: Config, p: Bytes, q: Bytes)
    requires |p| < LIMIT && |q| < LIMIT && 0 < cfg.segmentBytes <= HEADER + |p|
    requires cfg.maxBytes >= |Frame(p)| + |Frame(q)|
    ensures
      var st := Append(Commit(Append(Store(map[], [], 1, 0), cfg, p), 1).st, cfg, q);
      && View(st) == [Entry(2, 0, q)] && Parked(st)
      && forall batch, n :: batch > 0 ==> View(Rounds(st, batch, n)) == [Entry(2, 0, q)]
  {
    hide View, Commit, Parked, Framed, OnChain, Frame, Rounds, WellFramed;
    var s0 := Store(map[], [], 1, 0);
    var s1 := Append(s0, cfg, p);
    var s2 := Commit(s1, 1).st;
    FirstAppend(cfg, p);
    FirstCommit(p);
    assert s2.files[1] == Frame(p);
    SecondFits(cfg, p, q);
    FullSegmentParks(s2, cfg, q);
    var st := Append(s2, cfg, q);
    AppendWellFramed(s2, cfg, q);
    forall batch: nat, n: nat | batch > 0 ensures View(Rounds(st, batch, n)) == [Entry(2, 0, q)] {
      ParkedResends(st, batch, n);
    }
  }

  function OneRecord(p: Bytes, off: nat): Store
    requires |p| < LIMIT
  {
    Store(map[1 := Frame(p)], [1], 1, off)
  }

  lemma FirstAppend(cfg: Config, p: Bytes)
    requires |p| < LIMIT && cfg.segmentBytes > 0
    ensures Append(Store(map[], [], 1, 0), cfg, p) == OneRecord(p, 0)
  {
    hide Frame;
    assert [] + Frame(p) == Frame(p);
  }

  lemma FirstCommit(p: Bytes)
    requires |p| < LIMIT
    ensures Commit(OneRecord(p, 0), 1).st == OneRecord(p, |Frame(p)|) && WellFramed(OneRecord(p, |Frame(p)|))
  {
    hide Frame, Framed, OnChain, Commit, Walk, Parse, Parked;
    var st := OneRecord(p, 0);
    FrameParses(p, 1, 0);
    OnChainStart(Frame(p));
    assert WellFramed(st);
    assert Tail(Frame(p), 0) == Frame(p);
    assert After([1], 1) == [];
    NoMoreView(st);
    assert !Parked(st) by { StartNotParked(st); }
    CommitFifo(st, 1);
    CommitMoves(st, 1);
    var st' := Commit(st, 1).st;
    NoMoreView(st');
    CursorFramed(st');
  }

  lemma SecondFits(cfg: Config, p: Bytes, q: Bytes)
    requires |p| < LIMIT && |q| < LIMIT && 0 < cfg.segmentBytes <= |Frame(p)|
    requires cfg.maxBytes >= |Frame(p)| + |Frame(q)|
    ensures !OverBudget(Write(OneRecord(p, |Frame(p)|), cfg, q), cfg)
  {
    hide Frame;
    var wr := Write(OneRecord(p, |Frame(p)|), cfg, q);
    assert wr.ids == [1, 2];
    assert wr.files[2] == Frame(q) && wr.files[1] == Frame(p);
    assert [1, 2][1..] == [2] && [2][1..] == [];
    assert Total(wr.files, [2]) == |Frame(q)|;
  }
}
