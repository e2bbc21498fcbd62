/**
 The ledgers of a run are honest: a record counted as evicted is gone from the disk for good,
 and was evicted by an append that found the directory over its budget; a record counted as
 delivered was pending when it was delivered.
 */
module RunLedgers {
  import opened Options
  import opened Crc
  import opened Frames
  import opened SegmentStore
  import opened Fifo
  import opened Appends
  import opened Runs

  /** Evicted records lie before the first segment. */
  ghost predicate Gone(w: World) {
    forall e :: e in w.evicted ==> w.st.ids != [] && e.seg < w.st.ids[0]
  }

  /** The first segment's number only grows. */
  ghost predicate Rises(before: Store, after: Store) {
    before.ids != [] ==> after.ids != [] && before.ids[0] <= after.ids[0]
  }

  lemma RollRises(st: Store, cfg: Config, data: Bytes)
    ensures Rises(st, WriteTo(Roll(st, cfg), data))
  {
    hide Size, Content;
  }

  lemma DropRises(st: Store, n: nat)
    requires Sound(st) && n < |st.ids| && st.seg == st.ids[0]
    ensures Rises(st, DropMany(st, n))
    ensures forall e :: e in Lost(st, n) ==> DropMany(st, n).ids != [] && e.seg < DropMany(st, n).ids[0]
  {
    hide DropMany, View, Sound, Minus;
    DropManyIs(st, n);
    SoundAscending(st);
    assert DropMany(st, n).ids[0] == st.ids[n];
    forall e | e in Lost(st, n) ensures e.seg < st.ids[n] {
      var i :| 0 <= i < n && st.ids[i] == e.seg;
    }
  }

  lemma SoundAscending(st: Store)
    requires Sound(st)
    ensures Ascending(st.ids)
  {}

  lemma RisesTwice(a: Store, b: Store, c: Store)
    requires Rises(a, b) && Rises(b, c)
    ensures Rises(a, c)
  {}

  lemma WroteGone(w: World, cfg: Config, data: Bytes, n: nat, w': World)
    requires Inv(w) && Gone(w) && cfg.segmentBytes > 0 && n < |Roll(w.st, cfg).ids|
    requires w'.st == DropMany(WriteTo(Roll(w.st, cfg), data), n)
    requires w'.evicted == w.evicted + Lost(WriteTo(Roll(w.st, cfg), data), n)
    ensures Gone(w')
  {
    hide Anchored, View, Behind, DropMany, Roll, WriteTo, Lost, Rises;
    var wr := WriteTo(Roll(w.st, cfg), data);
    WriteAnchored(w.st, w.saved, cfg, data);
    WriteIds(Roll(w.st, cfg), data);
    AnchoredSound(wr, w.saved);
    RollRises(w.st, cfg, data);
    DropRises(wr, n);
    RisesTwice(w.st, wr, w'.st);
    GoneRises(w, w'.st);
  }

  lemma GoneRises(w: World, st: Store)
    requires Gone(w) && Rises(w.st, st)
    ensures forall e :: e in w.evicted ==> st.ids != [] && e.seg < st.ids[0]
  {}

  lemma AppendGone(w: World, cfg: Config, ev: Event, w': World)
    requires Inv(w) && Gone(w) && cfg.segmentBytes > 0 && ev.AppendDone? && Enabled(w, cfg, ev) && Next(w, cfg, ev, w')
    ensures Gone(w')
  {
    hide Inv, Gone, Frame, EvictCount, Roll, Lost, DropMany, LandsTorn, Evict, NewEntry, WriteTo;
    var wr := Write(w.st, cfg, ev.p);
    WriteIds(Roll(w.st, cfg), Frame(ev.p));
    EvictIsDropMany(wr, cfg);
    WroteGone(w, cfg, Frame(ev.p), EvictCount(wr, cfg), w');
  }

  lemma AppendKilledGone(w: World, cfg: Config, ev: Event, w': World)
    requires Inv(w) && Gone(w) && cfg.segmentBytes > 0 && ev.AppendKilled? && Enabled(w, cfg, ev) && Next(w, cfg, ev, w')
    ensures Gone(w')
  {
    hide Inv, Gone, Anchored, View, Frame, EvictCount, Roll, WriteTo, Reopened, Lost, DropMany;
    var data := Frame(ev.p)[..ev.written];
    if ev.written == |Frame(ev.p)| {
      PartialWhole(w.st, cfg, ev.p);
    }
    InvAnchored(w);
    WriteAnchored(w.st, w.saved, cfg, data);
    ReopenedIs(Partial(w.st, cfg, ev.p, ev.written), w.saved, ev.dropped, w'.st);
    WroteGone(w, cfg, data, ev.dropped, w');
  }

  lemma CommitDoneGone(w: World, cfg: Config, ev: Event, w': World)
    requires Inv(w) && Gone(w) && ev.CommitDone? && Enabled(w, cfg, ev) && Next(w, cfg, ev, w')
    ensures Gone(w')
  {
    hide Inv, Gone, View, Commit, Anchored, Rises, Sound, Minus, Acknowledged;
    InvAnchored(w);
    AnchoredSound(w.st, w.saved);
    if w.st.ids == [] {
      NoneGone(w);
      NoneEvicted(w');
    } else {
      CommitFront(w.st, ev.k);
      CommitRises(w.st, Commit(w.st, ev.k));
      StepGone(w, w');
    }
  }

  lemma CommitKilledGone(w: World, cfg: Config, ev: Event, w': World)
    requires Inv(w) && Gone(w) && ev.CommitKilled? && Enabled(w, cfg, ev) && Next(w, cfg, ev, w')
    ensures Gone(w')
  {
    hide Inv, Gone, View, Commit, Anchored, Reopened, DropMany, Rises, Sound, Minus, Acknowledged, Lost;
    InvAnchored(w);
    AnchoredSound(w.st, w.saved);
    if w.st.ids == [] {
      NoneGone(w);
      NoneEvicted(w');
    } else {
      CommitFront(w.st, ev.k);
      assert Commit(w.st, ev.k).removed[..ev.removed] == w.st.ids[..ev.removed];
      ReopenedIs(w.st, w.saved, ev.removed, w'.st);
      DropRises(w.st, ev.removed);
      StepGone(w, w');
    }
  }

  lemma NoneGone(w: World)
    requires Gone(w) && w.st.ids == []
    ensures w.evicted == {}
  {}

  lemma NoneEvicted(w: World)
    requires w.evicted == {}
    ensures Gone(w)
  {}

  lemma StepGone(w: World, w': World)
    requires Gone(w) && Rises(w.st, w'.st) && w'.evicted == w.evicted
    ensures Gone(w')
  {}

  lemma CommitRises(st: Store, r: Release)
    requires Ascending(st.ids) && |r.removed| < |st.ids| && r.st.ids == st.ids[|r.removed|..]
    ensures Rises(st, r.st)
  {}

  lemma GoneStep(w: World, cfg: Config, ev: Event, w': World)
    requires Inv(w) && Gone(w) && cfg.segmentBytes > 0 && Enabled(w, cfg, ev) && Next(w, cfg, ev, w')
    ensures Gone(w')
  {
    hide Inv, Enabled, Next, Gone;
    match ev
    case AppendDone(_) => AppendGone(w, cfg, ev, w');
    case AppendKilled(_, _, _) => AppendKilledGone(w, cfg, ev, w');
    case Delivered(_) => DeliveredGone(w, cfg, ev, w');
    case CommitDone(_) => CommitDoneGone(w, cfg, ev, w');
    case CommitKilled(_, _) => CommitKilledGone(w, cfg, ev, w');
    case Killed => KilledInv(w, cfg, ev, w');
  }

  lemma DeliveredGone(w: World, cfg: Config, ev: Event, w': World)
    requires Gone(w) && ev.Delivered? && Enabled(w, cfg, ev) && Next(w, cfg, ev, w')
    ensures Gone(w')
  {
    hide View;
  }

  lemma {:induction false} RunGone(ws: seq<World>, cfg: Config, evs: seq<Event>, i: nat)
    requires IsRun(ws, cfg, evs) && cfg.segmentBytes > 0 && i < |ws|
    ensures Gone(ws[i])
    decreases i
  {
    hide Inv, Enabled, Next, Gone;
    if i == 0 {
      NoneEvicted(FRESH);
    } else {
      RunGone(ws, cfg, evs, i - 1);
      RunInv(ws, cfg, evs, i - 1);
      GoneStep(ws[i - 1], cfg, evs[i - 1], ws[i]);
    }
  }

  /** An evicted record is gone for good: in every later state its segment is not on disk. */
  lemma EvictedGone(ws: seq<World>, cfg: Config, evs: seq<Event>, i: nat, e: Entry)
    requires IsRun(ws, cfg, evs) && cfg.segmentBytes > 0 && i < |ws| && e in ws[i].evicted
    ensures e.seg !in ws[i].st.files && e !in View(ws[i].st)
  {
    hide IsRun, View;
    RunGone(ws, cfg, evs, i);
    RunInv(ws, cfg, evs, i);
    var st := ws[i].st;
    AnchoredSound(st, ws[i].saved);
    if e in View(st) { ViewOnDisk(st, e); }
  }

  lemma ViewOnDisk(st: Store, e: Entry)
    requires Sound(st) && e in View(st)
    ensures e.seg in st.ids
  {
    hide SegView, ViewFrom, After, Ascending;
    SegViewSeg(st.files, st.seg, st.off);
    var next := After(st.ids, st.seg);
    ViewFromSegments(st.files, next);
    if e !in Current(st) {
      assert e in ViewFrom(st.files, next);
    }
  }

  // ---- where the ledgers come from ----

  /** The append of step `j` found the directory over budget with `e` in the queue. */
  ghost predicate EvictedBy(w: World, cfg: Config, ev: Event, e: Entry) {
    && (ev.AppendDone? || ev.AppendKilled?) && |ev.p| < LIMIT
    && var wr := Write(w.st, cfg, ev.p);
    Total(wr.files, wr.ids) > cfg.maxBytes && |wr.ids| > 1 && e in View(wr)
  }

  lemma EvictsOverBudget(w: World, cfg: Config, ev: Event, w': World, e: Entry)
    requires Enabled(w, cfg, ev) && Next(w, cfg, ev, w') && e in w'.evicted && e !in w.evicted
    ensures EvictedBy(w, cfg, ev, e)
  {
    hide View, Write, Commit, Append, Reopened, DropMany, LandsTorn, NewEntry, EvictCount, Total, Frame, Roll, WriteTo;
    if ev.AppendDone? {
      EvictNeeded(Write(w.st, cfg, ev.p), cfg, 0);
      DropNone(Write(w.st, cfg, ev.p));
    } else {
      var partial := Partial(w.st, cfg, ev.p, ev.written);
      assert e in Lost(partial, ev.dropped);
      assert ev.dropped > 0;
      PartialWhole(w.st, cfg, ev.p);
      EvictNeeded(Write(w.st, cfg, ev.p), cfg, 0);
      DropNone(Write(w.st, cfg, ev.p));
    }
  }

  /** A record is evicted only by an append that finds more than max_bytes on disk, and out of the queue. */
  lemma {:induction false} EvictedOverBudget(ws: seq<World>, cfg: Config, evs: seq<Event>, i: nat, e: Entry)
    requires IsRun(ws, cfg, evs) && i < |ws| && e in ws[i].evicted
    ensures exists j :: 0 <= j < i && EvictedBy(ws[j], cfg, evs[j], e)
    decreases i
  {
    hide Enabled, Next, EvictedBy;
    assert ws[0] == FRESH;
    if i > 0 {
      if e in ws[i - 1].evicted {
        EvictedOverBudget(ws, cfg, evs, i - 1, e);
      } else {
        EvictsOverBudget(ws[i - 1], cfg, evs[i - 1], ws[i], e);
      }
    }
  }

  /** A record counted as delivered was pending when a delivery was acknowledged. */
  lemma {:induction false} DeliveredWasPending(ws: seq<World>, cfg: Config, evs: seq<Event>, i: nat, e: Entry)
    requires IsRun(ws, cfg, evs) && i < |ws| && e in ws[i].delivered
    ensures exists j :: 0 <= j < i && evs[j].Delivered? && e in View(ws[j].st)
    decreases i
  {
    hide Enabled, Next, View;
    assert ws[0] == FRESH;
    if i > 0 {
      if e in ws[i - 1].delivered {
        DeliveredWasPending(ws, cfg, evs, i - 1, e);
      } else {
        DeliversPending(ws[i - 1], cfg, evs[i - 1], ws[i], e);
      }
    }
  }

  lemma DeliversPending(w: World, cfg: Config, ev: Event, w': World, e: Entry)
    requires Enabled(w, cfg, ev) && Next(w, cfg, ev, w') && e in w'.delivered && e !in w.delivered
    ensures ev.Delivered? && e in View(w.st)
  {
    hide View, Write, Commit, Append, Reopened, LandsTorn, NewEntry, EvictCount, Lost, Partial, Minus;
  }
}
