/**
 What an append does to the queue: the older records stay, the new one is last and
 is visible exactly when its segment had no torn tail, and eviction then removes
 whole segments from the front until the budget holds.
 */
module Appends {
  import opened Crc
  import opened Frames
  import opened SegmentStore
  import opened Fifo

  // ---- the last segment in the view ----

  lemma {:induction false} ViewFromAppend(files: Files, a: seq<nat>, b: seq<nat>)
    ensures ViewFrom(files, a + b) == ViewFrom(files, a) + ViewFrom(files, b)
  {
    hide SegView;
    if a == [] {
      assert a + b == b;
    } else {
      assert (a + b)[1..] == a[1..] + b;
      ViewFromAppend(files, a[1..], b);
    }
  }

  function LastOffset(st: Store): nat
    requires st.ids != []
  {
    if st.seg == Last(st.ids) then st.off else 0
  }

  /** The records of all segments but the last. */
  function Older(st: Store): seq<Entry>
    requires st.ids != []
  {
    if st.seg == Last(st.ids) then []
    else
      var next := After(st.ids, st.seg);
      SegView(st.files, st.seg, st.off) + (if next == [] then [] else ViewFrom(st.files, next[..|next| - 1]))
  }

  lemma AfterAndLast(ids: seq<nat>, id: nat)
    requires Ascending(ids) && id in ids
    ensures id == Last(ids) ==> After(ids, id) == []
    ensures id != Last(ids) ==> After(ids, id) != [] && Last(After(ids, id)) == Last(ids)
  {
    hide After, Ascending;
    AfterOfAscending(ids, id);
    LastIsGreatest(ids);
    var next := After(ids, id);
    assert next != [] ==> next[0] in next;
  }

  lemma ViewSplit(st: Store)
    requires Sound(st) && st.ids != []
    ensures View(st) == Older(st) + SegView(st.files, Last(st.ids), LastOffset(st))
  {
    hide SegView, After, Ascending, ViewFrom;
    AfterAndLast(st.ids, st.seg);
    if st.seg == Last(st.ids) {
      assert ViewFrom(st.files, []) == [] by { ViewFromNone(st.files, 0); }
    } else {
      var next := After(st.ids, st.seg);
      assert next == next[..|next| - 1] + [Last(st.ids)];
      ViewFromAppend(st.files, next[..|next| - 1], [Last(st.ids)]);
      ViewFromNone(st.files, Last(st.ids));
    }
  }

  lemma ViewFromNone(files: Files, id: nat)
    ensures ViewFrom(files, []) == [] && ViewFrom(files, [id]) == SegView(files, id, 0)
  {
    assert [id][1..] == [];
  }

  lemma LastIsGreatest(ids: seq<nat>)
    requires Ascending(ids) && ids != []
    ensures Last(ids) in ids && forall x :: x in ids ==> x <= Last(ids)
  {}

  // ---- writing behind the last segment ----

  /** Writing to the last segment changes only what that segment shows. */
  lemma OlderKept(st: Store, data: Bytes)
    requires Sound(st) && st.ids != []
    ensures Sound(WriteTo(st, data))
    ensures Older(WriteTo(st, data)) == Older(st)
  {
    hide SegView, After, Ascending, ViewFrom;
    var st', last := WriteTo(st, data), Last(st.ids);
    LastIsGreatest(st.ids);
    if st.seg != last {
      var next := After(st.ids, st.seg);
      AfterAndLast(st.ids, st.seg);
      AfterOfAscending(st.ids, st.seg);
      SegViewFiles(st.files, st'.files, st.seg, st.off);
      ButLast(next);
      ViewFromFiles(st.files, st'.files, next[..|next| - 1]);
    }
  }

  lemma ButLast(ids: seq<nat>)
    requires Ascending(ids) && ids != []
    ensures Last(ids) !in ids[..|ids| - 1]
  {}

  lemma TailExtends(s: Bytes, data: Bytes, off: nat, seg: nat)
    ensures Parse(Tail(s, off), seg, off) <= Parse(Tail(s + data, off), seg, off)
  {
    hide Parse;
    if off <= |s| {
      assert (s + data)[off..] == s[off..] + data;
      ParseExtends(s[off..], data, seg, off);
    } else {
      ParseNothing(seg, off);
    }
  }

  lemma ParseNothing(seg: nat, off: nat)
    ensures Parse([], seg, off) == []
  {}

  /** Whatever is written to the last segment, the queue only grows at its end. */
  lemma WriteKeeps(st: Store, data: Bytes)
    requires Sound(st) && st.ids != []
    ensures Sound(WriteTo(st, data))
    ensures View(st) <= View(WriteTo(st, data))
  {
    hide After, Ascending, View, Parse, Older, Tail;
    LastIsGreatest(st.ids);
    ViewSplit(st);
    OlderKept(st, data);
    ViewSplit(WriteTo(st, data));
    TailExtends(st.files[Last(st.ids)], data, LastOffset(st), Last(st.ids));
  }

  lemma SegmentGrows(s: Bytes, data: Bytes, off: nat, seg: nat)
    requires Framed(s) && OnChain(s, off)
    ensures Parse(Tail(s + data, off), seg, off) == Parse(Tail(s, off), seg, off) + Parse(data, seg, |s|)
  {
    hide Parse, Framed, OnChain, Covered;
    OnChainFramed(s, off);
    ParseAppend(s[off..], data, seg, off);
    assert (s + data)[off..] == s[off..] + data;
  }

  /** Behind whole frames, the records in `data` join the queue. */
  lemma WriteFramed(st: Store, data: Bytes)
    requires Sound(st) && st.ids != []
    requires Framed(st.files[Last(st.ids)]) && OnChain(st.files[Last(st.ids)], LastOffset(st))
    ensures View(WriteTo(st, data)) == View(st) + Parse(data, Last(st.ids), |st.files[Last(st.ids)]|)
  {
    hide After, Ascending, View, Parse, Older, Framed, OnChain, Tail;
    var last, off := Last(st.ids), LastOffset(st);
    LastIsGreatest(st.ids);
    ViewSplit(st);
    OlderKept(st, data);
    ViewSplit(WriteTo(st, data));
    SegmentGrows(st.files[last], data, off, last);
    var a, b, c := Older(st), SegView(st.files, last, off), Parse(data, last, |st.files[last]|);
    assert a + (b + c) == (a + b) + c;
  }

  /** The record just written is in the queue exactly when its segment had no torn tail. */
  lemma VisibleIffFramed(st: Store, p: Bytes)
    requires Sound(st) && st.ids != [] && |p| < LIMIT
    requires OnChain(st.files[Last(st.ids)], LastOffset(st))
    ensures
      var s := st.files[Last(st.ids)];
      Entry(Last(st.ids), |s|, p) in View(WriteTo(st, Frame(p))) <==> Framed(s)
  {
    hide After, Ascending, View, Parse, Older, Framed, OnChain, Frame;
    var last, off := Last(st.ids), LastOffset(st);
    var s, st' := st.files[last], WriteTo(st, Frame(p));
    LastIsGreatest(st.ids);
    OlderKept(st, Frame(p));
    ViewSplit(st');
    OnChainFramed(s, off);
    FoundIffFramed(s[off..], p, last, off);
    assert (s + Frame(p))[off..] == s[off..] + Frame(p);
    OlderSegments(st');
  }

  lemma OlderSegments(st: Store)
    requires Sound(st) && st.ids != []
    ensures forall e :: e in Older(st) ==> e.seg != Last(st.ids)
  {
    hide After, Ascending, SegView, ViewFrom;
    if st.seg != Last(st.ids) {
      var next := After(st.ids, st.seg);
      AfterAndLast(st.ids, st.seg);
      AfterOfAscending(st.ids, st.seg);
      SegViewSeg(st.files, st.seg, st.off);
      ButLast(next);
      ViewFromSegments(st.files, next[..|next| - 1]);
    }
  }

  lemma {:induction false} ViewFromSegments(files: Files, ids: seq<nat>)
    ensures forall e :: e in ViewFrom(files, ids) ==> e.seg in ids
  {
    hide SegView;
    if ids != [] {
      SegViewSeg(files, ids[0], 0);
      ViewFromSegments(files, ids[1..]);
    }
  }

  // ---- picking the segment ----

  lemma {:induction false} AfterPush(ids: seq<nat>, n: nat, id: nat)
    requires id < n
    ensures After(ids + [n], id) == After(ids, id) + [n]
  {
    if ids != [] && ids[0] <= id {
      assert (ids + [n])[1..] == ids[1..] + [n];
      AfterPush(ids[1..], n, id);
    } else if ids == [] {
      assert ids + [n] == [n];
    }
  }

  lemma PushAscending(ids: seq<nat>, n: nat)
    requires Ascending(ids) && forall x :: x in ids ==> x < n
    ensures Ascending(ids + [n])
  {
    assert forall i :: 0 <= i < |ids| ==> ids[i] in ids;
  }

  function WithSegment(st: Store, n: nat): Store {
    st.(ids := st.ids + [n], files := st.files[n := []])
  }

  lemma NewSegmentAfter(st: Store, n: nat)
    requires Sound(st) && st.ids != [] && n > Last(st.ids)
    ensures Sound(WithSegment(st, n)) && st.seg < n && n !in st.files
    ensures After(WithSegment(st, n).ids, st.seg) == After(st.ids, st.seg) + [n]
    ensures forall x :: x in After(st.ids, st.seg) ==> x < n
  {
    hide After, Ascending;
    LastIsGreatest(st.ids);
    PushAscending(st.ids, n);
    AfterPush(st.ids, n, st.seg);
    AfterOfAscending(st.ids, st.seg);
  }

  /** A new, empty segment at the end does not change the queue. */
  lemma NewSegment(st: Store, n: nat)
    requires Sound(st) && st.ids != [] && n > Last(st.ids)
    ensures Sound(WithSegment(st, n)) && View(WithSegment(st, n)) == View(st)
  {
    hide SegView, After, ViewFrom, Sound;
    var st', next := WithSegment(st, n), After(st.ids, st.seg);
    NewSegmentAfter(st, n);
    SegViewFiles(st.files, st'.files, st.seg, st.off);
    ViewFromFiles(st.files, st'.files, next);
    ViewFromAppend(st'.files, next, [n]);
    ViewFromNone(st'.files, n);
    EmptySegView(st'.files, n);
    assert ViewFrom(st'.files, next + [n]) == ViewFrom(st.files, next);
  }

  lemma EmptySegView(files: Files, id: nat)
    requires id in files && files[id] == []
    ensures SegView(files, id, 0) == []
  {
    ParseNothing(id, 0);
  }

  /** Picking the segment to append to does not change the queue. */
  lemma RollView(st: Store, cfg: Config)
    requires Sound(st) && cfg.segmentBytes > 0
    ensures Sound(Roll(st, cfg)) && View(Roll(st, cfg)) == View(st)
  {
    hide View, Ascending;
    if st.ids == [] {
      FirstSegment(st);
    } else {
      var last := Last(st.ids);
      LastIsGreatest(st.ids);
      if Size(st.files, last) >= cfg.segmentBytes {
        NewSegment(st, last + 1);
        assert last + 1 !in st.ids;
      } else {
        assert Roll(st, cfg) == st;
      }
    }
  }

  lemma FirstSegment(st: Store)
    requires Sound(st) && st.ids == []
    ensures
      var st' := st.(ids := [1], files := st.files[1 := []]);
      Sound(st') && View(st') == View(st)
  {
    ParseNothing(1, 0);
  }

  // ---- appending to a well-framed spool ----

  lemma RollWellFramed(st: Store, cfg: Config)
    requires WellFramed(st) && cfg.segmentBytes > 0
    ensures WellFramed(Roll(st, cfg)) && View(Roll(st, cfg)) == View(st)
  {
    hide View, Ascending, Framed, OnChain, Sound;
    RollView(st, cfg);
    EmptyFramed();
    if st.ids == [] {
      EmptySound(st);
    } else {
      SoundLast(st);
      var last := Last(st.ids);
      if Size(st.files, last) >= cfg.segmentBytes {
        assert Roll(st, cfg).files == st.files[last + 1 := []];
        assert st.files[last] != [];
      } else {
        assert Roll(st, cfg) == st;
      }
    }
  }

  lemma EmptySound(st: Store)
    requires Sound(st) && st.ids == []
    ensures st.files == map[] && st.seg == 1 && st.off == 0
  {
    assert forall id :: id !in st.files;
  }

  lemma SoundLast(st: Store)
    requires Sound(st) && st.ids != []
    ensures Last(st.ids) in st.files && st.seg in st.files && forall id :: id in st.files ==> id <= Last(st.ids)
  {
    hide Ascending;
    LastIsGreatest(st.ids);
  }

  lemma EmptyFramed()
    ensures Framed([]) && OnChain([], 0)
  {}

  lemma WriteWellFramed(st: Store, p: Bytes)
    requires WellFramed(st) && st.ids != [] && |p| < LIMIT
    ensures WellFramed(WriteTo(st, Frame(p)))
    ensures View(WriteTo(st, Frame(p))) == View(st) + [Entry(Last(st.ids), |st.files[Last(st.ids)]|, p)]
  {
    hide View, Ascending, Framed, OnChain, Parse, Frame;
    var last := Last(st.ids);
    LastIsGreatest(st.ids);
    OnChainStart(st.files[last]);
    WriteFramed(st, Frame(p));
    FrameParses(p, last, |st.files[last]|);
    OlderKept(st, Frame(p));
    FramedAppend(st.files[last], Frame(p));
    if st.seg == last { OnChainExtends(st.files[last], Frame(p), st.off); }
  }

  lemma FramedAppend(s: Bytes, data: Bytes)
    requires Framed(s) && Framed(data)
    ensures Framed(s + data)
  {
    hide Covered;
    ParseAppend(s, data, 0, 0);
  }

  lemma DropOldestWellFramed(st: Store)
    requires WellFramed(st) && |st.ids| > 1
    ensures WellFramed(DropOldest(st))
  {
    hide Ascending, Framed, OnChain;
    AscendingTail(st.ids);
    assert st.ids[1] in st.ids[1..];
    OnChainStart(st.files[st.ids[1]]);
  }

  lemma {:induction false} EvictWellFramed(st: Store, cfg: Config)
    requires WellFramed(st)
    ensures WellFramed(Evict(st, cfg))
    decreases |st.ids|
  {
    hide WellFramed, Total;
    if OverBudget(st, cfg) {
      DropOldestWellFramed(st);
      EvictWellFramed(DropOldest(st), cfg);
    }
  }

  /**
   One append to a well-framed spool: the spool stays well-framed, the budget holds or
   one segment remains, the survivors are a suffix of the queue with the new record at
   its end, and the new record is among them.
   */
  lemma AppendWellFramed(st: Store, cfg: Config, p: Bytes)
    requires WellFramed(st) && cfg.segmentBytes > 0 && |p| < LIMIT
    ensures
      var st', at := Append(st, cfg, p), Roll(st, cfg);
      var e := Entry(Last(at.ids), |at.files[Last(at.ids)]|, p);
      && WellFramed(st') && (Total(st'.files, st'.ids) <= cfg.maxBytes || |st'.ids| <= 1)
      && View(Write(st, cfg, p)) == View(st) + [e]
      && EndsWith(View(st) + [e], View(st')) && View(st') != [] && View(st')[|View(st')| - 1] == e
  {
    hide View, Framed, OnChain, Evict, Roll, Frame, DropMany, EvictCount, Ascending, WriteTo, Total;
    var at, wr := Roll(st, cfg), Write(st, cfg, p);
    RollWellFramed(st, cfg);
    WriteWellFramed(at, p);
    EvictWellFramed(wr, cfg);
    EvictBounds(wr, cfg);
    EvictIsDropMany(wr, cfg);
    var n, e := EvictCount(wr, cfg), Entry(Last(at.ids), |at.files[Last(at.ids)]|, p);
    DropManyView(wr, n);
    WriteIds(at, Frame(p));
    assert View(wr)[|View(st)|] == e;
    LastSurvives(wr, n, e);
  }

  lemma WriteIds(st: Store, data: Bytes)
    requires st.ids != []
    ensures WriteTo(st, data).ids == st.ids
  {}

  /**
   How a spool gets parked: its last segment is full and read to the end, and one more
   record arrives. If nothing is evicted the record is pending and can never be released.
   */
  lemma FullSegmentParks(st: Store, cfg: Config, p: Bytes)
    requires WellFramed(st) && cfg.segmentBytes > 0 && |p| < LIMIT
    requires st.ids != [] && st.seg == Last(st.ids) && st.off == |st.files[st.seg]| >= cfg.segmentBytes
    requires !OverBudget(Write(st, cfg, p), cfg)
    ensures
      var st' := Append(st, cfg, p);
      && View(st') == [Entry(st.seg + 1, 0, p)] && Parked(st')
      && forall k :: Commit(st', k) == Release(st', [], 0)
  {
    hide View, Framed, OnChain, Ascending, Commit, Roll, Write, Parked, After;
    var st' := Append(st, cfg, p);
    assert st' == Write(st, cfg, p);
    AppendWellFramed(st, cfg, p);
    CursorFramed(st);
    AfterAndLast(st.ids, st.seg);
    NoMoreView(st);
    FullRolls(st, cfg, p);
    forall k: nat ensures Commit(st', k) == Release(st', [], 0) {
      CommitParked(st', k);
    }
  }

  lemma FullRolls(st: Store, cfg: Config, p: Bytes)
    requires WellFramed(st) && |p| < LIMIT
    requires st.ids != [] && st.seg == Last(st.ids) && st.off == |st.files[st.seg]| >= cfg.segmentBytes
    ensures Roll(st, cfg) == WithSegment(st, st.seg + 1)
    ensures Parked(Write(st, cfg, p))
  {
    hide Ascending, Framed, OnChain, Frame, After, Roll;
    NewSegmentAfter(st, st.seg + 1);
    FullRoll(st, cfg);
  }

  lemma FullRoll(st: Store, cfg: Config)
    requires st.ids != [] && Size(st.files, Last(st.ids)) >= cfg.segmentBytes && Last(st.ids) + 1 !in st.files
    ensures Roll(st, cfg) == WithSegment(st, Last(st.ids) + 1)
  {
    var n := Last(st.ids) + 1;
    assert Rolled(st, cfg) == st.ids + [n];
    assert Last(Rolled(st, cfg)) == n;
  }
}
