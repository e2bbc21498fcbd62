/**
 The spool object: `open`, `append`, `peek` and `commit` as the source runs them,
 over a directory of segment files and one state file, each proved against the
 value-level operations of SegmentStore. `disks` records every state the directory
 passes through, so that a kill is a choice of one of them.
 */
module SpoolObject {
  import opened Options
  import opened Crc
  import opened Frames
  import opened SegmentStore
  import opened Fifo
  import opened Appends
  import opened Runs
  import opened Layouts
  import opened SpoolLayouts
  import opened Sorting

  /** The state file: cursor, next sequence number, and the two persistent counters. */
  datatype State = State(seg: nat, off: nat, sequence: nat, committed: nat, dropped: nat)

  datatype Disk = Disk(files: Files, state: Option<State>)

  datatype Record = Record(sequence: nat, payload: Bytes)

  function SavedCursor(s: Option<State>): Option<Cursor> {
    if s.Some? then Some(Cursor(s.value.seg, s.value.off)) else None
  }

  /** The records `peek` hands out: payloads in queue order, numbered from 1. */
  ghost predicate Numbered(rs: seq<Record>, es: seq<Entry>) {
    |rs| == |es| && forall i :: 0 <= i < |rs| ==> rs[i] == Record(i + 1, es[i].payload)
  }

  /** The counters once `n` more records have been released. */
  function Released(s: Stats, n: nat): Stats {
    s.(committed := s.committed + n, pending := if s.pending >= n then s.pending - n else 0)
  }

  lemma ReleasedMore(s: Stats, m: nat, n: nat)
    ensures Released(s, 0) == s && Released(Released(s, m), n) == Released(s, m + n)
  {}

  /** Records taken in, less those released, dropped and pending. */
  function Balance(s: Stats): int {
    s.appended - s.committed - s.dropped - s.pending
  }

  /**
   A commit of pending records keeps the balance, and keeps the pending counter right exactly when
   every frame it skips is a record.
   */
  lemma CommitConserves(st: Store, s: Stats, k: nat)
    requires Sound(st) && s.pending == |View(st)| && k <= |View(st)|
    ensures
      var r := SegmentStore.Commit(st, k);
      && Balance(Released(s, r.count)) == Balance(s)
      && (Released(s, r.count).pending == |View(r.st)| <==> Exact(LayoutOf(st), k))
  {
    hide View, SegmentStore.Commit, Exact, LayoutOf, Sound;
    CommitCountsIff(st, k);
  }

  lemma CommitAccurate(st: Store, s: Stats, k: nat)
    requires Live(st) && s.pending == |View(st)| && k <= |View(st)|
    ensures
      var r := SegmentStore.Commit(st, k);
      && Live(r.st) && Balance(Released(s, r.count)) == Balance(s)
      && (Released(s, r.count).pending == |View(r.st)| <==> Exact(LayoutOf(st), k))
      && Released(s, 0) == s
  {
    hide View, SegmentStore.Commit, Exact, LayoutOf, Anchored;
    AnchoredSound(st, Some(Cursor(st.seg, st.off)));
    CommitLive(st, k);
    CommitConserves(st, s, k);
  }

  /** Eviction reaches the cursor, so the pending records are counted afresh. */
  predicate Recounts(st: Store, cfg: Config) {
    var n := EvictCount(st, cfg);
    n > 0 && st.seg <= st.ids[n - 1]
  }

  /** What deleting the oldest segment does to the pending counter: it counts afresh, or nothing pending was lost. */
  ghost predicate Counted(st: Store, pending: nat, st': Store, pending': nat)
    requires st.ids != []
  {
    if st.seg <= st.ids[0] then pending' == |View(st')| && st'.ids != [] && st'.seg == st'.ids[0]
    else pending' == pending && st'.seg == st.seg && |View(st')| == |View(st)|
  }

  /** The same after `n` segments. */
  ghost predicate Tracks(st0: Store, n: nat, before: nat, st: Store, pending: nat) {
    n <= |st0.ids| &&
    if n > 0 && st0.seg <= st0.ids[n - 1] then pending == |View(st)| && st.ids != [] && st.seg == st.ids[0]
    else pending == before && st.seg == st0.seg && |View(st)| == |View(st0)|
  }

  lemma TracksStart(st: Store, pending: nat)
    ensures Tracks(st, 0, pending, st, pending)
  {
    hide View;
  }

  lemma TracksStep(st0: Store, n: nat, before: nat, st: Store, pending: nat, st': Store, pending': nat)
    requires Ascending(st0.ids) && n < |st0.ids| && st.ids == st0.ids[n..] && Tracks(st0, n, before, st, pending)
    requires Counted(st, pending, st', pending')
    ensures Tracks(st0, n + 1, before, st', pending')
  {
    hide View;
    assert st.ids[0] == st0.ids[n];
    assert n > 0 ==> st0.ids[n - 1] < st0.ids[n];
  }

  lemma TracksEnd(st0: Store, cfg: Config, before: nat, st: Store, pending: nat)
    requires Tracks(st0, EvictCount(st0, cfg), before, st, pending)
    ensures pending == |View(st)| <==> Recounts(st0, cfg) || before == |View(st0)|
  {
    hide View, EvictCount;
  }

  ghost function Deleted(d: Disk, removed: seq<nat>): (r: Disk)
    ensures r.state == d.state
  {
    d.(files := Minus(d.files, removed))
  }

  /** The disk states a commit passes through as it deletes segments. */
  ghost function CommitDisks(d: Disk, removed: seq<nat>): seq<Disk> {
    if removed == [] then []
    else CommitDisks(d, removed[..|removed| - 1]) + [Deleted(d, removed)]
  }

  lemma CommitDisksNone(d: Disk)
    ensures CommitDisks(d, []) == [] && Deleted(d, []) == d
  {
    MinusNothing(d.files);
  }

  lemma CommitDisksLast(d: Disk, removed: seq<nat>, id: nat)
    ensures CommitDisks(d, removed + [id]) == CommitDisks(d, removed) + [Deleted(d, removed + [id])]
    ensures Deleted(d, removed + [id]) == Disk(Deleted(d, removed).files - {id}, d.state)
  {
    assert (removed + [id])[..|removed|] == removed;
  }

  ghost function Then(removed: seq<nat>, count: nat, r: Release): Release {
    Release(r.st, removed + r.removed, count + r.count)
  }

  lemma ThenAgain(removed: seq<nat>, m: nat, id: nat, n: nat, r: Release)
    ensures Then(removed, m, Then([id], n, r)) == Then(removed + [id], m + n, r)
  {
    assert removed + ([id] + r.removed) == removed + [id] + r.removed;
  }

  /** One turn of the outer loop of `commit` takes `st` to `st'` with `left` frames to go. */
  ghost predicate IsTurn(st: Store, k: nat, st': Store, left: nat, more: bool, retired: bool) {
    && left <= k && (retired ==> more)
    && SegmentStore.Commit(st, k) ==
       Then(if retired then [st.seg] else [], k - left, if more then SegmentStore.Commit(st', left) else Release(st', [], 0))
    && (more ==> |After(st'.ids, st'.seg)| < |After(st.ids, st.seg)|)
  }

  lemma TurnMissing(st: Store, k: nat)
    requires k > 0 && st.ids != [] && st.seg !in st.files
    ensures
      var next := After(st.ids, st.seg);
      if next == [] then IsTurn(st, k, st, k, false, false)
      else IsTurn(st, k, st.(seg := next[0], off := 0), k, true, false)
  {
    hide After;
    if After(st.ids, st.seg) != [] {
      AfterSplits(st.ids, st.seg);
    }
  }

  lemma TurnWalks(st: Store, k: nat)
    requires k > 0 && st.ids != [] && st.seg in st.files
    ensures
      var w, next := Walk(Tail(st.files[st.seg], st.off), k), After(st.ids, st.seg);
      if w.count == k || w.count == 0 || next == [] then IsTurn(st, k, Moved(st, w), k - w.count, false, false)
      else IsTurn(st, k, Retire(st, next[0]), k - w.count, true, true)
  {
    hide Tail, Walk, After, SegmentStore.Without;
    var next := After(st.ids, st.seg);
    if next != [] {
      AfterSplits(st.ids, st.seg);
      WithoutAfter(st.ids, st.seg, next[0]);
    }
  }

  /** The directory while `data` goes to the end of one file. */
  ghost function Growing(d: Disk, active: nat, data: Bytes): (ds: seq<Disk>)
    ensures |ds| == |data| + 1
  {
    seq(|data| + 1, k requires 0 <= k <= |data| => Disk(d.files[active := Content(d.files, active) + data[..k]], d.state))
  }

  lemma GrowingAt(d: Disk, active: nat, data: Bytes, k: nat)
    requires k <= |data|
    ensures Growing(d, active, data)[k] == Disk(d.files[active := Content(d.files, active) + data[..k]], d.state)
  {}

  lemma GrowingStarts(d: Disk, active: nat, data: Bytes)
    ensures Growing(d, active, data)[0] == Disk(d.files[active := Content(d.files, active)], d.state)
  {
    GrowingAt(d, active, data, 0);
    assert Content(d.files, active) + data[..0] == Content(d.files, active);
  }

  lemma GrowingSteps(d: Disk, active: nat, data: Bytes, k: nat)
    requires k < |data|
    ensures
      var now := Growing(d, active, data)[k];
      && active in now.files
      && Growing(d, active, data)[k + 1] == Disk(now.files[active := now.files[active] + [data[k]]], now.state)
  {
    hide Growing;
    GrowingAt(d, active, data, k);
    GrowingAt(d, active, data, k + 1);
    var c := Content(d.files, active);
    assert data[..k + 1] == data[..k] + [data[k]];
    assert c + data[..k] + [data[k]] == c + data[..k + 1];
  }

  lemma GrowingIs(st: Store, cfg: Config, p: Bytes, state: Option<State>)
    requires |p| < LIMIT
    ensures WriteDisks(st, cfg, p, state) == Growing(Disk(st.files, state), Last(Rolled(st, cfg)), Frame(p))
  {
    hide Frame, Rolled;
    var a, b := WriteDisks(st, cfg, p, state), Growing(Disk(st.files, state), Last(Rolled(st, cfg)), Frame(p));
    forall k | 0 <= k <= |Frame(p)| ensures a[k] == b[k] {
      GrowsBy(st.files, Last(Rolled(st, cfg)), Frame(p)[..k]);
    }
  }

  lemma GrowsBy(files: Files, id: nat, data: Bytes)
    ensures
      var at := files[id := Content(files, id)];
      at[id := Content(at, id) + data] == files[id := Content(files, id) + data]
  {}

  /** The directory while a frame is being written: every number of bytes from none to all. */
  ghost function WriteDisks(st: Store, cfg: Config, p: Bytes, state: Option<State>): (ds: seq<Disk>)
    requires |p| < LIMIT
    ensures |ds| == |Frame(p)| + 1
  {
    seq(|Frame(p)| + 1, k requires 0 <= k <= |Frame(p)| => Disk(Partial(st, cfg, p, k).files, state))
  }

  // ---- the directory listing ----

  function Positive(listing: seq<nat>): (r: seq<nat>)
    ensures forall id :: id in r <==> id in listing && id > 0
  {
    if listing == [] then []
    else
      var n := |listing| - 1;
      Positive(listing[..n]) + if listing[n] > 0 then [listing[n]] else []
  }

  ghost predicate NoRepeats(s: seq<nat>) { forall i, j :: 0 <= i < j < |s| ==> s[i] != s[j] }

  lemma {:induction false} PositiveNoRepeats(listing: seq<nat>)
    requires NoRepeats(listing)
    ensures NoRepeats(Positive(listing))
  {
    if listing != [] {
      var n := |listing| - 1;
      PositiveNoRepeats(listing[..n]);
      var r := Positive(listing[..n]);
      assert listing[n] !in listing[..n];
      assert forall i :: 0 <= i < |r| ==> r[i] in r;
    }
  }

  lemma {:induction false} AtMostOnce(s: seq<nat>, x: nat)
    requires NoRepeats(s)
    ensures multiset(s)[x] <= 1
  {
    if s != [] {
      assert s == [s[0]] + s[1..];
      AtMostOnce(s[1..], x);
      assert s[0] !in s[1..];
    }
  }

  lemma TwiceCounted(s: seq<nat>, i: nat, j: nat)
    requires i < j < |s| && s[i] == s[j]
    ensures multiset(s)[s[i]] >= 2
  {
    assert s == s[..j] + s[j..];
    assert s[..j][i] in s[..j] && s[j..][0] in s[j..];
  }

  predicate NotAbove(a: nat, b: nat) { a <= b }

  /** Sorting a listing without repeats gives an ascending list. */
  lemma SortedAscends(s: seq<nat>, listing: seq<nat>)
    requires Sorted(s, NotAbove) && multiset(s) == multiset(Positive(listing)) && NoRepeats(listing)
    ensures Ascending(s)
  {
    hide Positive;
    PositiveNoRepeats(listing);
    forall i, j | 0 <= i < j < |s| ensures s[i] < s[j] {
      assert NotAbove(s[i], s[j]);
      if s[i] == s[j] {
        TwiceCounted(s, i, j);
        AtMostOnce(Positive(listing), s[i]);
      }
    }
  }

  lemma WriteIs(st: Store, cfg: Config, p: Bytes)
    requires |p| < LIMIT
    ensures
      var ids := Rolled(st, cfg);
      Write(st, cfg, p) == Store(st.files[Last(ids) := Content(st.files, Last(ids)) + Frame(p)], ids, st.seg, st.off)
  {
    hide Frame;
  }

  lemma FrameIs(p: Bytes)
    requires |p| < LIMIT
    ensures Checksum(p) < LIMIT
    ensures Frame(p) == PutU32(MAGIC) + PutU32(|p|) + PutU32(Checksum(p)) + p
  {
    hide Checksum, PutU32;
    ChecksumFits(p);
  }

  datatype Stats = Stats(appended: nat, committed: nat, dropped: nat, pending: nat)

  class Spool {
    var cfg: Config
    var isOpen: bool
    var disk: Disk
    var segments: seq<nat>
    var readSegment: nat
    var readOffset: nat
    var nextSequence: nat
    var stats: Stats
    ghost var disks: seq<Disk>

    ghost function Value(): Store
      reads this
    {
      Store(disk.files, segments, readSegment, readOffset)
    }

    /** The spool is live and its pending counter is right. */
    ghost predicate Accurate()
      reads this
    {
      Live(Value()) && cfg.segmentBytes > 0 && stats.pending == |View(Value())|
    }

    /** A spool object on a directory, not yet opened. */
    constructor (d: Disk)
      ensures disk == d && disks == [d] && !isOpen && segments == [] && stats == Stats(0, 0, 0, 0)
    {
      cfg, isOpen, disk, segments := Config(0, 0), false, d, [];
      readSegment, readOffset, nextSequence := 0, 0, 1;
      stats, disks := Stats(0, 0, 0, 0), [d];
    }

    /** `listing` is the directory listing, in whatever order the system gives it. */
    method Open(c: Config, listing: seq<nat>)
      requires forall id :: id in listing <==> id in disk.files
      requires NoRepeats(listing)
      modifies this`cfg, this`isOpen, this`segments, this`readSegment, this`readOffset, this`nextSequence, this`stats
      ensures cfg == c && isOpen && Ascending(segments)
      ensures forall id :: id in segments <==> id in disk.files && id > 0
      ensures Cursor(readSegment, readOffset) == Load(segments, SavedCursor(disk.state))
      ensures 0 !in disk.files ==> Reopened(disk.files, SavedCursor(disk.state), Value())
      ensures stats.pending == |View(Value())| && stats.appended == old(stats.appended)
      ensures
        if disk.state.Some? then
          var s := disk.state.value;
          && stats.committed == s.committed && stats.dropped == s.dropped
          && nextSequence == if s.sequence == 0 then 1 else s.sequence
        else
          nextSequence == 1 && stats.committed == old(stats.committed) && stats.dropped == old(stats.dropped)
    {
      hide View, Ascending, NoRepeats, Positive, Sorted, Load;
      cfg := c;
      ScanSegments(listing);
      LoadState();
      isOpen := true;
      var n := PendingCount();
      stats := stats.(pending := n);
    }

    method LoadState()
      modifies this`readSegment, this`readOffset, this`nextSequence, this`stats
      ensures Cursor(readSegment, readOffset) == Load(segments, SavedCursor(disk.state))
      ensures disk.state.None? && segments == [] ==> readSegment == 1 && readOffset == 0
      ensures segments != [] && (disk.state.None? || disk.state.value.seg < segments[0]) ==> readSegment == segments[0] && readOffset == 0
      ensures disk.state.Some? && (segments == [] || disk.state.value.seg >= segments[0]) ==>
        readSegment == disk.state.value.seg && readOffset == disk.state.value.off
      ensures
        if disk.state.Some? then
          var s := disk.state.value;
          && stats == old(stats).(committed := s.committed, dropped := s.dropped)
          && nextSequence == if s.sequence == 0 then 1 else s.sequence
        else
          nextSequence == 1 && stats == old(stats)
    {
      readSegment := if segments == [] then 1 else segments[0];
      readOffset, nextSequence := 0, 1;
      if disk.state.Some? {
        var s := disk.state.value;
        readSegment, readOffset := s.seg, s.off;
        nextSequence := if s.sequence == 0 then 1 else s.sequence;
        stats := stats.(committed := s.committed, dropped := s.dropped);
      }
      if segments != [] && readSegment < segments[0] {
        readSegment, readOffset := segments[0], 0;
      }
    }

    /** The ids of the listing, sorted; two file names may carry the same one. */
    method ScanSegments(listing: seq<nat>)
      modifies this`segments
      ensures multiset(segments) == multiset(Positive(listing)) && Sorted(segments, NotAbove)
      ensures forall id :: id in segments <==> id in listing && id > 0
      ensures NoRepeats(listing) ==> Ascending(segments)
    {
      hide NoRepeats, Ascending;
      var found: seq<nat> := [];
      assert listing[..0] == [];
      for i := 0 to |listing|
        invariant found == Positive(listing[..i])
      {
        assert listing[..i + 1][..i] == listing[..i];
        if listing[i] > 0 { found := found + [listing[i]]; }
      }
      assert listing[..|listing|] == listing;
      segments := Sort(found, NotAbove);
      SameMembers(segments, found);
      if NoRepeats(listing) { SortedAscends(segments, listing); }
    }

    method Peek(maxRecords: nat) returns (out: seq<Record>)
      requires Ascending(segments)
      ensures Numbered(out, Take(View(Value()), maxRecords))
    {
      hide View, Ascending, ViewOf, Parse, Tail, Take;
      out := [];
      ghost var st := Value();
      ghost var es: seq<Entry> := [];
      var i := 0;
      PeekView(st);
      assert segments[0..] == segments;
      while i < |segments|
        invariant i <= |segments|
        invariant Numbered(out, es) && |es| <= maxRecords
        invariant View(st) == es + ViewOf(st, segments[i..])
      {
        var id := segments[i];
        ViewOfStep(st, segments, i);
        if id >= readSegment && id in disk.files {
          var pos := if id == readSegment then readOffset else 0;
          ghost var here := Parse(Tail(disk.files[id], pos), id, pos);
          out := ReadFrames(disk.files[id], pos, maxRecords, out, es, id);
          PeekMore(View(st), es, here, ViewOf(st, segments[i + 1..]), maxRecords);
          es := es + Take(here, maxRecords - |es|);
          if |out| >= maxRecords { return; }
        }
        i := i + 1;
      }
      EmptyViewOf(st);
      assert View(st) == es;
      TakeAll(es, maxRecords);
    }

    /** The length of `peek` without a limit, which is how `open`, eviction and `stats` count. */
    method PendingCount() returns (n: nat)
      requires Ascending(segments)
      ensures n == |View(Value())|
    {
      hide View, Ascending, Total;
      ViewSize(Value());
      var all := TotalBytes();
      var out := Peek(all);
      n := |out|;
    }

    method TotalBytes() returns (total: nat)
      ensures total == Total(disk.files, segments)
    {
      total := 0;
      var i := 0;
      assert segments[0..] == segments;
      while i < |segments|
        invariant i <= |segments|
        invariant Total(disk.files, segments) == total + Total(disk.files, segments[i..])
      {
        assert segments[i..][0] == segments[i] && segments[i..][1..] == segments[i + 1..];
        if segments[i] in disk.files { total := total + |disk.files[segments[i]]|; }
        i := i + 1;
      }
    }

    method ReadStats() returns (bytes: nat, count: nat)
      requires Ascending(segments)
      modifies this`stats
      ensures stats == old(stats).(pending := |View(Value())|)
      ensures bytes == Total(disk.files, segments) && count == |segments|
    {
      hide View, Ascending, Total;
      bytes := TotalBytes();
      count := |segments|;
      var n := PendingCount();
      stats := stats.(pending := n);
    }

    // ---- append ----

    /**
     Appending a record. Whatever the directory held, the new store is `Append` of the old
     one, and the directory passes through exactly the states listed: the segment file
     growing byte by byte, then the evictions oldest first, then the new state file.
     */
    method Append(payload: Bytes) returns (ok: bool)
      requires Ascending(segments)
      modifies this`disk, this`segments, this`readSegment, this`readOffset, this`nextSequence, this`stats, this`disks
      ensures ok == (isOpen && |payload| < LIMIT)
      ensures !ok ==> Value() == old(Value()) && disk == old(disk) && disks == old(disks) && stats == old(stats)
      ensures ok ==>
        var st, wr := old(Value()), Write(old(Value()), cfg, payload);
        && Value() == SegmentStore.Append(st, cfg, payload) && Ascending(segments)
        && (Total(disk.files, segments) <= cfg.maxBytes || |segments| <= 1)
        && disk.state.Some? && SavedCursor(disk.state) == Some(Cursor(readSegment, readOffset))
        && disk.state.value.sequence == nextSequence
        && disk.state.value.committed == stats.committed && disk.state.value.dropped == stats.dropped
        && disks == old(disks) + WriteDisks(st, cfg, payload, old(disk.state))
                    + CommitDisks(Disk(wr.files, old(disk.state)), wr.ids[..EvictCount(wr, cfg)]) + [disk]
        && stats.appended == old(stats.appended) + 1 && stats.committed == old(stats.committed)
        && |View(Value())| <= |View(wr)|
        && stats.dropped == old(stats.dropped) + |View(wr)| - |View(Value())|
        && (stats.pending == |View(Value())| <==> Recounts(wr, cfg) || old(stats.pending) + 1 == |View(wr)|)
      ensures nextSequence == old(nextSequence) + if ok then 1 else 0
      ensures ok && old(Accurate()) ==>
        Live(Value()) && forall found :: Reopened(disk.files, SavedCursor(disk.state), found) ==> found == Value()
      ensures ok && old(Accurate()) && !LandsTorn(old(Value()), cfg) ==> Accurate() && Balance(stats) == Balance(old(stats))
    {
      hide View, Ascending, Evict, EvictCount, CommitDisks, Write, WriteDisks, Anchored, LandsTorn, Recounts, SegmentStore.Append;
      if !isOpen || |payload| > 0xFFFF_FFFF { return false; }
      AppendRecord(payload);
      ok := true;
      if old(Accurate()) {
        AppendFifo(old(Value()), cfg, payload);
        forall found | Reopened(disk.files, SavedCursor(disk.state), found) ensures found == Value() { ReopenFinds(Value(), found); }
      }
    }

    /** The record is written, the oldest segments go if need be, and the cursor is saved. */
    method AppendRecord(payload: Bytes)
      requires Ascending(segments) && |payload| < LIMIT
      modifies this`disk, this`segments, this`readSegment, this`readOffset, this`nextSequence, this`stats, this`disks
      ensures
        var st, wr := old(Value()), Write(old(Value()), cfg, payload);
        && Value() == SegmentStore.Append(st, cfg, payload) && Ascending(segments)
        && (Total(disk.files, segments) <= cfg.maxBytes || |segments| <= 1)
        && disk.state.Some? && SavedCursor(disk.state) == Some(Cursor(readSegment, readOffset))
        && disk.state.value.sequence == nextSequence
        && disk.state.value.committed == stats.committed && disk.state.value.dropped == stats.dropped
        && disks == old(disks) + WriteDisks(st, cfg, payload, old(disk.state))
                    + CommitDisks(Disk(wr.files, old(disk.state)), wr.ids[..EvictCount(wr, cfg)]) + [disk]
        && stats.appended == old(stats.appended) + 1 && stats.committed == old(stats.committed)
        && |View(Value())| <= |View(wr)|
        && stats.dropped == old(stats.dropped) + |View(wr)| - |View(Value())|
        && (stats.pending == |View(Value())| <==> Recounts(wr, cfg) || old(stats.pending) + 1 == |View(wr)|)
      ensures nextSequence == old(nextSequence) + 1
    {
      hide View, Ascending, Evict, EvictCount, CommitDisks, Write, WriteDisks, Recounts;
      WriteRecord(payload);
      WriteAscending(old(Value()), cfg, payload);
      EnforceBounds();
      SaveState();
    }

    /** The segment is picked, the frame goes to its file, and the counters move. */
    method WriteRecord(payload: Bytes)
      requires |payload| < LIMIT
      modifies this`disk, this`segments, this`nextSequence, this`stats, this`disks
      ensures Value() == Write(old(Value()), cfg, payload) && disk.state == old(disk.state)
      ensures stats == old(stats).(appended := old(stats).appended + 1, pending := old(stats).pending + 1)
      ensures nextSequence == old(nextSequence) + 1
      ensures disks == old(disks) + WriteDisks(old(Value()), cfg, payload, disk.state)
    {
      hide Frame, WriteDisks, Write, Checksum, Rolled, PutU32, Growing;
      WriteIs(Value(), cfg, payload);
      ghost var st := Value();
      var active := PickSegment();
      var crc := Crc32(payload);
      ChecksumFits(payload);
      var header := PutU32(MAGIC) + PutU32(|payload|) + PutU32(crc);
      FrameIs(payload);
      WriteBytes(active, header + payload);
      GrowingIs(st, cfg, payload, disk.state);
      stats := stats.(appended := stats.appended + 1, pending := stats.pending + 1);
      nextSequence := nextSequence + 1;
    }

    /** The last segment, or a new one behind it once it is full. */
    method PickSegment() returns (active: nat)
      modifies this`segments
      ensures segments == Rolled(old(Value()), cfg) && active == Last(segments)
    {
      if segments == [] { segments := [1]; }
      active := segments[|segments| - 1];
      var size := if active in disk.files then |disk.files[active]| else 0;
      if size >= cfg.segmentBytes {
        active := active + 1;
        segments := segments + [active];
      }
    }

    /** The file is opened for appending and takes the bytes one by one. */
    method WriteBytes(active: nat, data: Bytes)
      modifies this`disk, this`disks
      ensures disk == Disk(old(disk.files)[active := Content(old(disk.files), active) + data], old(disk.state))
      ensures disks == old(disks) + Growing(old(disk), active, data)
    {
      hide Growing;
      ghost var ds := Growing(disk, active, data);
      GrowingStarts(disk, active, data);
      disk := disk.(files := disk.files[active := if active in disk.files then disk.files[active] else []]);
      disks := disks + [disk];
      assert ds[..1] == [ds[0]];
      for k := 0 to |data|
        invariant disk == ds[k] && disks == old(disks) + ds[..k + 1]
      {
        GrowingSteps(old(disk), active, data, k);
        disk := disk.(files := disk.files[active := disk.files[active] + [data[k]]]);
        assert ds[..k + 2] == ds[..k + 1] + [ds[k + 1]];
        disks := disks + [disk];
      }
      assert data[..|data|] == data && ds[..|data| + 1] == ds;
      GrowingAt(old(disk), active, data, |data|);
    }

    method EnforceBounds()
      requires Ascending(segments)
      modifies this`disk, this`segments, this`readSegment, this`readOffset, this`stats, this`disks
      ensures Value() == Evict(old(Value()), cfg) && disk.state == old(disk.state) && Ascending(segments)
      ensures Total(disk.files, segments) <= cfg.maxBytes || |segments| <= 1
      ensures |View(Value())| <= |View(old(Value()))|
      ensures stats.dropped == old(stats.dropped) + |View(old(Value()))| - |View(Value())|
      ensures stats.pending == |View(Value())| <==> Recounts(old(Value()), cfg) || old(stats.pending) == |View(old(Value()))|
      ensures stats.appended == old(stats.appended) && stats.committed == old(stats.committed)
      ensures disks == old(disks) + CommitDisks(old(disk), old(segments)[..EvictCount(old(Value()), cfg)])
    {
      hide View, Ascending, Total, CommitDisks, Evict, EvictCount, Deleted, Tracks, Recounts;
      ghost var st0, n := Value(), 0;
      TracksStart(st0, stats.pending);
      CommitDisksNone(disk);
      EvictStep(Value(), cfg);
      var total := TotalBytes();
      while total > cfg.maxBytes && |segments| > 1
        invariant total == Total(disk.files, segments)
        invariant Ascending(segments)
        invariant n <= |st0.ids| && segments == st0.ids[n..]
        invariant Evict(st0, cfg) == Evict(Value(), cfg) && EvictCount(st0, cfg) == n + EvictCount(Value(), cfg)
        invariant |View(Value())| <= |View(st0)|
        invariant stats.dropped == old(stats.dropped) + |View(st0)| - |View(Value())|
        invariant Tracks(st0, n, old(stats.pending), Value(), stats.pending)
        invariant stats.appended == old(stats.appended) && stats.committed == old(stats.committed)
        invariant disk == Deleted(old(disk), st0.ids[..n]) && disks == old(disks) + CommitDisks(old(disk), st0.ids[..n])
        decreases |segments|
      {
        EvictStep(Value(), cfg);
        ghost var st, pending := Value(), stats.pending;
        EvictOldest();
        TracksStep(st0, n, old(stats.pending), st, pending, Value(), stats.pending);
        assert st0.ids[..n + 1] == st0.ids[..n] + [st0.ids[n]];
        CommitDisksLast(old(disk), st0.ids[..n], st0.ids[n]);
        n := n + 1;
        total := TotalBytes();
      }
      EvictStep(Value(), cfg);
      TracksEnd(st0, cfg, old(stats.pending), Value(), stats.pending);
    }

    /** The body of the eviction loop. */
    method EvictOldest()
      requires Ascending(segments) && |segments| > 1
      modifies this`disk, this`segments, this`readSegment, this`readOffset, this`stats, this`disks
      ensures Value() == DropOldest(old(Value())) && disk.state == old(disk.state) && Ascending(segments)
      ensures |View(Value())| <= |View(old(Value()))|
      ensures stats.dropped == old(stats.dropped) + |View(old(Value()))| - |View(Value())|
      ensures Counted(old(Value()), old(stats.pending), Value(), stats.pending)
      ensures stats.appended == old(stats.appended) && stats.committed == old(stats.committed)
      ensures disks == old(disks) + [disk]
    {
      hide View, Ascending;
      ghost var st := Value();
      var victim, lost := segments[0], 0;
      if victim >= readSegment { lost := PendingCount(); }
      DropOldestView(st);
      if readSegment > victim { DropBehindCursor(st); }
      RemoveSegment(victim);
      segments := segments[1..];
      if readSegment <= victim {
        readSegment, readOffset := segments[0], 0;
        var still := PendingCount();
        stats := stats.(dropped := stats.dropped + (if lost > still then lost - still else 0), pending := still);
      }
    }

    // ---- commit ----

    method SaveState()
      modifies this`disk, this`disks
      ensures disk.files == old(disk.files)
      ensures disk.state.Some? && disk.state.value.seg == readSegment && disk.state.value.off == readOffset
      ensures SavedCursor(disk.state) == Some(Cursor(readSegment, readOffset))
      ensures disk.state.value.sequence == nextSequence
      ensures disk.state.value.committed == stats.committed && disk.state.value.dropped == stats.dropped
      ensures disks == old(disks) + [disk]
    {
      disk := disk.(state := Some(State(readSegment, readOffset, nextSequence, stats.committed, stats.dropped)));
      disks := disks + [disk];
    }

    method RemoveSegment(id: nat)
      modifies this`disk, this`disks
      ensures disk == Disk(old(disk.files) - {id}, old(disk.state))
      ensures disks == old(disks) + [disk]
    {
      disk := disk.(files := disk.files - {id});
      disks := disks + [disk];
    }

    method Commit(count: nat) returns (ok: bool)
      modifies this`disk, this`segments, this`readSegment, this`readOffset, this`stats, this`disks
      ensures ok == isOpen
      ensures nextSequence == old(nextSequence)
      ensures
        var r := SegmentStore.Commit(old(Value()), count);
        if ok && count > 0 then
          && Value() == r.st && stats.committed == old(stats.committed) + r.count
          && stats.appended == old(stats.appended) && stats.dropped == old(stats.dropped)
          && stats.pending == (if old(stats.pending) >= r.count then old(stats.pending) - r.count else 0)
          && disk.state.Some? && SavedCursor(disk.state) == Some(Cursor(readSegment, readOffset))
          && disk.state.value.sequence == nextSequence
          && disk.state.value.committed == stats.committed && disk.state.value.dropped == stats.dropped
          && disks == old(disks) + CommitDisks(old(disk), r.removed) + [disk]
        else
          Value() == old(Value()) && disk == old(disk) && disks == old(disks) && stats == old(stats)
      ensures ok && old(Accurate()) && count <= |View(old(Value()))| ==>
        && Live(Value()) && Balance(stats) == Balance(old(stats))
        && (Accurate() <==> Exact(LayoutOf(old(Value())), count))
        && (count > 0 ==> forall found :: Reopened(disk.files, SavedCursor(disk.state), found) ==> found == Value())
    {
      hide SegmentStore.Commit, CommitDisks, View, Anchored, Exact, LayoutOf, Reopened;
      if old(Accurate()) && count <= |View(old(Value()))| { CommitAccurate(old(Value()), old(stats), count); }
      if !isOpen { return false; }
      if count == 0 { CommitNothing(Value(), 0); return true; }
      CommitFrames(count);
      ok := true;
      if old(Accurate()) && count <= |View(old(Value()))| {
        forall found | Reopened(disk.files, SavedCursor(disk.state), found) ensures found == Value() { ReopenFinds(Value(), found); }
      }
    }

    /** The segments are walked and retired, and the cursor is saved. */
    method CommitFrames(count: nat)
      requires count > 0
      modifies this`disk, this`segments, this`readSegment, this`readOffset, this`stats, this`disks
      ensures
        var r := SegmentStore.Commit(old(Value()), count);
        && Value() == r.st && stats == Released(old(stats), r.count)
        && disk.state.Some? && SavedCursor(disk.state) == Some(Cursor(readSegment, readOffset))
        && disk.state.value.sequence == nextSequence
        && disk.state.value.committed == stats.committed && disk.state.value.dropped == stats.dropped
        && disks == old(disks) + CommitDisks(old(disk), r.removed) + [disk]
    {
      hide After, SegmentStore.Commit, CommitDisks, Deleted, Released;
      ghost var goal := SegmentStore.Commit(Value(), count);
      ghost var gone: seq<nat> := [];
      var remaining: nat, more := count, true;
      CommitDisksNone(disk);
      ReleasedMore(stats, 0, 0);
      while more && remaining > 0 && segments != []
        invariant remaining <= count
        invariant goal == Then(gone, count - remaining, if more then SegmentStore.Commit(Value(), remaining) else Release(Value(), [], 0))
        invariant stats == Released(old(stats), count - remaining)
        invariant disks == old(disks) + CommitDisks(old(disk), gone) && disk == Deleted(old(disk), gone)
        decreases more, |After(segments, readSegment)|
      {
        ghost var id, st, before := readSegment, Value(), remaining;
        ghost var retired;
        remaining, more, retired := CommitTurn(remaining);
        ReleasedMore(old(stats), count - before, before - remaining);
        if retired {
          CommitDisksLast(old(disk), gone, id);
          ThenAgain(gone, count - before, id, before - remaining, SegmentStore.Commit(Value(), remaining));
          gone := gone + [id];
        }
      }
      if more { CommitNothing(Value(), remaining); }
      assert gone + [] == gone;
      SaveState();
    }

    /** The body of the outer loop of `commit`; `more` says whether it went round without a break. */
    method CommitTurn(remaining: nat) returns (left: nat, more: bool, ghost retired: bool)
      requires remaining > 0 && segments != []
      modifies this`disk, this`segments, this`readSegment, this`readOffset, this`stats, this`disks
      ensures IsTurn(old(Value()), remaining, Value(), left, more, retired)
      ensures left <= remaining && stats == Released(old(stats), remaining - left)
      ensures disk == if retired then Disk(old(disk.files) - {old(readSegment)}, old(disk.state)) else old(disk)
      ensures disks == old(disks) + if retired then [disk] else []
    {
      hide Tail, Walk, After, SegmentStore.Without, Released, IsTurn;
      ghost var st := Value();
      var id := readSegment;
      var next := After(segments, id);
      ReleasedMore(stats, 0, 0);
      if id !in disk.files {
        TurnMissing(st, remaining);
        if next == [] { return remaining, false, false; }
        readSegment, readOffset := next[0], 0;
        return remaining, true, false;
      }
      left := WalkFrames(disk.files[id], remaining);
      TurnWalks(st, remaining);
      if left == 0 || left == remaining || next == [] { return left, false, false; }
      RetireSegment(next[0]);
      return left, true, true;
    }

    method RetireSegment(next: nat)
      modifies this`disk, this`segments, this`readSegment, this`readOffset, this`disks
      ensures Value() == Retire(old(Value()), next) && disk.state == old(disk.state)
      ensures disks == old(disks) + [disk]
    {
      RemoveSegment(readSegment);
      segments := SegmentStore.Without(segments, readSegment);
      readSegment, readOffset := next, 0;
    }

    /** The inner loop of `commit`: skip up to `remaining` frames by magic and length. */
    method WalkFrames(data: Bytes, remaining: nat) returns (left: nat)
      modifies this`readOffset, this`stats
      ensures
        var w := Walk(Tail(data, old(readOffset)), remaining);
        && left == remaining - w.count
        && readOffset == old(readOffset) + w.bytes
        && stats == Released(old(stats), w.count)
    {
      hide GetU32, Tail;
      left := remaining;
      ghost var goal := Walk(Tail(data, readOffset), remaining);
      while left > 0
        invariant left <= remaining && readOffset >= old(readOffset)
        invariant
          var w := Walk(Tail(data, readOffset), left);
          goal == Walked(remaining - left + w.count, readOffset - old(readOffset) + w.bytes)
        invariant stats == Released(old(stats), remaining - left)
      {
        var t := Tail(data, readOffset);
        if |t| < HEADER || GetU32(t[..4]) != MAGIC { break; }
        var len := GetU32(t[4..8]);
        TailTail(data, readOffset, HEADER + len);
        readOffset := readOffset + HEADER + len;
        left := left - 1;
        stats := stats.(committed := stats.committed + 1);
        if stats.pending > 0 { stats := stats.(pending := stats.pending - 1); }
      }
    }

    /** The inner loop of `peek`: frames of one segment from `start` on, while there is room. */
    static method ReadFrames(data: Bytes, start: nat, maxRecords: nat, before: seq<Record>, ghost es: seq<Entry>, ghost id: nat)
        returns (out: seq<Record>)
      requires Numbered(before, es) && |es| <= maxRecords
      ensures Numbered(out, es + Take(Parse(Tail(data, start), id, start), maxRecords - |es|))
    {
      hide Checksum, GetU32, Tail, Parse;
      out := before;
      var pos := start;
      ghost var found: seq<Entry> := [];
      ghost var all := Parse(Tail(data, start), id, start);
      while |out| < maxRecords
        invariant Numbered(out, es + found) && |es + found| <= maxRecords
        invariant all == found + Parse(Tail(data, pos), id, pos)
        decreases |data| - pos
      {
        var t := Tail(data, pos);
        TailSize(data, pos);
        if |t| < HEADER || GetU32(t[..4]) != MAGIC { ParseStops(t, id, pos); break; }
        var len, wantCrc := GetU32(t[4..8]), GetU32(t[8..12]);
        if |t| - HEADER < len { ParseStops(t, id, pos); break; }
        var payload := t[HEADER..HEADER + len];
        var crc := Crc32(payload);
        if crc != wantCrc { ParseStops(t, id, pos); break; }
        ParseStep(data, pos, id);
        out := out + [Record(|out| + 1, payload)];
        found := found + [Entry(id, pos, payload)];
        pos := pos + HEADER + len;
      }
    }
  }

  lemma PeekMore<T>(view: seq<T>, es: seq<T>, here: seq<T>, rest: seq<T>, max: nat)
    requires view == es + (here + rest) && |es| <= max
    ensures
      var more := es + Take(here, max - |es|);
      && |more| <= max
      && (|more| < max ==> view == more + rest)
      && (|more| == max ==> more == Take(view, max))
  {}

  lemma TakeAll<T>(s: seq<T>, max: nat)
    requires |s| <= max
    ensures Take(s, max) == s
  {}

  lemma TailSize(s: Bytes, off: nat)
    ensures |Tail(s, off)| == if off <= |s| then |s| - off else 0
  {}

  lemma EmptyViewOf(st: Store)
    ensures ViewOf(st, st.ids[|st.ids|..]) == []
  {}

  /** The view, one listed segment after another, as `peek` reads it. */
  ghost function ViewOf(st: Store, ids: seq<nat>): seq<Entry> {
    if ids == [] then []
    else (if ids[0] < st.seg then [] else SegView(st.files, ids[0], if ids[0] == st.seg then st.off else 0)) + ViewOf(st, ids[1..])
  }

  lemma ViewOfStep(st: Store, ids: seq<nat>, i: nat)
    requires i < |ids|
    ensures
      var id := ids[i];
      var here := if id < st.seg || id !in st.files then []
                  else Parse(Tail(st.files[id], if id == st.seg then st.off else 0), id, if id == st.seg then st.off else 0);
      ViewOf(st, ids[i..]) == here + ViewOf(st, ids[i + 1..])
  {
    hide Parse, Tail;
    assert ids[i..][0] == ids[i] && ids[i..][1..] == ids[i + 1..];
  }

  lemma ParseStep(data: Bytes, pos: nat, id: nat)
    requires Intact(Tail(data, pos))
    ensures
      var t := Tail(data, pos);
      Parse(t, id, pos) == [Entry(id, pos, t[HEADER..Span(t)])] + Parse(Tail(data, pos + Span(t)), id, pos + Span(t))
  {
    hide Intact, Span;
    var t := Tail(data, pos);
    assert Tail(data, pos + Span(t)) == t[Span(t)..];
  }

  lemma {:induction false} LaterView(st: Store, ids: seq<nat>)
    requires forall id :: id in ids ==> id > st.seg
    ensures ViewOf(st, ids) == ViewFrom(st.files, ids)
  {
    hide SegView;
    if ids != [] {
      assert ids[0] in ids && forall x :: x in ids[1..] ==> x in ids;
      LaterView(st, ids[1..]);
    }
  }

  /** Reading the listed segments in order and skipping those before the cursor gives the queue. */
  lemma {:induction false} ListedView(st: Store, ids: seq<nat>)
    requires Ascending(ids)
    ensures ViewOf(st, ids) == (if st.seg in ids then SegView(st.files, st.seg, st.off) else []) + ViewFrom(st.files, After(ids, st.seg))
  {
    hide SegView, Ascending, After, ViewFrom;
    if ids == [] {
      AfterAbove(ids, st.seg);
      NoneFrom(st.files);
    } else {
      AscendingTail(ids);
      assert ids == [ids[0]] + ids[1..];
      if ids[0] < st.seg {
        AfterBelow(ids, st.seg);
        ListedView(st, ids[1..]);
      } else if ids[0] == st.seg {
        AfterBelow(ids, st.seg);
        assert |ids| > 1 ==> ids[1..][0] in ids[1..];
        AfterAbove(ids[1..], st.seg);
        LaterView(st, ids[1..]);
      } else {
        AfterAbove(ids, st.seg);
        LaterView(st, ids);
      }
    }
  }

  lemma NoneFrom(files: Files)
    ensures ViewFrom(files, []) == []
  {}

  lemma PeekView(st: Store)
    requires Ascending(st.ids)
    ensures ViewOf(st, st.ids) == View(st)
  {
    hide SegView, Ascending, ViewFrom, After, ViewOf;
    ListedView(st, st.ids);
  }

  lemma EvictStep(st: Store, cfg: Config)
    ensures
      if OverBudget(st, cfg) then
        Evict(st, cfg) == Evict(DropOldest(st), cfg) && EvictCount(st, cfg) == 1 + EvictCount(DropOldest(st), cfg)
      else Evict(st, cfg) == st && EvictCount(st, cfg) == 0
  {
    hide Total;
  }

  lemma {:induction false} ParseSize(t: Bytes, seg: nat, off: nat)
    ensures |Parse(t, seg, off)| <= |t|
    decreases |t|
  {
    hide Intact, Span;
    if Intact(t) { ParseSize(t[Span(t)..], seg, off + Span(t)); }
  }

  /** No more records than bytes. */
  lemma {:induction false} ListedSize(st: Store, ids: seq<nat>)
    ensures |ViewOf(st, ids)| <= Total(st.files, ids)
  {
    hide Parse;
    if ids != [] {
      var id := ids[0];
      var off := if id == st.seg then st.off else 0;
      if id in st.files { ParseSize(Tail(st.files[id], off), id, off); }
      ListedSize(st, ids[1..]);
    }
  }

  lemma ViewSize(st: Store)
    requires Ascending(st.ids)
    ensures |View(st)| <= Total(st.files, st.ids)
  {
    hide View, Ascending, Total, ViewOf;
    PeekView(st);
    ListedSize(st, st.ids);
  }

  lemma WriteAscending(st: Store, cfg: Config, p: Bytes)
    requires Ascending(st.ids) && |p| < LIMIT
    ensures Ascending(Write(st, cfg, p).ids)
  {
    hide Frame;
  }

  // ---- the states a kill can leave are the ones Runs considers ----

  lemma {:induction false} CommitDisksAt(d: Disk, removed: seq<nat>, i: nat)
    requires i < |removed|
    ensures |CommitDisks(d, removed)| == |removed| && CommitDisks(d, removed)[i] == Deleted(d, removed[..i + 1])
  {
    hide Deleted;
    var n := |removed| - 1;
    if n > 0 {
      CommitDisksAt(d, removed[..n], if i < n then i else 0);
    }
    if i < n {
      assert removed[..n][..i + 1] == removed[..i + 1];
    } else {
      assert removed[..i + 1] == removed;
    }
  }

  /** Each directory state an append passes through is what some kill of Runs leaves. */
  lemma AppendKillPoints(w: World, cfg: Config, p: Bytes, state: Option<State>, i: nat)
    requires |p| < LIMIT
    requires
      var wr := Write(w.st, cfg, p);
      i < |WriteDisks(w.st, cfg, p, state) + CommitDisks(Disk(wr.files, state), wr.ids[..EvictCount(wr, cfg)])|
    ensures
      var wr := Write(w.st, cfg, p);
      var ds := WriteDisks(w.st, cfg, p, state) + CommitDisks(Disk(wr.files, state), wr.ids[..EvictCount(wr, cfg)]);
      exists written: nat, dropped: nat ::
        && written <= |Frame(p)| && dropped <= |wr.ids|
        && Enabled(w, cfg, AppendKilled(p, written, dropped))
        && ds[i] == Disk(Minus(Partial(w.st, cfg, p, written).files, wr.ids[..dropped]), state)
  {
    hide Frame, EvictCount, Write, Partial, CommitDisks, Minus;
    var wr := Write(w.st, cfg, p);
    var a, ids := WriteDisks(w.st, cfg, p, state), wr.ids[..EvictCount(wr, cfg)];
    if i < |a| {
      assert wr.ids[..0] == [];
      MinusNothing(Partial(w.st, cfg, p, i).files);
      assert Enabled(w, cfg, AppendKilled(p, i, 0));
    } else {
      var j := i - |a|;
      NoneDeleted(Disk(wr.files, state), ids);
      CommitDisksAt(Disk(wr.files, state), ids, j);
      assert ids[..j + 1] == wr.ids[..j + 1];
      PartialWhole(w.st, cfg, p);
      assert Enabled(w, cfg, AppendKilled(p, |Frame(p)|, j + 1));
    }
  }

  /** Each directory state a commit passes through is what some kill of Runs leaves. */
  lemma CommitKillPoints(w: World, cfg: Config, k: nat, state: Option<State>, i: nat)
    requires Acknowledged(w, k)
    requires i < |CommitDisks(Disk(w.st.files, state), SegmentStore.Commit(w.st, k).removed)|
    ensures
      var removed := SegmentStore.Commit(w.st, k).removed;
      exists n: nat ::
        && n <= |removed| && Enabled(w, cfg, CommitKilled(k, n))
        && CommitDisks(Disk(w.st.files, state), removed)[i] == Disk(Minus(w.st.files, removed[..n]), state)
  {
    hide SegmentStore.Commit, CommitDisks, View;
    var d, removed := Disk(w.st.files, state), SegmentStore.Commit(w.st, k).removed;
    NoneDeleted(d, removed);
    CommitDisksAt(d, removed, i);
    assert Enabled(w, cfg, CommitKilled(k, i + 1));
  }

  lemma NoneDeleted(d: Disk, removed: seq<nat>)
    ensures |CommitDisks(d, removed)| == |removed|
  {
    hide CommitDisks, Deleted;
    if removed == [] {
      CommitDisksNone(d);
    } else {
      CommitDisksAt(d, removed, 0);
    }
  }
}
