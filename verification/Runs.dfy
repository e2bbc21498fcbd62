/**
 Whole runs of the spool: appends, deliveries and commits in any order, and a kill
 before or between any two disk writes of any of them, each followed by a reopen.
 An accepted record is delivered, pending or evicted, unless the append that took it
 landed behind a torn frame.
 */
module Runs {
  import opened Options
  import opened Crc
  import opened Frames
  import opened SegmentStore
  import opened Fifo
  import opened Appends

  datatype Cursor = Cursor(seg: nat, off: nat)

  /**
   The live spool, the cursor in the state file, and, by place on disk: the records
   whose append returned true, those of them that landed behind a torn frame, the
   records the server has acknowledged, and the records evicted.
   */
  datatype World = World(st: Store, saved: Option<Cursor>,
                         accepted: set<Entry>, torn: set<Entry>, delivered: set<Entry>, evicted: set<Entry>)

  // ---- reopening ----

  /** Where `load_state` puts the cursor. */
  function Load(ids: seq<nat>, saved: Option<Cursor>): Cursor {
    var front := if ids == [] then 1 else ids[0];
    var c := if saved.Some? then saved.value else Cursor(front, 0);
    if ids != [] && c.seg < front then Cursor(front, 0) else c
  }

  /** A process attaches to a directory. */
  ghost predicate Reopened(files: Files, saved: Option<Cursor>, st: Store) {
    && st.files == files
    && Ascending(st.ids) && (forall id :: id in st.ids <==> id in files)
    && Cursor(st.seg, st.off) == Load(st.ids, saved)
  }

  // ---- steps ----

  datatype Event =
    | AppendDone(p: Bytes)
    | AppendKilled(p: Bytes, written: nat, dropped: nat)
    | Delivered(n: nat)
    | CommitDone(k: nat)
    | CommitKilled(k: nat, removed: nat)
    | Killed

  ghost predicate Enabled(w: World, cfg: Config, ev: Event) {
    match ev
    case AppendDone(p) => |p| < LIMIT
    case AppendKilled(p, written, dropped) =>
      && |p| < LIMIT && written <= |Frame(p)|
      && dropped <= (if written == |Frame(p)| then EvictCount(Write(w.st, cfg, p), cfg) else 0)
    case Delivered(n) => true
    case CommitDone(k) => Acknowledged(w, k)
    case CommitKilled(k, removed) => Acknowledged(w, k) && removed <= |Commit(w.st, k).removed|
    case Killed => true
  }

  /** `commit` is called only for records the server has taken. */
  ghost predicate Acknowledged(w: World, k: nat) {
    k <= |View(w.st)| && forall e :: e in View(w.st)[..k] ==> e in w.delivered
  }

  /** The record an append writes, with its place. */
  function NewEntry(st: Store, cfg: Config, p: Bytes): Entry {
    var at := Roll(st, cfg);
    Entry(Last(at.ids), Size(at.files, Last(at.ids)), p)
  }

  /** The segment an append lands on ends in a torn or damaged frame. */
  predicate LandsTorn(st: Store, cfg: Config) {
    var at := Roll(st, cfg);
    !Framed(Content(at.files, Last(at.ids)))
  }

  function Partial(st: Store, cfg: Config, p: Bytes, written: nat): (r: Store)
    requires |p| < LIMIT && written <= |Frame(p)|
    ensures r.ids == Roll(st, cfg).ids
  {
    WriteTo(Roll(st, cfg), Frame(p)[..written])
  }

  /** Records of the queue that lie in its first `n` segments. */
  ghost function Lost(st: Store, n: nat): set<Entry>
    requires n <= |st.ids|
  {
    set e | e in View(st) && e.seg in st.ids[..n]
  }

  ghost function Minus(files: Files, ids: seq<nat>): Files {
    map id | id in files && id !in ids :: files[id]
  }

  ghost predicate Next(w: World, cfg: Config, ev: Event, w': World)
    requires Enabled(w, cfg, ev)
  {
    match ev
    case AppendDone(p) =>
      var written := Write(w.st, cfg, p);
      var e := NewEntry(w.st, cfg, p);
      && w'.st == Append(w.st, cfg, p)
      && w'.saved == Some(Cursor(w'.st.seg, w'.st.off))
      && w'.accepted == w.accepted + {e}
      && w'.torn == (if LandsTorn(w.st, cfg) then w.torn + {e} else w.torn)
      && w'.evicted == w.evicted + Lost(written, EvictCount(written, cfg))
      && w'.delivered == w.delivered
    case AppendKilled(p, written, dropped) =>
      var partial := Partial(w.st, cfg, p, written);
      && dropped <= |partial.ids|
      && Reopened(Minus(partial.files, partial.ids[..dropped]), w.saved, w'.st)
      && w' == w.(st := w'.st, evicted := w.evicted + Lost(partial, dropped))
    case Delivered(n) =>
      w' == w.(delivered := w.delivered + set e | e in Take(View(w.st), n))
    case CommitDone(k) =>
      w' == w.(st := Commit(w.st, k).st, saved := Some(Cursor(w'.st.seg, w'.st.off)))
    case CommitKilled(k, removed) =>
      && Reopened(Minus(w.st.files, Commit(w.st, k).removed[..removed]), w.saved, w'.st)
      && w' == w.(st := w'.st)
    case Killed =>
      && Reopened(w.st.files, w.saved, w'.st)
      && w' == w.(st := w'.st)
  }

  /** An empty directory. */
  const FRESH: World := World(Store(map[], [], 1, 0), None, {}, {}, {}, {})

  ghost predicate IsRun(ws: seq<World>, cfg: Config, evs: seq<Event>) {
    && |ws| == |evs| + 1 && ws[0] == FRESH
    && forall i :: 0 <= i < |evs| ==> Enabled(ws[i], cfg, evs[i]) && Next(ws[i], cfg, evs[i], ws[i + 1])
  }

  // ---- what every step keeps ----

  /** The live spool: one cursor, in the first segment, the one a reopen would find. */
  ghost predicate Anchored(st: Store, saved: Option<Cursor>) {
    && Sound(st)
    && (st.ids != [] ==> st.seg == st.ids[0] && OnChain(st.files[Last(st.ids)], LastOffset(st)))
    && Load(st.ids, saved) == Cursor(st.seg, st.off)
  }

  /** The entry's place on disk has been written already. */
  predicate Behind(e: Entry, st: Store) {
    st.ids != [] &&
    (e.seg < Last(st.ids) || (e.seg == Last(st.ids) && e.off < Size(st.files, e.seg)))
  }

  ghost predicate Safe(w: World) {
    forall e :: e in w.accepted && e !in w.torn ==> e in w.delivered || e in w.evicted || e in View(w.st)
  }

  ghost predicate Inv(w: World) {
    && Anchored(w.st, w.saved)
    && Safe(w)
    && (forall e :: e in w.accepted + w.delivered + w.evicted ==> Behind(e, w.st))
  }

  // ---- deleting segments from the front ----

  ghost function FrontDropped(st: Store, n: nat): Store
    requires n < |st.ids|
  {
    if n == 0 then st else Store(Minus(st.files, st.ids[..n]), st.ids[n..], st.ids[n], 0)
  }

  lemma MinusStep(files: Files, ids: seq<nat>, n: nat)
    requires 0 < n <= |ids|
    ensures Minus(files, ids[..n]) == Minus(files - {ids[0]}, ids[1..][..n - 1])
  {
    assert ids[..n] == [ids[0]] + ids[1..][..n - 1];
  }

  lemma MinusNothing(files: Files)
    ensures Minus(files, []) == files
  {}

  lemma {:induction false} DropManyIs(st: Store, n: nat)
    requires Sound(st) && n < |st.ids| && st.seg == st.ids[0]
    ensures DropMany(st, n) == FrontDropped(st, n) && Sound(DropMany(st, n))
    decreases n
  {
    hide Sound, Minus, DropOldest;
    if n > 0 {
      var st', ids := DropOldest(st), st.ids;
      DropOldestSound(st);
      DropManyIs(st', n - 1);
      MinusStep(st.files, ids, n);
      if n == 1 { MinusNothing(st'.files); }
      assert ids[1..][n - 1..] == ids[n..];
    }
  }

  lemma DropOldestSound(st: Store)
    requires Sound(st) && |st.ids| > 1 && st.seg == st.ids[0]
    ensures Sound(DropOldest(st)) && DropOldest(st) == Store(st.files - {st.ids[0]}, st.ids[1..], st.ids[1], 0)
  {
    hide Ascending;
    AscendingTail(st.ids);
    assert st.ids[1] in st.ids[1..];
  }

  lemma DropManyAnchored(st: Store, saved: Option<Cursor>, n: nat)
    requires Anchored(st, saved) && n < |st.ids|
    ensures Anchored(DropMany(st, n), saved)
  {
    hide Ascending, OnChain, DropMany;
    DropManyIs(st, n);
    var st' := DropMany(st, n);
    if n > 0 {
      OnChainStart(st'.files[Last(st'.ids)]);
      assert st.ids[n] > st.ids[0] by { AscendingIndex(st.ids, n); }
    }
  }

  lemma AscendingIndex(ids: seq<nat>, n: nat)
    requires Ascending(ids) && 0 < n < |ids|
    ensures ids[n] > ids[0]
  {}

  /** A reopen after the first `n` segments were deleted finds exactly the store without them. */
  lemma ReopenedIs(st: Store, saved: Option<Cursor>, n: nat, found: Store)
    requires Anchored(st, saved) && (n < |st.ids| || n == 0)
    requires Reopened(Minus(st.files, st.ids[..n]), saved, found)
    ensures found == DropMany(st, n) && Anchored(found, saved)
  {
    hide OnChain, DropMany, Ascending;
    SplitAscending(st.ids, n);
    AscendingUnique(found.ids, st.ids[n..]);
    if n > 0 {
      AscendingIndex(st.ids, n);
    }
    if n < |st.ids| {
      DropManyIs(st, n);
      DropManyAnchored(st, saved, n);
    } else {
      DropNone(st);
    }
  }

  lemma DropNone(st: Store)
    ensures DropMany(st, 0) == st
  {}

  lemma SplitAscending(ids: seq<nat>, n: nat)
    requires Ascending(ids) && n <= |ids|
    ensures Ascending(ids[n..])
    ensures forall x :: x in ids[n..] <==> x in ids && x !in ids[..n]
  {
    assert ids == ids[..n] + ids[n..];
  }

  // ---- writing ----

  lemma WriteAnchored(st: Store, saved: Option<Cursor>, cfg: Config, data: Bytes)
    requires Anchored(st, saved) && cfg.segmentBytes > 0
    ensures Anchored(Roll(st, cfg), saved)
    ensures Anchored(WriteTo(Roll(st, cfg), data), saved)
    ensures View(st) <= View(WriteTo(Roll(st, cfg), data))
    ensures forall e :: Behind(e, st) ==> Behind(e, WriteTo(Roll(st, cfg), data))
  {
    hide Ascending, OnChain, View, WriteTo;
    RollView(st, cfg);
    RollAnchored(st, saved, cfg);
    WriteKeeps(Roll(st, cfg), data);
    WriteToAnchored(Roll(st, cfg), saved, data);
    RollBehind(st, cfg);
  }

  lemma RollAnchored(st: Store, saved: Option<Cursor>, cfg: Config)
    requires Anchored(st, saved) && cfg.segmentBytes > 0
    ensures Anchored(Roll(st, cfg), saved)
  {
    hide Ascending, OnChain, View;
    RollView(st, cfg);
    if st.ids == [] {
      EmptyFramed();
    } else {
      LastIsGreatest(st.ids);
      OnChainStart([]);
    }
  }

  lemma RollBehind(st: Store, cfg: Config)
    ensures forall e :: Behind(e, st) ==> Behind(e, Roll(st, cfg))
  {}

  lemma WriteToAnchored(st: Store, saved: Option<Cursor>, data: Bytes)
    requires Anchored(st, saved) && st.ids != []
    ensures Anchored(WriteTo(st, data), saved)
    ensures forall e :: Behind(e, st) ==> Behind(e, WriteTo(st, data))
  {
    hide Ascending, OnChain;
    LastIsGreatest(st.ids);
    OnChainExtends(st.files[Last(st.ids)], data, LastOffset(st));
  }

  lemma ViewBehind(st: Store)
    requires Sound(st)
    ensures forall e :: e in View(st) ==> Behind(e, st)
  {
    hide Ascending, View;
    if st.ids == [] {
      CommitNothing(st, 0);
    } else {
      ViewSplit(st);
      OlderBelow(st);
      SegViewRange(st.files, Last(st.ids), LastOffset(st));
    }
  }

  lemma OlderBelow(st: Store)
    requires Sound(st) && st.ids != []
    ensures forall e :: e in Older(st) ==> e.seg < Last(st.ids)
  {
    hide Ascending, SegView, ViewFrom, After;
    LastIsGreatest(st.ids);
    if st.seg != Last(st.ids) {
      var next := After(st.ids, st.seg);
      AfterOfAscending(st.ids, st.seg);
      AfterAndLast(st.ids, st.seg);
      ButLast(next);
      var front := next[..|next| - 1];
      SegViewSeg(st.files, st.seg, st.off);
      ViewFromSegments(st.files, front);
      forall e | e in Older(st) ensures e.seg < Last(st.ids) {
        if e in ViewFrom(st.files, front) {
          assert e.seg in front && front <= next && e.seg in next;
          assert e.seg != Last(next);
        }
      }
    }
  }

  lemma SegViewRange(files: Files, id: nat, off: nat)
    ensures forall e :: e in SegView(files, id, off) ==> e.seg == id && e.off < Size(files, id)
  {
    hide Parse;
    if id in files {
      ParseRange(Tail(files[id], off), id, off);
      if off > |files[id]| { ParseNothing(id, off); }
    }
  }

  lemma DropManyBehind(st: Store, n: nat)
    requires Sound(st) && n < |st.ids| && st.seg == st.ids[0]
    ensures forall e :: Behind(e, st) ==> Behind(e, DropMany(st, n))
  {
    hide Ascending, DropMany;
    DropManyIs(st, n);
    SplitAscending(st.ids, n);
    LastIsGreatest(st.ids);
    var st' := DropMany(st, n);
    SameLast(st.ids, n);
    assert Size(st'.files, Last(st.ids)) == Size(st.files, Last(st.ids));
    assert forall e :: Behind(e, st) && e.seg == Last(st.ids) ==> Behind(e, st');
  }

  lemma SameLast(ids: seq<nat>, n: nat)
    requires n < |ids|
    ensures Last(ids[n..]) == Last(ids) && Last(ids) in ids[n..]
  {}

  /** Every disk state an append passes through keeps the accepted records safe. */
  lemma WroteInv(w: World, cfg: Config, data: Bytes, n: nat, w': World)
    requires Inv(w) && cfg.segmentBytes > 0
    requires n < |Roll(w.st, cfg).ids|
    requires w' == w.(st := DropMany(WriteTo(Roll(w.st, cfg), data), n),
                      evicted := w.evicted + Lost(WriteTo(Roll(w.st, cfg), data), n))
    ensures Inv(w')
  {
    hide Anchored, View, Behind, DropMany, Roll, WriteTo, Ascending;
    var wr := WriteTo(Roll(w.st, cfg), data);
    WriteAnchored(w.st, w.saved, cfg, data);
    WriteIds(Roll(w.st, cfg), data);
    AnchoredSound(wr, w.saved);
    DropManyAnchored(wr, w.saved, n);
    DropManyView(wr, n);
    DropManyBehind(wr, n);
    ViewBehind(wr);
  }

  lemma AnchoredSound(st: Store, saved: Option<Cursor>)
    requires Anchored(st, saved)
    ensures Sound(st) && Ascending(st.ids) && (st.ids != [] ==> st.seg == st.ids[0])
  {}

  // ---- committing ----

  lemma WithoutHead(ids: seq<nat>)
    requires Ascending(ids) && ids != []
    ensures SegmentStore.Without(ids, ids[0]) == ids[1..]
  {
    hide SegmentStore.Without;
    AscendingTail(ids);
    WithoutAscending(ids, ids[0]);
    AscendingUnique(SegmentStore.Without(ids, ids[0]), ids[1..]);
  }

  /** With the cursor in the first of several segments, retiring it is deleting the oldest. */
  lemma RetireIsDropOldest(st: Store)
    requires Sound(st) && |st.ids| > 1 && st.seg == st.ids[0]
    ensures After(st.ids, st.seg) == st.ids[1..]
    ensures Retire(st, st.ids[1]) == DropOldest(st)
  {
    hide Ascending, After, SegmentStore.Without;
    AfterHead(st.ids);
    WithoutHead(st.ids);
  }

  /** One round of `commit`: it stops in the current segment, or retires it and goes on. */
  lemma CommitStep(st: Store, k: nat)
    requires Sound(st) && st.ids != [] && st.seg == st.ids[0] && k > 0
    ensures
      var w := Walk(Tail(st.files[st.seg], st.off), k);
      if w.count == k || w.count == 0 || |st.ids| == 1 then
        Commit(st, k) == Release(Moved(st, w), [], w.count)
      else
        var rest := Commit(DropOldest(st), k - w.count);
        Commit(st, k) == Release(rest.st, [st.seg] + rest.removed, w.count + rest.count)
  {
    hide Walk, Tail, SegmentStore.Without, After, Ascending, DropOldest;
    if |st.ids| == 1 {
      AfterHead(st.ids);
    } else {
      RetireIsDropOldest(st);
    }
  }

  /** The segments a commit deletes are the oldest ones, and never the last. */
  lemma {:induction false} CommitFront(st: Store, k: nat)
    requires Sound(st) && st.ids != [] && st.seg == st.ids[0]
    ensures
      var r := Commit(st, k);
      && |r.removed| < |st.ids| && r.removed == st.ids[..|r.removed|]
      && Sound(r.st) && r.st.ids == st.ids[|r.removed|..] && r.st.seg == r.st.ids[0]
      && r.st.files == Minus(st.files, r.removed)
    decreases |st.ids|
  {
    hide Walk, Tail, Sound, Commit, Minus, DropOldest;
    assert forall id :: id in st.ids <==> id in st.files by { SoundFiles(st); }
    if k == 0 {
      CommitNothing(st, k);
      MinusNothing(st.files);
    } else {
      CommitStep(st, k);
      var w := Walk(Tail(st.files[st.seg], st.off), k);
      if w.count == k || w.count == 0 || |st.ids| == 1 {
        MinusNothing(st.files);
        MovedSound(st, w);
      } else {
        DropOldestSound(st);
        CommitFront(DropOldest(st), k - w.count);
        FrontStep(st.files, st.ids, Commit(DropOldest(st), k - w.count).removed);
      }
    }
  }

  lemma MovedSound(st: Store, w: Walked)
    requires Sound(st) && st.ids != []
    ensures Sound(Moved(st, w))
  {}

  lemma SoundFiles(st: Store)
    requires Sound(st)
    ensures forall id :: id in st.ids <==> id in st.files
  {}

  lemma FrontStep(files: Files, ids: seq<nat>, removed: seq<nat>)
    requires |removed| < |ids| && removed == ids[1..][..|removed|]
    ensures [ids[0]] + removed == ids[..|removed| + 1] && ids[1..][|removed|..] == ids[|removed| + 1..]
    ensures Minus(files - {ids[0]}, removed) == Minus(files, [ids[0]] + removed)
  {
    hide Minus;
    MinusStep(files, ids, |removed| + 1);
  }

  /** In the last segment the cursor only ever passes records that `peek` accepts. */
  lemma {:induction false} CommitLastChain(st: Store, k: nat)
    requires Sound(st) && st.ids != [] && st.seg == st.ids[0] && k <= |View(st)|
    requires OnChain(st.files[Last(st.ids)], LastOffset(st))
    ensures
      var st' := Commit(st, k).st;
      st'.ids != [] && Last(st'.ids) in st'.files && OnChain(st'.files[Last(st'.ids)], LastOffset(st'))
    decreases |st.ids|
  {
    hide Walk, Tail, Ascending, Commit, OnChain, View, Current;
    LastIsGreatest(st.ids);
    if k == 0 {
      CommitNothing(st, k);
    } else {
      CommitStep(st, k);
      var w := Walk(Tail(st.files[st.seg], st.off), k);
      if |st.ids| == 1 {
        LastWalk(st, k);
      } else {
        AscendingIndex(st.ids, |st.ids| - 1);
        OnChainStart(st.files[Last(st.ids)]);
        if w.count != k && w.count != 0 {
          MovedView(st, k);
          DropOldestSound(st);
          FrontView(st);
          CommitLastChain(DropOldest(st), k - w.count);
        }
      }
    }
  }

  lemma FrontView(st: Store)
    requires Sound(st) && |st.ids| > 1 && st.seg == st.ids[0]
    ensures View(st) == Current(st) + View(DropOldest(st))
  {
    hide Ascending, After, Current, ViewFrom, DropOldest, Retire;
    RetireIsDropOldest(st);
    ViewAtNext(st, st.ids[1]);
  }

  lemma LastWalk(st: Store, k: nat)
    requires Sound(st) && |st.ids| == 1 && st.seg == st.ids[0] && k <= |View(st)|
    requires OnChain(st.files[st.seg], st.off)
    ensures OnChain(st.files[st.seg], st.off + Walk(Tail(st.files[st.seg], st.off), k).bytes)
  {
    hide Ascending, Walk, OnChain, Parse, After;
    AfterHead(st.ids);
    NoMoreView(st);
    OnChainExtends(st.files[st.seg], [], st.off);
    WalkOnChain(st.files[st.seg], st.off, k, st.seg);
  }

  /** Every record in a segment that a commit deletes is among the first `k`. */
  lemma {:induction false} RemovedAreReleased(st: Store, k: nat)
    requires Sound(st) && st.ids != [] && st.seg == st.ids[0] && k <= |View(st)|
    ensures forall e :: e in View(st) && e.seg in Commit(st, k).removed ==> e in View(st)[..k]
    decreases |st.ids|
  {
    hide Walk, Tail, Ascending, Commit, View, Current;
    if k == 0 {
      CommitNothing(st, k);
    } else {
      CommitStep(st, k);
      var w := Walk(Tail(st.files[st.seg], st.off), k);
      if w.count != k && w.count != 0 && |st.ids| > 1 {
        var st', cur := DropOldest(st), Current(st);
        MovedView(st, k);
        DropOldestSound(st);
        FrontView(st);
        RemovedAreReleased(st', k - w.count);
        RestSegments(st);
        forall e | e in View(st) && e.seg in Commit(st, k).removed ensures e in View(st)[..k] {
          if e in cur {
            assert cur <= View(st)[..k];
          } else {
            assert e in View(st');
            assert e in View(st')[..k - w.count];
            assert View(st)[..k] == cur + View(st')[..k - |cur|];
            assert View(st')[..k - w.count] <= View(st')[..k - |cur|];
          }
        }
      }
    }
  }

  lemma RestSegments(st: Store)
    requires Sound(st) && |st.ids| > 1 && st.seg == st.ids[0]
    ensures forall e :: e in View(DropOldest(st)) ==> e.seg != st.seg
  {
    hide Ascending, ViewFrom, View;
    DropAtCursor(st);
    ViewFromSegments(st.files, st.ids[1..]);
    AscendingTail(st.ids);
  }

  // ---- every step ----

  lemma PartialWhole(st: Store, cfg: Config, p: Bytes)
    requires |p| < LIMIT
    ensures Partial(st, cfg, p, |Frame(p)|) == Write(st, cfg, p)
  {
    hide Frame, Roll;
    assert Frame(p)[..|Frame(p)|] == Frame(p);
  }

  lemma AppendKilledInv(w: World, cfg: Config, ev: Event, w': World)
    requires Inv(w) && cfg.segmentBytes > 0 && ev.AppendKilled? && Enabled(w, cfg, ev) && Next(w, cfg, ev, w')
    ensures Inv(w')
  {
    hide Inv, Anchored, View, Frame, EvictCount, Roll, WriteTo, Reopened, Lost, DropMany;
    var data := Frame(ev.p)[..ev.written];
    var partial := Partial(w.st, cfg, ev.p, ev.written);
    if ev.written == |Frame(ev.p)| {
      PartialWhole(w.st, cfg, ev.p);
    }
    InvAnchored(w);
    WriteAnchored(w.st, w.saved, cfg, data);
    ReopenedIs(partial, w.saved, ev.dropped, w'.st);
    WroteInv(w, cfg, data, ev.dropped, w');
  }

  lemma InvAnchored(w: World)
    requires Inv(w)
    ensures Anchored(w.st, w.saved)
  {}

  lemma EntryAtEnd(st: Store, saved: Option<Cursor>, cfg: Config, p: Bytes)
    requires Anchored(st, saved) && cfg.segmentBytes > 0 && |p| < LIMIT
    ensures
      var e, wr := NewEntry(st, cfg, p), Write(st, cfg, p);
      && e.seg == Last(wr.ids) && Behind(e, wr) && !Behind(e, st)
      && (e in View(wr) <==> !LandsTorn(st, cfg))
  {
    hide Anchored, View, Framed, Frame, Roll;
    RollAnchored(st, saved, cfg);
    var at := Roll(st, cfg);
    AnchoredRolled(at, saved);
    VisibleIffFramed(at, p);
    AnchoredSound(st, saved);
    NewPlace(st, cfg);
  }

  lemma AnchoredRolled(st: Store, saved: Option<Cursor>)
    requires Anchored(st, saved) && st.ids != []
    ensures Sound(st) && Last(st.ids) in st.files && OnChain(st.files[Last(st.ids)], LastOffset(st))
  {
    hide Ascending;
    LastIsGreatest(st.ids);
  }

  lemma NewPlace(st: Store, cfg: Config)
    requires Sound(st)
    ensures
      var at := Roll(st, cfg);
      st.ids != [] ==> Last(at.ids) > Last(st.ids) || (Last(at.ids) == Last(st.ids) && Size(at.files, Last(at.ids)) == Size(st.files, Last(st.ids)))
  {}

  lemma AppendDoneInv(w: World, cfg: Config, ev: Event, w': World)
    requires Inv(w) && cfg.segmentBytes > 0 && ev.AppendDone? && Enabled(w, cfg, ev) && Next(w, cfg, ev, w')
    ensures Inv(w')
  {
    hide Anchored, View, Frame, EvictCount, Roll, Lost, DropMany, LandsTorn, Behind, Evict, NewEntry;
    var wr, e := Write(w.st, cfg, ev.p), NewEntry(w.st, cfg, ev.p);
    var n := EvictCount(wr, cfg);
    WriteAnchored(w.st, w.saved, cfg, Frame(ev.p));
    AnchoredSound(wr, w.saved);
    EvictIsDropMany(wr, cfg);
    var mid := w.(st := w'.st, evicted := w'.evicted);
    WroteInv(w, cfg, Frame(ev.p), n, mid);
    SavedAnchored(w'.st, w.saved);
    EntryAtEnd(w.st, w.saved, cfg, ev.p);
    DropManyBehind(wr, n);
    if !LandsTorn(w.st, cfg) {
      LastSurvives(wr, n, e);
    }
  }

  /** Saving the cursor a spool stands at keeps it anchored. */
  lemma SavedAnchored(st: Store, saved: Option<Cursor>)
    requires Anchored(st, saved)
    ensures Anchored(st, Some(Cursor(st.seg, st.off)))
  {}

  lemma DeliveredInv(w: World, cfg: Config, ev: Event, w': World)
    requires Inv(w) && ev.Delivered? && Enabled(w, cfg, ev) && Next(w, cfg, ev, w')
    ensures Inv(w')
  {
    hide Anchored, View, Behind;
    AnchoredSound(w.st, w.saved);
    ViewBehind(w.st);
  }

  lemma CommitDoneInv(w: World, cfg: Config, ev: Event, w': World)
    requires Inv(w) && ev.CommitDone? && Enabled(w, cfg, ev) && Next(w, cfg, ev, w')
    ensures Inv(w')
  {
    hide View, Commit, Behind, OnChain, Ascending;
    if w.st.ids == [] {
      CommitNothing(w.st, ev.k);
    } else {
      CommitFront(w.st, ev.k);
      CommitLastChain(w.st, ev.k);
      CommitBehind(w.st, ev.k);
    }
    CommitSafe(w.st, ev.k);
    KeptOrReleased(w.st, ev.k);
  }

  lemma KeptOrReleased(st: Store, k: nat)
    requires k <= |View(st)| && EndsWith(View(Commit(st, k).st), Drop(View(st), k))
    ensures forall e :: e in View(st) ==> e in View(st)[..k] || e in View(Commit(st, k).st)
  {
    hide View, Commit;
    assert View(st) == View(st)[..k] + View(st)[k..];
  }

  lemma CommitBehind(st: Store, k: nat)
    requires Sound(st) && st.ids != [] && st.seg == st.ids[0]
    ensures forall e :: Behind(e, st) ==> Behind(e, Commit(st, k).st)
  {
    hide Commit, Ascending;
    CommitFront(st, k);
    var r := Commit(st, k);
    SplitAscending(st.ids, |r.removed|);
    LastIsGreatest(st.ids);
    assert Last(r.st.ids) == Last(st.ids);
    assert Last(st.ids) in st.ids[|r.removed|..];
  }

  lemma CommitKilledInv(w: World, cfg: Config, ev: Event, w': World)
    requires Inv(w) && ev.CommitKilled? && Enabled(w, cfg, ev) && Next(w, cfg, ev, w')
    ensures Inv(w')
  {
    hide View, Commit, Behind, Anchored, Reopened, DropMany;
    AnchoredSound(w.st, w.saved);
    var r, n := Commit(w.st, ev.k), ev.removed;
    if w.st.ids == [] {
      CommitNothing(w.st, ev.k);
      ReopenedIs(w.st, w.saved, 0, w'.st);
      DropNone(w.st);
    } else {
      CommitFront(w.st, ev.k);
      assert r.removed[..n] == w.st.ids[..n];
      ReopenedIs(w.st, w.saved, n, w'.st);
      DropManyView(w.st, n);
      DropManyBehind(w.st, n);
      RemovedAreReleased(w.st, ev.k);
    }
  }

  lemma KilledInv(w: World, cfg: Config, ev: Event, w': World)
    requires Inv(w) && ev.Killed? && Enabled(w, cfg, ev) && Next(w, cfg, ev, w')
    ensures w' == w
  {
    hide View, Behind, Anchored, Reopened, DropMany, Minus;
    MinusNothing(w.st.files);
    assert w.st.ids[..0] == [];
    ReopenedIs(w.st, w.saved, 0, w'.st);
    DropNone(w.st);
  }

  lemma StepInv(w: World, cfg: Config, ev: Event, w': World)
    requires Inv(w) && cfg.segmentBytes > 0 && Enabled(w, cfg, ev) && Next(w, cfg, ev, w')
    ensures Inv(w')
  {
    hide Inv, Enabled, Next;
    match ev
    case AppendDone(_) => AppendDoneInv(w, cfg, ev, w');
    case AppendKilled(_, _, _) => AppendKilledInv(w, cfg, ev, w');
    case Delivered(_) => DeliveredInv(w, cfg, ev, w');
    case CommitDone(_) => CommitDoneInv(w, cfg, ev, w');
    case CommitKilled(_, _) => CommitKilledInv(w, cfg, ev, w');
    case Killed => KilledInv(w, cfg, ev, w');
  }

  lemma {:induction false} RunInv(ws: seq<World>, cfg: Config, evs: seq<Event>, i: nat)
    requires IsRun(ws, cfg, evs) && cfg.segmentBytes > 0 && i < |ws|
    ensures Inv(ws[i])
    decreases i
  {
    hide Inv, Enabled, Next;
    if i == 0 {
      FreshInv();
    } else {
      RunInv(ws, cfg, evs, i - 1);
      StepInv(ws[i - 1], cfg, evs[i - 1], ws[i]);
    }
  }

  lemma FreshInv()
    ensures Inv(FRESH)
  {}

  /**
   At-least-once delivery over whole runs, kills included: a record whose append
   returned true is delivered, evicted or still pending, unless it landed behind a
   torn frame.
   */
  lemma NothingLost(ws: seq<World>, cfg: Config, evs: seq<Event>, i: nat, e: Entry)
    requires IsRun(ws, cfg, evs) && cfg.segmentBytes > 0 && i < |ws|
    requires e in ws[i].accepted && e !in ws[i].torn
    ensures e in ws[i].delivered || e in ws[i].evicted || e in View(ws[i].st)
  {
    hide View, IsRun, Behind, Anchored;
    RunInv(ws, cfg, evs, i);
  }

  /**
   A kill at any byte of an append, onto a segment without a torn end, leaves the old queue, or,
   once the frame is whole, the old queue and the new record; what evictions took is its front.
   */
  lemma KilledAppendView(w: World, cfg: Config, p: Bytes, written: nat, dropped: nat, w': World)
    requires Inv(w) && !LandsTorn(w.st, cfg) && cfg.segmentBytes > 0
    requires Enabled(w, cfg, AppendKilled(p, written, dropped)) && Next(w, cfg, AppendKilled(p, written, dropped), w')
    ensures
      var queue := View(w.st) + if written < |Frame(p)| then [] else [NewEntry(w.st, cfg, p)];
      EndsWith(queue, View(w'.st)) && (dropped == 0 ==> View(w'.st) == queue)
  {
    hide View, Anchored, Roll, Frame, Framed, OnChain, Minus, Parse, EvictCount, LandsTorn, NewEntry, DropMany;
    var partial := Partial(w.st, cfg, p, written);
    InvAnchored(w);
    WriteAnchored(w.st, w.saved, cfg, Frame(p)[..written]);
    AnchoredSound(partial, w.saved);
    if dropped > 0 { PartialWhole(w.st, cfg, p); }
    ReopenedIs(partial, w.saved, dropped, w'.st);
    DropNone(partial);
    PartialView(w.st, w.saved, cfg, p, written);
    DropManyView(partial, dropped);
  }

  lemma PartialView(st: Store, saved: Option<Cursor>, cfg: Config, p: Bytes, written: nat)
    requires Anchored(st, saved) && !LandsTorn(st, cfg) && cfg.segmentBytes > 0 && |p| < LIMIT && written <= |Frame(p)|
    ensures View(Partial(st, cfg, p, written)) == View(st) + if written < |Frame(p)| then [] else [NewEntry(st, cfg, p)]
  {
    hide View, Roll, Frame, Framed, OnChain, Parse, Anchored;
    var at := Roll(st, cfg);
    AnchoredSound(st, saved);
    RollView(st, cfg);
    RollAnchored(st, saved, cfg);
    AnchoredRolled(at, saved);
    var last := Last(at.ids);
    WriteFramed(at, Frame(p)[..written]);
    if written < |Frame(p)| {
      TornFrameRejected(p, written);
      ParseStops(Frame(p)[..written], last, |at.files[last]|);
      assert View(st) + [] == View(st);
    } else {
      assert Frame(p)[..written] == Frame(p);
      FrameParses(p, last, |at.files[last]|);
    }
  }

  /** A spool as a running process has it: a reopen from its own cursor finds it. */
  ghost predicate Live(st: Store) { Anchored(st, Some(Cursor(st.seg, st.off))) }

  lemma AnchoredLive(st: Store, saved: Option<Cursor>)
    requires Anchored(st, saved)
    ensures Live(st)
  {
    SavedAnchored(st, saved);
  }

  /**
   One append to a live spool: the spool stays live and the budget holds or one segment remains.
   Unless it lands behind a torn frame, the survivors are a suffix of the queue with the new
   record at its end, and the new record is among them.
   */
  lemma AppendFifo(st: Store, cfg: Config, p: Bytes)
    requires Live(st) && cfg.segmentBytes > 0 && |p| < LIMIT
    ensures
      var st', e := Append(st, cfg, p), NewEntry(st, cfg, p);
      && Live(st') && (Total(st'.files, st'.ids) <= cfg.maxBytes || |st'.ids| <= 1)
      && (!LandsTorn(st, cfg) ==>
          && View(Write(st, cfg, p)) == View(st) + [e]
          && EndsWith(View(st) + [e], View(st')) && View(st') != [] && View(st')[|View(st')| - 1] == e)
  {
    hide View, Anchored, Roll, Frame, Framed, OnChain, EvictCount, Evict, LandsTorn, NewEntry, DropMany, Total, Behind;
    var saved, wr, e := Some(Cursor(st.seg, st.off)), Write(st, cfg, p), NewEntry(st, cfg, p);
    var n := EvictCount(wr, cfg);
    WriteAnchored(st, saved, cfg, Frame(p));
    AnchoredSound(wr, saved);
    EvictIsDropMany(wr, cfg);
    EvictBounds(wr, cfg);
    DropManyAnchored(wr, saved, n);
    AnchoredLive(DropMany(wr, n), saved);
    if !LandsTorn(st, cfg) {
      PartialWhole(st, cfg, p);
      PartialView(st, saved, cfg, p, |Frame(p)|);
      EntryAtEnd(st, saved, cfg, p);
      DropManyView(wr, n);
      LastSurvives(wr, n, e);
      LastStays(View(wr), View(DropMany(wr, n)), e);
    }
  }

  lemma LastStays<T>(s: seq<T>, t: seq<T>, e: T)
    requires s != [] && s[|s| - 1] == e && EndsWith(s, t) && e in t
    ensures t != [] && t[|t| - 1] == e
  {}

  /** A reopen of the files of a live spool from its own cursor finds the spool itself. */
  lemma ReopenFinds(st: Store, found: Store)
    requires Live(st) && Reopened(st.files, Some(Cursor(st.seg, st.off)), found)
    ensures found == st
  {
    hide Anchored, Reopened, Minus;
    assert st.ids[..0] == [];
    MinusNothing(st.files);
    ReopenedIs(st, Some(Cursor(st.seg, st.off)), 0, found);
    DropNone(st);
  }

  /** A commit of pending records keeps a spool live. */
  lemma CommitLive(st: Store, k: nat)
    requires Live(st) && k <= |View(st)|
    ensures Live(Commit(st, k).st)
  {
    hide View, Commit, OnChain, Ascending;
    if st.ids == [] {
      CommitNothing(st, k);
    } else {
      CommitFront(st, k);
      CommitLastChain(st, k);
    }
  }

  /** A kill while no operation runs changes nothing: the reopened spool is the one that died. */
  lemma IdleKillHarmless(ws: seq<World>, cfg: Config, evs: seq<Event>, i: nat)
    requires IsRun(ws, cfg, evs) && cfg.segmentBytes > 0 && i < |evs| && evs[i].Killed?
    ensures ws[i + 1] == ws[i]
  {
    hide Inv, Enabled, Next;
    RunInv(ws, cfg, evs, i);
    KilledInv(ws[i], cfg, evs[i], ws[i + 1]);
  }

  /**
   A successful append takes a place on disk that no record had before, and the record
   is pending right away if and only if the segment it landed on had no torn tail.
   */
  lemma AppendedIff(ws: seq<World>, cfg: Config, evs: seq<Event>, i: nat)
    requires IsRun(ws, cfg, evs) && cfg.segmentBytes > 0 && i < |evs| && evs[i].AppendDone?
    ensures
      var e := NewEntry(ws[i].st, cfg, evs[i].p);
      && e !in ws[i].accepted + ws[i].delivered + ws[i].evicted
      && e in ws[i + 1].accepted
      && (e in View(ws[i + 1].st) <==> !LandsTorn(ws[i].st, cfg))
  {
    hide Inv, View, Frame, EvictCount, Roll, Lost, DropMany, LandsTorn, Evict, NewEntry, Behind, Anchored;
    RunInv(ws, cfg, evs, i);
    var w, p := ws[i], evs[i].p;
    var wr, e := Write(w.st, cfg, p), NewEntry(w.st, cfg, p);
    InvAnchored(w);
    InvBehind(w);
    EntryAtEnd(w.st, w.saved, cfg, p);
    WriteAnchored(w.st, w.saved, cfg, Frame(p));
    AnchoredSound(wr, w.saved);
    EvictIsDropMany(wr, cfg);
    DropManyView(wr, EvictCount(wr, cfg));
    EndsWithIn(View(wr), View(ws[i + 1].st));
    if e in View(wr) {
      LastSurvives(wr, EvictCount(wr, cfg), e);
    }
  }

  lemma InvBehind(w: World)
    requires Inv(w)
    ensures forall e :: e in w.accepted + w.delivered + w.evicted ==> Behind(e, w.st)
  {}

  lemma EndsWithIn<T>(s: seq<T>, t: seq<T>)
    requires EndsWith(s, t)
    ensures forall x :: x in t ==> x in s
  {
    assert s == s[..|s| - |t|] + t;
  }

  // ---- the exception is real ----

  lemma TornNotFramed(p: Bytes, k: nat)
    requires |p| < LIMIT && 0 < k < |Frame(p)|
    ensures !Framed(Frame(p)[..k])
  {
    hide Frame, Intact;
    TornFrameRejected(p, k);
  }

  function TornStore(p: Bytes, k: nat): Store
    requires |p| < LIMIT && k <= |Frame(p)|
  {
    Store(map[1 := Frame(p)[..k]], [1], 1, 0)
  }

  lemma TornKill(cfg: Config, p: Bytes, k: nat)
    requires cfg.segmentBytes > 0 && |p| < LIMIT && k < |Frame(p)|
    ensures
      var ev, w1 := AppendKilled(p, k, 0), FRESH.(st := TornStore(p, k));
      Enabled(FRESH, cfg, ev) && Next(FRESH, cfg, ev, w1)
  {
    hide Frame, View;
    var st := TornStore(p, k);
    var partial := Partial(FRESH.st, cfg, p, k);
    assert [] + Frame(p)[..k] == Frame(p)[..k];
    assert partial == st;
    assert partial.ids[..0] == [];
    MinusNothing(partial.files);
    assert Lost(partial, 0) == {};
  }

  /**
   Kill an append at any byte inside its frame, reopen, append again: the second append
   returns true and its record is nowhere. `open` does not cut the torn tail off.
   */
  lemma TornLandingLoses(cfg: Config, p: Bytes, q: Bytes, k: nat) returns (ws: seq<World>, evs: seq<Event>, e: Entry)
    requires |p| < LIMIT && |q| < LIMIT && 0 < k < |Frame(p)| && k < cfg.segmentBytes
    ensures IsRun(ws, cfg, evs) && |ws| == 3
    ensures e in ws[2].accepted && e.payload == q
    ensures e !in ws[2].delivered && e !in ws[2].evicted && e !in View(ws[2].st)
  {
    hide Frame, View, Framed, Inv;
    var w1 := FRESH.(st := TornStore(p, k));
    TornKill(cfg, p, k);
    var st2 := Append(w1.st, cfg, q);
    e := NewEntry(w1.st, cfg, q);
    var w2 := World(st2, Some(Cursor(st2.seg, st2.off)), {e}, {e}, {}, {});
    TornNotFramed(p, k);
    ws, evs := [FRESH, w1, w2], [AppendKilled(p, k, 0), AppendDone(q)];
    assert Roll(w1.st, cfg) == w1.st;
    assert Lost(Write(w1.st, cfg, q), 0) == {};
    assert Next(w1, cfg, evs[1], w2);
    assert IsRun(ws, cfg, evs);
    AppendedIff(ws, cfg, evs, 1);
  }
}
