/**
 The spool as a value: segment files, the ascending list of segment ids, and the
 read cursor. `View` is the queue a reader sees. `Commit`, `Write` and `Evict`
 are what the methods of class `Spool` do to it.
 */
module SegmentStore {
  import opened Crc
  import opened Frames

  type Files = map<nat, Bytes>

  datatype Store = Store(files: Files, ids: seq<nat>, seg: nat, off: nat)

  datatype Config = Config(maxBytes: nat, segmentBytes: nat)

  ghost predicate Ascending(ids: seq<nat>) {
    forall i, j :: 0 <= i < j < |ids| ==> ids[i] < ids[j]
  }

  /** The ids above `id`: what `upper_bound` leaves of an ascending list. */
  function After(ids: seq<nat>, id: nat): (r: seq<nat>)
    ensures |r| <= |ids| && r == ids[|ids| - |r|..]
  {
    if ids != [] && ids[0] <= id then After(ids[1..], id) else ids
  }

  function Without(ids: seq<nat>, id: nat): (r: seq<nat>)
    ensures |r| <= |ids| && id !in r
    ensures forall x :: x in r <==> x in ids && x != id
  {
    if ids == [] then []
    else if ids[0] == id then Without(ids[1..], id)
    else [ids[0]] + Without(ids[1..], id)
  }

  // ---- the queue ----

  /** The records of one segment from an offset on; a missing file has none. */
  function SegView(files: Files, id: nat, off: nat): seq<Entry> {
    if id in files then Parse(Tail(files[id], off), id, off) else []
  }

  function ViewFrom(files: Files, ids: seq<nat>): seq<Entry> {
    if ids == [] then [] else SegView(files, ids[0], 0) + ViewFrom(files, ids[1..])
  }

  function Current(st: Store): seq<Entry> {
    if st.seg in st.ids then SegView(st.files, st.seg, st.off) else []
  }

  /** The pending records, oldest first. */
  function View(st: Store): seq<Entry> {
    Current(st) + ViewFrom(st.files, After(st.ids, st.seg))
  }

  function Drop<T>(s: seq<T>, k: nat): seq<T> {
    if k <= |s| then s[k..] else []
  }

  function Take<T>(s: seq<T>, k: nat): seq<T> {
    if k <= |s| then s[..k] else s
  }

  predicate EndsWith<T(==)>(s: seq<T>, t: seq<T>) {
    |t| <= |s| && s[|s| - |t|..] == t
  }

  lemma EndsWithTransitive<T>(a: seq<T>, b: seq<T>, c: seq<T>)
    requires EndsWith(a, b) && EndsWith(b, c)
    ensures EndsWith(a, c)
  {
    assert a[|a| - |b|..][|b| - |c|..] == a[|a| - |c|..];
  }

  /** The id list names exactly the files, and the cursor stands in one of them. */
  ghost predicate Sound(st: Store) {
    && Ascending(st.ids)
    && (forall id :: id in st.ids <==> id in st.files)
    && (if st.ids == [] then st.seg == 1 && st.off == 0 else st.seg in st.ids)
  }

  // ---- commit ----

  datatype Walked = Walked(count: nat, bytes: nat)

  /** Up to `k` frames skipped by magic and length alone; a skip may pass the end of the file. */
  function Walk(t: Bytes, k: nat): (w: Walked)
    ensures w.count <= k
    decreases k
  {
    if k == 0 || !HasHeader(t) then Walked(0, 0)
    else
      var w := Walk(Tail(t, Span(t)), k - 1);
      Walked(w.count + 1, w.bytes + Span(t))
  }

  /** Result of a commit: the store, the segments deleted in order, the frames passed. */
  datatype Release = Release(st: Store, removed: seq<nat>, count: nat)

  function Commit(st: Store, k: nat): (r: Release)
    decreases |After(st.ids, st.seg)|
  {
    var next := After(st.ids, st.seg);
    if k == 0 || st.ids == [] then Release(st, [], 0)
    else if st.seg !in st.files then
      if next == [] then Release(st, [], 0)
      else
        AfterSplits(st.ids, st.seg);
        Commit(st.(seg := next[0], off := 0), k)
    else
      var w := Walk(Tail(st.files[st.seg], st.off), k);
      if w.count == k || w.count == 0 || next == [] then Release(Moved(st, w), [], w.count)
      else
        AfterSplits(st.ids, st.seg);
        WithoutAfter(st.ids, st.seg, next[0]);
        var rest := Commit(Retire(st, next[0]), k - w.count);
        Release(rest.st, [st.seg] + rest.removed, w.count + rest.count)
  }

  /** The segment under the cursor is deleted and the cursor moves to segment `next`. */
  function Retire(st: Store, next: nat): Store {
    Store(st.files - {st.seg}, Without(st.ids, st.seg), next, 0)
  }

  lemma {:induction false} AfterSplits(ids: seq<nat>, id: nat)
    requires After(ids, id) != []
    ensures After(ids, id)[0] > id
    ensures |After(ids, After(ids, id)[0])| < |After(ids, id)|
  {
    if ids[0] <= id {
      AfterSplits(ids[1..], id);
    }
  }

  lemma {:induction false} WithoutAfter(ids: seq<nat>, id: nat, n: nat)
    requires id < n
    ensures |After(Without(ids, id), n)| <= |After(ids, n)|
  {
    if ids != [] {
      WithoutAfter(ids[1..], id, n);
    }
  }

  // ---- facts about the id list ----

  lemma AscendingTail(ids: seq<nat>)
    requires Ascending(ids) && ids != []
    ensures Ascending(ids[1..]) && ids[0] !in ids[1..]
    ensures forall x :: x in ids <==> x == ids[0] || x in ids[1..]
    ensures forall x :: x in ids[1..] ==> x > ids[0]
  {
    assert ids == [ids[0]] + ids[1..];
  }

  lemma AscendingCons(x: nat, ids: seq<nat>)
    requires Ascending(ids) && forall y :: y in ids ==> x < y
    ensures Ascending([x] + ids)
  {
    var r := [x] + ids;
    forall i, j | 0 <= i < j < |r| ensures r[i] < r[j] {
      assert r[j] == ids[j - 1] && ids[j - 1] in ids;
      assert i > 0 ==> r[i] == ids[i - 1];
    }
  }

  lemma {:induction false} AfterOfAscending(ids: seq<nat>, id: nat)
    requires Ascending(ids)
    ensures Ascending(After(ids, id))
    ensures forall x :: x in After(ids, id) <==> x in ids && x > id
  {
    hide Ascending, After;
    if ids != [] {
      AscendingTail(ids);
    }
    if ids == [] || ids[0] > id {
      AfterAbove(ids, id);
    } else {
      AfterBelow(ids, id);
      AfterOfAscending(ids[1..], id);
    }
  }

  lemma {:induction false} AfterNext(ids: seq<nat>, id: nat)
    requires Ascending(ids) && After(ids, id) != []
    ensures After(ids, After(ids, id)[0]) == After(ids, id)[1..]
  {
    hide After, Ascending;
    if ids == [] || ids[0] > id {
      AfterAbove(ids, id);
      AscendingTail(ids);
      AfterBelow(ids, ids[0]);
      assert |ids| > 1 ==> ids[1..][0] in ids[1..];
      AfterAbove(ids[1..], ids[0]);
    } else {
      AscendingTail(ids);
      AfterBelow(ids, id);
      AfterNext(ids[1..], id);
      AfterOfAscending(ids[1..], id);
      assert After(ids, id)[0] in After(ids, id);
      AfterBelow(ids, After(ids, id)[0]);
    }
  }

  lemma AfterBelow(ids: seq<nat>, id: nat)
    requires ids != [] && ids[0] <= id
    ensures After(ids, id) == After(ids[1..], id)
  {}

  lemma AfterAbove(ids: seq<nat>, id: nat)
    requires ids == [] || ids[0] > id
    ensures After(ids, id) == ids
  {}

  lemma {:induction false} AscendingUnique(a: seq<nat>, b: seq<nat>)
    requires Ascending(a) && Ascending(b) && forall x :: x in a <==> x in b
    ensures a == b
  {
    assert b != [] ==> b[0] in b;
    if a != [] {
      assert a[0] in a;
      assert a[0] == b[0];
      var a', b' := a[1..], b[1..];
      assert forall x :: x in a' <==> x in a && x > a[0];
      assert forall x :: x in b' <==> x in b && x > b[0];
      AscendingUnique(a', b');
    }
  }

  lemma {:induction false} WithoutAscending(ids: seq<nat>, id: nat)
    requires Ascending(ids)
    ensures Ascending(Without(ids, id))
  {
    hide Ascending;
    if ids != [] {
      AscendingTail(ids);
      WithoutAscending(ids[1..], id);
      AscendingCons(ids[0], Without(ids[1..], id));
    }
  }

  lemma AfterWithout(ids: seq<nat>, id: nat, n: nat)
    requires Ascending(ids) && n > id
    ensures Ascending(Without(ids, id)) && After(Without(ids, id), n) == After(ids, n)
  {
    hide After, Without;
    WithoutAscending(ids, id);
    AfterOfAscending(Without(ids, id), n);
    AfterOfAscending(ids, n);
    AscendingUnique(After(Without(ids, id), n), After(ids, n));
  }

  /** The files of other segments do not matter to a view. */
  lemma {:induction false} ViewFromFiles(files: Files, files': Files, ids: seq<nat>)
    requires forall id :: id in ids ==> (id in files <==> id in files') && (id in files ==> files[id] == files'[id])
    ensures ViewFrom(files, ids) == ViewFrom(files', ids)
  {
    if ids != [] {
      assert ids[0] in ids;
      ViewFromFiles(files, files', ids[1..]);
    }
  }

  /** A store whose cursor stands at the start of its next segment shows exactly what follows. */
  lemma ViewAtNext(st: Store, next: nat)
    requires Ascending(st.ids) && After(st.ids, st.seg) != [] && next == After(st.ids, st.seg)[0]
    ensures View(st.(seg := next, off := 0)) == ViewFrom(st.files, After(st.ids, st.seg))
    ensures View(Retire(st, next)) == ViewFrom(st.files, After(st.ids, st.seg))
    ensures Ascending(Without(st.ids, st.seg)) && After(Without(st.ids, st.seg), next) == After(st.ids, st.seg)[1..]
  {
    hide SegView, After, Without;
    var after := After(st.ids, st.seg);
    AfterNext(st.ids, st.seg);
    AfterOfAscending(st.ids, st.seg);
    assert next in after;
    AfterWithout(st.ids, st.seg, next);
    ViewFromFiles(st.files, st.files - {st.seg}, after);
    ViewFromFiles(st.files, st.files - {st.seg}, after[1..]);
  }

  // ---- the walk of commit against the walk of peek ----

  lemma WalkParts(t: Bytes, k: nat)
    ensures
      if k == 0 || !HasHeader(t) then Walk(t, k) == Walked(0, 0)
      else
        var w := Walk(Tail(t, Span(t)), k - 1);
        Walk(t, k) == Walked(w.count + 1, w.bytes + Span(t))
  {
    hide HasHeader, Span, Tail;
  }

  /** Commit skips every frame that peek accepts, so it never stops short of one. */
  lemma {:induction false} WalkCovers(t: Bytes, k: nat, seg: nat, off: nat)
    ensures
      var w, es := Walk(t, k), Parse(t, seg, off);
      && (w.count < k ==> |es| <= w.count)
      && (w.count <= |es| ==> Parse(Tail(t, w.bytes), seg, off + w.bytes) == es[w.count..])
    decreases k
  {
    hide Intact, HasHeader, Span, Parse, Walk;
    WalkParts(t, k);
    if k == 0 || !HasHeader(t) {
      assert Tail(t, 0) == t;
      ParseFront(t, seg, off);
    } else {
      var n := Span(t);
      WalkCovers(Tail(t, n), k - 1, seg, off + n);
      TailTail(t, n, Walk(Tail(t, n), k - 1).bytes);
      ParseFront(t, seg, off);
    }
  }

  lemma ParseFront(t: Bytes, seg: nat, off: nat)
    ensures
      if Intact(t) then
        && HasHeader(t)
        && Parse(t, seg, off) == [Entry(seg, off, t[HEADER..Span(t)])] + Parse(Tail(t, Span(t)), seg, off + Span(t))
      else Parse(t, seg, off) == []
  {
    hide Intact, HasHeader, Span;
    assert Intact(t) ==> Tail(t, Span(t)) == t[Span(t)..];
  }

  /** Over records peek accepts, the walk follows the chain of frames exactly. */
  lemma {:induction false} WalkOnChain(s: Bytes, off: nat, k: nat, seg: nat)
    requires OnChain(s, off) && off <= |s| && k <= |Parse(s[off..], seg, off)|
    ensures Walk(s[off..], k).count == k
    ensures OnChain(s, off + Walk(s[off..], k).bytes) && off + Walk(s[off..], k).bytes <= |s|
    decreases k
  {
    hide Intact, HasHeader, Span, OnChain;
    if k > 0 {
      var t := s[off..];
      assert Intact(t);
      OnChainStep(s, off);
      assert Tail(t, Span(t)) == t[Span(t)..] == s[off + Span(t)..];
      WalkOnChain(s, off + Span(t), k - 1, seg);
    }
  }

  // ---- commit is safe on any disk ----

  lemma DropOfSuffix<T>(cur: seq<T>, rest: seq<T>, k: nat, m: nat)
    requires |cur| <= m <= k
    ensures EndsWith(Drop(rest, k - m), Drop(cur + rest, k))
  {}

  /** The cursor after walking inside its segment. */
  function Moved(st: Store, w: Walked): Store { st.(off := st.off + w.bytes) }

  lemma MovedView(st: Store, k: nat)
    requires st.seg in st.files
    ensures
      var w := Walk(Tail(st.files[st.seg], st.off), k);
      && (w.count < k ==> |Current(st)| <= w.count)
      && (w.count <= |Current(st)| ==> Current(Moved(st, w)) == Current(st)[w.count..])
  {
    hide Parse, Tail, Walk;
    var t := Tail(st.files[st.seg], st.off);
    WalkCovers(t, k, st.seg, st.off);
    TailTail(st.files[st.seg], st.off, Walk(t, k).bytes);
  }

  lemma MovedSafe(st: Store, k: nat, w: Walked)
    requires st.seg in st.files && w == Walk(Tail(st.files[st.seg], st.off), k)
    requires w.count == k || w.count == 0 || After(st.ids, st.seg) == []
    ensures EndsWith(View(Moved(st, w)), Drop(View(st), k))
  {
    hide After, Walk, Tail, Current, ViewFrom;
    MovedView(st, k);
    var cur, rest := Current(st), ViewFrom(st.files, After(st.ids, st.seg));
    assert View(Moved(st, w)) == Current(Moved(st, w)) + rest;
    if k <= |cur| {
      assert Drop(cur + rest, k) == cur[k..] + rest;
    } else {
      DropOfSuffix(cur, rest, k, |cur|);
    }
  }

  lemma DropEnds<T>(s: seq<T>, k: nat)
    ensures EndsWith(s, Drop(s, k))
  {}

  lemma MissingView(st: Store)
    requires st.seg !in st.files
    ensures View(st) == ViewFrom(st.files, After(st.ids, st.seg))
  {}

  lemma RetiredSafe(st: Store, k: nat, w: Walked, next: nat, end: seq<Entry>)
    requires Ascending(st.ids) && st.seg in st.files && w == Walk(Tail(st.files[st.seg], st.off), k)
    requires w.count < k && After(st.ids, st.seg) != [] && next == After(st.ids, st.seg)[0]
    requires EndsWith(end, Drop(View(Retire(st, next)), k - w.count))
    ensures EndsWith(end, Drop(View(st), k))
  {
    hide After, Walk, Tail, Current, ViewFrom, EndsWith, Retire;
    ViewAtNext(st, next);
    MovedView(st, k);
    var rest := ViewFrom(st.files, After(st.ids, st.seg));
    DropOfSuffix(Current(st), rest, k, w.count);
    EndsWithTransitive(end, Drop(rest, k - w.count), Drop(View(st), k));
  }

  /**
   For any files whatever, damaged or not, and any count: what `peek` would have
   returned behind the first `k` records is still there, in order, at the end.
   */
  lemma {:induction false} CommitSafe(st: Store, k: nat)
    requires Ascending(st.ids)
    ensures EndsWith(View(Commit(st, k).st), Drop(View(st), k))
    decreases |After(st.ids, st.seg)|
  {
    hide After, Walk, Tail, View, ViewFrom, Without, EndsWith, Drop;
    var next := After(st.ids, st.seg);
    if k == 0 || st.ids == [] {
      DropEnds(View(st), k);
    } else if st.seg !in st.files {
      if next == [] {
        DropEnds(View(st), k);
      } else {
        AfterSplits(st.ids, st.seg);
        ViewAtNext(st, next[0]);
        MissingView(st);
        CommitSafe(st.(seg := next[0], off := 0), k);
      }
    } else {
      var w := Walk(Tail(st.files[st.seg], st.off), k);
      if w.count == k || w.count == 0 || next == [] {
        MovedSafe(st, k, w);
      } else {
        AfterSplits(st.ids, st.seg);
        WithoutAfter(st.ids, st.seg, next[0]);
        ViewAtNext(st, next[0]);
        CommitSafe(Retire(st, next[0]), k - w.count);
        RetiredSafe(st, k, w, next[0], View(Commit(st, k).st));
      }
    }
  }

  lemma {:induction false} CommitAscending(st: Store, k: nat)
    requires Ascending(st.ids)
    ensures Ascending(Commit(st, k).st.ids)
    decreases |After(st.ids, st.seg)|
  {
    hide After, Walk, Tail, Without, Ascending;
    var next := After(st.ids, st.seg);
    if k > 0 && st.ids != [] && next != [] {
      AfterSplits(st.ids, st.seg);
      if st.seg !in st.files {
        CommitAscending(st.(seg := next[0], off := 0), k);
      } else {
        var w := Walk(Tail(st.files[st.seg], st.off), k);
        if w.count != k && w.count != 0 {
          WithoutAfter(st.ids, st.seg, next[0]);
          WithoutAscending(st.ids, st.seg);
          CommitAscending(Retire(st, next[0]), k - w.count);
        }
      }
    }
  }

  // ---- append ----

  /** The id list once `append` has picked its segment, which is the last of the list. */
  function Rolled(st: Store, cfg: Config): (ids: seq<nat>)
    ensures ids != []
  {
    var ids := if st.ids == [] then [1] else st.ids;
    var last := ids[|ids| - 1];
    if Size(st.files, last) >= cfg.segmentBytes then ids + [last + 1] else ids
  }

  function Size(files: Files, id: nat): nat {
    if id in files then |files[id]| else 0
  }

  function Last(ids: seq<nat>): nat
    requires ids != []
  {
    ids[|ids| - 1]
  }

  function Content(files: Files, id: nat): Bytes {
    if id in files then files[id] else []
  }

  /** The segment to append to is picked and its file exists. */
  function Roll(st: Store, cfg: Config): (r: Store)
    ensures r.ids != []
  {
    var ids := Rolled(st, cfg);
    st.(ids := ids, files := st.files[Last(ids) := Content(st.files, Last(ids))])
  }

  /** Bytes are added to the last segment. */
  function WriteTo(st: Store, data: Bytes): Store
    requires st.ids != []
  {
    var last := Last(st.ids);
    st.(files := st.files[last := Content(st.files, last) + data])
  }

  /** The frame is written; nothing has been evicted yet. */
  function Write(st: Store, cfg: Config, p: Bytes): Store
    requires |p| < LIMIT
  {
    WriteTo(Roll(st, cfg), Frame(p))
  }

  /**
   Where a record lands: behind the last segment's bytes while that file is shorter than a full
   segment, else in a segment of the next number; the first segment is number 1. Cursor and all
   other files stay as they are.
   */
  lemma WriteLands(st: Store, cfg: Config, p: Bytes)
    requires |p| < LIMIT
    ensures
      var r := Write(st, cfg, p);
      var ids := if st.ids == [] then [1] else st.ids;
      var last := ids[|ids| - 1];
      var full := (last in st.files && |st.files[last]| >= cfg.segmentBytes) || cfg.segmentBytes == 0;
      var at := if full then last + 1 else last;
      && r.ids == (if full then ids + [last + 1] else ids)
      && r.files == st.files[at := (if at in st.files then st.files[at] else []) + Frame(p)]
      && r.seg == st.seg && r.off == st.off
  {
    hide Frame;
  }

  function Total(files: Files, ids: seq<nat>): nat {
    if ids == [] then 0 else Size(files, ids[0]) + Total(files, ids[1..])
  }

  /** The oldest segment is deleted, and the cursor with it if it stood there. */
  function DropOldest(st: Store): Store
    requires |st.ids| > 1
  {
    var st' := st.(files := st.files - {st.ids[0]}, ids := st.ids[1..]);
    if st.seg <= st.ids[0] then st'.(seg := st.ids[1], off := 0) else st'
  }

  predicate OverBudget(st: Store, cfg: Config) {
    Total(st.files, st.ids) > cfg.maxBytes && |st.ids| > 1
  }

  function Evict(st: Store, cfg: Config): Store
    decreases |st.ids|
  {
    if OverBudget(st, cfg) then Evict(DropOldest(st), cfg) else st
  }

  function Append(st: Store, cfg: Config, p: Bytes): Store
    requires |p| < LIMIT
  {
    Evict(Write(st, cfg, p), cfg)
  }

  /** The store after the first `n` evictions. */
  function DropMany(st: Store, n: nat): Store
    requires n < |st.ids| || n == 0
    decreases n
  {
    if n == 0 then st else DropMany(DropOldest(st), n - 1)
  }

  function EvictCount(st: Store, cfg: Config): (n: nat)
    ensures n < |st.ids| || n == 0
    decreases |st.ids|
  {
    if OverBudget(st, cfg) then 1 + EvictCount(DropOldest(st), cfg) else 0
  }

  lemma {:induction false} EvictIsDropMany(st: Store, cfg: Config)
    ensures Evict(st, cfg) == DropMany(st, EvictCount(st, cfg))
    decreases |st.ids|
  {
    hide Total;
    if OverBudget(st, cfg) {
      EvictIsDropMany(DropOldest(st), cfg);
    }
  }

  /** A store with its cursor at the start of its first segment shows all segments. */
  lemma ViewFromStart(st: Store)
    requires Ascending(st.ids) && st.ids != [] && st.seg == st.ids[0] && st.off == 0
    ensures View(st) == ViewFrom(st.files, st.ids)
  {
    hide SegView, After;
    AfterHead(st.ids);
  }

  lemma ViewFromMinus(files: Files, v: nat, ids: seq<nat>)
    requires v !in ids
    ensures ViewFrom(files - {v}, ids) == ViewFrom(files, ids)
  {
    hide ViewFrom;
    ViewFromFiles(files, files - {v}, ids);
  }

  lemma DropAtCursor(st: Store)
    requires Ascending(st.ids) && |st.ids| > 1 && st.seg <= st.ids[0]
    ensures View(DropOldest(st)) == ViewFrom(st.files, st.ids[1..])
    ensures
      var front := SegView(st.files, st.ids[0], if st.seg == st.ids[0] then st.off else 0);
      View(st) == front + ViewFrom(st.files, st.ids[1..])
  {
    hide SegView, After, Ascending;
    AscendingTail(st.ids);
    AfterHead(st.ids);
    ViewFromMinus(st.files, st.ids[0], st.ids[1..]);
    ViewFromStart(DropOldest(st));
  }

  lemma DropBehindCursor(st: Store)
    requires Ascending(st.ids) && |st.ids| > 1 && st.seg > st.ids[0]
    ensures View(DropOldest(st)) == View(st)
  {
    hide SegView, Ascending, ViewFrom, After;
    AscendingTail(st.ids);
    AfterOfAscending(st.ids[1..], st.seg);
    AfterSkips(st.ids, st.seg);
    ViewFromMinus(st.files, st.ids[0], After(st.ids[1..], st.seg));
    SegViewFiles(st.files, st.files - {st.ids[0]}, st.seg, st.off);
  }

  lemma AfterSkips(ids: seq<nat>, id: nat)
    requires ids != [] && ids[0] < id
    ensures After(ids, id) == After(ids[1..], id) && (id in ids <==> id in ids[1..])
  {
    assert ids == [ids[0]] + ids[1..];
  }

  /** Deleting the oldest segment takes exactly its records off the front of the queue. */
  lemma DropOldestView(st: Store)
    requires Ascending(st.ids) && |st.ids| > 1
    ensures Ascending(DropOldest(st).ids)
    ensures EndsWith(View(st), View(DropOldest(st)))
    ensures forall e :: e in View(st) ==> e in View(DropOldest(st)) || e.seg == st.ids[0]
  {
    hide View, SegView;
    if st.seg <= st.ids[0] {
      DropAtCursor(st);
      SegViewSeg(st.files, st.ids[0], if st.seg == st.ids[0] then st.off else 0);
    } else {
      DropBehindCursor(st);
    }
  }

  lemma SegViewFiles(files: Files, files': Files, id: nat, off: nat)
    requires (id in files <==> id in files') && (id in files ==> files[id] == files'[id])
    ensures SegView(files, id, off) == SegView(files', id, off)
  {}

  lemma SegViewSeg(files: Files, id: nat, off: nat)
    ensures forall e :: e in SegView(files, id, off) ==> e.seg == id
  {
    if id in files { ParseRange(Tail(files[id], off), id, off); }
  }

  lemma AfterHead(ids: seq<nat>)
    requires Ascending(ids) && ids != []
    ensures After(ids, ids[0]) == ids[1..]
    ensures forall n :: n < ids[0] ==> After(ids, n) == ids
  {
    assert ids[1..] != [] ==> ids[1] > ids[0];
  }

  /** After eviction at most the budget is left on disk, or a single segment. */
  lemma {:induction false} EvictBounds(st: Store, cfg: Config)
    ensures
      var r := Evict(st, cfg);
      Total(r.files, r.ids) <= cfg.maxBytes || |r.ids| <= 1
    decreases |st.ids|
  {
    hide Total;
    if OverBudget(st, cfg) {
      EvictBounds(DropOldest(st), cfg);
    }
  }

  /** No eviction is needless: before each one the budget was exceeded and another segment was there. */
  lemma {:induction false} EvictNeeded(st: Store, cfg: Config, n: nat)
    requires n < EvictCount(st, cfg)
    ensures
      var r := DropMany(st, n);
      Total(r.files, r.ids) > cfg.maxBytes && |r.ids| > 1
    decreases n
  {
    hide Total;
    if n > 0 {
      EvictNeeded(DropOldest(st), cfg, n - 1);
    }
  }

  /** The total is the sum of the sizes of the files there are. */
  lemma {:induction false} TotalSplits(files: Files, a: seq<nat>, b: seq<nat>, id: nat)
    ensures Total(files, a + b) == Total(files, a) + Total(files, b)
    ensures Total(files, []) == 0 && Total(files, [id]) == if id in files then |files[id]| else 0
  {
    if a == [] {
      assert a + b == b;
    } else {
      assert (a + b)[1..] == a[1..] + b;
      TotalSplits(files, a[1..], b, id);
    }
  }

  /** Eviction is oldest first: the survivors are a suffix of the queue. */
  lemma {:induction false} DropManyView(st: Store, n: nat)
    requires Ascending(st.ids) && (n < |st.ids| || n == 0)
    ensures Ascending(DropMany(st, n).ids) && DropMany(st, n).ids == st.ids[n..]
    ensures EndsWith(View(st), View(DropMany(st, n)))
    ensures forall e :: e in View(st) ==> e in View(DropMany(st, n)) || e.seg in st.ids[..n]
    decreases n
  {
    hide View;
    if n > 0 {
      DropOldestView(st);
      DropManyView(DropOldest(st), n - 1);
      assert st.ids[1..][n - 1..] == st.ids[n..];
      assert st.ids[..n] == [st.ids[0]] + st.ids[1..][..n - 1];
      EndsWithTransitive(View(st), View(DropOldest(st)), View(DropMany(st, n)));
    }
  }

  /** A record of the last segment outlives every eviction. */
  lemma LastSurvives(st: Store, n: nat, e: Entry)
    requires Ascending(st.ids) && n < |st.ids|
    requires e in View(st) && e.seg == Last(st.ids)
    ensures e in View(DropMany(st, n))
  {
    hide View, DropMany;
    DropManyView(st, n);
  }
}
