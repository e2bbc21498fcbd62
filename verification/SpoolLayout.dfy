/**
 The layout of a spool: what `commit` can skip and what `peek` can read, segment by segment.
 On any disk, `commit` does to the spool what `Cut` does to its layout, and that settles when a
 commit changes nothing and when it releases exactly what was asked for.
 */
module SpoolLayouts {
  import opened Crc
  import opened Frames
  import opened SegmentStore
  import opened Fifo
  import opened Layouts

  /** Readable records after skipping 0, 1, 2, ... frames of `t`. */
  function Counts(t: Bytes): Segment
    decreases |t|
  {
    [|Parse(t, 0, 0)|] + if HasHeader(t) then Counts(Tail(t, Span(t))) else []
  }

  function LayoutFrom(files: Files, ids: seq<nat>): Layout {
    if ids == [] then [] else [Counts(Content(files, ids[0]))] + LayoutFrom(files, ids[1..])
  }

  function LayoutOf(st: Store): Layout {
    if st.ids == [] then []
    else [Counts(Tail(Content(st.files, st.seg), st.off))] + LayoutFrom(st.files, After(st.ids, st.seg))
  }

  // ---- counting ----

  lemma {:induction false} ParseLength(t: Bytes, seg: nat, off: nat)
    ensures |Parse(t, seg, off)| == |Parse(t, 0, 0)|
    decreases |t|
  {
    ParseLengths(t, seg, off, 0, 0);
  }

  lemma {:induction false} ParseLengths(t: Bytes, seg: nat, off: nat, seg': nat, off': nat)
    ensures |Parse(t, seg, off)| == |Parse(t, seg', off')|
    decreases |t|
  {
    hide Intact, HasHeader, Span;
    if Intact(t) {
      ParseLengths(t[Span(t)..], seg, off + Span(t), seg', off' + Span(t));
    }
  }

  lemma {:induction false} CountsConsistent(t: Bytes)
    ensures Consistent(Counts(t))
    decreases |t|
  {
    hide Intact, HasHeader, Span, Parse, Consistent, Counts;
    ParseFront(t, 0, 0);
    CountsParts(t);
    if HasHeader(t) {
      var rest := Tail(t, Span(t));
      CountsConsistent(rest);
      CountsFront(rest);
      ParseLength(rest, 0, Span(t));
      ConsCounts(|Parse(t, 0, 0)|, Counts(rest));
    } else {
      assert Counts(t) == [0] by { CountsFront(t); }
      NoCounts();
    }
  }

  lemma NoCounts()
    ensures Consistent([0])
  {}

  lemma ConsCounts(n: nat, q: Segment)
    requires Consistent(q) && (n > 0 ==> q[0] == n - 1)
    ensures Consistent([n] + q)
  {
    var r: Segment := [n] + q;
    forall j | 0 <= j < |r| - 1 && r[j] > 0 ensures r[j + 1] == r[j] - 1 {
      assert j > 0 ==> r[j] == q[j - 1] && r[j + 1] == q[j];
    }
  }

  /** Skipping frames drops entries of the table. */
  lemma {:induction false} WalkCounts(t: Bytes, k: nat)
    ensures
      var w, q := Walk(t, k), Counts(t);
      && w.count == (if k < Skips(q) then k else Skips(q))
      && Counts(Tail(t, w.bytes)) == q[w.count..]
    decreases k
  {
    hide HasHeader, Span, Parse, Counts, Walk, Tail;
    CountsParts(t);
    WalkParts(t, k);
    if k > 0 && HasHeader(t) {
      var rest := Tail(t, Span(t));
      WalkCounts(rest, k - 1);
      TailTail(t, Span(t), Walk(rest, k - 1).bytes);
      DropFirst(|Parse(t, 0, 0)|, Counts(rest), Walk(rest, k - 1).count);
    }
  }

  lemma CountsParts(t: Bytes)
    ensures Counts(t) == [|Parse(t, 0, 0)|] + if HasHeader(t) then Counts(Tail(t, Span(t))) else []
    ensures Tail(t, 0) == t
  {
    hide HasHeader, Span, Parse;
  }

  lemma DropFirst(n: nat, q: Segment, c: nat)
    requires c < |q|
    ensures ([n] + q)[c + 1..] == q[c..]
  {}

  lemma {:induction false} LayoutFromValid(files: Files, ids: seq<nat>)
    ensures Valid(LayoutFrom(files, ids))
  {
    hide Counts, Consistent;
    if ids != [] {
      CountsConsistent(Content(files, ids[0]));
      LayoutFromValid(files, ids[1..]);
    }
  }

  lemma LayoutValid(st: Store)
    ensures Valid(LayoutOf(st))
  {
    hide Counts, LayoutFrom, After, Consistent;
    CountsConsistent(Tail(Content(st.files, st.seg), st.off));
    LayoutFromValid(st.files, After(st.ids, st.seg));
  }

  lemma {:induction false} QueueFrom(files: Files, ids: seq<nat>)
    ensures Queue(LayoutFrom(files, ids)) == |ViewFrom(files, ids)|
  {
    hide Parse;
    if ids != [] {
      var t := Content(files, ids[0]);
      assert Tail(t, 0) == t;
      ParseLength(t, ids[0], 0);
      NothingToParse();
      QueueFrom(files, ids[1..]);
      assert LayoutFrom(files, ids)[1..] == LayoutFrom(files, ids[1..]);
    }
  }

  lemma NothingToParse()
    ensures Parse([], 0, 0) == []
  {}

  /** The queue of the layout is as long as the queue of the spool. */
  lemma LayoutQueue(st: Store)
    requires Sound(st)
    ensures Queue(LayoutOf(st)) == |View(st)|
  {
    hide Parse, After, Ascending, LayoutFrom, ViewFrom, Counts;
    if st.ids == [] {
      CommitNothing(st, 0);
    } else {
      var t := Tail(st.files[st.seg], st.off);
      var qs := LayoutOf(st);
      CountsFront(t);
      ParseLength(t, st.seg, st.off);
      QueueFrom(st.files, After(st.ids, st.seg));
      assert qs[1..] == LayoutFrom(st.files, After(st.ids, st.seg));
    }
  }

  lemma NoneAfter(id: nat)
    ensures After([], id) == []
  {}

  lemma CountsFront(t: Bytes)
    ensures Counts(t)[0] == |Parse(t, 0, 0)| && (Skips(Counts(t)) == 0 <==> !HasHeader(t))
  {
    hide Parse, HasHeader;
  }

  // ---- commit on the layout ----

  lemma {:induction false} LayoutFiles(files: Files, v: nat, ids: seq<nat>)
    requires v !in ids
    ensures LayoutFrom(files - {v}, ids) == LayoutFrom(files, ids)
  {
    hide Counts;
    if ids != [] {
      assert ids[0] in ids;
      LayoutFiles(files, v, ids[1..]);
    }
  }

  lemma RetireSound(st: Store, next: nat)
    requires Sound(st) && After(st.ids, st.seg) != [] && next == After(st.ids, st.seg)[0]
    ensures Sound(Retire(st, next)) && Retire(st, next).ids != []
  {
    hide Ascending, Without, After;
    NextAfter(st.ids, st.seg);
    AfterWithout(st.ids, st.seg, next);
    assert next in Retire(st, next).ids;
  }

  lemma RetireLayout(st: Store, next: nat)
    requires Sound(st) && After(st.ids, st.seg) != [] && next == After(st.ids, st.seg)[0]
    ensures LayoutOf(Retire(st, next)) == LayoutFrom(st.files, After(st.ids, st.seg))
  {
    hide Ascending, Without, After, Counts;
    var st', after := Retire(st, next), After(st.ids, st.seg);
    RetireSound(st, next);
    ViewAtNext(st, next);
    AfterOfAscending(st.ids, st.seg);
    LayoutFiles(st.files, st.seg, after);
    assert Tail(Content(st'.files, next), 0) == Content(st'.files, next);
    assert LayoutFrom(st'.files, after) == [Counts(Content(st'.files, next))] + LayoutFrom(st'.files, after[1..]);
  }

  lemma MovedLayout(st: Store, k: nat)
    requires Sound(st) && st.ids != []
    ensures
      var t := Tail(st.files[st.seg], st.off);
      var w := Walk(t, k);
      && Sound(Moved(st, w))
      && LayoutOf(Moved(st, w)) == [Counts(Tail(t, w.bytes))] + LayoutFrom(st.files, After(st.ids, st.seg))
  {
    hide Ascending, After, Counts, LayoutFrom, Walk, Tail;
    var t := Tail(st.files[st.seg], st.off);
    TailTail(st.files[st.seg], st.off, Walk(t, k).bytes);
  }

  /** On any disk, `commit` does to the spool what `Cut` does to its layout. */
  lemma {:induction false} CommitLayout(st: Store, k: nat)
    requires Sound(st)
    ensures
      var r := Commit(st, k);
      Sound(r.st) && LayoutOf(r.st) == Cut(LayoutOf(st), k) && r.count == Passed(LayoutOf(st), k)
    decreases |After(st.ids, st.seg)|
  {
    hide After, Counts, LayoutFrom, Walk, Tail, Without, LayoutOf, Sound, Cut, Passed, Commit, Retire;
    SoundCursor(st);
    LayoutParts(st);
    CutParts(LayoutOf(st), k);
    if k == 0 || st.ids == [] {
      CommitNothing(st, k);
    } else {
      var next, t := After(st.ids, st.seg), Tail(st.files[st.seg], st.off);
      var w := Walk(t, k);
      WalkCounts(t, k);
      CommitParts(st, k);
      if w.count == k || w.count == 0 || next == [] {
        MovedLayout(st, k);
      } else {
        RetireSound(st, next[0]);
        RetireLayout(st, next[0]);
        CommitLayout(Retire(st, next[0]), k - w.count);
      }
    }
  }

  lemma CutParts(qs: Layout, k: nat)
    ensures k == 0 || qs == [] ==> Cut(qs, k) == qs && Passed(qs, k) == 0
    ensures
      k > 0 && qs != [] ==>
        var n := Skips(qs[0]);
        var m := if k < n then k else n;
        if m == k || m == 0 || |qs| == 1 then Cut(qs, k) == [qs[0][m..]] + qs[1..] && Passed(qs, k) == m
        else Cut(qs, k) == Cut(qs[1..], k - m) && Passed(qs, k) == m + Passed(qs[1..], k - m)
  {}

  lemma CommitParts(st: Store, k: nat)
    requires k > 0 && st.ids != [] && st.seg in st.files
    ensures
      var w, next := Walk(Tail(st.files[st.seg], st.off), k), After(st.ids, st.seg);
      if w.count == k || w.count == 0 || next == [] then Commit(st, k) == Release(Moved(st, w), [], w.count)
      else
        var st' := Retire(st, next[0]);
        && |After(st'.ids, st'.seg)| < |next|
        && Commit(st, k).st == Commit(st', k - w.count).st
        && Commit(st, k).count == w.count + Commit(st', k - w.count).count
  {
    hide After, Walk, Tail, Without;
    var next := After(st.ids, st.seg);
    if next != [] {
      AfterSplits(st.ids, st.seg);
      WithoutAfter(st.ids, st.seg, next[0]);
    }
  }

  lemma SoundCursor(st: Store)
    requires Sound(st)
    ensures Ascending(st.ids) && (st.ids != [] ==> st.seg in st.files && st.seg in st.ids)
  {}

  lemma LayoutParts(st: Store)
    requires st.ids != [] ==> st.seg in st.files
    ensures st.ids == [] ==> LayoutOf(st) == []
    ensures
      st.ids != [] ==>
        var qs := LayoutOf(st);
        && qs != [] && qs[0] == Counts(Tail(st.files[st.seg], st.off))
        && qs[1..] == LayoutFrom(st.files, After(st.ids, st.seg))
        && (|qs| > 1 <==> After(st.ids, st.seg) != [])
  {
    hide After, Counts, Tail;
  }

  // ---- when a commit does nothing, and when it does what was asked ----

  lemma {:induction false} CommitNeverBack(st: Store, k: nat)
    ensures Commit(st, k).st.seg >= st.seg
    decreases |After(st.ids, st.seg)|
  {
    hide After, Walk, Tail, Without;
    var next := After(st.ids, st.seg);
    if k > 0 && st.ids != [] && next != [] {
      AfterSplits(st.ids, st.seg);
      if st.seg !in st.files {
        CommitNeverBack(st.(seg := next[0], off := 0), k);
      } else {
        var w := Walk(Tail(st.files[st.seg], st.off), k);
        if w.count != k && w.count != 0 {
          WithoutAfter(st.ids, st.seg, next[0]);
          CommitNeverBack(Retire(st, next[0]), k - w.count);
        }
      }
    }
  }

  /**
   On any disk, with a later segment, `commit` changes nothing exactly when no frame header
   stands at the cursor.
   */
  lemma CommitIdleIff(st: Store, k: nat)
    requires k > 0 && After(st.ids, st.seg) != []
    ensures Commit(st, k) == Release(st, [], 0) <==> st.seg in st.files && !HasHeader(Tail(st.files[st.seg], st.off))
  {
    hide After, Tail, HasHeader, Without;
    var next := After(st.ids, st.seg);
    AfterSplits(st.ids, st.seg);
    assert st.ids != [] by { NoneAfter(st.seg); }
    if st.seg !in st.files {
      CommitNeverBack(st.(seg := next[0], off := 0), k);
    } else {
      WithoutAfter(st.ids, st.seg, next[0]);
      assert HasHeader(Tail(st.files[st.seg], st.off)) <==> Walk(Tail(st.files[st.seg], st.off), k).count > 0;
    }
  }

  /** On a well-framed spool that place is the end of a segment that is not the last. */
  lemma ParkedIff(st: Store)
    requires WellFramed(st) && After(st.ids, st.seg) != []
    ensures Parked(st) <==> !HasHeader(Tail(st.files[st.seg], st.off))
  {
    hide After, Tail, HasHeader, Commit, WellFramed, Parked, View;
    WellFramedCursor(st);
    if Parked(st) {
      CommitParked(st, 1);
    } else {
      CommitIdleIff(st, 1);
      NotParkedMoves(st);
    }
    CommitIdleIff(st, 1);
  }

  lemma WellFramedCursor(st: Store)
    requires WellFramed(st) && After(st.ids, st.seg) != []
    ensures st.ids != [] && st.seg in st.files
  {}

  lemma NotParkedMoves(st: Store)
    requires WellFramed(st) && !Parked(st) && After(st.ids, st.seg) != []
    ensures Commit(st, 1).count == 1
  {
    hide After, Commit, WellFramed, Framed, OnChain, Current;
    WellFramedCursor(st);
    CursorFramed(st);
    assert 1 <= |Current(st)|;
    CommitMoves(st, 1);
  }

  /** On any disk, `commit(k)` releases exactly the first `k` records if and only if the frames it skips are records. */
  lemma CommitReleasesIff(st: Store, k: nat)
    requires Sound(st) && k <= |View(st)|
    ensures View(Commit(st, k).st) == View(st)[k..] <==> Clean(LayoutOf(st), k)
  {
    hide View, Commit, LayoutOf, Clean, Ascending;
    var st' := Commit(st, k).st;
    CommitSafe(st, k);
    CommitLayout(st, k);
    LayoutQueue(st);
    LayoutQueue(st');
    LayoutValid(st);
    CleanIff(LayoutOf(st), k);
    assert View(st')[|View(st')| - |View(st)[k..]|..] == View(st)[k..];
  }

  /** The pending counter stays right exactly when every frame the commit skips is a record. */
  lemma CommitCountsIff(st: Store, k: nat)
    requires Sound(st) && k <= |View(st)|
    ensures
      var r := Commit(st, k);
      && r.count <= k
      && (|View(r.st)| == |View(st)| - r.count <==> Exact(LayoutOf(st), k))
  {
    hide View, Commit, LayoutOf, Exact;
    CommitLayout(st, k);
    LayoutQueue(st);
    LayoutQueue(Commit(st, k).st);
    LayoutValid(st);
    CutCounts(LayoutOf(st), k);
  }
}
