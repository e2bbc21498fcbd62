/**
 The well-framed spool as a first-in first-out queue: `commit(k)` takes exactly `k` records
 off the front unless the cursor is parked at the end of a segment that is not the last. What
 `commit` does on any other disk is in SpoolLayout.
 */
module Fifo {
  import opened Crc
  import opened Frames
  import opened SegmentStore

  /** Every byte belongs to a record, and the cursor stands between two of them. */
  ghost predicate WellFramed(st: Store) {
    && Sound(st)
    && (forall id :: id in st.files ==> Framed(st.files[id]))
    && (forall a, b :: a in st.files && b in st.files && a < b ==> st.files[a] != [])
    && (st.ids != [] ==> OnChain(st.files[st.seg], st.off))
  }

  /** The cursor has read its segment to the end, and a later segment exists. */
  predicate Parked(st: Store) {
    st.seg in st.files && st.off == |st.files[st.seg]| && After(st.ids, st.seg) != []
  }

  // ---- walking framed bytes ----

  lemma FramedEmpty(t: Bytes, seg: nat, off: nat)
    requires Framed(t)
    ensures Parse(t, seg, off) == [] <==> t == []
  {
    hide Intact;
  }

  lemma CursorFramed(st: Store)
    requires WellFramed(st) && st.ids != []
    ensures st.off <= |st.files[st.seg]|
    ensures Framed(st.files[st.seg][st.off..])
    ensures Current(st) == Parse(st.files[st.seg][st.off..], st.seg, st.off)
    ensures Current(st) == [] <==> st.off == |st.files[st.seg]|
  {
    hide OnChain, Framed, Parse;
    OnChainFramed(st.files[st.seg], st.off);
    FramedEmpty(st.files[st.seg][st.off..], st.seg, st.off);
  }

  /** What the walk of `commit` does to the current segment of a well-framed spool. */
  lemma WalkFramed(st: Store, k: nat)
    requires WellFramed(st) && st.ids != []
    ensures
      var w := Walk(Tail(st.files[st.seg], st.off), k);
      && w.count == (if k <= |Current(st)| then k else |Current(st)|)
      && (k <= |Current(st)| ==> OnChain(st.files[st.seg], st.off + w.bytes))
  {
    hide OnChain, Framed, Parse, Walk, Ascending;
    CursorFramed(st);
    var s := st.files[st.seg];
    if k <= |Current(st)| {
      WalkOnChain(s, st.off, k, st.seg);
    } else {
      WalkTotal(s[st.off..], k, st.seg, st.off);
    }
  }

  lemma {:induction false} WalkTotal(t: Bytes, k: nat, seg: nat, off: nat)
    requires Framed(t) && k > |Parse(t, seg, off)|
    ensures Walk(t, k).count == |Parse(t, seg, off)|
    decreases k
  {
    hide Intact, HasHeader, Span;
    if t != [] {
      assert Tail(t, Span(t)) == t[Span(t)..];
      WalkTotal(t[Span(t)..], k - 1, seg, off + Span(t));
    }
  }

  // ---- commit ----

  lemma NextAfter(ids: seq<nat>, id: nat)
    requires Ascending(ids) && After(ids, id) != []
    ensures After(ids, id)[0] in ids && After(ids, id)[0] > id
  {
    AfterOfAscending(ids, id);
    assert After(ids, id)[0] in After(ids, id);
  }

  lemma RetireWellFramed(st: Store, next: nat)
    requires WellFramed(st) && After(st.ids, st.seg) != [] && next == After(st.ids, st.seg)[0]
    ensures WellFramed(Retire(st, next)) && Retire(st, next).ids != []
  {
    hide Ascending, Framed, OnChain, Without, After, View;
    NextAfter(st.ids, st.seg);
    AfterWithout(st.ids, st.seg, next);
    OnChainStart(st.files[next]);
    assert next in Retire(st, next).ids;
  }

  /** The start of a segment is never a parking place. */
  lemma StartNotParked(st: Store)
    requires WellFramed(st) && st.ids != [] && st.off == 0
    ensures !Parked(st)
  {
    hide Ascending, Framed, OnChain, After;
    if After(st.ids, st.seg) != [] {
      NextAfter(st.ids, st.seg);
    }
  }

  lemma OnChainStart(t: Bytes)
    ensures OnChain(t, 0)
  {}

  /**
   First in, first out: committing `k` pending records leaves exactly the queue
   without its first `k`, and counts `k`.
   */
  lemma {:induction false} CommitFifo(st: Store, k: nat)
    requires WellFramed(st) && !Parked(st) && k <= |View(st)|
    ensures
      var r := Commit(st, k);
      WellFramed(r.st) && View(r.st) == View(st)[k..] && r.count == k
    decreases |After(st.ids, st.seg)|
  {
    hide After, View, Without, WellFramed, Parked, Commit, Retire, Current;
    if st.ids == [] || k == 0 {
      CommitNothing(st, k);
    } else if k <= |Current(st)| {
      CommitMoves(st, k);
      MovedFifo(st, k);
    } else {
      FrontRetires(st, k);
      CommitRetires(st, k);
      CommitFifo(Retire(st, After(st.ids, st.seg)[0]), k - |Current(st)|);
    }
  }

  lemma CommitNothing(st: Store, k: nat)
    requires st.ids == [] || k == 0
    ensures Commit(st, k) == Release(st, [], 0)
    ensures st.ids == [] ==> View(st) == []
  {}

  /** A commit that ends inside the current segment. */
  lemma CommitMoves(st: Store, k: nat)
    requires WellFramed(st) && st.ids != [] && 0 < k <= |Current(st)|
    ensures st.seg in st.files
    ensures Commit(st, k) == Release(Moved(st, Walk(Tail(st.files[st.seg], st.off), k)), [], k)
  {
    hide After, Walk, Tail, Current, Framed, OnChain, Ascending;
    WalkFramed(st, k);
  }

  /** A commit that goes on into the next segment deletes the current one. */
  lemma CommitRetires(st: Store, k: nat)
    requires WellFramed(st) && st.ids != [] && 0 < |Current(st)| < k && After(st.ids, st.seg) != []
    ensures
      var st' := Retire(st, After(st.ids, st.seg)[0]);
      && WellFramed(st') && st'.ids != [] && !Parked(st')
      && |After(st'.ids, st'.seg)| < |After(st.ids, st.seg)|
      && Commit(st, k).st == Commit(st', k - |Current(st)|).st
      && Commit(st, k).count == |Current(st)| + Commit(st', k - |Current(st)|).count
  {
    hide After, Walk, Tail, Current, Without, Framed, OnChain, Ascending, Parked;
    var next := After(st.ids, st.seg);
    WalkFramed(st, k);
    AfterSplits(st.ids, st.seg);
    WithoutAfter(st.ids, st.seg, next[0]);
    RetireWellFramed(st, next[0]);
    StartNotParked(Retire(st, next[0]));
  }

  lemma MovedFifo(st: Store, k: nat)
    requires WellFramed(st) && st.ids != [] && k <= |Current(st)|
    ensures
      var st' := Moved(st, Walk(Tail(st.files[st.seg], st.off), k));
      WellFramed(st') && View(st') == View(st)[k..]
  {
    hide After, Walk, Tail, Current, ViewFrom, Framed, OnChain, Ascending;
    WalkFramed(st, k);
    MovedView(st, k);
  }

  lemma FrontRetires(st: Store, k: nat)
    requires WellFramed(st) && !Parked(st) && st.ids != [] && |Current(st)| < k <= |View(st)|
    ensures After(st.ids, st.seg) != [] && Current(st) != []
    ensures View(st) == Current(st) + View(Retire(st, After(st.ids, st.seg)[0]))
    ensures Ascending(st.ids)
  {
    hide After, Current, ViewFrom, Retire, Ascending, Framed, OnChain;
    CursorFramed(st);
    if After(st.ids, st.seg) == [] {
      NoMoreView(st);
    } else {
      ViewAtNext(st, After(st.ids, st.seg)[0]);
    }
  }

  lemma NoMoreView(st: Store)
    requires After(st.ids, st.seg) == []
    ensures View(st) == Current(st)
  {}

  /** At the end of a segment that is not the last, `commit` changes nothing, whatever the count. */
  lemma CommitParked(st: Store, k: nat)
    requires WellFramed(st) && Parked(st)
    ensures Commit(st, k) == Release(st, [], 0)
  {
    hide After, Walk, Tail, Framed, OnChain, Ascending;
    CursorFramed(st);
    WalkFramed(st, k);
    if k > 0 { WalkStart(Tail(st.files[st.seg], st.off), k); }
  }

  lemma WalkStart(t: Bytes, k: nat)
    requires Walk(t, k).count == 0
    ensures Walk(t, k).bytes == 0
  {}

  /** On a well-framed spool `commit` releases what was asked for exactly when the cursor is not parked. */
  lemma ReleasesUnlessParked(st: Store, k: nat)
    requires WellFramed(st) && 0 < k <= |View(st)|
    ensures View(Commit(st, k).st) == View(st)[k..] <==> !Parked(st)
  {
    hide View, Commit, WellFramed, Parked;
    if Parked(st) {
      CommitParked(st, k);
    } else {
      CommitFifo(st, k);
    }
  }
}
