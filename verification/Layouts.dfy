/**
 The arithmetic of draining. All that a drain can notice of the disk is, segment by segment
 from the cursor on, how many records are readable after skipping 0, 1, 2, ... frames. `commit`
 skips frames by their headers and `peek` reads records, so the two disagree where a frame has a
 header but no sound payload. This module is about such tables of counts only.
 */
module Layouts {

  /**
   One segment: entry j is the number of records readable after skipping j frames. It has one
   entry more than there are frames to skip.
   */
  type Segment = q: seq<nat> | q != [] witness [0]

  type Layout = seq<Segment>

  function Skips(q: Segment): nat { |q| - 1 }

  /** Nothing is readable where nothing can be skipped, and a record read is a frame skipped. */
  predicate Consistent(q: Segment) {
    q[|q| - 1] == 0 && forall j :: 0 <= j < |q| - 1 && q[j] > 0 ==> q[j + 1] == q[j] - 1
  }

  predicate Valid(qs: Layout) { forall q :: q in qs ==> Consistent(q) }

  /** Records readable from the cursor on. */
  function Queue(qs: Layout): nat {
    if qs == [] then 0 else qs[0][0] + Queue(qs[1..])
  }

  /** Frames that can be skipped from the cursor on. */
  function FrameCount(qs: Layout): nat {
    if qs == [] then 0 else Skips(qs[0]) + FrameCount(qs[1..])
  }

  /** What `commit(k)` leaves. */
  function Cut(qs: Layout, k: nat): Layout
    decreases |qs|
  {
    if k == 0 || qs == [] then qs
    else
      var n := Skips(qs[0]);
      if k > n > 0 && |qs| > 1 then Cut(qs[1..], k - n)
      else [qs[0][if k < n then k else n..]] + qs[1..]
  }

  /** How many frames `commit(k)` skips. */
  function Passed(qs: Layout, k: nat): nat
    decreases |qs|
  {
    if k == 0 || qs == [] then 0
    else
      var n := Skips(qs[0]);
      if k > n > 0 && |qs| > 1 then n + Passed(qs[1..], k - n)
      else if k < n then k else n
  }

  /** The cursor stands where nothing can be skipped, and there is a later segment. */
  predicate Stopped(qs: Layout) { |qs| > 1 && Skips(qs[0]) == 0 }

  // ---- one commit ----

  lemma {:induction false} ReadableAt(q: Segment, j: nat)
    requires Consistent(q) && j <= q[0]
    ensures j < |q| && q[j] == q[0] - j
    decreases j
  {
    if j > 0 {
      ReadableAt(q, j - 1);
    }
  }

  lemma FewerRecordsThanFrames(q: Segment)
    requires Consistent(q)
    ensures q[0] <= Skips(q)
  {
    ReadableAt(q, q[0]);
  }

  lemma RestConsistent(q: Segment, j: nat)
    requires Consistent(q) && j < |q|
    ensures Consistent(q[j..])
  {
    var r := q[j..];
    forall i | 0 <= i < |r| - 1 && r[i] > 0 ensures r[i + 1] == r[i] - 1 {
      assert r[i] == q[j + i] && r[i + 1] == q[j + i + 1];
    }
  }

  lemma {:induction false} CutValid(qs: Layout, k: nat)
    requires Valid(qs)
    ensures Valid(Cut(qs, k))
    decreases |qs|
  {
    hide Consistent;
    if k > 0 && qs != [] {
      var n := Skips(qs[0]);
      if k > n > 0 && |qs| > 1 {
        CutValid(qs[1..], k - n);
      } else {
        RestConsistent(qs[0], if k < n then k else n);
      }
    }
  }

  /** A commit that skips on from the last place it got to is one commit, unless it was stopped there. */
  lemma {:induction false} CutAgain(qs: Layout, j: nat, k: nat)
    requires !Stopped(Cut(qs, j))
    ensures Cut(Cut(qs, j), k) == Cut(qs, j + k)
    decreases |qs|
  {
    if j > 0 && k > 0 && qs != [] {
      var n := Skips(qs[0]);
      if j > n > 0 && |qs| > 1 {
        CutAgain(qs[1..], j - n, k);
      } else {
        FrontAgain(qs[0], qs[1..], j, k);
        assert qs == [qs[0]] + qs[1..];
      }
    }
  }

  lemma FrontAgain(q: Segment, rest: Layout, j: nat, k: nat)
    requires j > 0 && k > 0 && !(j > Skips(q) > 0 && rest != []) && !Stopped(Cut([q] + rest, j))
    ensures Cut(Cut([q] + rest, j), k) == Cut([q] + rest, j + k)
  {
    var n := Skips(q);
    var m := if j < n then j else n;
    CutFront(q, rest, j);
    CutFront(q[m..], rest, k);
    CutFront(q, rest, j + k);
    if j + k <= n { assert q[j..][k..] == q[j + k..]; }
    assert q[m..][n - m..] == q[n..];
  }

  lemma CutFront(q: Segment, rest: Layout, k: nat)
    requires k > 0
    ensures
      var n := Skips(q);
      Cut([q] + rest, k) == if k > n > 0 && rest != [] then Cut(rest, k - n) else [q[if k < n then k else n..]] + rest
  {
    assert ([q] + rest)[1..] == rest;
  }

  /** The frames that `commit(k)` skips are all readable records. */
  predicate Exact(qs: Layout, k: nat)
    decreases |qs|
  {
    k == 0 || qs == [] ||
    var n := Skips(qs[0]);
    if k > n > 0 && |qs| > 1 then qs[0][0] == n && Exact(qs[1..], k - n)
    else (if k < n then k else n) <= qs[0][0]
  }

  /** A commit takes no more records off the queue than it skips frames, and as many exactly when all are records. */
  lemma {:induction false} CutCounts(qs: Layout, k: nat)
    requires Valid(qs)
    ensures Passed(qs, k) <= k
    ensures Queue(Cut(qs, k)) + Passed(qs, k) >= Queue(qs)
    ensures Queue(Cut(qs, k)) + Passed(qs, k) == Queue(qs) <==> Exact(qs, k)
    decreases |qs|
  {
    hide Consistent;
    if k > 0 && qs != [] {
      var q, n := qs[0], Skips(qs[0]);
      assert q in qs;
      FewerRecordsThanFrames(q);
      if k > n > 0 && |qs| > 1 {
        assert forall r :: r in qs[1..] ==> r in qs;
        CutCounts(qs[1..], k - n);
      } else {
        FrontCounts(qs, k);
      }
    }
  }

  lemma FrontCounts(qs: Layout, k: nat)
    requires Valid(qs) && k > 0 && qs != [] && !(k > Skips(qs[0]) > 0 && |qs| > 1)
    ensures
      var m := if k < Skips(qs[0]) then k else Skips(qs[0]);
      && Cut(qs, k) == [qs[0][m..]] + qs[1..] && Queue(Cut(qs, k)) == qs[0][m] + Queue(qs[1..])
      && (m <= qs[0][0] ==> qs[0][m] == qs[0][0] - m)
  {
    hide Consistent;
    var q := qs[0];
    var m := if k < Skips(q) then k else Skips(q);
    assert q in qs;
    assert ([q[m..]] + qs[1..])[1..] == qs[1..];
    if m <= q[0] {
      ReadableAt(q, m);
    }
  }

  /** `commit(k)` skips `k` frames and all of them are readable records. */
  predicate Clean(qs: Layout, k: nat)
    decreases |qs|
  {
    k == 0 || (qs != [] &&
    var n := Skips(qs[0]);
    k <= qs[0][0] || (k > n > 0 && |qs| > 1 && qs[0][0] == n && Clean(qs[1..], k - n)))
  }

  lemma {:induction false} CleanIff(qs: Layout, k: nat)
    requires Valid(qs) && k <= Queue(qs)
    ensures Queue(Cut(qs, k)) == Queue(qs) - k <==> Clean(qs, k)
    ensures Clean(qs, k) ==> Passed(qs, k) == k
    decreases |qs|
  {
    if k > 0 && qs != [] {
      var q, n, rest := qs[0], Skips(qs[0]), qs[1..];
      assert q in qs;
      FewerRecordsThanFrames(q);
      CutCounts(qs, k);
      if k > n > 0 && |qs| > 1 {
        assert forall r :: r in rest ==> r in qs;
        CutCounts(rest, k - n);
        if q[0] == n { CleanIff(rest, k - n); }
      }
    }
  }

  /** Every commit that can move skips at least one frame. */
  lemma {:induction false} CutProgress(qs: Layout, k: nat)
    ensures FrameCount(Cut(qs, k)) <= FrameCount(qs)
    ensures k > 0 && Valid(qs) && Queue(qs) > 0 && !Stopped(qs) ==> FrameCount(Cut(qs, k)) < FrameCount(qs)
    decreases |qs|
  {
    if k > 0 && qs != [] {
      var q, n := qs[0], Skips(qs[0]);
      if k > n > 0 && |qs| > 1 {
        CutProgress(qs[1..], k - n);
      } else {
        var m := if k < n then k else n;
        assert ([q[m..]] + qs[1..])[1..] == qs[1..];
        if Valid(qs) && n == 0 {
          assert q in qs;
          assert qs[1..] == [] ==> Queue(qs) == q[0];
        }
      }
    }
  }

  // ---- rounds ----

  function Min(a: nat, b: nat): nat { if a < b then a else b }

  function Less(a: nat, b: nat): nat { if a < b then 0 else a - b }

  function Times(m: nat, batch: nat): nat {
    if m == 0 then 0 else batch + Times(m - 1, batch)
  }

  /** A batch is posted and committed. */
  function Step(qs: Layout, batch: nat): Layout { Cut(qs, Min(batch, Queue(qs))) }

  function Steps(qs: Layout, batch: nat, n: nat): Layout
    decreases n
  {
    if n == 0 then qs else Steps(Step(qs, batch), batch, n - 1)
  }

  /**
   How many frames the first `n` commits ask for: each time a whole batch, or what is readable
   once so many frames are skipped.
   */
  function Place(qs: Layout, batch: nat, n: nat): nat {
    if n == 0 then 0
    else
      var p := Place(qs, batch, n - 1);
      p + Min(batch, Queue(Cut(qs, p)))
  }

  /** Some commit ends at the end of a segment that is not the last, with records left. */
  ghost predicate Stalls(qs: Layout, batch: nat) {
    exists n :: StopsAt(qs, Place(qs, batch, n))
  }

  predicate StopsAt(qs: Layout, p: nat) { Stopped(Cut(qs, p)) && Queue(Cut(qs, p)) > 0 }

  lemma {:induction false} PlaceIdle(qs: Layout, batch: nat, m: nat, n: nat)
    requires Queue(Cut(qs, Place(qs, batch, m))) == 0 && m <= n
    ensures Place(qs, batch, n) == Place(qs, batch, m)
    decreases n
  {
    hide Cut, Queue;
    if m < n {
      PlaceIdle(qs, batch, m, n - 1);
    }
  }

  lemma FirstPlace(qs: Layout, batch: nat)
    ensures Place(qs, batch, 0) == 0 && Place(qs, batch, 1) == Min(batch, Queue(qs)) && Cut(qs, 0) == qs
  {
    assert Place(qs, batch, 0) == 0;
  }

  lemma {:induction false} PlaceShift(qs: Layout, batch: nat, n: nat)
    requires !Stopped(Step(qs, batch))
    ensures Place(qs, batch, n + 1) == Place(qs, batch, 1) + Place(Step(qs, batch), batch, n)
    decreases n
  {
    hide Cut, Queue;
    FirstPlace(qs, batch);
    if n > 0 {
      PlaceShift(qs, batch, n - 1);
      CutAgain(qs, Place(qs, batch, 1), Place(Step(qs, batch), batch, n - 1));
    }
  }

  lemma NoQueueNoStall(qs: Layout, batch: nat)
    requires Queue(qs) == 0
    ensures !Stalls(qs, batch)
  {
    hide Cut, Queue, Place;
    FirstPlace(qs, batch);
    forall n: nat ensures !StopsAt(qs, Place(qs, batch, n)) {
      PlaceIdle(qs, batch, 0, n);
    }
  }

  lemma StoppedStalls(qs: Layout, batch: nat)
    requires Stopped(qs) && Queue(qs) > 0
    ensures Stalls(qs, batch) && Step(qs, batch) == qs
  {
    hide Queue, Place;
    FirstPlace(qs, batch);
    assert StopsAt(qs, Place(qs, batch, 0));
  }

  lemma StallStep(qs: Layout, batch: nat)
    requires !Stopped(qs)
    ensures Stalls(qs, batch) <==> Stalls(Step(qs, batch), batch)
  {
    hide Queue, Cut, Place, Stalls;
    var next := Step(qs, batch);
    FirstPlace(qs, batch);
    FirstPlace(next, batch);
    if Stopped(next) {
      if Queue(next) == 0 {
        NoQueueNoStall(next, batch);
        forall n: nat ensures !StopsAt(qs, Place(qs, batch, n)) {
          if n > 0 { PlaceIdle(qs, batch, 1, n); }
        }
        NeverStalls(qs, batch);
      } else {
        StoppedStalls(next, batch);
        SomeStall(qs, batch, 1);
      }
    } else {
      forall n: nat ensures StopsAt(qs, Place(qs, batch, n + 1)) <==> StopsAt(next, Place(next, batch, n)) {
        PlaceShift(qs, batch, n);
        CutAgain(qs, Place(qs, batch, 1), Place(next, batch, n));
      }
      StallShift(qs, next, batch);
    }
  }

  lemma NeverStalls(qs: Layout, batch: nat)
    requires forall n: nat :: !StopsAt(qs, Place(qs, batch, n))
    ensures !Stalls(qs, batch)
  {}

  lemma SomeStall(qs: Layout, batch: nat, n: nat)
    requires StopsAt(qs, Place(qs, batch, n))
    ensures Stalls(qs, batch)
  {}

  lemma StallShift(qs: Layout, next: Layout, batch: nat)
    requires !StopsAt(qs, Place(qs, batch, 0))
    requires forall n: nat :: StopsAt(qs, Place(qs, batch, n + 1)) <==> StopsAt(next, Place(next, batch, n))
    ensures Stalls(qs, batch) <==> Stalls(next, batch)
  {
    hide Place, StopsAt;
    if Stalls(qs, batch) {
      var n: nat :| StopsAt(qs, Place(qs, batch, n));
      assert StopsAt(qs, Place(qs, batch, (n - 1) + 1));
      assert StopsAt(next, Place(next, batch, n - 1));
    }
    if Stalls(next, batch) {
      var n: nat :| StopsAt(next, Place(next, batch, n));
      assert StopsAt(qs, Place(qs, batch, n + 1));
    }
  }

  lemma {:induction false} StepsStopped(qs: Layout, batch: nat, n: nat)
    requires Stopped(qs) && Queue(qs) > 0
    ensures Steps(qs, batch, n) == qs
    decreases n
  {
    hide Queue, Step;
    if n > 0 {
      StoppedStalls(qs, batch);
      StepsStopped(qs, batch, n - 1);
    }
  }

  /** With a stall ahead no number of rounds empties the queue. */
  lemma {:induction false} StepsStall(qs: Layout, batch: nat, n: nat)
    requires Stalls(qs, batch)
    ensures Queue(Steps(qs, batch, n)) > 0
    decreases n
  {
    hide Queue, Step, Stalls;
    if Queue(qs) == 0 {
      NoQueueNoStall(qs, batch);
    } else if Stopped(qs) {
      StepsStopped(qs, batch, n);
    } else if n > 0 {
      StallStep(qs, batch);
      StepsStall(Step(qs, batch), batch, n - 1);
    }
  }

  /** Without a stall there are at most as many rounds as frames. */
  lemma {:induction false} StepsBounded(qs: Layout, batch: nat, n: nat)
    requires Valid(qs) && batch > 0 && !Stalls(qs, batch) && Queue(Steps(qs, batch, n)) > 0
    ensures n < FrameCount(qs)
    decreases n
  {
    hide Queue, Stalls, FrameCount, Cut, Stopped;
    if Queue(qs) == 0 {
      StepsIdle(qs, batch, n);
    } else if Stopped(qs) {
      StoppedStalls(qs, batch);
    } else {
      var k := Min(batch, Queue(qs));
      CutProgress(qs, k);
      if n > 0 {
        CutValid(qs, k);
        StallStep(qs, batch);
        StepsBounded(Step(qs, batch), batch, n - 1);
      }
    }
  }

  lemma {:induction false} StepsIdle(qs: Layout, batch: nat, n: nat)
    requires Queue(qs) == 0
    ensures Steps(qs, batch, n) == qs
    decreases n
  {
    hide Queue;
    if n > 0 { StepsIdle(qs, batch, n - 1); }
  }

  // ---- rounds that release what they deliver ----

  /** A segment that does not end the readable part is all records, and holds at least one. */
  predicate Solid(qs: Layout)
    decreases |qs|
  {
    |qs| > 1 && Queue(qs[1..]) > 0 ==> qs[0][0] == Skips(qs[0]) > 0 && Solid(qs[1..])
  }

  /** The same, but the current segment may have been read to its end. */
  predicate Regular(qs: Layout) {
    |qs| > 1 && Queue(qs[1..]) > 0 ==> qs[0][0] == Skips(qs[0]) && Solid(qs[1..])
  }

  /** A segment that is not the last ends behind `x` frames. */
  predicate EndsAt(qs: Layout, x: nat)
    decreases |qs|
  {
    |qs| > 1 && (x == Skips(qs[0]) || (x > Skips(qs[0]) && EndsAt(qs[1..], x - Skips(qs[0]))))
  }

  /** No multiple of the batch size, short of the whole queue, is the end of such a segment. */
  ghost predicate Aligned(qs: Layout, batch: nat) {
    forall m :: Times(m, batch) < Queue(qs) ==> !EndsAt(qs, Times(m, batch))
  }

  /** Every round takes exactly its batch off the queue. */
  ghost predicate InStep(qs: Layout, batch: nat) {
    forall n :: Queue(Steps(qs, batch, n)) == Less(Queue(qs), Times(n, batch))
  }

  /** Committing records of solid segments brings every segment end so many frames closer. */
  lemma {:induction false} SolidCut(qs: Layout, k: nat)
    requires Valid(qs) && Solid(qs) && k <= Queue(qs)
    ensures Queue(Cut(qs, k)) == Queue(qs) - k && Regular(Cut(qs, k))
    ensures forall x :: EndsAt(Cut(qs, k), x) <==> EndsAt(qs, k + x)
    decreases |qs|
  {
    hide Consistent;
    if k > 0 && qs != [] {
      var q, n, rest := qs[0], Skips(qs[0]), qs[1..];
      assert q in qs && forall r :: r in rest ==> r in qs;
      FewerRecordsThanFrames(q);
      if k <= n {
        assert Cut(qs, k) == [q[k..]] + rest;
        assert ([q[k..]] + rest)[1..] == rest;
        ReadableAt(q, k);
      } else {
        SolidCut(rest, k - n);
      }
    }
  }

  lemma {:induction false} SolidBefore(qs: Layout, k: nat)
    requires Valid(qs) && 0 < k <= Queue(qs)
    requires Queue(Cut(qs, k)) == Queue(qs) - k && Regular(Cut(qs, k))
    ensures Solid(qs)
    decreases |qs|
  {
    hide Consistent;
    if |qs| > 1 && Queue(qs[1..]) > 0 {
      var q, n, rest := qs[0], Skips(qs[0]), qs[1..];
      assert q in qs && forall r :: r in rest ==> r in qs;
      FewerRecordsThanFrames(q);
      if k > n > 0 {
        CutCounts(rest, k - n);
        SolidBefore(rest, k - n);
      } else {
        var m := if k < n then k else n;
        assert Cut(qs, k) == [q[m..]] + rest;
        assert ([q[m..]] + rest)[1..] == rest;
        if k <= q[0] {
          ReadableAt(q, k);
        }
      }
    }
  }

  lemma SolidFront(qs: Layout)
    requires Valid(qs) && Regular(qs) && Queue(qs) > 0
    ensures Solid(qs) <==> !EndsAt(qs, 0)
  {
    if |qs| > 1 && Skips(qs[0]) == 0 {
      assert qs[0] in qs;
    }
  }

  lemma AlignedStep(qs: Layout, batch: nat)
    requires Valid(qs) && Solid(qs) && Queue(qs) > 0 && batch > 0
    ensures Aligned(qs, batch) <==> Aligned(Step(qs, batch), batch)
  {
    hide EndsAt, Cut, Queue, Solid, Regular;
    var next := Step(qs, batch);
    SolidCut(qs, Min(batch, Queue(qs)));
    assert !EndsAt(qs, 0) by { SolidNoEnd(qs); }
    if Aligned(qs, batch) {
      forall m: nat | Times(m, batch) < Queue(next) ensures !EndsAt(next, Times(m, batch)) {
        assert Times(m + 1, batch) == batch + Times(m, batch);
      }
    }
    if Aligned(next, batch) {
      forall m: nat | Times(m, batch) < Queue(qs) ensures !EndsAt(qs, Times(m, batch)) {
        if m > 0 { assert !EndsAt(next, Times(m - 1, batch)); }
      }
    }
  }

  lemma SolidNoEnd(qs: Layout)
    requires Valid(qs) && Solid(qs) && Queue(qs) > 0
    ensures !EndsAt(qs, 0)
  {
    assert qs != [] ==> qs[0] in qs;
  }

  lemma InStepNext(qs: Layout, batch: nat)
    requires batch > 0 && Queue(qs) > 0
    ensures InStep(qs, batch) <==>
      Queue(Step(qs, batch)) == Less(Queue(qs), batch) && InStep(Step(qs, batch), batch)
  {
    hide Queue, Step;
    var next := Step(qs, batch);
    if InStep(qs, batch) {
      assert Steps(qs, batch, 1) == Steps(next, batch, 0) == next && Times(1, batch) == batch + Times(0, batch);
      assert Queue(Steps(qs, batch, 1)) == Less(Queue(qs), Times(1, batch));
      forall n: nat ensures Queue(Steps(next, batch, n)) == Less(Queue(next), Times(n, batch)) {
        assert Steps(qs, batch, n + 1) == Steps(next, batch, n) && Times(n + 1, batch) == batch + Times(n, batch);
        assert Queue(Steps(qs, batch, n + 1)) == Less(Queue(qs), Times(n + 1, batch));
      }
    }
    if Queue(next) == Less(Queue(qs), batch) && InStep(next, batch) {
      forall n: nat ensures Queue(Steps(qs, batch, n)) == Less(Queue(qs), Times(n, batch)) {
        if n > 0 { assert Queue(Steps(next, batch, n - 1)) == Less(Queue(next), Times(n - 1, batch)); }
      }
    }
  }

  lemma InStepIdle(qs: Layout, batch: nat)
    requires Queue(qs) == 0
    ensures InStep(qs, batch) && Regular(qs) && Aligned(qs, batch)
  {
    forall n: nat ensures Queue(Steps(qs, batch, n)) == 0 { StepsIdle(qs, batch, n); }
  }

  /**
   The rounds of a drain release exactly what they deliver if and only if every segment that
   does not end the readable part is all records, and no batch ends where such a segment ends.
   */
  lemma {:induction false} InStepIff(qs: Layout, batch: nat)
    requires Valid(qs) && batch > 0
    ensures InStep(qs, batch) <==> Regular(qs) && Aligned(qs, batch)
    decreases Queue(qs)
  {
    hide InStep, Aligned, EndsAt, Solid, Regular, Queue, Cut;
    if Queue(qs) == 0 {
      InStepIdle(qs, batch);
    } else {
      var k, next := Min(batch, Queue(qs)), Step(qs, batch);
      CutValid(qs, k);
      InStepNext(qs, batch);
      if Regular(qs) && Aligned(qs, batch) {
        AlignedStart(qs, batch);
        SolidFront(qs);
        SolidCut(qs, k);
        AlignedStep(qs, batch);
        InStepIff(next, batch);
      }
      if InStep(qs, batch) {
        InStepIff(next, batch);
        SolidBefore(qs, k);
        SolidIsRegular(qs);
        AlignedStep(qs, batch);
      }
    }
  }

  lemma AlignedStart(qs: Layout, batch: nat)
    requires Aligned(qs, batch) && Queue(qs) > 0
    ensures !EndsAt(qs, 0)
  {
    assert Times(0, batch) == 0;
  }

  lemma SolidIsRegular(qs: Layout)
    requires Solid(qs)
    ensures Regular(qs)
  {}

  /** Rounds that release what they deliver empty the queue. */
  lemma InStepEmpties(qs: Layout, batch: nat)
    requires batch > 0 && InStep(qs, batch)
    ensures Queue(Steps(qs, batch, Queue(qs))) == 0
  {
    TimesAtLeast(Queue(qs), batch);
  }

  lemma {:induction false} TimesAtLeast(m: nat, batch: nat)
    requires batch > 0
    ensures Times(m, batch) >= m
  {
    if m > 0 { TimesAtLeast(m - 1, batch); }
  }

  lemma TimesLast(m: nat, batch: nat)
    ensures Times(m + 1, batch) == Times(m, batch) + batch
  {}

  /** In regular segments the schedule is the multiples of the batch size. */
  lemma {:induction false} StallsIffMisaligned(qs: Layout, batch: nat)
    requires Valid(qs) && Regular(qs) && batch > 0
    ensures Stalls(qs, batch) <==> !Aligned(qs, batch)
    decreases Queue(qs)
  {
    hide Aligned, Solid, Regular, Queue, Cut, Stalls;
    if Queue(qs) == 0 {
      NoQueueNoStall(qs, batch);
      InStepIdle(qs, batch);
    } else if EndsAt(qs, 0) {
      StoppedStalls(qs, batch);
      if Aligned(qs, batch) { AlignedStart(qs, batch); }
    } else {
      SolidFront(qs);
      CutValid(qs, Min(batch, Queue(qs)));
      SolidCut(qs, Min(batch, Queue(qs)));
      AlignedStep(qs, batch);
      StallStep(qs, batch);
      StallsIffMisaligned(Step(qs, batch), batch);
    }
  }
}
