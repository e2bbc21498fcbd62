/**
 The reporter's drain loop with its retries and sleeps. The transport answers as it
 likes; a stop is requested when the given answers run out. Whatever happens, the spool
 ends up where a number of complete rounds leaves it.
 */
module Reporters {
  import opened Crc
  import opened Frames
  import opened SegmentStore
  import opened Fifo
  import opened Layouts
  import opened SpoolLayouts
  import opened DrainRounds
  import opened SpoolObject
  import opened Json
  import opened JsonWriters

  // ---- backoff ----

  const BASE_MS: int := 1000
  const CAP_MS: int := 300_000

  /** A 64-bit two's complement register. */
  function Wrap64(n: int): int {
    var m := n % 0x1_0000_0000_0000_0000;
    if m >= 0x8000_0000_0000_0000 then m - 0x1_0000_0000_0000_0000 else m
  }

  function Exponent(attempt: int): nat {
    if attempt < 0 then 0 else if attempt < 20 then attempt else 20
  }

  /** The largest delay `backoff_delay_ms` may return. */
  function Ceiling(attempt: int, base: int, cap: int): int {
    var c := Wrap64(base * Pow2(Exponent(attempt)));
    if c > cap || c <= 0 then cap else c
  }

  /** For a base that does not overflow, the ceiling doubles with each attempt up to the cap. */
  lemma CeilingDoubles(attempt: int, base: int, cap: int)
    requires base > 0 && base * Pow2(if attempt < 0 then 0 else if attempt < 20 then attempt else 20) < 0x8000_0000_0000_0000
    ensures
      var c := base * Pow2(if attempt < 0 then 0 else if attempt < 20 then attempt else 20);
      Ceiling(attempt, base, cap) == if c < cap then c else cap
  {
    Pow2Positive(Exponent(attempt));
    assert base * Pow2(Exponent(attempt)) > 0;
  }

  /** A shift into the sign bit gives the cap. */
  lemma CeilingOverflows(attempt: int, base: int, cap: int)
    requires
      var c := base * Pow2(if attempt < 0 then 0 else if attempt < 20 then attempt else 20);
      0x8000_0000_0000_0000 <= c < 0x1_0000_0000_0000_0000
    ensures Ceiling(attempt, base, cap) == cap
  {
    hide Pow2;
  }

  /** At the default settings the ceiling is five minutes from the ninth attempt on. */
  lemma DefaultCap(attempt: int)
    requires attempt >= 9
    ensures Ceiling(attempt, BASE_MS, CAP_MS) == 300_000
  {
    hide Pow2, Ceiling;
    Pow2Up(9, Exponent(attempt));
    Pow2Up(Exponent(attempt), 20);
    PowersOfTwo();
    CeilingDoubles(attempt, BASE_MS, CAP_MS);
  }

  lemma {:induction false} Pow2Up(m: nat, n: nat)
    requires m <= n
    ensures 0 < Pow2(m) <= Pow2(n)
    decreases n
  {
    if m < n { Pow2Up(m, n - 1); } else { Pow2Positive(n); }
  }

  lemma PowersOfTwo()
    ensures Pow2(9) == 512 && Pow2(20) == 0x10_0000
  {
    assert Pow2(5) == 32;
    assert Pow2(9) == 512;
    assert Pow2(13) == 8192;
    assert Pow2(17) == 0x2_0000;
  }

  lemma {:induction false} Pow2Positive(n: nat)
    ensures Pow2(n) > 0
  {
    if n > 0 { Pow2Positive(n - 1); }
  }

  /** Full jitter: any delay from 0 to the ceiling; `draw` is the random number. */
  method BackoffDelay(attempt: int, base: int, cap: int, draw: nat) returns (delay: int)
    requires cap >= 0
    ensures 0 <= delay <= Ceiling(attempt, base, cap) <= cap
    ensures delay == draw % (Ceiling(attempt, base, cap) + 1)
    ensures draw <= Ceiling(attempt, base, cap) ==> delay == draw
  {
    CeilingRange(attempt, base, cap);
    hide Ceiling;
    var ceiling := Ceiling(attempt, base, cap);
    Remainder(draw, ceiling + 1);
    delay := draw % (ceiling + 1);
  }

  lemma CeilingRange(attempt: int, base: int, cap: int)
    requires cap >= 0
    ensures 0 <= Ceiling(attempt, base, cap) <= cap
  {
    hide Wrap64, Pow2;
  }

  lemma Remainder(x: nat, n: nat)
    requires n > 0
    ensures 0 <= x % n < n && (x < n ==> x % n == x)
  {}

  /** Sleeping in slices of 200 ms; `stop(i)` is whether a stop is seen before slice i. */
  method SleepInterruptible(ms: int, stop: nat -> bool) returns (slept: nat)
    ensures slept <= if ms < 0 then 0 else ms
    ensures (forall i :: !stop(i)) ==> slept == if ms < 0 then 0 else ms
    ensures forall i: nat :: stop(i) && (forall j: nat :: j < i ==> !stop(j)) ==>
      slept == if 200 * i < ms then 200 * i else if ms < 0 then 0 else ms
  {
    slept := 0;
    var waited, i := 0, 0;
    while waited < ms
      invariant 0 <= waited == 200 * i
      invariant slept == if waited < ms then waited else if ms < 0 then 0 else ms
      invariant forall j: nat :: j < i ==> !stop(j)
    {
      if stop(i) { return; }
      var chunk := if ms - waited < 200 then ms - waited else 200;
      slept := slept + chunk;
      waited, i := waited + 200, i + 1;
    }
  }

  /** The sum of the ceilings of attempts 1 to `n`. */
  function CeilingSum(n: nat): nat {
    if n == 0 then 0 else CeilingSum(n - 1) + (if Ceiling(n, BASE_MS, CAP_MS) < 0 then 0 else Ceiling(n, BASE_MS, CAP_MS))
  }

  lemma {:induction false} CeilingSumGrows(m: nat, n: nat)
    requires m <= n
    ensures CeilingSum(m) <= CeilingSum(n)
    decreases n
  {
    hide Ceiling;
    if m < n { CeilingSumGrows(m, n - 1); }
  }

  /** Six attempts at the default settings sleep at most 62 seconds. */
  lemma DefaultBackoff()
    ensures CeilingSum(5) == 62_000
  {
    assert Pow2(1) == 2 && Pow2(2) == 4 && Pow2(3) == 8 && Pow2(4) == 16 && Pow2(5) == 32;
    CeilingDoubles(1, BASE_MS, CAP_MS);
    CeilingDoubles(2, BASE_MS, CAP_MS);
    CeilingDoubles(3, BASE_MS, CAP_MS);
    CeilingDoubles(4, BASE_MS, CAP_MS);
    CeilingDoubles(5, BASE_MS, CAP_MS);
    assert CeilingSum(1) == 2_000 && CeilingSum(2) == 6_000 && CeilingSum(3) == 14_000 && CeilingSum(4) == 30_000;
  }

  // ---- the body of a post ----

  function AsText(b: Bytes): string { seq(|b|, i requires 0 <= i < |b| => b[i] as char) }

  function Texts(es: seq<Entry>): seq<string> {
    if es == [] then [] else [AsText(es[0].payload)] + Texts(es[1..])
  }

  method BuildBody(batch: seq<Record>, ghost es: seq<Entry>) returns (body: string)
    requires Numbered(batch, es)
    ensures body == BatchText(Texts(es))
  {
    hide Texts, Joined;
    var list := "";
    NoTexts();
    assert es[..0] == [];
    for i := 0 to |batch|
      invariant list == Joined(Texts(es[..i]))
    {
      JoinedStep(es, i);
      if i > 0 { list := list + ","; }
      list := list + AsText(batch[i].payload);
    }
    assert es[..|es|] == es;
    body := "{\"records\":[" + list + "]}";
  }

  lemma NoTexts()
    ensures Joined(Texts([])) == ""
  {}

  lemma {:induction false} TextsSnoc(es: seq<Entry>, e: Entry)
    ensures Texts(es + [e]) == Texts(es) + [AsText(e.payload)] && |Texts(es)| == |es|
  {
    if es == [] {
      assert [e][1..] == [];
    } else {
      assert (es + [e])[1..] == es[1..] + [e];
      TextsSnoc(es[1..], e);
    }
  }

  lemma {:induction false} JoinedSnoc(ts: seq<string>, t: string)
    ensures Joined(ts + [t]) == if ts == [] then t else Joined(ts) + "," + t
  {
    if ts == [] {
      assert ts + [t] == [t];
    } else {
      assert (ts + [t])[1..] == ts[1..] + [t];
      JoinedSnoc(ts[1..], t);
    }
  }

  lemma JoinedStep(es: seq<Entry>, i: nat)
    requires i < |es|
    ensures
      var t := AsText(es[i].payload);
      Joined(Texts(es[..i + 1])) == if i == 0 then t else Joined(Texts(es[..i])) + "," + t
  {
    hide Joined, Texts;
    assert es[..i + 1] == es[..i] + [es[i]];
    TextsSnoc(es[..i], es[i]);
    JoinedSnoc(Texts(es[..i]), AsText(es[i].payload));
  }

  // ---- the drain ----

  datatype Answer = Accepted | Retryable | Permanent

  function AtLeastOne(n: int): nat { if n < 1 then 1 else n }

  /** How the loop ended: `oks` of `posts` answers were acceptances, and it slept `slept` ms. */
  datatype Outcome = Outcome(sent: nat, gaveUp: bool, posts: nat, oks: nat, slept: nat)

  function Acceptances(answers: seq<Answer>): nat {
    if answers == [] then 0
    else Acceptances(answers[..|answers| - 1]) + if answers[|answers| - 1].Accepted? then 1 else 0
  }

  /** Retryable failures at the end of the list. */
  function Streak(answers: seq<Answer>): nat {
    if answers == [] || !answers[|answers| - 1].Retryable? then 0 else 1 + Streak(answers[..|answers| - 1])
  }

  /** After these answers the cycle is over: a permanent failure, or too many failures in a row. */
  predicate GivesUp(answers: seq<Answer>, maxAttempts: int) {
    answers != [] &&
    match answers[|answers| - 1]
    case Accepted => false
    case Permanent => true
    case Retryable => Streak(answers) >= maxAttempts
  }

  /** How long the wait before the next attempt is, for the number drawn. */
  function Pause(attempt: nat, draw: nat): nat {
    CeilingRange(attempt, BASE_MS, CAP_MS);
    draw % (Ceiling(attempt, BASE_MS, CAP_MS) + 1)
  }

  /** The waits of the failures that are tried again, up to post `n`. */
  ghost function Pauses(answers: seq<Answer>, draws: nat -> nat, maxAttempts: int, n: nat): nat
    requires n <= |answers|
  {
    if n == 0 then 0
    else
      var streak := Streak(answers[..n]);
      Pauses(answers, draws, maxAttempts, n - 1) + if 0 < streak < maxAttempts then Pause(streak, draws(n)) else 0
  }

  /**
   Giving up, said of the answers: the last one is a permanent failure, or the last
   `maxAttempts` of them, at least one, are all failures to be tried again.
   */
  lemma GivesUpIff(answers: seq<Answer>, maxAttempts: int)
    ensures GivesUp(answers, maxAttempts) <==>
      && answers != []
      && (answers[|answers| - 1].Permanent? ||
          var m := if maxAttempts < 1 then 1 else maxAttempts;
          (m <= |answers| && forall i :: |answers| - m <= i < |answers| ==> answers[i].Retryable?))
  {
    hide Streak;
    StreakIs(answers);
    if answers != [] { StreakStarts(answers); }
  }

  lemma StreakStarts(answers: seq<Answer>)
    requires answers != []
    ensures Streak(answers) > 0 <==> answers[|answers| - 1].Retryable?
  {}

  lemma {:induction false} StreakIs(answers: seq<Answer>)
    ensures Streak(answers) <= |answers|
    ensures forall i :: |answers| - Streak(answers) <= i < |answers| ==> answers[i].Retryable?
    ensures Streak(answers) < |answers| ==> !answers[|answers| - Streak(answers) - 1].Retryable?
    decreases |answers|
  {
    if answers != [] && answers[|answers| - 1].Retryable? {
      StreakIs(answers[..|answers| - 1]);
    }
  }

  lemma NextAnswer(answers: seq<Answer>, n: nat)
    requires n < |answers|
    ensures
      var a := answers[n];
      && Acceptances(answers[..n + 1]) == Acceptances(answers[..n]) + (if a.Accepted? then 1 else 0)
      && Streak(answers[..n + 1]) == if a.Retryable? then Streak(answers[..n]) + 1 else 0
  {
    assert answers[..n + 1][..n] == answers[..n];
  }

  lemma NextPause(answers: seq<Answer>, draws: nat -> nat, maxAttempts: int, n: nat)
    requires n < |answers|
    ensures
      var streak := Streak(answers[..n + 1]);
      Pauses(answers, draws, maxAttempts, n + 1) ==
        Pauses(answers, draws, maxAttempts, n) + if 0 < streak < maxAttempts then Pause(streak, draws(n + 1)) else 0
  {
    hide Pause, Streak;
  }

  class Reporter {
    const spool: Spool
    const batchSize: nat
    const maxAttempts: int

    constructor (s: Spool, batch: nat, attempts: int)
      ensures spool == s && batchSize == batch && maxAttempts == attempts
    {
      spool, batchSize, maxAttempts := s, batch, attempts;
    }

    /** The batch the server has accepted is committed. */
    method CommitBatch(n: nat)
      requires spool.isOpen && Ascending(spool.segments)
      requires n == |Take(View(spool.Value()), batchSize)| && n > 0
      modifies spool
      ensures spool.isOpen && Ascending(spool.segments) && spool.Value() == Round(old(spool.Value()), batchSize)
    {
      hide View, SegmentStore.Commit, Ascending, Round, CommitDisks, Released, Exact, LayoutOf;
      Committed(spool.Value(), batchSize, n);
      var ok := spool.Commit(n);
    }

    static method BackOff(attempt: nat, draw: nat, stop: nat -> bool) returns (slept: nat)
      requires attempt > 0
      ensures CeilingSum(attempt - 1) + slept <= CeilingSum(attempt)
      ensures (forall i :: !stop(i)) ==> slept == Pause(attempt, draw)
    {
      hide Ceiling;
      var delay := BackoffDelay(attempt, BASE_MS, CAP_MS, draw);
      slept := SleepInterruptible(delay, stop);
      CeilingSumStep(attempt);
    }

    /**
     One drain. It posts batch after batch, commits only what the server accepted, and
     gives up on a permanent failure or after `maxAttempts` failures in a row.
     */
    method Drain(answers: seq<Answer>, draws: nat -> nat, stop: nat -> bool) returns (out: Outcome, bodies: seq<string>)
      requires spool.isOpen && Ascending(spool.segments)
      modifies spool
      ensures out.posts <= |answers| && out.oks == Acceptances(answers[..out.posts])
      ensures out.gaveUp <==> GivesUp(answers[..out.posts], maxAttempts)
      ensures forall j :: 0 <= j < out.posts ==> !GivesUp(answers[..j], maxAttempts)
      ensures spool.Value() == Rounds(old(spool.Value()), batchSize, out.oks)
      ensures Handed(old(spool.Value()), batchSize, out.oks, out.sent, bodies)
      ensures !out.gaveUp && out.posts < |answers| ==> Take(View(spool.Value()), batchSize) == []
      ensures out.posts <= Times(out.oks + 1, AtLeastOne(maxAttempts))
      ensures out.slept <= Times(out.oks + 1, CeilingSum(AtLeastOne(maxAttempts) - 1))
      ensures (forall i :: !stop(i)) ==> out.slept == Pauses(answers, draws, maxAttempts, out.posts)
    {
      hide View, Rounds, Round, Ascending, Texts, CommitDisks, Released, SegmentStore.Commit, BatchText, Handed, Tally, GivesUp, Pause, Pauses, CeilingSum, Times, Acceptances, Take;
      ghost var st, quiet := spool.Value(), forall i :: !stop(i);
      out, bodies := Outcome(0, false, 0, 0, 0), [];
      var attempt: nat := 0;
      Starts(st, batchSize, answers, draws, maxAttempts, quiet);
      while out.posts < |answers|
        invariant !out.gaveUp && Tally(answers, draws, maxAttempts, quiet, out, attempt)
        invariant spool.isOpen && spool.Value() == Rounds(st, batchSize, out.oks) && Ascending(spool.segments)
        invariant Handed(st, batchSize, out.oks, out.sent, bodies)
        decreases |answers| - out.posts
      {
        ghost var now := spool.Value();
        var batch := spool.Peek(batchSize);
        if batch == [] { break; }
        var body := BuildBody(batch, Take(View(now), batchSize));
        var answer := answers[out.posts];
        ghost var before := out;
        out := out.(posts := out.posts + 1);
        if answer.Accepted? {
          HandedMore(st, batchSize, out.oks, out.sent, bodies);
          CommitBatch(|batch|);
          out := out.(sent := out.sent + |batch|, oks := out.oks + 1);
          bodies := bodies + [body];
          TallyAccepted(answers, draws, maxAttempts, quiet, before, attempt, out);
          attempt := 0;
          continue;
        }
        if answer.Permanent? {
          out := out.(gaveUp := true);
          TallyGivesUp(answers, draws, maxAttempts, quiet, before, attempt, out);
          return;
        }
        attempt := attempt + 1;
        if attempt >= maxAttempts {
          out := out.(gaveUp := true);
          TallyGivesUp(answers, draws, maxAttempts, quiet, before, attempt - 1, out);
          return;
        }
        var slept := BackOff(attempt, draws(out.posts), stop);
        out := out.(slept := out.slept + slept);
        TallyRetry(answers, draws, maxAttempts, quiet, before, attempt - 1, out, slept);
      }
      TallyEnds(answers, draws, maxAttempts, quiet, out, attempt);
    }
  }

  /** What the loop has counted after `out.posts` answers, in a streak of `attempt` failures. */
  ghost predicate Tally(answers: seq<Answer>, draws: nat -> nat, maxAttempts: int, quiet: bool, out: Outcome, attempt: nat) {
    var m := AtLeastOne(maxAttempts);
    && out.posts <= |answers| && out.oks == Acceptances(answers[..out.posts]) && attempt == Streak(answers[..out.posts]) < m
    && (forall j :: 0 <= j <= out.posts ==> !GivesUp(answers[..j], maxAttempts))
    && out.posts <= Times(out.oks, m) + attempt
    && out.slept <= Times(out.oks, CeilingSum(m - 1)) + CeilingSum(attempt)
    && (quiet ==> out.slept == Pauses(answers, draws, maxAttempts, out.posts))
  }

  lemma TallyAccepted(answers: seq<Answer>, draws: nat -> nat, maxAttempts: int, quiet: bool, was: Outcome, attempt: nat, out: Outcome)
    requires Tally(answers, draws, maxAttempts, quiet, was, attempt) && was.posts < |answers| && answers[was.posts].Accepted?
    requires out.posts == was.posts + 1 && out.oks == was.oks + 1 && out.slept == was.slept
    ensures Tally(answers, draws, maxAttempts, quiet, out, 0)
  {
    hide Acceptances, Streak, CeilingSum, Times, Pause, Pauses;
    NextAnswer(answers, was.posts);
    NextPause(answers, draws, maxAttempts, was.posts);
    var m := AtLeastOne(maxAttempts);
    Budget(was.oks, m, CeilingSum(m - 1), attempt);
  }

  lemma TallyRetry(answers: seq<Answer>, draws: nat -> nat, maxAttempts: int, quiet: bool, was: Outcome, attempt: nat, out: Outcome, slept: nat)
    requires Tally(answers, draws, maxAttempts, quiet, was, attempt) && was.posts < |answers| && answers[was.posts].Retryable?
    requires attempt + 1 < maxAttempts && CeilingSum(attempt) + slept <= CeilingSum(attempt + 1)
    requires quiet ==> slept == Pause(attempt + 1, draws(out.posts))
    requires out.posts == was.posts + 1 && out.oks == was.oks && out.slept == was.slept + slept
    ensures Tally(answers, draws, maxAttempts, quiet, out, attempt + 1)
  {
    hide Acceptances, Streak, CeilingSum, Times, Pause, Pauses;
    NextAnswer(answers, was.posts);
    NextPause(answers, draws, maxAttempts, was.posts);
  }

  /** A permanent failure, or the last allowed failure in a row, ends the drain. */
  lemma TallyGivesUp(answers: seq<Answer>, draws: nat -> nat, maxAttempts: int, quiet: bool, was: Outcome, attempt: nat, out: Outcome)
    requires Tally(answers, draws, maxAttempts, quiet, was, attempt) && was.posts < |answers|
    requires answers[was.posts].Permanent? || (answers[was.posts].Retryable? && attempt + 1 >= maxAttempts)
    requires out.posts == was.posts + 1 && out.oks == was.oks && out.slept == was.slept
    ensures out.oks == Acceptances(answers[..out.posts]) && GivesUp(answers[..out.posts], maxAttempts)
    ensures forall j :: 0 <= j < out.posts ==> !GivesUp(answers[..j], maxAttempts)
    ensures out.posts <= Times(out.oks + 1, AtLeastOne(maxAttempts))
    ensures out.slept <= Times(out.oks + 1, CeilingSum(AtLeastOne(maxAttempts) - 1))
    ensures quiet ==> out.slept == Pauses(answers, draws, maxAttempts, out.posts)
  {
    hide Acceptances, Streak, CeilingSum, Times, Pause, Pauses;
    NextAnswer(answers, was.posts);
    NextPause(answers, draws, maxAttempts, was.posts);
    var m := AtLeastOne(maxAttempts);
    Budget(was.oks, m, CeilingSum(m - 1), attempt);
  }

  lemma TallyEnds(answers: seq<Answer>, draws: nat -> nat, maxAttempts: int, quiet: bool, out: Outcome, attempt: nat)
    requires Tally(answers, draws, maxAttempts, quiet, out, attempt)
    ensures out.posts <= |answers| && out.oks == Acceptances(answers[..out.posts])
    ensures forall j :: 0 <= j <= out.posts ==> !GivesUp(answers[..j], maxAttempts)
    ensures out.posts <= Times(out.oks + 1, AtLeastOne(maxAttempts))
    ensures out.slept <= Times(out.oks + 1, CeilingSum(AtLeastOne(maxAttempts) - 1))
    ensures quiet ==> out.slept == Pauses(answers, draws, maxAttempts, out.posts)
  {
    hide Acceptances, Streak, CeilingSum, Times, Pause, Pauses;
    var m := AtLeastOne(maxAttempts);
    Budget(out.oks, m, CeilingSum(m - 1), attempt);
  }

  /** The server has acknowledged `oks` batches: those of `oks` rounds, each with its body. */
  ghost predicate Handed(st: Store, batch: nat, oks: nat, sent: nat, bodies: seq<string>) {
    && sent == |Sent(st, batch, oks)| && |bodies| == oks
    && (oks > 0 ==> View(Rounds(st, batch, oks - 1)) != [])
    && forall j :: 0 <= j < oks ==> bodies[j] == BatchText(Texts(Take(View(Rounds(st, batch, j)), batch)))
  }

  /** The record is the compact text of `v`. */
  ghost predicate Carries(e: Entry, v: Value) {
    Printable(v) && AsText(e.payload) == ValueText(v, false, 0, "")
  }

  lemma {:induction false} TextsCompact(es: seq<Entry>, vs: seq<Value>)
    requires |es| == |vs| && forall i :: 0 <= i < |es| ==> Carries(es[i], vs[i])
    ensures Texts(es) == Compact(vs)
  {
    hide AsText, ValueText, Printable;
    if es != [] {
      TextsCompact(es[1..], vs[1..]);
    }
  }

  /** If every record of a batch is the text of a value, the body posted for it reads back as exactly those values. */
  lemma BodiesParse(st: Store, batch: nat, oks: nat, sent: nat, bodies: seq<string>, j: nat, vs: seq<Value>)
    requires Handed(st, batch, oks, sent, bodies) && j < oks
    requires
      var es := Take(View(Rounds(st, batch, j)), batch);
      |es| == |vs| && forall i :: 0 <= i < |es| ==> Carries(es[i], vs[i])
    ensures ParseText(bodies[j]) == Ok(Obj([Member("records", Arr(vs))]), [])
  {
    hide View, Rounds, Texts, BatchText, ValueText, ParseText, AsText, Printable;
    TextsCompact(Take(View(Rounds(st, batch, j)), batch), vs);
    assert forall v :: v in vs ==> Printable(v);
    BatchRoundTrip(vs);
  }

  lemma HandedMore(st: Store, batch: nat, oks: nat, sent: nat, bodies: seq<string>)
    requires Handed(st, batch, oks, sent, bodies) && Take(View(Rounds(st, batch, oks)), batch) != []
    ensures
      var now := Take(View(Rounds(st, batch, oks)), batch);
      Handed(st, batch, oks + 1, sent + |now|, bodies + [BatchText(Texts(now))])
    ensures Rounds(st, batch, oks + 1) == Round(Rounds(st, batch, oks), batch)
  {
    hide View, Rounds, Sent, Round, BatchText, Texts;
    RoundsLast(st, batch, oks);
  }

  lemma Starts(st: Store, batch: nat, answers: seq<Answer>, draws: nat -> nat, maxAttempts: int, quiet: bool)
    ensures Rounds(st, batch, 0) == st && Handed(st, batch, 0, 0, [])
    ensures Tally(answers, draws, maxAttempts, quiet, Outcome(0, false, 0, 0, 0), 0)
  {
    hide View, BatchText, Pause;
    assert answers[..0] == [];
  }

  /** What is left of the budget for the current run of failures. */
  lemma Budget(oks: nat, m: nat, s: nat, attempt: nat)
    requires attempt < m && s == CeilingSum(m - 1)
    ensures Times(oks + 1, m) == m + Times(oks, m) && Times(oks + 1, s) == s + Times(oks, s)
    ensures CeilingSum(attempt) <= s && CeilingSum(0) == 0
  {
    hide Ceiling;
    CeilingSumGrows(attempt, m - 1);
  }

  lemma CeilingSumStep(attempt: nat)
    requires attempt > 0 && Ceiling(attempt, BASE_MS, CAP_MS) >= 0
    ensures CeilingSum(attempt) == CeilingSum(attempt - 1) + Ceiling(attempt, BASE_MS, CAP_MS)
  {
    hide Ceiling;
  }

  lemma Committed(st: Store, batch: nat, n: nat)
    requires n == |Take(View(st), batch)| && n > 0 && Ascending(st.ids)
    ensures SegmentStore.Commit(st, n).st == Round(st, batch) && View(st) != []
    ensures Ascending(Round(st, batch).ids)
  {
    hide View, SegmentStore.Commit, Ascending;
    CommitAscending(st, n);
  }

  /**
   Termination on any disk: without a stall a drain makes at most one post per frame and attempt,
   however long the server keeps answering.
   */
  lemma DrainTerminates(st: Store, batch: nat, attempts: nat, oks: nat, sent: nat, bodies: seq<string>, posts: nat)
    requires Sound(st) && batch > 0 && !Stalls(LayoutOf(st), batch)
    requires Handed(st, batch, oks, sent, bodies)
    requires posts <= Times(oks + 1, attempts)
    ensures
      var n := FrameCount(LayoutOf(st));
      oks <= n && posts <= Times(n + 1, attempts)
  {
    hide View, Sound, LayoutOf, FrameCount, Stalls, Rounds, Times;
    if oks > 0 {
      DeliveriesBounded(st, batch, oks - 1);
    }
    TimesGrows(oks + 1, FrameCount(LayoutOf(st)) + 1, attempts);
  }

  /** In regular segments with no batch ending at a segment end, one post per record and attempt. */
  lemma InOrderDrainTerminates(st: Store, batch: nat, attempts: nat, oks: nat, sent: nat, bodies: seq<string>, posts: nat)
    requires Sound(st) && batch > 0 && Regular(LayoutOf(st)) && Aligned(LayoutOf(st), batch)
    requires Handed(st, batch, oks, sent, bodies)
    requires posts <= Times(oks + 1, attempts)
    ensures oks <= |View(st)| && posts <= Times(|View(st)| + 1, attempts)
  {
    hide View, Sound, LayoutOf, Regular, Aligned, Rounds, Times, RoundsAreFifo;
    RoundsFifoIff(st, batch);
    if oks > 0 {
      InOrderBounded(st, batch, oks - 1);
    }
    TimesGrows(oks + 1, |View(st)| + 1, attempts);
  }

  lemma {:induction false} TimesGrows(m: nat, n: nat, batch: nat)
    requires m <= n
    ensures Times(m, batch) <= Times(n, batch)
    decreases n
  {
    if m < n { TimesGrows(m, n - 1, batch); }
  }
}
