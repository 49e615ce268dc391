/** The delivery protocol over every interleaving. Any number of loggers, in any number of processes,
    share one event file. A step is one locked buffer operation or one batch sent
    (logger.go, buffer.go, client.go). Events are those that a reader of the file finds. */
module Delivery {
  import opened Basics
  import opened Events
  import opened Merging
  import Client

  /** One call of Flush: the merged events not yet acknowledged, which it is sending, or, after a
      batch failed, putting back one by one while it holds its logger's mutex. */
  datatype Flight = Flight(logger: nat, unsent: seq<LogEvent>, requeueing: bool)

  datatype State = State(
    file: seq<LogEvent>,
    flights: seq<Flight>,
    tracked: seq<LogEvent>,
    acked: seq<LogEvent>,
    trimmed: seq<LogEvent>,
    lost: seq<LogEvent>)

  const START := State([], [], [], [], [], [])

  /** TrackUnread writes a line that no reader can decode, or nothing at all. */
  datatype Step =
    | Track(logger: nat, e: LogEvent)
    | TrackUnread(logger: nat)
    | Take(logger: nat)
    | SendBatch(f: nat)
    | SendFails(f: nat)
    | Requeue(f: nat)
    | RequeueFails(f: nat)
    | Trim(maxSize: nat)
    | Crash(f: nat)

  predicate MutexFree(s: State, logger: nat) {
    forall f | f in s.flights :: f.logger == logger && f.requeueing ==> f.unsent == []
  }

  predicate InFlight(s: State, f: nat) {
    f < |s.flights| && s.flights[f].unsent != []
  }

  predicate Enabled(s: State, step: Step) {
    match step
    case Track(l, e) => MutexFree(s, l) && e.Count() == 1
    case TrackUnread(l) => MutexFree(s, l)
    case Take(l) => MutexFree(s, l)
    case SendBatch(f) => InFlight(s, f) && !s.flights[f].requeueing
    case SendFails(f) => InFlight(s, f) && !s.flights[f].requeueing && MutexFree(s, s.flights[f].logger)
    case Requeue(f) => InFlight(s, f) && s.flights[f].requeueing
    case RequeueFails(f) => InFlight(s, f) && s.flights[f].requeueing
    case Trim(_) => true
    case Crash(f) => InFlight(s, f)
  }

  function NextBatch(unsent: seq<LogEvent>): (n: nat)
    ensures n <= |unsent|
  {
    Min(Client.MAX_BATCH_SIZE, |unsent|)
  }

  /** The flight after its first n events have left it. */
  function Advance(s: State, f: nat, n: nat): seq<Flight>
    requires f < |s.flights| && n <= |s.flights[f].unsent|
  {
    s.flights[f := s.flights[f].(unsent := s.flights[f].unsent[n..])]
  }

  function Apply(s: State, step: Step): State
    requires Enabled(s, step)
  {
    match step
    case Track(l, e) => s.(file := s.file + [e], tracked := s.tracked + [e])
    case TrackUnread(_) => s
    case Take(l) => s.(file := [], flights := s.flights + [Flight(l, Merge(s.file), false)])
    case SendBatch(f) =>
      var n := NextBatch(s.flights[f].unsent);
      s.(flights := Advance(s, f, n), acked := s.acked + s.flights[f].unsent[..n])
    case SendFails(f) => s.(flights := s.flights[f := s.flights[f].(requeueing := true)])
    case Requeue(f) => s.(flights := Advance(s, f, 1), file := s.file + s.flights[f].unsent[..1])
    case RequeueFails(f) => s.(flights := Advance(s, f, 1), lost := s.lost + s.flights[f].unsent[..1])
    case Trim(k) =>
      var n := |s.file| - |LastOf(s.file, k)|;
      s.(file := s.file[n..], trimmed := s.trimmed + s.file[..n])
    case Crash(f) =>
      var n := |s.flights[f].unsent|;
      s.(flights := Advance(s, f, n), lost := s.lost + s.flights[f].unsent[..n])
  }

  /** steps, each enabled where it is taken, lead from s to t. */
  predicate Runs(s: State, steps: seq<Step>, t: State)
    decreases |steps|
  {
    if steps == [] then t == s
    else Enabled(s, steps[0]) && Runs(Apply(s, steps[0]), steps[1..], t)
  }

  lemma {:induction false} RunsConcat(s: State, a: seq<Step>, t: State, b: seq<Step>, u: State)
    requires Runs(s, a, t) && Runs(t, b, u)
    ensures Runs(s, a + b, u)
    decreases |a|
  {
    hide Enabled, Apply;
    if a == [] {
      assert a + b == b;
    } else {
      RunsConcat(Apply(s, a[0]), a[1..], t, b, u);
      assert (a + b)[1..] == a[1..] + b;
    }
  }

  /** A trim leaves the last min(n, k) events of the file and moves the ones before them out of it. */
  lemma TrimKeepsLast(s: State, k: nat)
    ensures Enabled(s, Trim(k))
    ensures var t, n := Apply(s, Trim(k)), Min(|s.file|, k);
            && |t.file| == n && t.file == s.file[|s.file| - n..]
            && t.trimmed == s.trimmed + s.file[..|s.file| - n]
            && t.acked == s.acked && t.lost == s.lost && t.tracked == s.tracked && t.flights == s.flights
  {
  }

  // ---------- Where the counts are ----------

  function Unsent(flights: seq<Flight>, k: Which): int {
    if flights == [] then 0
    else Unsent(flights[..|flights| - 1], k) + Total(flights[|flights| - 1].unsent, k)
  }

  /** Buffered, in flight, acknowledged, trimmed away or lost. */
  function Everywhere(s: State, k: Which): int {
    Total(s.file, k) + Unsent(s.flights, k) + Total(s.acked, k) + Total(s.trimmed, k) + Total(s.lost, k)
  }

  lemma {:induction false} UnsentUpdate(flights: seq<Flight>, f: nat, x: Flight, k: Which)
    requires f < |flights|
    ensures Unsent(flights[f := x], k) == Unsent(flights, k) - Total(flights[f].unsent, k) + Total(x.unsent, k)
  {
    var n := |flights| - 1;
    if f < n {
      UnsentUpdate(flights[..n], f, x, k);
      assert flights[f := x][..n] == flights[..n][f := x];
    } else {
      assert flights[f := x][..n] == flights[..n];
    }
  }

  lemma AdvanceUnsent(s: State, f: nat, n: nat, k: Which)
    requires f < |s.flights| && n <= |s.flights[f].unsent|
    ensures Unsent(Advance(s, f, n), k) == Unsent(s.flights, k) - Total(s.flights[f].unsent[..n], k)
  {
    hide Total;
    UnsentUpdate(s.flights, f, s.flights[f].(unsent := s.flights[f].unsent[n..]), k);
    TotalSplit(s.flights[f].unsent, n, k);
  }

  lemma UnsentOneMore(flights: seq<Flight>, x: Flight, k: Which)
    ensures Unsent(flights + [x], k) == Unsent(flights, k) + Total(x.unsent, k)
  {
    assert (flights + [x])[..|flights|] == flights;
  }

  /** A step other than Take moves whole events from one place to another. */
  lemma StepMoves(s: State, step: Step, k: Which)
    requires Enabled(s, step) && !step.Take?
    ensures var t := Apply(s, step);
            Everywhere(t, k) - Total(t.tracked, k) == Everywhere(s, k) - Total(s.tracked, k)
  {
    hide Total, Unsent;
    match step
    case Track(_, e) =>
      TotalConcat(s.file, [e], k);
      TotalConcat(s.tracked, [e], k);
    case TrackUnread(_) =>
    case SendBatch(f) =>
      var n := NextBatch(s.flights[f].unsent);
      AdvanceUnsent(s, f, n, k);
      TotalConcat(s.acked, s.flights[f].unsent[..n], k);
    case SendFails(f) =>
      UnsentUpdate(s.flights, f, s.flights[f].(requeueing := true), k);
    case Requeue(f) =>
      AdvanceUnsent(s, f, 1, k);
      TotalConcat(s.file, s.flights[f].unsent[..1], k);
    case RequeueFails(f) =>
      AdvanceUnsent(s, f, 1, k);
      TotalConcat(s.lost, s.flights[f].unsent[..1], k);
    case Trim(m) =>
      var n := |s.file| - |LastOf(s.file, m)|;
      TotalSplit(s.file, n, k);
      TotalConcat(s.trimmed, s.file[..n], k);
    case Crash(f) =>
      var n := |s.flights[f].unsent|;
      AdvanceUnsent(s, f, n, k);
      TotalConcat(s.lost, s.flights[f].unsent[..n], k);
  }

  lemma TakeUnsent(s: State, l: nat, k: Which)
    requires Enabled(s, Take(l))
    ensures var t := Apply(s, Take(l));
            && Everywhere(t, k) == Everywhere(s, k) - Total(s.file, k) + Total(Merge(s.file), k)
            && t.tracked == s.tracked
  {
    hide Total;
    UnsentOneMore(s.flights, Flight(l, Merge(s.file), false), k);
    assert Total([], k) == 0 by { TotalOfNone(k); }
  }

  lemma TotalOfNone(k: Which)
    ensures Total([], k) == 0
  {
  }

  // ---------- Conservation ----------

  /** Up to the wrap-around of a 64-bit count, what was tracked is somewhere, exactly once. */
  predicate Conserved(s: State, k: Which) {
    Wrap(Total(s.tracked, k)) == Wrap(Everywhere(s, k))
  }

  lemma StepConserves(s: State, step: Step, k: Which)
    requires Enabled(s, step) && Conserved(s, k)
    ensures Conserved(Apply(s, step), k)
  {
    hide Total, Everywhere, Wrap;
    var t := Apply(s, step);
    if step.Take? {
      TakeUnsent(s, step.logger, k);
      MergeOntoConserves([], s.file, k);
      TotalOfNone(k);
      WrapCongruent(Total(Merge(s.file), k), Total(s.file, k), Everywhere(s, k) - Total(s.file, k));
    } else {
      StepMoves(s, step, k);
      WrapCongruent(Total(s.tracked, k), Everywhere(s, k), Total(t.tracked, k) - Total(s.tracked, k));
    }
  }

  lemma {:induction false} RunConserves(s: State, steps: seq<Step>, t: State, k: Which)
    requires Runs(s, steps, t) && Conserved(s, k)
    ensures Conserved(t, k)
    decreases |steps|
  {
    hide Conserved;
    if steps != [] {
      StepConserves(s, steps[0], k);
      RunConserves(Apply(s, steps[0]), steps[1..], t, k);
    }
  }

  /** Over every interleaving, for every event key: tracked = buffered + in flight + acknowledged + trimmed + lost. */
  lemma Conservation(steps: seq<Step>, s: State, k: Which)
    requires Runs(START, steps, s)
    ensures Conserved(s, k)
  {
    TotalOfNone(k);
    RunConserves(START, steps, s, k);
  }

  // ---------- Exact conservation as long as the counts fit ----------

  predicate Positive(s: State, k: Which) {
    && AllPositive(s.file, k) && AllPositive(s.acked, k) && AllPositive(s.trimmed, k) && AllPositive(s.lost, k)
    && AllPositive(s.tracked, k) && forall f | 0 <= f < |s.flights| :: AllPositive(s.flights[f].unsent, k)
  }

  predicate Exact(s: State, k: Which) {
    Positive(s, k) && Total(s.tracked, k) == Everywhere(s, k)
  }

  lemma {:induction false} UnsentNonNegative(flights: seq<Flight>, k: Which)
    requires forall f | 0 <= f < |flights| :: AllPositive(flights[f].unsent, k)
    ensures Unsent(flights, k) >= 0
  {
    hide AllPositive;
    if flights != [] {
      UnsentNonNegative(flights[..|flights| - 1], k);
      TotalNonNegative(flights[|flights| - 1].unsent, k);
    }
  }

  /** In an exact state every part is at most the whole. */
  lemma PartsAreBounded(s: State, k: Which)
    requires Exact(s, k)
    ensures 0 <= Total(s.file, k) <= Total(s.tracked, k)
    ensures 0 <= Total(s.acked, k) <= Total(s.tracked, k)
  {
    hide Total, AllPositive;
    TotalNonNegative(s.file, k);
    TotalNonNegative(s.acked, k);
    TotalNonNegative(s.trimmed, k);
    TotalNonNegative(s.lost, k);
    UnsentNonNegative(s.flights, k);
  }

  lemma StepIsPositive(s: State, step: Step, k: Which)
    requires Enabled(s, step) && !step.Take? && Positive(s, k)
    ensures Positive(Apply(s, step), k)
  {
    hide Total, Merge, AllPositive;
    match step
    case Track(_, e) =>
      PositiveParts(s.file, e, k);
      PositiveParts(s.tracked, e, k);
    case SendBatch(f) => PositiveMoved(s.flights[f].unsent, s.acked, NextBatch(s.flights[f].unsent), k);
    case SendFails(_) =>
    case Requeue(f) => PositiveMoved(s.flights[f].unsent, s.file, 1, k);
    case RequeueFails(f) => PositiveMoved(s.flights[f].unsent, s.lost, 1, k);
    case Trim(m) => PositiveMoved(s.file, s.trimmed, |s.file| - |LastOf(s.file, m)|, k);
    case Crash(f) => PositiveMoved(s.flights[f].unsent, s.lost, |s.flights[f].unsent|, k);
    case TrackUnread(_) =>
  }

  /** Moving the first n events to the end of another list keeps both positive. */
  lemma PositiveMoved(from: seq<LogEvent>, to: seq<LogEvent>, n: nat, k: Which)
    requires AllPositive(from, k) && AllPositive(to, k) && n <= |from|
    ensures AllPositive(from[n..], k) && AllPositive(to + from[..n], k)
  {
    hide Key, Picks;
  }

  lemma StepIsExact(s: State, step: Step, k: Which)
    requires Enabled(s, step) && Exact(s, k) && Total(s.tracked, k) <= MAX_INT
    ensures Exact(Apply(s, step), k)
  {
    if step.Take? {
      hide Total, Everywhere, AllPositive;
      TakeUnsent(s, step.logger, k);
      PartsAreBounded(s, k);
      TotalOfNone(k);
      NonePositive(k);
      MergeOntoExact([], s.file, k);
    } else {
      hide Total, Everywhere, Positive;
      StepIsPositive(s, step, k);
      StepMoves(s, step, k);
    }
  }

  lemma NonePositive(k: Which)
    ensures AllPositive([], k)
  {
  }

  lemma TrackedGrows(s: State, step: Step, k: Which)
    requires Enabled(s, step)
    ensures Total(Apply(s, step).tracked, k) >= Total(s.tracked, k)
  {
    if step.Track? {
      TotalOneMore(s.tracked, step.e, k);
    }
  }

  lemma {:induction false} RunIsExact(s: State, steps: seq<Step>, t: State, k: Which)
    requires Runs(s, steps, t) && Exact(s, k) && Total(t.tracked, k) <= MAX_INT
    ensures Exact(t, k)
    decreases |steps|
  {
    hide Total, Exact;
    if steps != [] {
      var mid := Apply(s, steps[0]);
      RunTrackedGrows(mid, steps[1..], t, k);
      TrackedGrows(s, steps[0], k);
      StepIsExact(s, steps[0], k);
      RunIsExact(mid, steps[1..], t, k);
    }
  }

  lemma {:induction false} RunTrackedGrows(s: State, steps: seq<Step>, t: State, k: Which)
    requires Runs(s, steps, t)
    ensures Total(t.tracked, k) >= Total(s.tracked, k)
    decreases |steps|
  {
    hide Total;
    if steps != [] {
      TrackedGrows(s, steps[0], k);
      RunTrackedGrows(Apply(s, steps[0]), steps[1..], t, k);
    }
  }

  /** As long as a key's own total fits an int, its conservation is exact, each of its counts is positive,
      and so no unit of it is acknowledged twice: at most what was tracked is acknowledged. */
  lemma ExactConservation(steps: seq<Step>, s: State, k: Which)
    requires Runs(START, steps, s) && Total(s.tracked, k) <= MAX_INT
    ensures Positive(s, k) && Total(s.tracked, k) == Everywhere(s, k)
    ensures Total(s.acked, k) <= Total(s.tracked, k)
  {
    TotalOfNone(k);
    RunIsExact(START, steps, s, k);
    PartsAreBounded(s, k);
  }

  /** Once nothing is buffered or in flight, and nothing was trimmed or lost, the key's count is acknowledged in
      full. */
  lemma EverythingIsDelivered(steps: seq<Step>, s: State, k: Which)
    requires Runs(START, steps, s) && Total(s.tracked, k) <= MAX_INT
    requires s.file == [] && s.trimmed == [] && s.lost == [] && forall f | f in s.flights :: f.unsent == []
    ensures Total(s.acked, k) == Total(s.tracked, k)
  {
    ExactConservation(steps, s, k);
    NothingUnsent(s.flights, k);
  }

  lemma {:induction false} NothingUnsent(flights: seq<Flight>, k: Which)
    requires forall f | f in flights :: f.unsent == []
    ensures Unsent(flights, k) == 0
  {
    if flights != [] {
      NothingUnsent(flights[..|flights| - 1], k);
    }
  }

  // ---------- Nothing is invented ----------

  predicate AreTracked(es: seq<LogEvent>, tracked: seq<LogEvent>) {
    forall i | 0 <= i < |es| :: IsTracked(es[i], tracked)
  }

  /** e differs from some tracked event in time and count only. */
  predicate IsTracked(e: LogEvent, tracked: seq<LogEvent>) {
    exists t :: t in tracked && Key(t) == Key(e)
  }

  predicate AllTracked(s: State) {
    && AreTracked(s.file, s.tracked) && AreTracked(s.acked, s.tracked)
    && AreTracked(s.trimmed, s.tracked) && AreTracked(s.lost, s.tracked)
    && forall f | 0 <= f < |s.flights| :: AreTracked(s.flights[f].unsent, s.tracked)
  }

  lemma StillTracked(es: seq<LogEvent>, tracked: seq<LogEvent>, e: LogEvent)
    requires AreTracked(es, tracked)
    ensures AreTracked(es, tracked + [e])
  {
    hide Key;
    forall i | 0 <= i < |es| ensures IsTracked(es[i], tracked + [e]) {
      assert IsTracked(es[i], tracked);
      var t :| t in tracked && Key(t) == Key(es[i]);
      assert t in tracked + [e];
    }
  }

  lemma MergedAreTracked(es: seq<LogEvent>, tracked: seq<LogEvent>)
    requires AreTracked(es, tracked)
    ensures AreTracked(Merge(es), tracked)
  {
    hide Key, Merge;
    forall i | 0 <= i < |Merge(es)| ensures IsTracked(Merge(es)[i], tracked) {
      MergedKeysComeFrom(es, Merge(es)[i]);
      var e :| e in es && Key(e) == Key(Merge(es)[i]);
      var j :| 0 <= j < |es| && es[j] == e;
      assert IsTracked(es[j], tracked);
    }
  }

  lemma StepKeepsTracked(s: State, step: Step)
    requires Enabled(s, step) && AllTracked(s)
    ensures AllTracked(Apply(s, step))
  {
    hide Merge, Key;
    match step
    case Track(_, e) =>
      hide AreTracked;
      NewIsTracked(s.tracked, e);
      StillTracked(s.file, s.tracked, e);
      OneMoreTracked(s.file, e, s.tracked + [e]);
      StillTracked(s.acked, s.tracked, e);
      StillTracked(s.trimmed, s.tracked, e);
      StillTracked(s.lost, s.tracked, e);
      forall f | 0 <= f < |s.flights| ensures AreTracked(s.flights[f].unsent, s.tracked + [e]) {
        StillTracked(s.flights[f].unsent, s.tracked, e);
      }
    case Take(_) => MergedAreTracked(s.file, s.tracked);
    case _ => hide IsTracked;
  }

  lemma NewIsTracked(tracked: seq<LogEvent>, e: LogEvent)
    ensures IsTracked(e, tracked + [e])
  {
    hide Key;
    var all := tracked + [e];
    assert all[|tracked|] == e;
    assert e in all && Key(e) == Key(e);
  }

  lemma OneMoreTracked(es: seq<LogEvent>, e: LogEvent, tracked: seq<LogEvent>)
    requires AreTracked(es, tracked) && IsTracked(e, tracked)
    ensures AreTracked(es + [e], tracked)
  {
    hide IsTracked;
  }

  lemma {:induction false} RunKeepsTracked(s: State, steps: seq<Step>, t: State)
    requires Runs(s, steps, t) && AllTracked(s)
    ensures AllTracked(t)
    decreases |steps|
  {
    hide AllTracked;
    if steps != [] {
      StepKeepsTracked(s, steps[0]);
      RunKeepsTracked(Apply(s, steps[0]), steps[1..], t);
    }
  }

  /** Over every run, whatever the counts: an event that is acknowledged, or anywhere else, differs from some tracked
      event in time and count only. */
  lemma AckedWasTracked(steps: seq<Step>, s: State)
    requires Runs(START, steps, s)
    ensures AllTracked(s)
    ensures forall e | e in s.acked :: exists t :: t in s.tracked && SameButTimeAndCount(t, e)
  {
    RunKeepsTracked(START, steps, s);
    hide Key, SameButTimeAndCount;
    forall e | e in s.acked ensures exists t :: t in s.tracked && SameButTimeAndCount(t, e) {
      var i :| 0 <= i < |s.acked| && s.acked[i] == e;
      assert IsTracked(s.acked[i], s.tracked);
      var t :| t in s.tracked && Key(t) == Key(e);
      CanMergeMeansSameKey(t, e);
    }
  }

  // ---------- The mutex ----------

  /** A logger puts back the events of one failed flush at a time. */
  predicate OneRequeuer(s: State) {
    forall i, j | 0 <= i < j < |s.flights| && s.flights[i].requeueing && s.flights[j].requeueing ::
      s.flights[i].logger == s.flights[j].logger ==> s.flights[i].unsent == [] || s.flights[j].unsent == []
  }

  lemma {:induction false} RunKeepsOneRequeuer(s: State, steps: seq<Step>, t: State)
    requires Runs(s, steps, t) && OneRequeuer(s)
    ensures OneRequeuer(t)
    decreases |steps|
  {
    if steps != [] {
      StepKeepsOneRequeuer(s, steps[0]);
      RunKeepsOneRequeuer(Apply(s, steps[0]), steps[1..], t);
    }
  }

  lemma StepKeepsOneRequeuer(s: State, step: Step)
    requires Enabled(s, step) && OneRequeuer(s)
    ensures OneRequeuer(Apply(s, step))
  {
    hide Merge, Total;
  }

  // ---------- A flush that runs undisturbed ----------

  lemma {:induction false} SendsRun(s: State, f: nat, n: nat) returns (steps: seq<Step>)
    requires f < |s.flights| && !s.flights[f].requeueing && n <= |s.flights[f].unsent|
    requires n == |s.flights[f].unsent| || n % Client.MAX_BATCH_SIZE == 0
    ensures Runs(s, steps, s.(flights := Advance(s, f, n), acked := s.acked + s.flights[f].unsent[..n]))
    decreases n
  {
    if n == 0 {
      steps := [];
      assert Advance(s, f, 0) == s.flights && s.acked + [] == s.acked;
    } else {
      var unsent := s.flights[f].unsent;
      var m := NextBatch(unsent);
      var s' := Apply(s, SendBatch(f));
      hide Merge;
      var rest := SendsRun(s', f, n - m);
      steps := [SendBatch(f)] + rest;
      SentInTwo(s.acked, unsent, m, n);
      AdvanceInTwo(s, f, m, n);
    }
  }

  lemma SentInTwo(acked: seq<LogEvent>, unsent: seq<LogEvent>, m: nat, n: nat)
    requires m <= n <= |unsent|
    ensures acked + unsent[..m] + unsent[m..][..n - m] == acked + unsent[..n]
  {
    assert unsent[..n] == unsent[..m] + unsent[m..][..n - m];
  }

  lemma AdvanceInTwo(s: State, f: nat, m: nat, n: nat)
    requires f < |s.flights| && m <= n <= |s.flights[f].unsent|
    ensures var t := s.(flights := Advance(s, f, m));
            |t.flights[f].unsent| == |s.flights[f].unsent| - m && Advance(t, f, n - m) == Advance(s, f, n)
  {
    var unsent := s.flights[f].unsent;
    assert unsent[m..][n - m..] == unsent[n..];
  }

  lemma {:induction false} RequeuesRun(s: State, f: nat) returns (steps: seq<Step>)
    requires f < |s.flights| && s.flights[f].requeueing
    ensures var n := |s.flights[f].unsent|;
            Runs(s, steps, s.(flights := Advance(s, f, n), file := s.file + s.flights[f].unsent))
    decreases |s.flights[f].unsent|
  {
    var unsent := s.flights[f].unsent;
    if unsent == [] {
      steps := [];
      assert Advance(s, f, 0) == s.flights && s.file + [] == s.file;
    } else {
      var s' := Apply(s, Requeue(f));
      var rest := RequeuesRun(s', f);
      steps := [Requeue(f)] + rest;
      assert Advance(s', f, |unsent| - 1) == Advance(s, f, |unsent|);
      assert s'.file + unsent[1..] == s.file + unsent;
    }
  }

  /** What Flush does when nothing interleaves with it and `sent` events were acknowledged. */
  function AfterFlush(s: State, logger: nat, sent: nat): State
    requires sent <= |Merge(s.file)|
  {
    var merged := Merge(s.file);
    s.(acked := s.acked + merged[..sent], file := merged[sent..],
       flights := s.flights + [Flight(logger, [], sent < |merged|)])
  }

  /** Taking the file, sending batches and putting back the rest is a run of the protocol. */
  lemma FlushIsARun(s: State, logger: nat, sent: nat) returns (steps: seq<Step>)
    requires MutexFree(s, logger) && sent <= |Merge(s.file)|
    requires sent == |Merge(s.file)| || sent % Client.MAX_BATCH_SIZE == 0
    ensures Runs(s, steps, AfterFlush(s, logger, sent))
  {
    hide Merge;
    var merged, f := Merge(s.file), |s.flights|;
    var s1 := Apply(s, Take(logger));
    var sends := SendsRun(s1, f, sent);
    var s2 := s1.(flights := Advance(s1, f, sent), acked := s1.acked + merged[..sent]);
    steps := [Take(logger)] + sends;
    assert Runs(s, steps, s2);
    assert s2.flights == s.flights + [Flight(logger, merged[sent..], false)];
    if sent == |merged| {
      assert s2 == AfterFlush(s, logger, sent);
    } else {
      var s3 := Apply(s2, SendFails(f));
      var requeues := RequeuesRun(s3, f);
      assert Advance(s3, f, |merged| - sent) == AfterFlush(s, logger, sent).flights;
      assert s3.file + merged[sent..] == merged[sent..];
      var back := [SendFails(f)] + requeues;
      assert Runs(s2, back, AfterFlush(s, logger, sent));
      RunsConcat(s, steps, s2, back, AfterFlush(s, logger, sent));
      steps := steps + back;
    }
  }

  lemma OneStep(s: State, step: Step, mid: State, steps: seq<Step>, t: State)
    requires Enabled(s, step) && Apply(s, step) == mid && Runs(mid, steps, t)
    ensures Runs(s, [step] + steps, t)
  {
    hide Enabled, Apply;
    assert ([step] + steps)[1..] == steps;
  }

  /** Events tracked while a batch is being sent overtake the ones that are put back after it fails. */
  lemma RequeueMayReorder(a: LogEvent, b: LogEvent) returns (steps: seq<Step>, t: State)
    requires a.Count() == 1 && b.Count() == 1
    ensures Runs(START, steps, t) && t.tracked == [a, b] && t.file == [b, a]
  {
    MergeOfOne([a]);
    hide Merge, Runs;
    var s1 := State([a], [], [a], [], [], []);
    var s2 := State([], [Flight(0, [a], false)], [a], [], [], []);
    var s3 := State([b], [Flight(0, [a], false)], [a, b], [], [], []);
    var s4 := State([b], [Flight(0, [a], true)], [a, b], [], [], []);
    t := State([b, a], [Flight(0, [], true)], [a, b], [], [], []);
    steps := [];
    assert Runs(t, steps, t) by { NoStep(t); }
    assert Enabled(s4, Requeue(0)) && Apply(s4, Requeue(0)) == t by {
      assert [a][..1] == [a] && [a][1..] == [] && [b] + [a] == [b, a];
    }
    OneStep(s4, Requeue(0), t, steps, t);
    steps := [Requeue(0)] + steps;
    OneStep(s3, SendFails(0), s4, steps, t);
    steps := [SendFails(0)] + steps;
    OneStep(s2, Track(0, b), s3, steps, t);
    steps := [Track(0, b)] + steps;
    OneStep(s1, Take(0), s2, steps, t);
    steps := [Take(0)] + steps;
    OneStep(START, Track(0, a), s1, steps, t);
    steps := [Track(0, a)] + steps;
  }

  lemma NoStep(s: State)
    ensures Runs(s, [], s)
  {
  }
}
