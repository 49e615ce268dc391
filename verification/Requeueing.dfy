/** When putting unsent events back after a failed flush keeps their order, and so is harmless (logger.go). */
module Requeueing {
  import opened Events
  import opened Merging
  import opened Delivery

  /** The events that a step appends to the file. */
  function Appends(s: State, step: Step): seq<LogEvent>
    requires Enabled(s, step)
  {
    match step
    case Track(_, e) => [e]
    case Requeue(f) => s.flights[f].unsent[..1]
    case _ => []
  }

  /** Everything that is appended along a run. */
  function Appended(s: State, steps: seq<Step>): seq<LogEvent>
    decreases |steps|
  {
    if steps == [] || !Enabled(s, steps[0]) then []
    else Appends(s, steps[0]) + Appended(Apply(s, steps[0]), steps[1..])
  }

  /** What flight f puts back along a run. */
  function Requeued(s: State, steps: seq<Step>, f: nat): seq<LogEvent>
    decreases |steps|
  {
    if steps == [] || !Enabled(s, steps[0]) then []
    else
      var rest := Requeued(Apply(s, steps[0]), steps[1..], f);
      if steps[0] == Requeue(f) then Appends(s, steps[0]) + rest else rest
  }

  /** What is appended meanwhile: tracked by any logger, or put back by other flights. */
  function Meanwhile(s: State, steps: seq<Step>, f: nat): seq<LogEvent>
    decreases |steps|
  {
    if steps == [] || !Enabled(s, steps[0]) then []
    else
      var rest := Meanwhile(Apply(s, steps[0]), steps[1..], f);
      if steps[0] == Requeue(f) then rest else Appends(s, steps[0]) + rest
  }

  lemma {:induction false} AppendedIsEither(s: State, steps: seq<Step>, f: nat)
    ensures Meanwhile(s, steps, f) == [] ==> Appended(s, steps) == Requeued(s, steps, f)
    ensures Requeued(s, steps, f) == [] ==> Appended(s, steps) == Meanwhile(s, steps, f)
    decreases |steps|
  {
    hide Apply, Appends;
    if steps != [] && Enabled(s, steps[0]) {
      AppendedIsEither(Apply(s, steps[0]), steps[1..], f);
    }
  }

  /** When flight f puts back the last event of a run, that event is appended last. */
  lemma {:induction false} LastIsRequeued(s: State, steps: seq<Step>, t: State, f: nat)
    requires Runs(s, steps, t) && steps != [] && steps[|steps| - 1] == Requeue(f)
    ensures var own, all := Requeued(s, steps, f), Appended(s, steps);
            own != [] && all != [] && all[|all| - 1] == own[|own| - 1]
    decreases |steps|
  {
    if |steps| == 1 {
      hide Apply;
      assert steps[1..] == [];
    } else {
      hide Apply, Appends, Enabled;
      var mid := Apply(s, steps[0]);
      LastIsRequeued(mid, steps[1..], t, f);
    }
  }

  /** Without takes and trims the file only grows. */
  lemma {:induction false} FileGrows(s: State, steps: seq<Step>, t: State)
    requires Runs(s, steps, t) && forall step | step in steps :: !step.Take? && !step.Trim?
    ensures t.file == s.file + Appended(s, steps)
    decreases |steps|
  {
    if steps == [] {
      assert s.file + [] == s.file;
    } else {
      FileGrows(Apply(s, steps[0]), steps[1..], t);
      StepGrows(s, steps[0]);
      assert s.file + (Appends(s, steps[0]) + Appended(Apply(s, steps[0]), steps[1..])) == t.file;
    }
  }

  lemma StepGrows(s: State, step: Step)
    requires Enabled(s, step) && !step.Take? && !step.Trim?
    ensures Apply(s, step).file == s.file + Appends(s, step)
  {
  }

  predicate LosesNone(steps: seq<Step>, f: nat) {
    Crash(f) !in steps && RequeueFails(f) !in steps
  }

  /** What one step does to a flight that loses nothing by it. */
  lemma StepOfFlight(s: State, step: Step, f: nat) returns (n: nat)
    requires Enabled(s, step) && f < |s.flights| && step != Crash(f) && step != RequeueFails(f)
    ensures var t := Apply(s, step);
            && f < |t.flights| && n <= |s.flights[f].unsent|
            && (s.flights[f].requeueing ==> t.flights[f].requeueing && n == 0)
            && (if step == Requeue(f) then Appends(s, step) + t.flights[f].unsent == s.flights[f].unsent && n == 0
                else t.flights[f].unsent == s.flights[f].unsent[n..])
            && (step == Requeue(f) ==> s.flights[f].requeueing)
  {
    hide Merge;
    n := if step == SendBatch(f) then NextBatch(s.flights[f].unsent) else 0;
    var unsent := s.flights[f].unsent;
    if step == Requeue(f) {
      assert unsent[..1] + unsent[1..] == unsent;
    } else {
      assert unsent[0..] == unsent;
    }
  }

  /** A flight that loses nothing puts back a suffix of what it had, as far as it has come. */
  lemma {:induction false} RequeuedIsSuffix(s: State, steps: seq<Step>, t: State, f: nat) returns (sent: nat)
    requires Runs(s, steps, t) && f < |s.flights| && LosesNone(steps, f)
    ensures f < |t.flights| && sent <= |s.flights[f].unsent|
    ensures s.flights[f].requeueing ==> sent == 0
    ensures Requeued(s, steps, f) + t.flights[f].unsent == s.flights[f].unsent[sent..]
    decreases |steps|
  {
    hide Apply, Appends, Enabled;
    if steps == [] {
      sent := 0;
    } else {
      var step, mid := steps[0], Apply(s, steps[0]);
      assert step in steps && forall x | x in steps[1..] :: x in steps;
      var n := StepOfFlight(s, step, f);
      var rest := RequeuedIsSuffix(mid, steps[1..], t, f);
      sent := n + rest;
      var unsent := s.flights[f].unsent;
      if step == Requeue(f) {
        assert Appends(s, step) + (Requeued(mid, steps[1..], f) + t.flights[f].unsent) == unsent;
      } else {
        assert unsent[n..][rest..] == unsent[sent..];
      }
    }
  }

  predicate LastsDiffer(a: seq<LogEvent>, b: seq<LogEvent>) {
    a != [] && b != [] ==> a[|a| - 1] != b[|b| - 1]
  }

  predicate LastKeysDiffer(a: seq<LogEvent>, b: seq<LogEvent>) {
    a != [] && b != [] ==> Key(a[|a| - 1]) != Key(b[|b| - 1])
  }

  /** The run of one flight: a take, and all that happens until the last of its events was sent or put back,
      during which nobody else takes or trims the file and none of the flight's events is lost. */
  ghost predicate IsFlight(s: State, logger: nat, steps: seq<Step>, t: State) {
    var f := |s.flights|;
    && Enabled(s, Take(logger)) && Runs(Apply(s, Take(logger)), steps, t)
    && (forall step | step in steps :: !step.Take? && !step.Trim?) && LosesNone(steps, f)
    && f < |t.flights| && t.flights[f].unsent == []
    && (Requeued(Apply(s, Take(logger)), steps, f) != [] ==> steps[|steps| - 1] == Requeue(f))
  }

  /** What flight f leaves in the file. */
  lemma FlightLeaves(s: State, logger: nat, steps: seq<Step>, t: State)
    requires IsFlight(s, logger, steps, t)
    ensures var suffix := Requeued(Apply(s, Take(logger)), steps, |s.flights|);
            var between := Meanwhile(Apply(s, Take(logger)), steps, |s.flights|);
            && (between == [] || suffix == [] ==> t.file == suffix + between)
            && (suffix != [] ==> t.file != [] && t.file[|t.file| - 1] == suffix[|suffix| - 1])
  {
    hide Merge, Meanwhile, Requeued, Appended;
    var f, mid := |s.flights|, Apply(s, Take(logger));
    FileGrows(mid, steps, t);
    AppendedIsEither(mid, steps, f);
    assert [] + Appended(mid, steps) == Appended(mid, steps);
    if Requeued(mid, steps, f) != [] {
      NoneRequeued(mid, f);
      LastIsRequeued(mid, steps, t, f);
    }
  }

  lemma NoneRequeued(s: State, f: nat)
    ensures Requeued(s, [], f) == []
  {
  }

  /** What a flight leaves in the file: what it puts back is a suffix of the merged events, and that suffix stands in
      front of what was appended meanwhile if and only if nothing was appended meanwhile or nothing is put back. For
      the "only if", the last event appended meanwhile must not be the very one that is put back last. */
  lemma OrderIsKeptIff(s: State, logger: nat, steps: seq<Step>, t: State) returns (sent: nat)
    requires IsFlight(s, logger, steps, t)
    ensures sent <= |Merge(s.file)| && Requeued(Apply(s, Take(logger)), steps, |s.flights|) == Merge(s.file)[sent..]
    ensures var suffix, between := Merge(s.file)[sent..], Meanwhile(Apply(s, Take(logger)), steps, |s.flights|);
            && (between == [] || suffix == [] ==> t.file == suffix + between)
            && (LastsDiffer(between, suffix) && t.file == suffix + between ==> between == [] || suffix == [])
  {
    hide Merge, Meanwhile, Requeued, Appended;
    var f, mid := |s.flights|, Apply(s, Take(logger));
    sent := RequeuedIsSuffix(mid, steps, t, f);
    var suffix, between := Merge(s.file)[sent..], Meanwhile(mid, steps, f);
    assert Requeued(mid, steps, f) == suffix;
    FlightLeaves(s, logger, steps, t);
    if between != [] && suffix != [] {
      assert (suffix + between)[|suffix + between| - 1] == between[|between| - 1];
    }
  }

  lemma MergesDiffer(file: seq<LogEvent>, suffix: seq<LogEvent>, between: seq<LogEvent>)
    requires file != [] && suffix != [] && between != [] && file[|file| - 1] == suffix[|suffix| - 1]
    requires LastKeysDiffer(between, suffix)
    ensures Merge(file) != Merge(suffix + between)
  {
    hide Merge, Key;
    LastMergedKey(file);
    LastMergedKey(suffix + between);
  }

  /** The merge of everything, from its sent-th event on, is what the next flush would have had in the original
      order. */
  predicate IsRestOfMerge(rest: seq<LogEvent>, all: seq<LogEvent>, sent: nat) {
    sent <= |Merge(all)| && rest == Merge(all)[sent..]
  }

  /** The same for the next merge: unless the last event appended meanwhile has the key of the one put back last, it
      yields what it would yield in the original order if and only if nothing was appended meanwhile or nothing is put
      back. */
  lemma NextMergeIff(s: State, logger: nat, steps: seq<Step>, t: State, sent: nat)
    requires IsFlight(s, logger, steps, t)
    requires sent <= |Merge(s.file)| && Requeued(Apply(s, Take(logger)), steps, |s.flights|) == Merge(s.file)[sent..]
    ensures var suffix, between := Merge(s.file)[sent..], Meanwhile(Apply(s, Take(logger)), steps, |s.flights|);
            && (between == [] || suffix == [] ==> Merge(t.file) == Merge(suffix + between))
            && (LastKeysDiffer(between, suffix) && Merge(t.file) == Merge(suffix + between) ==>
                  between == [] || suffix == [])
  {
    var f, mid := |s.flights|, Apply(s, Take(logger));
    var suffix, between := Merge(s.file)[sent..], Meanwhile(mid, steps, f);
    hide Merge, Meanwhile, Requeued, IsFlight, LastKeysDiffer;
    FlightLeaves(s, logger, steps, t);
    if between != [] && suffix != [] && LastKeysDiffer(between, suffix) {
      MergesDiffer(t.file, suffix, between);
    }
  }

  /** And when nothing was appended meanwhile, it yields, whatever is tracked later, what one merge of everything would
      have left to send after the events that were sent. */
  lemma UndisturbedRequeueIsHarmless(
    s: State, logger: nat, steps: seq<Step>, t: State, sent: nat, later: seq<LogEvent>)
    requires IsFlight(s, logger, steps, t) && Meanwhile(Apply(s, Take(logger)), steps, |s.flights|) == []
    requires sent < |Merge(s.file)| && Requeued(Apply(s, Take(logger)), steps, |s.flights|) == Merge(s.file)[sent..]
    ensures IsRestOfMerge(Merge(t.file + later), s.file + later, sent)
  {
    var f, mid := |s.flights|, Apply(s, Take(logger));
    hide Merge, Meanwhile, Requeued, Appended;
    FlightLeaves(s, logger, steps, t);
    assert Merge(s.file)[sent..] + [] == Merge(s.file)[sent..];
    RequeueIsHarmless(s.file, sent, later);
  }
}
