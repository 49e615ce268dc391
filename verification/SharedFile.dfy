/** The delivery protocol on the bytes of the shared file: interleaved locked operations, by any number of loggers and
    processes, do to the bytes what the protocol's steps do to the list of events (logger.go, buffer.go). */
module SharedFile {
  import opened Basics
  import opened Events
  import opened Merging
  import opened Buffer
  import opened Delivery

  /** What a step does to the bytes. The event of a Track is what a reader will find of the one that was written. If a
      reader will find nothing of it, the step is a TrackUnread. */
  ghost predicate OnBytes(c: Codec, s: State, step: Step, b: seq<Byte>, after: seq<Byte>)
    requires Enabled(s, step)
  {
    match step
    case Track(_, e) =>
      exists raw :: c.Stored(raw) == [e] && AppendFits(c, raw) && after == AppendBytes(c, b, raw)
    case TrackUnread(_) => exists raw :: c.Stored(raw) == [] && AppendFits(c, raw) && after == AppendBytes(c, b, raw)
    case Take(_) => after == []
    case Requeue(f) =>
      var e := s.flights[f].unsent[0];
      c.Fits(e) && after == AppendBytes(c, b, e)
    case Trim(k) => after == TrimBytes(c, b, k)
    case _ => after == b
  }

  /** The bytes hold the protocol's file, and what is in flight reads back as itself once it is put back. */
  ghost predicate Matches(c: Codec, b: seq<Byte>, s: State) {
    Holds(c, b, s.file) && forall f | 0 <= f < |s.flights| :: AllSettled(c, s.flights[f].unsent)
  }

  ghost predicate AllSettled(c: Codec, es: seq<LogEvent>) {
    forall i | 0 <= i < |es| :: c.IsSettled(es[i])
  }

  lemma HeldAreSettled(c: Codec, b: seq<Byte>, q: seq<LogEvent>)
    requires Holds(c, b, q)
    ensures AllSettled(c, q)
  {
  }

  lemma MergedAreSettled(c: Codec, es: seq<LogEvent>)
    requires AllSettled(c, es)
    ensures AllSettled(c, Merge(es))
  {
    hide Merge, Codec.IsSettled;
    forall i | 0 <= i < |Merge(es)| ensures c.IsSettled(Merge(es)[i]) {
      MergedComeFrom(es, i);
      var j :| 0 <= j < |es| && Merge(es)[i] == es[j].WithCount(Merge(es)[i].Count());
      c.SettledIsStored(es[j], Merge(es)[i].Count());
    }
  }

  lemma TrackOnBytes(c: Codec, s: State, step: Step, b: seq<Byte>, after: seq<Byte>)
    requires c.Lawful() && Holds(c, b, s.file) && step.Track? && Enabled(s, step) && OnBytes(c, s, step, b, after)
    ensures Holds(c, after, s.file + [step.e])
  {
    hide Codec.Lawful, Holds, AppendFits, AppendBytes, Codec.Stored;
    var raw :| c.Stored(raw) == [step.e] && AppendFits(c, raw) && after == AppendBytes(c, b, raw);
    AppendHolds(c, b, s.file, raw);
  }

  lemma UnreadOnBytes(c: Codec, s: State, step: Step, b: seq<Byte>, after: seq<Byte>)
    requires c.Lawful() && Holds(c, b, s.file) && step.TrackUnread? && Enabled(s, step) && OnBytes(c, s, step, b, after)
    ensures Holds(c, after, s.file)
  {
    hide Codec.Lawful, Holds, AppendFits, AppendBytes, Codec.Stored;
    var raw :| c.Stored(raw) == [] && AppendFits(c, raw) && after == AppendBytes(c, b, raw);
    AppendHolds(c, b, s.file, raw);
    assert s.file + [] == s.file;
  }

  lemma RequeueOnBytes(c: Codec, s: State, step: Step, b: seq<Byte>, after: seq<Byte>)
    requires c.Lawful() && Matches(c, b, s) && step.Requeue? && Enabled(s, step) && OnBytes(c, s, step, b, after)
    ensures Holds(c, after, s.file + s.flights[step.f].unsent[..1])
  {
    hide Codec.Lawful, Holds, Codec.IsSettled, Codec.Fits, Codec.Stored;
    var unsent := s.flights[step.f].unsent;
    var e := unsent[0];
    c.SettledIsStored(e, e.Count());
    assert unsent[..1] == [e];
    AppendHolds(c, b, s.file, e);
  }

  lemma LastIsRest(q: seq<LogEvent>, k: nat)
    ensures LastOf(q, k) == q[|q| - |LastOf(q, k)|..]
  {
  }

  lemma TrimOnBytes(c: Codec, q: seq<LogEvent>, k: nat, b: seq<Byte>)
    requires c.Lawful() && Holds(c, b, q)
    ensures Holds(c, TrimBytes(c, b, k), q[|q| - |LastOf(q, k)|..])
  {
    hide Holds, Codec.Lawful, TrimBytes, Codec.Fits;
    assert OpFits(c, OpTrim(k));
    StepRefines(c, b, q, OpTrim(k));
    LastIsRest(q, k);
  }

  lemma FlightsStaySettled(c: Codec, b: seq<Byte>, s: State, step: Step)
    requires Matches(c, b, s) && Enabled(s, step)
    ensures var t := Apply(s, step); forall f | 0 <= f < |t.flights| :: AllSettled(c, t.flights[f].unsent)
  {
    hide Merge, Codec.IsSettled, Holds;
    if step.Take? {
      HeldAreSettled(c, b, s.file);
      MergedAreSettled(c, s.file);
    }
  }

  /** Every step, done on bytes that hold the file, leads to bytes that hold the file after the step. */
  lemma StepOnBytes(c: Codec, s: State, step: Step, b: seq<Byte>, after: seq<Byte>)
    requires c.Lawful() && Matches(c, b, s) && Enabled(s, step) && OnBytes(c, s, step, b, after)
    ensures Matches(c, after, Apply(s, step))
  {
    FlightsStaySettled(c, b, s, step);
    hide Codec.Lawful, Holds, AllSettled, Merge;
    match step
    case Track(_, _) => TrackOnBytes(c, s, step, b, after);
    case TrackUnread(_) => UnreadOnBytes(c, s, step, b, after);
    case Take(_) => NothingHeld(c);
    case Requeue(_) => RequeueOnBytes(c, s, step, b, after);
    case Trim(k) => TrimOnBytes(c, s.file, k, b);
    case _ =>
  }

  /** The file's bytes before, between and after the steps of a run. */
  ghost predicate RunsOnBytes(c: Codec, s: State, steps: seq<Step>, bytes: seq<seq<Byte>>)
    decreases |steps|
  {
    && |bytes| == |steps| + 1
    && (steps != [] ==>
          && Enabled(s, steps[0]) && OnBytes(c, s, steps[0], bytes[0], bytes[1])
          && RunsOnBytes(c, Apply(s, steps[0]), steps[1..], bytes[1..]))
  }

  /** Over every interleaving of operations on the bytes there is a run of the protocol, and at its end the file holds
      exactly the events that the protocol says. */
  lemma {:induction false} BytesRefineProtocol(c: Codec, s: State, steps: seq<Step>, bytes: seq<seq<Byte>>)
    returns (t: State)
    requires c.Lawful() && RunsOnBytes(c, s, steps, bytes) && Matches(c, bytes[0], s)
    ensures Runs(s, steps, t) && Matches(c, bytes[|steps|], t)
    decreases |steps|
  {
    hide Codec.Lawful, Matches, OnBytes, Apply, Enabled;
    t := s;
    if steps != [] {
      StepOnBytes(c, s, steps[0], bytes[0], bytes[1]);
      t := BytesRefineProtocol(c, Apply(s, steps[0]), steps[1..], bytes[1..]);
    }
  }

  lemma StartMatches(c: Codec)
    ensures Matches(c, [], START)
  {
    NothingHeld(c);
    hide Holds;
  }

  lemma MatchesFile(c: Codec, b: seq<Byte>, s: State)
    requires Matches(c, b, s)
    ensures Scan(c, b) == s.file
  {
  }

  /** So what was tracked is in the bytes of the file, in flight, acknowledged, trimmed or lost. */
  lemma BytesConserve(c: Codec, steps: seq<Step>, bytes: seq<seq<Byte>>, k: Which) returns (t: State)
    requires c.Lawful() && RunsOnBytes(c, START, steps, bytes) && bytes[0] == []
    ensures Runs(START, steps, t) && Scan(c, bytes[|steps|]) == t.file
    ensures Wrap(Total(t.tracked, k)) ==
            Wrap(Total(Scan(c, bytes[|steps|]), k) + Unsent(t.flights, k) + Total(t.acked, k) + Total(t.trimmed, k)
                 + Total(t.lost, k))
  {
    assert |bytes| == |steps| + 1;
    hide Runs, RunsOnBytes, Total, Scan, Codec.Lawful, Matches, Unsent, Wrap, Holds;
    assert Matches(c, [], START) by { StartMatches(c); }
    t := BytesRefineProtocol(c, START, steps, bytes);
    MatchesFile(c, bytes[|steps|], t);
    Conservation(steps, t, k);
  }
}
