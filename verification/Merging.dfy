/** Run-length merging of consecutive equal events (logger.go). */
module Merging {
  import opened Basics
  import opened Events

  /** maps.Equal: a nil map and an empty one are equal. */
  predicate SameIDs(a: Option<map<string, string>>, b: Option<map<string, string>>) {
    Entries(a) == Entries(b)
  }

  function Entries(m: Option<map<string, string>>): map<string, string> {
    if m.None? then map[] else m.value
  }

  predicate CanMerge(a: LogEvent, b: LogEvent) {
    && a.recorder == b.recorder
    && a.product == b.product
    && a.internal == b.internal
    && a.build == b.build
    && a.session == b.session
    && a.group == b.group
    && a.bucket == b.bucket
    && a.event.id == b.event.id
    && SameIDs(a.ids, b.ids)
    && a.event.data == b.event.data
    && a.systemData == b.systemData
    && a.clientData == b.clientData
  }

  /** Everything that identifies an event: all of it but time and count, with nil ids read as none. */
  function Key(e: LogEvent): LogEvent {
    e.(time := 0, ids := Some(Entries(e.ids)), event := e.event.(count := 0))
  }

  predicate NoIDs(ids: Option<map<string, string>>) {
    ids == None || ids == Some(map[])
  }

  /** Giving a the time and the count of b, and its kind of empty IDs if neither has any, makes it b. */
  predicate SameButTimeAndCount(a: LogEvent, b: LogEvent) {
    && (a.ids == b.ids || (NoIDs(a.ids) && NoIDs(b.ids)))
    && a.(time := b.time, ids := b.ids, event := a.event.(count := b.event.count)) == b
  }

  /** Events can be merged, and have the same key, exactly when they are the same but for time and count. */
  lemma CanMergeMeansSameKey(a: LogEvent, b: LogEvent)
    ensures CanMerge(a, b) <==> SameButTimeAndCount(a, b)
    ensures Key(a) == Key(b) <==> SameButTimeAndCount(a, b)
  {
    assert SameIDs(a.ids, b.ids) <==> a.ids == b.ids || (NoIDs(a.ids) && NoIDs(b.ids));
    if Key(a) == Key(b) {
      assert a.recorder == Key(a).recorder && b.recorder == Key(b).recorder;
      assert Some(Entries(a.ids)) == Key(a).ids;
      SameKeySameEvent(a, b);
    }
  }

  lemma SameKeySameEvent(a: LogEvent, b: LogEvent)
    requires Key(a) == Key(b)
    ensures a.product == b.product && a.internal == b.internal && a.build == b.build && a.session == b.session
    ensures a.group == b.group && a.bucket == b.bucket && a.event.id == b.event.id && a.event.data == b.event.data
    ensures a.systemData == b.systemData && a.clientData == b.clientData && a.recorder == b.recorder
  {
    assert a.product == Key(a).product && a.internal == Key(a).internal && a.build == Key(a).build;
    assert a.session == Key(a).session && a.group == Key(a).group && a.bucket == Key(a).bucket;
    assert a.event.id == Key(a).event.id && a.event.data == Key(a).event.data;
  }

  function Absorb(a: LogEvent, b: LogEvent): LogEvent {
    a.WithCount(Wrap(a.Count() + b.Count()))
  }

  /** One more event after the merged list so far. */
  function MergeInto(merged: seq<LogEvent>, e: LogEvent): seq<LogEvent> {
    var n := |merged|;
    if n > 0 && Key(merged[n - 1]) == Key(e) then merged[n - 1 := Absorb(merged[n - 1], e)] else merged + [e]
  }

  function MergeOnto(merged: seq<LogEvent>, events: seq<LogEvent>): seq<LogEvent> {
    if events == [] then merged
    else MergeInto(MergeOnto(merged, events[..|events| - 1]), events[|events| - 1])
  }

  function Merge(events: seq<LogEvent>): seq<LogEvent> {
    MergeOnto([], events)
  }

  lemma MergeOfOne(events: seq<LogEvent>)
    requires |events| <= 1
    ensures Merge(events) == events
  {
    if events != [] {
      assert events[..0] == [];
      assert MergeOnto([], events[..0]) == [];
    }
  }

  method MergeEvents(events: seq<LogEvent>) returns (merged: seq<LogEvent>)
    ensures merged == Merge(events)
  {
    if |events| <= 1 {
      MergeOfOne(events);
      return events;
    }
    merged := [events[0]];
    var i := 1;
    MergeOfOne(events[..1]);
    while i < |events|
      invariant 1 <= i <= |events|
      invariant merged == Merge(events[..i]) && merged != []
    {
      var last := merged[|merged| - 1];
      var next := events[i];
      assert events[..i + 1][..i] == events[..i];
      CanMergeMeansSameKey(last, next);
      if CanMerge(last, next) {
        merged := merged[|merged| - 1 := last.WithCount(Wrap(last.Count() + next.Count()))];
      } else {
        merged := merged + [next];
      }
      i := i + 1;
    }
    assert events[..i] == events;
  }

  // ---------- Normal form ----------

  /** No two neighbours could still be merged. */
  predicate Normal(es: seq<LogEvent>) {
    forall i | 0 < i < |es| :: Key(es[i - 1]) != Key(es[i])
  }

  lemma {:induction false} MergeOntoIsNormal(merged: seq<LogEvent>, es: seq<LogEvent>)
    requires Normal(merged)
    ensures Normal(MergeOnto(merged, es))
  {
    if es != [] {
      var before := MergeOnto(merged, es[..|es| - 1]);
      MergeOntoIsNormal(merged, es[..|es| - 1]);
    }
  }

  lemma {:induction false} NormalIsUnchanged(es: seq<LogEvent>)
    requires Normal(es)
    ensures Merge(es) == es
  {
    if es != [] {
      var n := |es| - 1;
      NormalIsUnchanged(es[..n]);
    }
  }

  lemma MergeIdempotent(es: seq<LogEvent>)
    ensures Normal(Merge(es)) && Merge(Merge(es)) == Merge(es)
  {
    MergeOntoIsNormal([], es);
    NormalIsUnchanged(Merge(es));
  }

  // ---------- Confluence ----------

  lemma {:induction false} MergeOntoConcat(merged: seq<LogEvent>, a: seq<LogEvent>, b: seq<LogEvent>)
    ensures MergeOnto(merged, a + b) == MergeOnto(MergeOnto(merged, a), b)
  {
    if b == [] {
      assert a + b == a;
    } else {
      MergeOntoConcat(merged, a, b[..|b| - 1]);
      assert (a + b)[..|a + b| - 1] == a + b[..|b| - 1];
    }
  }

  /** Absorbing two events one after the other, or their merger at once. */
  lemma MergeIntoAbsorbed(merged: seq<LogEvent>, a: LogEvent, b: LogEvent)
    requires Key(a) == Key(b)
    ensures MergeInto(merged, Absorb(a, b)) == MergeInto(MergeInto(merged, a), b)
  {
    AbsorbedKey(a, b);
    hide Key, Absorb;
    var n := |merged|;
    if n > 0 && Key(merged[n - 1]) == Key(a) {
      AbsorbedKey(merged[n - 1], a);
      AbsorbTwice(merged[n - 1], a, b);
    } else {
      assert (merged + [a])[n := Absorb(a, b)] == merged + [Absorb(a, b)];
    }
  }

  lemma AbsorbTwice(last: LogEvent, a: LogEvent, b: LogEvent)
    ensures Absorb(last, Absorb(a, b)) == Absorb(Absorb(last, a), b)
  {
    WrapSum(a.Count() + b.Count(), last.Count());
    WrapSum(last.Count() + a.Count(), b.Count());
  }

  lemma {:induction false} MergeOntoMerged(merged: seq<LogEvent>, es: seq<LogEvent>)
    ensures MergeOnto(merged, Merge(es)) == MergeOnto(merged, es)
  {
    if es != [] {
      var front, e := es[..|es| - 1], es[|es| - 1];
      var m := Merge(front);
      MergeOntoMerged(merged, front);
      if m != [] && Key(m[|m| - 1]) == Key(e) {
        var rest, last := m[..|m| - 1], m[|m| - 1];
        assert Merge(es)[..|m| - 1] == rest;
        MergeIntoAbsorbed(MergeOnto(merged, rest), last, e);
      } else {
        assert Merge(es)[..|m|] == m;
      }
    }
  }

  /** Merging parts first does not change what the whole merges to. */
  lemma MergeConfluent(a: seq<LogEvent>, b: seq<LogEvent>)
    ensures Merge(Merge(a) + Merge(b)) == Merge(a + b)
  {
    MergeOntoConcat([], Merge(a), Merge(b));
    MergeIdempotent(a);
    MergeOntoMerged(Merge(a), b);
    MergeOntoConcat([], a, b);
  }

  lemma MergeIntoSuffix(m: seq<LogEvent>, k: nat, e: LogEvent)
    requires k < |m|
    ensures k < |MergeInto(m, e)| && MergeInto(m[k..], e) == MergeInto(m, e)[k..]
  {
    hide Key, Absorb;
  }

  lemma {:induction false} MergeOntoSuffix(merged: seq<LogEvent>, k: nat, es: seq<LogEvent>)
    requires k < |merged|
    ensures k < |MergeOnto(merged, es)| && MergeOnto(merged[k..], es) == MergeOnto(merged, es)[k..]
  {
    hide MergeInto;
    if es != [] {
      MergeOntoSuffix(merged, k, es[..|es| - 1]);
      MergeIntoSuffix(MergeOnto(merged, es[..|es| - 1]), k, es[|es| - 1]);
    }
  }

  /** Re-queuing is harmless: if the first k merged events of a batch were sent and the rest
      put back, then with whatever was tracked after them the next merge
      sends exactly what one merge of everything would have sent after those k. */
  lemma RequeueIsHarmless(a: seq<LogEvent>, k: nat, later: seq<LogEvent>)
    requires k < |Merge(a)|
    ensures k < |Merge(a + later)|
    ensures Merge(Merge(a)[k..] + later) == Merge(a + later)[k..]
  {
    MergeIdempotent(a);
    NormalIsUnchanged(Merge(a)[k..]);
    MergeOntoConcat([], Merge(a)[k..], later);
    MergeOntoSuffix(Merge(a), k, later);
    MergeOntoConcat([], a, later);
  }

  // ---------- Counts ----------

  /** Which events to count: all of them, or the ones with a given key. */
  datatype Which = Every | Only(key: LogEvent)

  predicate Picks(k: Which, key: LogEvent) {
    k.Every? || k.key == key
  }

  /** What e adds to the count. */
  function Weight(e: LogEvent, k: Which): int {
    if Picks(k, Key(e)) then e.Count() else 0
  }

  function Total(es: seq<LogEvent>, k: Which): int {
    if es == [] then 0 else Total(es[..|es| - 1], k) + Weight(es[|es| - 1], k)
  }

  lemma TotalOneMore(es: seq<LogEvent>, e: LogEvent, k: Which)
    ensures Total(es + [e], k) == Total(es, k) + Weight(e, k)
  {
    assert (es + [e])[..|es|] == es;
  }

  /** What is counted: of one event, its count; for a key, the counts of the events that are the same but for time and
      count. */
  lemma TotalMeaning(e: LogEvent, x: LogEvent)
    ensures Total([e], Every) == e.event.count
    ensures Total([e], Only(Key(x))) == if SameButTimeAndCount(x, e) then e.event.count else 0
  {
    CanMergeMeansSameKey(x, e);
    hide Key, SameButTimeAndCount;
    TotalOneMore([], e, Every);
    TotalOneMore([], e, Only(Key(x)));
    assert [] + [e] == [e];
  }

  lemma {:induction false} TotalConcat(a: seq<LogEvent>, b: seq<LogEvent>, k: Which)
    ensures Total(a + b, k) == Total(a, k) + Total(b, k)
  {
    if b == [] {
      assert a + b == a;
    } else {
      TotalConcat(a, b[..|b| - 1], k);
      assert (a + b)[..|a + b| - 1] == a + b[..|b| - 1];
    }
  }

  lemma TotalSplit(es: seq<LogEvent>, n: nat, k: Which)
    requires n <= |es|
    ensures Total(es, k) == Total(es[..n], k) + Total(es[n..], k)
  {
    assert es == es[..n] + es[n..];
    TotalConcat(es[..n], es[n..], k);
  }

  lemma AbsorbWeight(a: LogEvent, b: LogEvent, k: Which)
    requires Key(a) == Key(b)
    ensures Absorb(a, b).Count() == Wrap(a.Count() + b.Count())
    ensures Weight(Absorb(a, b), k) == if Picks(k, Key(a)) then Wrap(a.Count() + b.Count()) else 0
  {
    assert Key(Absorb(a, b)) == Key(a);
  }

  lemma MergeIntoTotal(m: seq<LogEvent>, e: LogEvent, k: Which)
    ensures Wrap(Total(MergeInto(m, e), k)) == Wrap(Total(m, k) + Weight(e, k))
  {
    hide Key, Wrap;
    if m != [] && Key(m[|m| - 1]) == Key(e) {
      var front, last := m[..|m| - 1], m[|m| - 1];
      assert m == front + [last] && MergeInto(m, e) == front + [Absorb(last, e)];
      TotalOneMore(front, Absorb(last, e), k);
      AbsorbWeight(last, e, k);
      WrapSum(last.Count() + e.Count(), Total(front, k));
    } else {
      TotalOneMore(m, e, k);
    }
  }

  /** Merging conserves every key's total, up to the wrap-around of the count. */
  lemma {:induction false} MergeOntoConserves(merged: seq<LogEvent>, es: seq<LogEvent>, k: Which)
    ensures Wrap(Total(MergeOnto(merged, es), k)) == Wrap(Total(merged, k) + Total(es, k))
  {
    hide Key, Wrap, MergeInto;
    if es != [] {
      var front, e := es[..|es| - 1], es[|es| - 1];
      MergeOntoConserves(merged, front, k);
      MergeIntoTotal(MergeOnto(merged, front), e, k);
      WrapCongruent(Total(MergeOnto(merged, front), k), Total(merged, k) + Total(front, k), Weight(e, k));
    }
  }

  /** The events to be counted have positive counts. */
  predicate AllPositive(es: seq<LogEvent>, k: Which) {
    forall i | 0 <= i < |es| && Picks(k, Key(es[i])) :: es[i].Count() > 0
  }

  lemma PositiveParts(front: seq<LogEvent>, e: LogEvent, k: Which)
    ensures AllPositive(front + [e], k) <==> AllPositive(front, k) && (Picks(k, Key(e)) ==> e.Count() > 0)
  {
    hide Key;
    var es := front + [e];
    assert es[|front|] == e && forall i | 0 <= i < |front| :: es[i] == front[i];
  }

  lemma MergeIntoExact(m: seq<LogEvent>, e: LogEvent, k: Which)
    requires AllPositive(m, k) && (Picks(k, Key(e)) ==> e.Count() > 0) && Total(m, k) + Weight(e, k) <= MAX_INT
    ensures AllPositive(MergeInto(m, e), k) && Total(MergeInto(m, e), k) == Total(m, k) + Weight(e, k)
  {
    hide Key, Wrap, Absorb, Total, AllPositive, Picks;
    if m != [] && Key(m[|m| - 1]) == Key(e) {
      var front, last := m[..|m| - 1], m[|m| - 1];
      var both := Absorb(last, e);
      assert m == front + [last] && MergeInto(m, e) == front + [both];
      AbsorbWeight(last, e, k);
      AbsorbedKey(last, e);
      PositiveParts(front, last, k);
      PositiveParts(front, both, k);
      TotalNonNegative(front, k);
      TotalOneMore(front, last, k);
      TotalOneMore(front, both, k);
      if Picks(k, Key(e)) {
        WrapOfInt(last.Count() + e.Count());
      }
    } else {
      PositiveParts(m, e, k);
      TotalOneMore(m, e, k);
    }
  }

  lemma AbsorbedKey(a: LogEvent, b: LogEvent)
    ensures Key(Absorb(a, b)) == Key(a)
  {
  }

  /** While the counts to be totalled fit an int together, their total is conserved exactly. */
  lemma {:induction false} MergeOntoExact(merged: seq<LogEvent>, es: seq<LogEvent>, k: Which)
    requires AllPositive(merged, k) && AllPositive(es, k)
    requires Total(merged, k) + Total(es, k) <= MAX_INT
    ensures AllPositive(MergeOnto(merged, es), k)
    ensures Total(MergeOnto(merged, es), k) == Total(merged, k) + Total(es, k)
  {
    hide Key, MergeInto, AllPositive, Picks;
    if es != [] {
      var front, e := es[..|es| - 1], es[|es| - 1];
      assert es == front + [e];
      PositiveParts(front, e, k);
      MergeOntoExact(merged, front, k);
      MergeIntoExact(MergeOnto(merged, front), e, k);
    }
  }

  lemma {:induction false} TotalNonNegative(es: seq<LogEvent>, k: Which)
    requires AllPositive(es, k)
    ensures Total(es, k) >= 0
  {
    hide Key;
    if es != [] {
      TotalNonNegative(es[..|es| - 1], k);
    }
  }

  // ---------- Where merged events come from ----------

  /** Every merged event is one of the events, with another count. */
  lemma {:induction false} MergedComeFrom(es: seq<LogEvent>, i: nat)
    requires i < |Merge(es)|
    ensures exists j :: 0 <= j < |es| && Merge(es)[i] == es[j].WithCount(Merge(es)[i].Count())
  {
    hide Key, Wrap;
    var n := |es| - 1;
    var front, e := es[..n], es[n];
    var m := Merge(front);
    if i < |m| {
      MergedComeFrom(front, i);
      var j :| 0 <= j < n && m[i] == front[j].WithCount(m[i].Count());
      assert es[j] == front[j];
    } else {
      assert Merge(es)[i] == e && e == e.WithCount(e.Count());
    }
  }

  lemma MergedKeysComeFrom(es: seq<LogEvent>, m: LogEvent)
    requires m in Merge(es)
    ensures exists e :: e in es && Key(e) == Key(m)
  {
    var i :| 0 <= i < |Merge(es)| && Merge(es)[i] == m;
    MergedComeFrom(es, i);
    var j :| 0 <= j < |es| && Merge(es)[i] == es[j].WithCount(Merge(es)[i].Count());
    assert Key(es[j]) == Key(m);
  }

  /** The last merged event stands for the last event. */
  lemma LastMergedKey(es: seq<LogEvent>)
    requires es != []
    ensures Merge(es) != [] && Key(Merge(es)[|Merge(es)| - 1]) == Key(es[|es| - 1])
  {
    var m, e := Merge(es[..|es| - 1]), es[|es| - 1];
    if m != [] {
      AbsorbedKey(m[|m| - 1], e);
    }
  }

  // ---------- What a merged event stands for ----------

  function Flatten(runs: seq<seq<LogEvent>>): seq<LogEvent> {
    if runs == [] then [] else Flatten(runs[..|runs| - 1]) + runs[|runs| - 1]
  }

  predicate IsRun(run: seq<LogEvent>) {
    run != [] && forall i | 0 <= i < |run| :: Key(run[i]) == Key(run[0])
  }

  /** runs cuts es into its maximal runs of events with one key. */
  predicate AreRuns(es: seq<LogEvent>, runs: seq<seq<LogEvent>>) {
    && Flatten(runs) == es
    && (forall i | 0 <= i < |runs| :: IsRun(runs[i]))
    && (forall i | 0 < i < |runs| :: Key(runs[i - 1][0]) != Key(runs[i][0]))
  }

  /** The first event of a run, counting for all of it. */
  function Summary(run: seq<LogEvent>): LogEvent
    requires run != []
  {
    run[0].WithCount(Wrap(Total(run, Every)))
  }

  lemma SummaryOfLonger(run: seq<LogEvent>, e: LogEvent)
    requires run != []
    ensures Summary(run + [e]) == Absorb(Summary(run), e)
  {
    TotalOneMore(run, e, Every);
    WrapSum(Total(run, Every), e.Count());
  }

  lemma SummaryKey(run: seq<LogEvent>)
    requires run != []
    ensures Key(Summary(run)) == Key(run[0])
  {
  }

  lemma SummaryOfOne(e: LogEvent)
    ensures Summary([e]) == e
  {
    TotalOneMore([], e, Every);
    assert [] + [e] == [e];
    WrapOfInt(e.Count());
  }

  /** A run that cannot be merged with what came before adds its summary. */
  lemma {:induction false} MergeOneRun(merged: seq<LogEvent>, run: seq<LogEvent>)
    requires IsRun(run) && (merged != [] ==> Key(merged[|merged| - 1]) != Key(run[0]))
    ensures MergeOnto(merged, run) == merged + [Summary(run)]
  {
    hide Wrap, Summary, Absorb, Key;
    var front, e := run[..|run| - 1], run[|run| - 1];
    if front == [] {
      SummaryOfOne(e);
      assert MergeOnto(merged, front) == merged;
    } else {
      MergeOneRun(merged, front);
      SummaryKey(front);
      SummaryOfLonger(front, e);
    }
    assert front + [e] == run;
  }

  /** Merging yields one event per maximal run, in order: the run's first, with the run's total. */
  lemma {:induction false} MergeSummarizesRuns(es: seq<LogEvent>, runs: seq<seq<LogEvent>>)
    requires AreRuns(es, runs)
    ensures |Merge(es)| == |runs|
    ensures forall i | 0 <= i < |runs| :: Merge(es)[i] == Summary(runs[i])
    decreases |runs|
  {
    hide Summary, Key;
    if runs != [] {
      var n := |runs| - 1;
      var before := Flatten(runs[..n]);
      MergeSummarizesRuns(before, runs[..n]);
      if n > 0 {
        SummaryKey(runs[n - 1]);
      }
      MergeOneRun(Merge(before), runs[n]);
      MergeOntoConcat([], before, runs[n]);
    }
  }

  lemma {:induction false} RunsExist(es: seq<LogEvent>) returns (runs: seq<seq<LogEvent>>)
    ensures AreRuns(es, runs)
  {
    hide Key;
    if es == [] {
      runs := [];
    } else {
      var before := RunsExist(es[..|es| - 1]);
      runs := LongerRuns(es[..|es| - 1], before, es[|es| - 1]);
      assert es[..|es| - 1] + [es[|es| - 1]] == es;
    }
  }

  lemma LongerRuns(es: seq<LogEvent>, runs: seq<seq<LogEvent>>, e: LogEvent) returns (longer: seq<seq<LogEvent>>)
    requires AreRuns(es, runs)
    ensures AreRuns(es + [e], longer)
  {
    hide Key;
    var n := |runs|;
    if n > 0 && Key(runs[n - 1][0]) == Key(e) {
      longer := runs[..n - 1] + [runs[n - 1] + [e]];
      assert longer[..n - 1] == runs[..n - 1];
    } else {
      longer := runs + [[e]];
      assert longer[..n] == runs;
    }
  }
}
