/** Posting reports with retries, and sending a list of events in batches (client.go). */
module Client {
  import opened Basics
  import opened Events

  const MAX_BATCH_SIZE := 500
  const MAX_RETRIES := 10

  /** How the endpoint answers a post: with a success status, another status, or not at all. */
  datatype Answer = Accepted | Status(code: int) | NoAnswer

  predicate IsRetryable(code: int) {
    code in {408, 429, 500, 502, 503, 504, 598}
  }

  predicate MayRetry(a: Answer) {
    a.Status? && IsRetryable(a.code)
  }

  /** Another try is made after a timeout, for too many requests, after the usual server errors, and after 598. */
  lemma RetryableCodes(code: int)
    ensures MayRetry(Status(code)) <==>
            code == 408 || code == 429 || code == 500 || (502 <= code <= 504) || code == 598
    ensures !MayRetry(Accepted) && !MayRetry(NoAnswer)
  {
  }

  type Endpoint = nat -> Answer

  /** The endpoint's answer to the n-th post. */
  function AnswerTo(answer: Endpoint, n: nat): Answer {
    answer(n)
  }

  /** Whether the context is done while waiting to make the n-th post. */
  predicate IsCancelled(cancelled: nat -> bool, n: nat) {
    cancelled(n)
  }

  /** Another try may be made as the n-th post. */
  predicate MayPost(answer: Endpoint, cancelled: nat -> bool, n: nat)
    requires n > 0
  {
    !IsCancelled(cancelled, n) && MayRetry(AnswerTo(answer, n - 1))
  }

  /** Each post after the first was made after a retryable answer, with the context not done. */
  ghost predicate Retried(answer: Endpoint, cancelled: nat -> bool, first: nat, end: nat) {
    forall n | first < n < end :: MayPost(answer, cancelled, n)
  }

  /** In terms of the endpoint and the context alone. */
  lemma RetriedMeaning(answer: Endpoint, cancelled: nat -> bool, first: nat, end: nat, n: nat)
    requires Retried(answer, cancelled, first, end) && first < n < end
    ensures !cancelled(n) && answer(n - 1).Status? && answer(n - 1).code in {408, 429, 500, 502, 503, 504, 598}
  {
    assert MayPost(answer, cancelled, n);
  }

  lemma RetriedAtFirst(answer: Endpoint, cancelled: nat -> bool, first: nat)
    ensures Retried(answer, cancelled, first, first)
  {
  }

  lemma RetriedOneMore(answer: Endpoint, cancelled: nat -> bool, first: nat, end: nat)
    requires first <= end && Retried(answer, cancelled, first, end)
    requires first < end ==> MayPost(answer, cancelled, end)
    ensures Retried(answer, cancelled, first, end + 1)
  {
  }

  /** The events of the accepted reports, in the order of the posts. */
  function Acknowledged(posts: seq<seq<LogEvent>>, answer: Endpoint): seq<LogEvent> {
    if posts == [] then []
    else
      var n := |posts| - 1;
      Acknowledged(posts[..n], answer) + if AnswerTo(answer, n) == Accepted then posts[n] else []
  }

  lemma AcknowledgedOneMore(posts: seq<seq<LogEvent>>, report: seq<LogEvent>, answer: Endpoint)
    ensures var acked := Acknowledged(posts, answer);
            Acknowledged(posts + [report], answer) ==
            if AnswerTo(answer, |posts|) == Accepted then acked + report else acked
  {
    assert (posts + [report])[..|posts|] == posts;
  }

  lemma NoCopies(report: seq<LogEvent>)
    ensures Copies(report, 0) == []
  {
  }

  lemma OneMoreCopy(report: seq<LogEvent>, posts: seq<seq<LogEvent>>, k: nat)
    ensures posts + Copies(report, k) + [report] == posts + Copies(report, k + 1)
  {
  }

  /** The same report, posted k times. */
  function Copies(report: seq<LogEvent>, k: nat): (c: seq<seq<LogEvent>>)
    ensures |c| == k && forall i | 0 <= i < k :: c[i] == report
  {
    seq(k, _ => report)
  }

  /** The batch that starts at k: what SendBatched cuts off the events in one round. */
  function Batch(events: seq<LogEvent>, k: nat): (b: seq<LogEvent>)
    ensures k < |events| ==> 1 <= |b| <= MAX_BATCH_SIZE
  {
    if k < |events| then events[k..Min(k + MAX_BATCH_SIZE, |events|)] else []
  }

  /** The posts of the first batches, in order: the i-th batch posted tries[i] times. */
  function Posted(events: seq<LogEvent>, tries: seq<nat>): seq<seq<LogEvent>> {
    if tries == [] then []
    else
      var n := |tries| - 1;
      Posted(events, tries[..n]) + Copies(Batch(events, n * MAX_BATCH_SIZE), tries[n])
  }

  /** How many posts the first batches took. */
  function PostCount(tries: seq<nat>): nat {
    if tries == [] then 0 else PostCount(tries[..|tries| - 1]) + tries[|tries| - 1]
  }

  /** Within each batch, every post after its first was made after a retryable answer, with the context not done. */
  ghost predicate BatchesRetried(answer: Endpoint, cancelled: nat -> bool, first: nat, tries: seq<nat>) {
    forall i | 0 <= i < |tries| :: BatchRetried(answer, cancelled, first, tries, i)
  }

  ghost predicate BatchRetried(answer: Endpoint, cancelled: nat -> bool, first: nat, tries: seq<nat>, i: nat)
    requires i < |tries|
  {
    var begin := first + PostCount(tries[..i]);
    Retried(answer, cancelled, begin, begin + tries[i])
  }

  lemma PostedCount(events: seq<LogEvent>, tries: seq<nat>)
    ensures |Posted(events, tries)| == PostCount(tries)
  {
  }

  lemma OneMoreBatchRetried(answer: Endpoint, cancelled: nat -> bool, first: nat, tries: seq<nat>, t: nat)
    requires BatchesRetried(answer, cancelled, first, tries)
    requires Retried(answer, cancelled, first + PostCount(tries), first + PostCount(tries) + t)
    ensures BatchesRetried(answer, cancelled, first, tries + [t])
  {
    hide Retried, PostCount;
    var more := tries + [t];
    forall i | 0 <= i < |more| ensures BatchRetried(answer, cancelled, first, more, i) {
      BatchOfLonger(answer, cancelled, first, tries, t, i);
    }
  }

  lemma BatchOfLonger(answer: Endpoint, cancelled: nat -> bool, first: nat, tries: seq<nat>, t: nat, i: nat)
    requires i < |tries| ==> BatchRetried(answer, cancelled, first, tries, i)
    requires i == |tries| ==> Retried(answer, cancelled, first + PostCount(tries), first + PostCount(tries) + t)
    requires i <= |tries|
    ensures BatchRetried(answer, cancelled, first, tries + [t], i)
  {
    hide Retried, PostCount;
    assert (tries + [t])[..i] == tries[..i];
    if i == |tries| {
      assert tries[..i] == tries;
    }
  }

  lemma NoBatchRetried(answer: Endpoint, cancelled: nat -> bool, first: nat)
    ensures BatchesRetried(answer, cancelled, first, [])
  {
  }

  lemma NothingPosted(events: seq<LogEvent>)
    ensures Posted(events, []) == []
  {
  }

  lemma IsBatch(events: seq<LogEvent>, k: nat)
    requires k < |events|
    ensures events[k..Min(k + MAX_BATCH_SIZE, |events|)] == Batch(events, k)
  {
  }

  lemma PostedOneMore(before: seq<seq<LogEvent>>, events: seq<LogEvent>, tries: seq<nat>, t: nat)
    ensures before + Posted(events, tries + [t])
            == before + Posted(events, tries) + Copies(Batch(events, |tries| * MAX_BATCH_SIZE), t)
  {
    assert (tries + [t])[..|tries|] == tries;
  }

  lemma SentOneMore(acked: seq<LogEvent>, events: seq<LogEvent>, k: nat)
    requires k < |events|
    ensures var end := Min(k + MAX_BATCH_SIZE, |events|);
            acked + events[..k] + Batch(events, k) == acked + events[..end]
  {
    assert events[..Min(k + MAX_BATCH_SIZE, |events|)] == events[..k] + Batch(events, k);
  }

  class Client {
    const answer: Endpoint
    const cancelled: nat -> bool
    /** Whether a report can be encoded. */
    const encodable: seq<LogEvent> -> bool
    /** Every report posted so far. */
    var posts: seq<seq<LogEvent>>

    constructor (answer: Endpoint, cancelled: nat -> bool, encodable: seq<LogEvent> -> bool)
      ensures this.answer == answer && this.cancelled == cancelled && this.encodable == encodable && posts == []
    {
      this.answer, this.cancelled, this.encodable := answer, cancelled, encodable;
      posts := [];
    }

    function Acked(): seq<LogEvent>
      reads this
    {
      Acknowledged(posts, answer)
    }

    /** After this many tries of one report, the last one just refused, nothing more is to be tried. */
    predicate GivesUp(tries: nat)
      requires posts != []
      reads this
    {
      var last := AnswerTo(answer, |posts| - 1);
      last != Accepted && (MayRetry(last) ==> IsCancelled(cancelled, |posts|) || tries == 11)
    }

    /** Posts the report until it is accepted: at most MAX_RETRIES times again, each time only after
        a retryable status. The report is acknowledged exactly when Send succeeds, and then exactly once. */
    method Send(report: seq<LogEvent>) returns (ok: bool, ghost tries: nat)
      modifies this
      ensures tries <= 11 && (report == [] ==> tries == 0)
      ensures posts == old(posts) + Copies(report, tries)
      ensures Retried(answer, cancelled, |old(posts)|, |posts|)
      ensures Acked() == if ok then old(Acked()) + report else old(Acked())
      ensures !ok && encodable(report) && report != [] ==> tries > 0 && GivesUp(tries)
    {
      hide Acknowledged, Copies, Retried;
      tries := 0;
      ghost var before := posts;
      assert Copies(report, 0) == [] by { NoCopies(report); }
      assert Retried(answer, cancelled, |before|, |before|) by { RetriedAtFirst(answer, cancelled, |before|); }
      if report == [] {
        return true, 0;
      }
      if !encodable(report) {
        return false, 0;
      }
      for attempt := 0 to MAX_RETRIES + 1
        invariant tries == attempt && |posts| == |before| + attempt && posts == before + Copies(report, attempt)
        invariant attempt > 0 ==> MayRetry(AnswerTo(answer, |posts| - 1))
        invariant Retried(answer, cancelled, |before|, |posts|)
        invariant Acknowledged(posts, answer) == Acknowledged(before, answer)
      {
        if attempt > 0 && IsCancelled(cancelled, |posts|) {
          return false, tries;
        }
        var n := |posts|;
        AcknowledgedOneMore(posts, report, answer);
        RetriedOneMore(answer, cancelled, |before|, n);
        OneMoreCopy(report, before, tries);
        posts := posts + [report];
        tries := tries + 1;
        match AnswerTo(answer, n) {
          case Accepted => return true, tries;
          case Status(code) =>
            if IsRetryable(code) {
              continue;
            }
            return false, tries;
          case NoAnswer => return false, tries;
        }
      }
      return false, tries;
    }

    /** Sends the events in batches, one after the other until one fails. What the endpoint acknowledged is exactly
        the first `sent` events, once each and in order; on failure that is a whole number of full batches. */
    method SendBatched(events: seq<LogEvent>) returns (sent: nat, ok: bool, ghost tries: seq<nat>)
      modifies this
      ensures sent <= |events| && (ok <==> sent == |events|)
      ensures posts == old(posts) + Posted(events, tries) && forall t | t in tries :: t <= 11
      ensures BatchesRetried(answer, cancelled, |old(posts)|, tries)
      ensures sent == Min((if ok then |tries| else |tries| - 1) * 500, |events|)
      ensures !ok ==> |tries| > 0 && sent == (|tries| - 1) * 500
      ensures Acked() == old(Acked()) + events[..sent]
    {
      hide Acknowledged, Copies, Posted, Batch, Retried, BatchesRetried, PostCount;
      sent, tries := 0, [];
      var i := 0;
      ghost var before, acked := posts, Acked();
      assert Posted(events, []) == [] by { NothingPosted(events); }
      assert BatchesRetried(answer, cancelled, |before|, []) by { NoBatchRetried(answer, cancelled, |before|); }
      while i < |events|
        invariant sent == Min(i, |events|) && i == |tries| * MAX_BATCH_SIZE
        invariant posts == before + Posted(events, tries) && forall t | t in tries :: t <= MAX_RETRIES + 1
        invariant BatchesRetried(answer, cancelled, |before|, tries)
        invariant Acked() == acked + events[..sent]
        decreases |events| - i
      {
        var end := Min(i + MAX_BATCH_SIZE, |events|);
        assert events[i..end] == Batch(events, i) by { IsBatch(events, i); }
        SentOneMore(acked, events, i);
        var accepted, t := Send(events[i..end]);
        PostedOneMore(before, events, tries, t);
        PostedCount(events, tries);
        OneMoreBatchRetried(answer, cancelled, |before|, tries, t);
        tries := tries + [t];
        if !accepted {
          return sent, false, tries;
        }
        sent := sent + (end - i);
        i := i + MAX_BATCH_SIZE;
      }
      return sent, true, tries;
    }
  }
}
