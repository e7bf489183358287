/** The batching and retry rules the augmentation step and the augmentation scripts share:
    sentences are packed into contiguous batches by word count, and a batch's request is retried
    on a fixed schedule of delays. A sentence is seen here only through its word count, and the
    language model's answer to an attempt only through whether it succeeded. */
module Batching {
  import opened Strings

  // ---------------------------------------------------------------------------
  // get_retry_delay
  // ---------------------------------------------------------------------------

  /** `get_retry_delay(retry_count)`, in seconds. */
  function RetryDelay(retry: int): nat {
    if retry == 1 then 30
    else if retry == 2 then 60
    else if retry == 3 then 120
    else if retry == 4 then 180
    else 300
  }

  /** The schedule backs off: later retries never wait less, every delay lies between half a
      minute and five minutes, and from the fifth retry on the delay is five minutes. */
  lemma RetryDelaySchedule(a: int, b: int)
    requires 1 <= a <= b
    ensures RetryDelay(a) <= RetryDelay(b)
    ensures 30 <= RetryDelay(a) <= 300
    ensures b >= 5 ==> RetryDelay(b) == 300
    ensures a < b <= 5 ==> RetryDelay(a) < RetryDelay(b)
  {
  }

  // ---------------------------------------------------------------------------
  // Word-count batches
  // ---------------------------------------------------------------------------

  /** The sum of the word counts. */
  function Sum(xs: seq<nat>): nat
    decreases |xs|
  {
    if |xs| == 0 then 0 else Sum(xs[..|xs| - 1]) + xs[|xs| - 1]
  }

  /** The batch opened at `start` takes sentence `i` (with every sentence from `start` up to `i`
      already taken): the count so far is below the limit, and adding the sentence keeps it within
      the limit unless the batch is still empty. */
  predicate Admits(counts: seq<nat>, start: nat, i: nat, max: int)
    requires start <= i < |counts|
  {
    Sum(counts[start..i]) < max && (i == start || Sum(counts[start..i]) + counts[i] <= max)
  }

  /** The batch opened at `start` takes the sentences before `end` and stops at `end`. */
  predicate Stops(counts: seq<nat>, start: nat, end: nat, max: int) {
    start <= end <= |counts|
    && (forall i :: start <= i < end ==> Admits(counts, start, i, max))
    && (end < |counts| ==> !Admits(counts, start, end, max))
  }

  /** `_create_single_batch(transcript, start_idx, total)` over the sentences' word counts: the
      index after the batch, and the batch's word count. */
  method SingleBatch(counts: seq<nat>, start: nat, max: int) returns (end: nat, wordCount: nat)
    requires start <= |counts|
    ensures Stops(counts, start, end, max)
    ensures wordCount == Sum(counts[start..end])
  {
    end, wordCount := start, 0;
    while end < |counts| && wordCount < max
      invariant start <= end <= |counts|
      invariant wordCount == Sum(counts[start..end])
      invariant forall i :: start <= i < end ==> Admits(counts, start, i, max)
      decreases |counts| - end
    {
      if wordCount + counts[end] > max && end != start {
        break;
      }
      assert counts[start..end + 1][..end - start] == counts[start..end];
      wordCount := wordCount + counts[end];
      end := end + 1;
    }
  }

  /** What the stopping rule implies: a positive limit always takes a sentence when one is left,
      a limit of zero or less never takes one, and a batch of two or more sentences stays within
      the limit. */
  lemma StopsBounds(counts: seq<nat>, start: nat, end: nat, max: int)
    requires Stops(counts, start, end, max)
    ensures max > 0 && start < |counts| ==> end > start
    ensures max <= 0 ==> end == start
    ensures end - start >= 2 ==> Sum(counts[start..end]) <= max
  {
    assert Sum(counts[start..start]) == 0 by {
      assert counts[start..start] == [];
    }
    if start < |counts| {
      assert Admits(counts, start, start, max) <==> 0 < max;
    }
    if end - start >= 2 {
      assert Admits(counts, start, end - 1, max);
      assert counts[start..end][..end - 1 - start] == counts[start..end - 1];
    }
  }

  /** A batch as the step records it: its first and last sentence and its word count. */
  datatype Batch = Batch(start: nat, endIdx: int, wordCount: nat)

  /** The batches, or the index at which the batching loop stops making progress and never ends. */
  datatype Plan = Batches(batches: seq<Batch>) | Stuck(at: nat)

  /** A batch the batching rule makes: non-empty, with its word count, stopping where the rule
      stops. */
  predicate IsBatch(counts: seq<nat>, b: Batch, max: int) {
    b.start <= b.endIdx < |counts| && Stops(counts, b.start, b.endIdx + 1, max)
    && b.wordCount == Sum(counts[b.start..b.endIdx + 1])
  }

  /** `batches` cover the sentences before `next` contiguously and in order. */
  predicate CoversUpTo(counts: seq<nat>, batches: seq<Batch>, next: nat, max: int) {
    (forall k :: 0 <= k < |batches| ==> IsBatch(counts, batches[k], max))
    && Contiguous(counts, batches, next)
  }

  /** The batches lie within the list and run from the first sentence up to `next`, each opening
      right after the previous one. */
  predicate Contiguous(counts: seq<nat>, batches: seq<Batch>, next: nat) {
    InRange(counts, batches)
    && (|batches| == 0 ==> next == 0)
    && (|batches| != 0 ==> batches[0].start == 0 && batches[|batches| - 1].endIdx + 1 == next)
    && (forall k :: 0 <= k < |batches| - 1 ==> batches[k + 1].start == batches[k].endIdx + 1)
  }

  /** `_create_batches(transcript)`: batches from the first sentence on, each opening right after
      the previous one, until the sentences run out. A limit of zero or less makes an empty batch
      that does not advance, so the loop never ends when there is a sentence; the model reports
      that as `Stuck`. */
  method CreateBatches(counts: seq<nat>, max: int) returns (plan: Plan)
    ensures plan.Stuck? <==> max <= 0 && |counts| != 0
    ensures plan.Batches? ==> CoversUpTo(counts, plan.batches, |counts|, max)
    ensures plan.Batches? ==> (|plan.batches| == 0 <==> |counts| == 0)
    ensures plan.Batches? ==> Flatten(Pieces(counts, plan.batches)) == counts
  {
    var batches: seq<Batch> := [];
    var next := 0;
    while next < |counts|
      invariant next <= |counts|
      invariant CoversUpTo(counts, batches, next, max)
      invariant max <= 0 ==> next == 0
      decreases |counts| - next
    {
      var end, wordCount := SingleBatch(counts, next, max);
      StopsBounds(counts, next, end, max);
      if end == next {
        return Stuck(next);
      }
      AddBatch(counts, batches, next, end, wordCount, max);
      batches := batches + [Batch(next, end - 1, wordCount)];
      next := end;
    }
    BatchesPartition(counts, batches, next);
    assert counts[..next] == counts;
    return Batches(batches);
  }

  /** A non-empty batch opened at `next` extends the cover to where it stops. */
  lemma AddBatch(counts: seq<nat>, batches: seq<Batch>, next: nat, end: nat, wordCount: nat, max: int)
    requires CoversUpTo(counts, batches, next, max)
    requires Stops(counts, next, end, max) && next < end && wordCount == Sum(counts[next..end])
    ensures CoversUpTo(counts, batches + [Batch(next, end - 1, wordCount)], end, max)
  {
    var b := Batch(next, end - 1, wordCount);
    var bs := batches + [b];
    assert IsBatch(counts, b, max);
    assert forall k :: 0 <= k < |batches| ==> bs[k] == batches[k];
  }

  /** Every batch's sentences lie within the list. */
  predicate InRange(counts: seq<nat>, batches: seq<Batch>) {
    forall k :: 0 <= k < |batches| ==> batches[k].start <= batches[k].endIdx < |counts|
  }

  /** The word counts of each batch's sentences. */
  function Pieces(counts: seq<nat>, batches: seq<Batch>): (r: seq<seq<nat>>)
    requires InRange(counts, batches)
    ensures |r| == |batches|
    ensures forall k :: 0 <= k < |batches| ==> r[k] == counts[batches[k].start..batches[k].endIdx + 1]
  {
    seq(|batches|, k requires 0 <= k < |batches| => counts[batches[k].start..batches[k].endIdx + 1])
  }

  /** The batches' sentences, put back together, are the sentences up to `next`: nothing is
      dropped, repeated or reordered. */
  lemma {:induction false} BatchesPartition(counts: seq<nat>, batches: seq<Batch>, next: nat)
    requires Contiguous(counts, batches, next)
    ensures Flatten(Pieces(counts, batches)) == counts[..next]
    decreases |batches|
  {
    if |batches| != 0 {
      var init, last, before := ContiguousInit(counts, batches, next);
      BatchesPartition(counts, init, before);
      PiecesSnoc(counts, init, last);
      JoinLast(counts, before, next);
    }
  }

  /** Dropping the last batch leaves batches contiguous up to where it opened. */
  lemma ContiguousInit(counts: seq<nat>, batches: seq<Batch>, next: nat) returns (init: seq<Batch>, last: Batch, before: nat)
    requires Contiguous(counts, batches, next) && |batches| != 0
    ensures batches == init + [last] && Contiguous(counts, init, before)
    ensures last.start == before && last.endIdx + 1 == next
  {
    init, last := batches[..|batches| - 1], batches[|batches| - 1];
    before := if |init| == 0 then 0 else init[|init| - 1].endIdx + 1;
    assert forall k :: 0 <= k < |init| ==> init[k] == batches[k];
  }

  lemma JoinLast(counts: seq<nat>, before: nat, next: nat)
    requires before <= next <= |counts|
    ensures counts[..next] == counts[..before] + counts[before..next]
  {
  }

  lemma PiecesSnoc(counts: seq<nat>, init: seq<Batch>, last: Batch)
    requires InRange(counts, init) && last.start <= last.endIdx < |counts|
    ensures InRange(counts, init + [last])
    ensures Flatten(Pieces(counts, init + [last])) == Flatten(Pieces(counts, init)) + counts[last.start..last.endIdx + 1]
  {
    assert Pieces(counts, init + [last]) == Pieces(counts, init) + [counts[last.start..last.endIdx + 1]];
    FlattenSnoc(Pieces(counts, init), counts[last.start..last.endIdx + 1]);
  }

  // ---------------------------------------------------------------------------
  // Retries
  // ---------------------------------------------------------------------------

  /** What retrying a request came to: whether it succeeded, how many calls were made, and the
      delays slept between them. */
  datatype Attempts = Attempts(success: bool, calls: nat, sleeps: seq<nat>)

  /** Up to `attempts` calls, stopping at the first success; after a failed call that is not the
      last allowed one, the delay of the next retry is slept. `ok(k)` says whether call `k`
      (from 0) succeeds. */
  method Retry(ok: nat -> bool, attempts: nat) returns (r: Attempts)
    ensures r.calls <= attempts
    ensures attempts > 0 ==> r.calls > 0
    ensures r.success <==> exists k :: 0 <= k < attempts && ok(k)
    ensures r.success ==> ok(r.calls - 1)
    ensures forall k :: 0 <= k < r.calls && (r.success ==> k < r.calls - 1) ==> !ok(k)
    ensures !r.success ==> r.calls == attempts
    ensures |r.sleeps| == if r.calls == 0 then 0 else r.calls - 1
    ensures forall k :: 0 <= k < |r.sleeps| ==> r.sleeps[k] == RetryDelay(k + 1)
  {
    var sleeps: seq<nat> := [];
    for k := 0 to attempts
      invariant |sleeps| == k
      invariant attempts == 0 || k < attempts
      invariant forall j :: 0 <= j < k ==> !ok(j) && sleeps[j] == RetryDelay(j + 1)
    {
      if ok(k) {
        return Attempts(true, k + 1, sleeps);
      }
      if k == attempts - 1 {
        return Attempts(false, attempts, sleeps);
      }
      sleeps := sleeps + [RetryDelay(k + 1)];
    }
    return Attempts(false, 0, []);
  }

  /** `range(max_api_retries + 1)` in the augmentation step: one call more than the retry limit,
      none for a negative limit. */
  function StepAttempts(maxRetries: int): nat {
    if maxRetries + 1 > 0 then maxRetries + 1 else 0
  }

  /** The augmentation script's `while not success` loop counts failures and gives up once they
      exceed the limit, so it makes one call more than the limit and at least one. */
  function ScriptAttempts(maxRetries: int): nat {
    if maxRetries + 1 > 1 then maxRetries + 1 else 1
  }

  /** The upload script's `MAX_RETRIES`: ten calls at most. */
  const UploadAttempts: nat := 10
}
