/** The upload script that translates a JSON transcript batch by batch and hands it to the
    database. Its batches count the words of each sentence's text, at most 25 to a batch, and
    each batch gets at most ten calls. Unlike the augmentation script, its answers are plain JSON,
    so an answer sentence may lack a key; the merge then raises part-way, the changes made so far
    stay, and the batch is retried. `answers(k)(a)` is the parsed answer to call `a` of batch
    `k`, or `None` when the call or the parse raised. */
module JsonUpload {
  import opened Prelude
  import opened Strings
  import opened Batching
  import opened DictMerge
  import AugmentStep

  /** `MAX_WORDS_PER_BATCH`. */
  const MaxWordsPerBatch: int := 25

  /** `len(sentence["text"].split())`: a missing text raises KeyError, a text that is not a
      string has no `split` and raises AttributeError. */
  function TextCount(s: Sent): (r: Result<nat>)
    ensures r.Ok? <==> "text" in s.fields && s.fields["text"].Text?
    ensures r.Ok? ==> r.value == |SplitWs(s.fields["text"].s)|
    ensures "text" !in s.fields ==> r == Err(KeyError("text"))
    ensures "text" in s.fields && s.fields["text"].Number? ==> r == Err(AttributeError)
  {
    if "text" !in s.fields then Err(KeyError("text"))
    else match s.fields["text"]
      case Text(x) => Ok(|SplitWs(x)|)
      case Number(_) => Err(AttributeError)
  }

  /** The word counts the batching loop reads, sentence by sentence; the first sentence whose
      count raises ends the script. */
  function TextCounts(t: seq<Sent>): (r: Result<seq<nat>>)
    ensures r.Ok? <==> forall i :: 0 <= i < |t| ==> TextCount(t[i]).Ok?
    ensures r.Ok? ==> |r.value| == |t| && forall i :: 0 <= i < |t| ==> r.value[i] == TextCount(t[i]).value
    ensures r.Err? ==> exists i :: 0 <= i < |t| && TextCount(t[i]) == Err(r.error)
                                  && forall j :: 0 <= j < i ==> TextCount(t[j]).Ok?
  {
    Collect(TextCount, t)
  }

  /** An answer the merge takes without raising: every answer sentence that has a target in the
      transcript carries both keys. */
  predicate Lands(start: nat, size: nat, answer: seq<RawSentence>) {
    forall idx :: 0 <= idx < size && Target(start, |answer|, size, idx) ==> Complete(answer[idx - start])
  }

  /** Call `a` of batch `k` lands. */
  predicate Landed(answers: nat -> nat -> Option<seq<RawSentence>>, start: nat, size: nat, k: nat, a: nat) {
    answers(k)(a).Some? && Lands(start, size, answers(k)(a).value)
  }

  /** The merge of a parsed answer raises exactly when the answer does not land. */
  lemma MergeRaisesUnlessLands(start: nat, t: seq<Sent>, answer: seq<RawSentence>)
    ensures MergeAnswer(start, t, answer).raised.None? <==> Lands(start, |t|, answer)
  {
    var m := MergeFrom(start, t, answer, 0);
    assert forall idx :: Target(start, |answer|, |t|, idx) ==> idx - start >= 0;
  }

  /** The transcript after the first `n` calls of batch `k`, opened at `start`: every parsed
      answer is merged in turn, and a merge that raises keeps what it changed before raising. */
  function AfterCalls(u: seq<Sent>, start: nat, answers: nat -> nat -> Option<seq<RawSentence>>, k: nat, n: nat): seq<Sent>
    decreases n
  {
    if n == 0 then u else AfterCall(AfterCalls(u, start, answers, k, n - 1), start, answers(k)(n - 1))
  }

  /** The transcript after one call: a parsed answer is merged, raising or not; no answer changes
      nothing. */
  function AfterCall(u: seq<Sent>, start: nat, answer: Option<seq<RawSentence>>): seq<Sent> {
    if answer.Some? then MergeAnswer(start, u, answer.value).transcript else u
  }

  /** The transcript after the batches of `reports` in turn, batch `k` opened at `starts[k]`. */
  function AfterUploads(t: seq<Sent>, starts: seq<nat>, answers: nat -> nat -> Option<seq<RawSentence>>,
                        reports: seq<Attempts>): seq<Sent>
    requires |reports| <= |starts|
    decreases |reports|
  {
    if |reports| == 0 then t
    else
      var n := |reports| - 1;
      AfterCalls(AfterUploads(t, starts, answers, reports[..n]), starts[n], answers, n, reports[n].calls)
  }

  lemma AfterUploadsSnoc(t: seq<Sent>, starts: seq<nat>, answers: nat -> nat -> Option<seq<RawSentence>>,
                         reports: seq<Attempts>, r: Attempts)
    requires |reports| < |starts|
    ensures AfterUploads(t, starts, answers, reports + [r])
      == AfterCalls(AfterUploads(t, starts, answers, reports), starts[|reports|], answers, |reports|, r.calls)
  {
    var rs := reports + [r];
    assert rs[..|reports|] == reports && rs[|rs| - 1] == r;
  }

  /** One call of a batch on a transcript that keeps `t`: a parsed answer is merged, and the call
      lands exactly when the merge does not raise. */
  method Call(ghost t: seq<Sent>, u: seq<Sent>, start: nat, answer: Option<seq<RawSentence>>) returns (v: seq<Sent>, landed: bool)
    requires KeepsOriginal(t, u)
    ensures KeepsOriginal(t, v) && v == AfterCall(u, start, answer)
    ensures landed <==> answer.Some? && Lands(start, |u|, answer.value)
  {
    v := u;
    landed := false;
    if answer.Some? {
      var m := MergeAnswer(start, u, answer.value);
      MergeRaisesUnlessLands(start, u, answer.value);
      KeepsOriginalTrans(t, u, m.transcript);
      v := m.transcript;
      landed := m.raised.None?;
    }
  }

  /** One batch opened at `start`: up to ten calls, stopping at the first that lands. A parsed
      answer is merged at every call, and what it changed before raising stays. The delay of the
      next retry is slept after every failed call but the tenth. */
  method UploadBatch(ghost t: seq<Sent>, u: seq<Sent>, start: nat, answers: nat -> nat -> Option<seq<RawSentence>>, k: nat)
    returns (v: seq<Sent>, r: Attempts)
    requires KeepsOriginal(t, u)
    ensures KeepsOriginal(t, v)
    ensures 1 <= r.calls <= UploadAttempts
    ensures r.success <==> exists a :: 0 <= a < UploadAttempts && Landed(answers, start, |u|, k, a)
    ensures r.success ==> Landed(answers, start, |u|, k, r.calls - 1)
    ensures forall a :: 0 <= a < r.calls - 1 ==> !Landed(answers, start, |u|, k, a)
    ensures |r.sleeps| == r.calls - 1 && forall j :: 0 <= j < |r.sleeps| ==> r.sleeps[j] == RetryDelay(j + 1)
    ensures v == AfterCalls(u, start, answers, k, r.calls)
  {
    v := u;
    var sleeps: seq<nat> := [];
    for a := 0 to UploadAttempts
      invariant KeepsOriginal(t, v) && |v| == |u|
      invariant a < UploadAttempts
      invariant |sleeps| == a
      invariant forall j :: 0 <= j < a ==> !Landed(answers, start, |u|, k, j) && sleeps[j] == RetryDelay(j + 1)
      invariant v == AfterCalls(u, start, answers, k, a)
    {
      var landed;
      v, landed := Call(t, v, start, answers(k)(a));
      if landed {
        assert Landed(answers, start, |u|, k, a);
        return v, Attempts(true, a + 1, sleeps);
      }
      if a == UploadAttempts - 1 {
        return v, Attempts(false, UploadAttempts, sleeps);
      }
      sleeps := sleeps + [RetryDelay(a + 1)];
    }
    assert false;
  }

  /** Batch `k`, opened at `start`, made between one and ten calls and succeeded exactly when
      one of them landed. */
  predicate BatchDone(answers: nat -> nat -> Option<seq<RawSentence>>, start: nat, size: nat, k: nat, r: Attempts) {
    1 <= r.calls <= UploadAttempts
    && (r.success <==> exists a :: 0 <= a < UploadAttempts && Landed(answers, start, size, k, a))
  }

  /** How the script ends: the transcript handed to the database with each batch's first sentence
      and calls, or the
      exception that ended it before the insert. */
  datatype Outcome = Inserted(transcript: seq<Sent>, starts: seq<nat>, attempts: seq<Attempts>) | Failed(error: Error)

  /** `process_transcript` up to the insert: the word counts are read, the batches planned and
      each batch sent until it lands or its calls run out. */
  method ProcessTranscript(t: seq<Sent>, answers: nat -> nat -> Option<seq<RawSentence>>) returns (o: Outcome)
    ensures o.Failed? <==> TextCounts(t).Err?
    ensures o.Failed? ==> o.error == TextCounts(t).error
    ensures o.Inserted? ==> KeepsOriginal(t, o.transcript)
    ensures o.Inserted? ==> (|o.attempts| == 0 <==> |t| == 0)
    ensures o.Inserted? ==> |o.starts| == |o.attempts|
    ensures o.Inserted? ==> forall k :: 0 <= k < |o.attempts| ==> o.starts[k] < |t| && BatchDone(answers, o.starts[k], |t|, k, o.attempts[k])
    ensures o.Inserted? ==> o.transcript == AfterUploads(t, o.starts, answers, o.attempts)
    ensures o.Inserted? ==> exists batches: seq<Batch> :: CoversUpTo(TextCounts(t).value, batches, |t|, MaxWordsPerBatch)
                              && |batches| == |o.starts| && forall k :: 0 <= k < |batches| ==> o.starts[k] == batches[k].start
  {
    var counts := TextCounts(t);
    if counts.Err? {
      return Failed(counts.error);
    }
    var starts := BatchStarts(counts.value);
    var u, reports := UploadBatches(t, starts, answers);
    return Inserted(u, starts, reports);
  }

  /** The first sentence of each planned batch. */
  method BatchStarts(counts: seq<nat>) returns (starts: seq<nat>)
    ensures |starts| == 0 <==> |counts| == 0
    ensures forall k :: 0 <= k < |starts| ==> starts[k] < |counts|
    ensures exists batches: seq<Batch> :: CoversUpTo(counts, batches, |counts|, MaxWordsPerBatch)
              && |batches| == |starts| && forall k :: 0 <= k < |batches| ==> starts[k] == batches[k].start
  {
    var plan := PlanUpload(counts);
    starts := seq(|plan|, k requires 0 <= k < |plan| => plan[k].start);
  }

  /** The batches opened at `starts`, one after the other. */
  method UploadBatches(t: seq<Sent>, starts: seq<nat>, answers: nat -> nat -> Option<seq<RawSentence>>)
    returns (u: seq<Sent>, reports: seq<Attempts>)
    ensures KeepsOriginal(t, u)
    ensures |reports| == |starts|
    ensures forall k :: 0 <= k < |starts| ==> BatchDone(answers, starts[k], |t|, k, reports[k])
    ensures u == AfterUploads(t, starts, answers, reports)
  {
    u := t;
    reports := [];
    for k := 0 to |starts|
      invariant KeepsOriginal(t, u)
      invariant |reports| == k
      invariant forall j :: 0 <= j < k ==> BatchDone(answers, starts[j], |t|, j, reports[j])
      invariant u == AfterUploads(t, starts, answers, reports)
    {
      var v, r := UploadBatch(t, u, starts[k], answers, k);
      AfterUploadsSnoc(t, starts, answers, reports, r);
      u := v;
      reports := reports + [r];
    }
  }

  /** The batching loop of `process_transcript`: with a limit of 25 the loop always advances, and the batches
      cover the sentences in order. */
  method PlanUpload(counts: seq<nat>) returns (batches: seq<Batch>)
    ensures |batches| == 0 <==> |counts| == 0
    ensures CoversUpTo(counts, batches, |counts|, MaxWordsPerBatch)
    ensures Flatten(Pieces(counts, batches)) == counts
  {
    var plan := CreateBatches(counts, MaxWordsPerBatch);
    batches := plan.batches;
  }

  /** A batch of the upload holds at most 25 words unless it is a single sentence. */
  lemma UploadBatchBound(counts: seq<nat>, batches: seq<Batch>, k: int)
    requires CoversUpTo(counts, batches, |counts|, MaxWordsPerBatch) && 0 <= k < |batches|
    ensures batches[k].endIdx > batches[k].start ==> batches[k].wordCount <= MaxWordsPerBatch
    ensures batches[k].endIdx >= batches[k].start
  {
    var b := batches[k];
    StopsBounds(counts, b.start, b.endIdx + 1, MaxWordsPerBatch);
  }
}
