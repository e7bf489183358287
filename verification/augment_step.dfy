/** The pipeline's augmentation step: the transcript's sentences are batched by word count, each
    batch is sent to the language model with retries, and each answer is merged back into the
    transcript. The model's answers are an input; the transcript's file, the prompt and the
    language-specific preprocessing are not part of this module. */
module AugmentStep {
  import opened Prelude
  import opened Strings
  import opened Batching

  /** A JSON value of a field the step copies. */
  datatype Value = Text(s: string) | Number(n: real)

  /** A transcript word: the text and times every word has, and its other keys. */
  datatype Word = Word(text: string, start: real, end: real, notes: map<string, Value>)

  /** A transcript segment: the fields the step keeps, and the rest. */
  datatype Sentence = Sentence(id: int, text: string, start: real, end: real, words: seq<Word>,
                               translation: Option<string>, extra: map<string, Value>)

  /** A sentence of the model's answer: its translation and its words' fields. */
  datatype AiSentence = AiSentence(translation: string, words: seq<map<string, Value>>)

  /** `BatchConfig`. */
  datatype Config = Config(maxWords: int, maxRetries: int, delayBetweenBatches: int)

  /** `BatchConfig()`'s defaults: 30 words a batch, 10 retries, 2 seconds between batches. */
  const DefaultConfig := Config(30, 10, 2)

  // ---------------------------------------------------------------------------
  // _create_batches
  // ---------------------------------------------------------------------------

  /** `len(sentence["words"])` for every sentence. */
  function WordCounts(t: seq<Sentence>): (r: seq<nat>)
    ensures |r| == |t|
    ensures forall i :: 0 <= i < |t| ==> r[i] == |t[i].words|
  {
    seq(|t|, i requires 0 <= i < |t| => |t[i].words|)
  }

  /** `_create_batches(transcript)`: the batches of the step's word limit over the sentences'
      word counts. They cover the transcript contiguously; a limit of zero or less never ends. */
  method CreateTranscriptBatches(t: seq<Sentence>, config: Config) returns (plan: Plan)
    ensures plan.Stuck? <==> config.maxWords <= 0 && |t| != 0
    ensures plan.Batches? ==> CoversUpTo(WordCounts(t), plan.batches, |t|, config.maxWords)
    ensures plan.Batches? ==> Flatten(Pieces(WordCounts(t), plan.batches)) == WordCounts(t)
  {
    plan := CreateBatches(WordCounts(t), config.maxWords);
  }

  // ---------------------------------------------------------------------------
  // _apply_batch_results
  // ---------------------------------------------------------------------------

  /** A word with only its text and times. */
  function Bare(w: Word): Word {
    Word(w.text, w.start, w.end, map[])
  }

  function BareWords(ws: seq<Word>): (r: seq<Word>)
    ensures |r| == |ws|
    ensures forall j :: 0 <= j < |ws| ==> r[j] == Bare(ws[j])
  {
    seq(|ws|, j requires 0 <= j < |ws| => Bare(ws[j]))
  }

  /** The answer's fields of a word other than its text and times. */
  function Annotations(p: map<string, Value>): (r: map<string, Value>)
    ensures forall k :: k in r <==> k in p && k != "text" && k != "start" && k != "end"
    ensures forall k :: k in r ==> r[k] == p[k]
  {
    map k | k in p && k != "text" && k != "start" && k != "end" :: p[k]
  }

  /** The cleaned segment: the original's id, text and times, the answer's translation, the
      given words, and no other field. */
  function Cleaned(orig: Sentence, ai: AiSentence, words: seq<Word>): Sentence {
    Sentence(orig.id, orig.text, orig.start, orig.end, words, Some(ai.translation), map[])
  }

  /** The cleaning as written: with different word counts the original words are kept bare; with
      equal counts the merge of the first word pair evaluates `context.language`, and `context`
      is not a name the method can see, so it raises NameError. Equal counts of zero have no pair
      to merge. */
  function CleanAsWritten(orig: Sentence, ai: AiSentence): (r: Result<Sentence>)
    ensures r.Err? <==> |orig.words| == |ai.words| && |orig.words| != 0
    ensures r.Ok? ==> r.value == Cleaned(orig, ai, BareWords(orig.words))
  {
    if |orig.words| != |ai.words| then Ok(Cleaned(orig, ai, BareWords(orig.words)))
    else if |orig.words| == 0 then Ok(Cleaned(orig, ai, []))
    else Err(NameError("context"))
  }

  /** A merged word as the step evidently intends: the original's text and times, the answer's
      other fields, and for Japanese an emptied `case`. */
  function MergedWord(o: Word, p: map<string, Value>, language: string): Word {
    var notes := Annotations(p);
    Word(o.text, o.start, o.end, if language == "ja" && "case" in notes then notes["case" := Text("")] else notes)
  }

  /** The cleaning with the segment's language in scope: equal counts merge word by word. */
  function CleanIntended(language: string, orig: Sentence, ai: AiSentence): (r: Result<Sentence>)
    ensures r.Ok?
  {
    if |orig.words| != |ai.words| then Ok(Cleaned(orig, ai, BareWords(orig.words)))
    else Ok(Cleaned(orig, ai, MergedWords(orig.words, ai.words, language)))
  }

  /** The words of a segment merged pairwise with its answer's words. */
  function MergedWords(os: seq<Word>, ps: seq<map<string, Value>>, language: string): (r: seq<Word>)
    requires |os| == |ps|
    ensures |r| == |os|
    ensures forall j :: 0 <= j < |os| ==> r[j] == MergedWord(os[j], ps[j], language)
  {
    seq(|os|, j requires 0 <= j < |os| => MergedWord(os[j], ps[j], language))
  }

  /** What `_apply_batch_results` leaves: the transcript, and the exception that stopped it. */
  datatype Applied = Applied(transcript: seq<Sentence>, raised: Option<Error>)

  /** Transcript index `idx` is the target of an answer sentence: it lies in the batch and the
      transcript, and the answer has a sentence for it. */
  predicate Target(b: Batch, answered: nat, size: nat, idx: int) {
    b.start <= idx <= b.endIdx && idx < size && idx - b.start < answered
  }

  /** The loop of `_apply_batch_results` from answer sentence `i` on, for a given cleaning: each
      answer sentence replaces its target with the cleaned segment, and the first cleaning that
      raises stops the loop with the replacements made so far. */
  function ApplyFrom(clean: (Sentence, AiSentence) -> Result<Sentence>, b: Batch, answer: seq<AiSentence>,
                     t: seq<Sentence>, i: nat): (r: Applied)
    requires i <= |answer|
    ensures |r.transcript| == |t|
    ensures forall idx :: 0 <= idx < |t| && !(Target(b, |answer|, |t|, idx) && idx - b.start >= i) ==> r.transcript[idx] == t[idx]
    ensures forall idx :: 0 <= idx < |t| && Target(b, |answer|, |t|, idx) && idx - b.start >= i ==>
              r.transcript[idx] == t[idx]
              || (clean(t[idx], answer[idx - b.start]).Ok? && r.transcript[idx] == clean(t[idx], answer[idx - b.start]).value)
    ensures r.raised.None? <==> forall idx :: 0 <= idx < |t| && Target(b, |answer|, |t|, idx) && idx - b.start >= i ==>
                                  clean(t[idx], answer[idx - b.start]).Ok?
    ensures r.raised.None? ==> forall idx :: 0 <= idx < |t| && Target(b, |answer|, |t|, idx) && idx - b.start >= i ==>
                                 r.transcript[idx] == clean(t[idx], answer[idx - b.start]).value
    decreases |answer| - i
  {
    if i == |answer| then Applied(t, None)
    else
      var idx := b.start + i;
      if idx <= b.endIdx && idx < |t| then
        match clean(t[idx], answer[i])
        case Err(e) => Applied(t, Some(e))
        case Ok(s) => ApplyFrom(clean, b, answer, t[idx := s], i + 1)
      else ApplyFrom(clean, b, answer, t, i + 1)
  }

  /** `_apply_batch_results(batch, processed_batch, transcript)` as written. */
  function ApplyBatchResults(b: Batch, answer: seq<AiSentence>, t: seq<Sentence>): Applied {
    ApplyFrom(CleanAsWritten, b, answer, t, 0)
  }

  /** `_apply_batch_results` with the language in scope. */
  function ApplyBatchResultsIntended(language: string, b: Batch, answer: seq<AiSentence>, t: seq<Sentence>): Applied {
    ApplyFrom((o, a) => CleanIntended(language, o, a), b, answer, t, 0)
  }

  /** As written, applying an answer raises exactly when some target has as many words as its
      answer sentence, and at least one. */
  lemma ApplyRaises(b: Batch, answer: seq<AiSentence>, t: seq<Sentence>)
    ensures ApplyBatchResults(b, answer, t).raised.Some? <==>
              exists idx :: 0 <= idx < |t| && Target(b, |answer|, |t|, idx)
                            && |t[idx].words| == |answer[idx - b.start].words| && |t[idx].words| != 0
  {
  }

  /** As written, no answer's word annotation reaches the transcript: every sentence is left as
      it was or gets its words bare. */
  lemma AsWrittenDropsAnnotations(b: Batch, answer: seq<AiSentence>, t: seq<Sentence>)
    ensures var r := ApplyBatchResults(b, answer, t).transcript;
            forall idx :: 0 <= idx < |t| ==> r[idx] == t[idx] || r[idx].words == BareWords(t[idx].words)
  {
    var r := ApplyBatchResults(b, answer, t).transcript;
    forall idx | 0 <= idx < |t|
      ensures r[idx] == t[idx] || r[idx].words == BareWords(t[idx].words)
    {
      if r[idx] != t[idx] {
        assert Target(b, |answer|, |t|, idx);
        assert BareWords([]) == [];
      }
    }
  }

  /** With the language in scope the apply never raises: each target gets the answer's
      translation, and its words the answer's annotations when the counts agree and stay bare
      otherwise; the segment's id, text and times and every word's text and times are the
      original's. */
  lemma ApplyIntendedMerges(language: string, b: Batch, answer: seq<AiSentence>, t: seq<Sentence>, idx: nat)
    requires idx < |t| && Target(b, |answer|, |t|, idx)
    ensures ApplyBatchResultsIntended(language, b, answer, t).raised.None?
    ensures var s := ApplyBatchResultsIntended(language, b, answer, t).transcript[idx];
            var a := answer[idx - b.start];
            s.id == t[idx].id && s.text == t[idx].text && s.start == t[idx].start && s.end == t[idx].end
            && s.translation == Some(a.translation) && |s.words| == |t[idx].words|
            && (forall j :: 0 <= j < |s.words| ==>
                  s.words[j].text == t[idx].words[j].text && s.words[j].start == t[idx].words[j].start
                  && s.words[j].end == t[idx].words[j].end)
            && (|a.words| == |t[idx].words| ==> forall j :: 0 <= j < |s.words| ==>
                  forall k :: k in Annotations(a.words[j]) && !(language == "ja" && k == "case") ==>
                    k in s.words[j].notes && s.words[j].notes[k] == a.words[j][k])
            && (|a.words| != |t[idx].words| ==> s.words == BareWords(t[idx].words))
  {
  }

  /** Nothing that identifies a sentence or times a word changes: the same id, text and times,
      the same number of words, each with its text and times. */
  predicate SameCore(s: Sentence, u: Sentence) {
    s.id == u.id && s.text == u.text && s.start == u.start && s.end == u.end && |s.words| == |u.words|
    && forall j :: 0 <= j < |s.words| ==>
         s.words[j].text == u.words[j].text && s.words[j].start == u.words[j].start && s.words[j].end == u.words[j].end
  }

  /** Every sentence of `u` keeps the core of the one at its index in `t`. */
  predicate KeepsCore(t: seq<Sentence>, u: seq<Sentence>) {
    |t| == |u| && forall idx :: 0 <= idx < |t| ==> SameCore(t[idx], u[idx])
  }

  lemma KeepsCoreTrans(t: seq<Sentence>, u: seq<Sentence>, v: seq<Sentence>)
    requires KeepsCore(t, u) && KeepsCore(u, v)
    ensures KeepsCore(t, v)
  {
    forall idx | 0 <= idx < |t|
      ensures SameCore(t[idx], v[idx])
    {
      assert SameCore(t[idx], u[idx]) && SameCore(u[idx], v[idx]);
    }
  }

  /** The apply as written keeps every sentence's core. */
  lemma ApplyKeepsCore(b: Batch, answer: seq<AiSentence>, t: seq<Sentence>)
    ensures KeepsCore(t, ApplyBatchResults(b, answer, t).transcript)
  {
    var r := ApplyBatchResults(b, answer, t).transcript;
    forall idx | 0 <= idx < |t|
      ensures SameCore(t[idx], r[idx])
    {
      if r[idx] != t[idx] {
        assert Target(b, |answer|, |t|, idx);
      }
    }
  }

  // ---------------------------------------------------------------------------
  // _process_batch_with_retry and _process_batches
  // ---------------------------------------------------------------------------

  /** An attempt lands when the model answers and merging the answer does not raise; as written
      that depends only on the word counts of the batch's sentences. */
  predicate Lands(b: Batch, t: seq<Sentence>, answer: Option<seq<AiSentence>>) {
    answer.Some? && ApplyBatchResults(b, answer.value, t).raised.None?
  }

  /** Two transcripts with the same word counts let the same answers land. */
  lemma LandsByCounts(b: Batch, t: seq<Sentence>, u: seq<Sentence>, answer: Option<seq<AiSentence>>)
    requires KeepsCore(t, u)
    ensures Lands(b, t, answer) <==> Lands(b, u, answer)
  {
    if answer.Some? {
      ApplyRaises(b, answer.value, t);
      ApplyRaises(b, answer.value, u);
      assert forall idx :: 0 <= idx < |t| ==> |t[idx].words| == |u[idx].words|;
    }
  }

  /** The transcript after the first `n` attempts at batch `b`: every answer is merged in turn,
      and a merge that raises keeps the replacements it made before raising. */
  function AfterAttempts(b: Batch, t: seq<Sentence>, answers: nat -> Option<seq<AiSentence>>, n: nat): seq<Sentence>
    decreases n
  {
    if n == 0 then t else AfterAttempt(b, AfterAttempts(b, t, answers, n - 1), answers(n - 1))
  }

  /** The transcript after one attempt: an answer is merged, raising or not; no answer changes
      nothing. */
  function AfterAttempt(b: Batch, u: seq<Sentence>, answer: Option<seq<AiSentence>>): seq<Sentence> {
    if answer.Some? then ApplyBatchResults(b, answer.value, u).transcript else u
  }

  /** A batch's calls as the retry loop makes them: at most the allowed attempts, all of them
      after a failure; a success lands at the last call and at no call before it. */
  predicate CallsReport(b: Batch, t: seq<Sentence>, answers: nat -> Option<seq<AiSentence>>, maxRetries: int,
                        success: bool, calls: nat) {
    && calls <= StepAttempts(maxRetries)
    && (!success ==> calls == StepAttempts(maxRetries))
    && (success ==> 1 <= calls && Lands(b, t, answers(calls - 1)))
    && (forall k :: 0 <= k < calls && (success ==> k < calls - 1) ==> !Lands(b, t, answers(k)))
  }

  /** `_process_batch_with_retry(batch, transcript, client, language, n)`: call `k` (from 0) gets
      `answers(k)`, none meaning that the call or the parse of its answer raised. An answer is
      merged into the transcript; the batch succeeds at the first attempt that lands, and gives up
      after `max_api_retries + 1` attempts, sleeping the retry delay between attempts but not after
      the last. A merge that raises keeps the replacements it made. */
  method ProcessBatchWithRetry(b: Batch, t: seq<Sentence>, answers: nat -> Option<seq<AiSentence>>, maxRetries: int)
    returns (u: seq<Sentence>, r: Attempts)
    ensures r.calls <= StepAttempts(maxRetries) && (StepAttempts(maxRetries) > 0 ==> r.calls > 0)
    ensures r.success <==> exists k :: 0 <= k < StepAttempts(maxRetries) && Lands(b, t, answers(k))
    ensures r.success ==> Lands(b, t, answers(r.calls - 1))
    ensures forall k :: 0 <= k < r.calls && (r.success ==> k < r.calls - 1) ==> !Lands(b, t, answers(k))
    ensures |r.sleeps| == if r.calls == 0 then 0 else r.calls - 1
    ensures forall k :: 0 <= k < |r.sleeps| ==> r.sleeps[k] == RetryDelay(k + 1)
    ensures KeepsCore(t, u)
    ensures !r.success ==> r.calls == StepAttempts(maxRetries)
    ensures u == AfterAttempts(b, t, answers, r.calls)
  {
    var attempts := StepAttempts(maxRetries);
    u := t;
    var sleeps: seq<nat> := [];
    for k := 0 to attempts
      invariant |sleeps| == k
      invariant attempts == 0 || k < attempts
      invariant forall j :: 0 <= j < k ==> !Lands(b, t, answers(j)) && sleeps[j] == RetryDelay(j + 1)
      invariant KeepsCore(t, u)
      invariant u == AfterAttempts(b, t, answers, k)
    {
      var landed;
      u, landed := Attempt(b, t, u, answers(k));
      if landed {
        return u, Attempts(true, k + 1, sleeps);
      }
      if k >= maxRetries {
        return u, Attempts(false, k + 1, sleeps);
      }
      sleeps := sleeps + [RetryDelay(k + 1)];
    }
    return u, Attempts(false, 0, []);
  }

  /** One attempt at a batch on a transcript `u` that keeps the core of `t`: the answer, if any,
      is merged, and the attempt lands exactly when it would on `t`. */
  method Attempt(b: Batch, ghost t: seq<Sentence>, u: seq<Sentence>, answer: Option<seq<AiSentence>>)
    returns (v: seq<Sentence>, landed: bool)
    requires KeepsCore(t, u)
    ensures v == AfterAttempt(b, u, answer) && KeepsCore(t, v)
    ensures landed <==> Lands(b, t, answer)
  {
    LandsByCounts(b, t, u, answer);
    v := u;
    landed := false;
    if answer.Some? {
      var applied := ApplyBatchResults(b, answer.value, u);
      ApplyKeepsCore(b, answer.value, u);
      KeepsCoreTrans(t, u, applied.transcript);
      v := applied.transcript;
      landed := applied.raised.None?;
    }
  }

  /** The body of the loop over batches: the next batch retried on the transcript so far. */
  method NextBatch(batches: seq<Batch>, t: seq<Sentence>, u: seq<Sentence>, answers: nat -> nat -> Option<seq<AiSentence>>,
                   maxRetries: int, succeeded: seq<bool>, calls: seq<nat>) returns (v: seq<Sentence>, r: Attempts)
    requires |calls| < |batches| && KeepsCore(t, u) && u == AfterBatches(batches, t, answers, calls)
    requires Reports(batches, t, answers, maxRetries, succeeded, calls)
    ensures KeepsCore(t, v) && v == AfterBatches(batches, t, answers, calls + [r.calls])
    ensures Reports(batches, t, answers, maxRetries, succeeded + [r.success], calls + [r.calls])
  {
    var n := |calls|;
    v, r := ProcessBatchWithRetry(batches[n], u, answers(n), maxRetries);
    forall k | 0 <= k < StepAttempts(maxRetries)
      ensures Lands(batches[n], t, answers(n)(k)) <==> Lands(batches[n], u, answers(n)(k))
    {
      LandsByCounts(batches[n], t, u, answers(n)(k));
    }
    AfterBatchesSnoc(batches, t, answers, calls, r.calls);
    KeepsCoreTrans(t, u, v);
    assert (succeeded + [r.success])[..n] == succeeded && (calls + [r.calls])[..n] == calls;
  }

  /** The transcript after the batches in turn, batch `n` making `calls[n]` attempts. */
  function AfterBatches(batches: seq<Batch>, t: seq<Sentence>, answers: nat -> nat -> Option<seq<AiSentence>>,
                        calls: seq<nat>): seq<Sentence>
    requires |calls| <= |batches|
    decreases |calls|
  {
    if |calls| == 0 then t
    else
      var n := |calls| - 1;
      AfterAttempts(batches[n], AfterBatches(batches, t, answers, calls[..n]), answers(n), calls[n])
  }

  lemma AfterBatchesSnoc(batches: seq<Batch>, t: seq<Sentence>, answers: nat -> nat -> Option<seq<AiSentence>>,
                         calls: seq<nat>, c: nat)
    requires |calls| < |batches|
    ensures AfterBatches(batches, t, answers, calls + [c])
      == AfterAttempts(batches[|calls|], AfterBatches(batches, t, answers, calls), answers(|calls|), c)
  {
    var cs := calls + [c];
    assert cs[..|calls|] == calls && cs[|cs| - 1] == c;
  }

  /** What `time.sleep` raises for a negative length. */
  const SleepError := ValueError("sleep length must be non-negative")

  /** `_process_batches(batches, transcript, client, language)`: every batch in turn, with its
      own answers; a failed batch is skipped, and a successful one is followed by a pause of
      `delay_between_batches` seconds, recorded in `pauses` (0 after a failed batch). A negative
      delay makes that pause raise, which ends the loop at the first successful batch. `calls`
      records the calls each batch made. The transcript is every batch's attempts merged in turn;
      it keeps its length, and no sentence's id, text or times, nor any word's text or times,
      change. */
  method ProcessBatches(batches: seq<Batch>, t: seq<Sentence>, answers: nat -> nat -> Option<seq<AiSentence>>, config: Config)
    returns (u: seq<Sentence>, succeeded: seq<bool>, calls: seq<nat>, pauses: seq<int>, failure: Option<Error>)
    ensures KeepsCore(t, u)
    ensures |calls| == |succeeded| <= |batches|
    ensures u == AfterBatches(batches, t, answers, calls)
    ensures forall n :: 0 <= n < |calls| ==> CallsReport(batches[n], t, answers(n), config.maxRetries, succeeded[n], calls[n])
    ensures failure.None? ==> |succeeded| == |batches| && |pauses| == |batches|
    ensures failure.Some? ==>
              && failure.value == SleepError && config.delayBetweenBatches < 0
              && 1 <= |succeeded| <= |batches| && succeeded[|succeeded| - 1]
              && |pauses| == |succeeded| - 1
    ensures forall n :: 0 <= n < |pauses| ==> pauses[n] == if succeeded[n] then config.delayBetweenBatches else 0
    ensures config.delayBetweenBatches < 0 ==> forall n :: 0 <= n < |pauses| ==> !succeeded[n]
    ensures forall n :: 0 <= n < |succeeded| ==>
              (succeeded[n] <==> exists k :: 0 <= k < StepAttempts(config.maxRetries) && Lands(batches[n], t, answers(n)(k)))
  {
    var raised;
    u, succeeded, calls, pauses, raised := BatchLoop(batches, t, answers, config.maxRetries, config.delayBetweenBatches);
    ReportsEach(batches, t, answers, config.maxRetries, succeeded, calls);
    ReportsLand(batches, t, answers, config.maxRetries, succeeded, calls);
    failure := if raised then Some(SleepError) else None;
  }

  /** The loop of `_process_batches`; `raised` when the pause after a successful batch raised. */
  method BatchLoop(batches: seq<Batch>, t: seq<Sentence>, answers: nat -> nat -> Option<seq<AiSentence>>,
                   maxRetries: int, delay: int)
    returns (u: seq<Sentence>, succeeded: seq<bool>, calls: seq<nat>, pauses: seq<int>, raised: bool)
    ensures KeepsCore(t, u)
    ensures |calls| == |succeeded| <= |batches|
    ensures u == AfterBatches(batches, t, answers, calls)
    ensures !raised ==> |succeeded| == |batches| && |pauses| == |batches|
    ensures raised ==> delay < 0 && 1 <= |succeeded| && succeeded[|succeeded| - 1] && |pauses| == |succeeded| - 1
    ensures forall n :: 0 <= n < |pauses| ==>
              && pauses[n] == Pause(succeeded[n], delay)
              && (delay < 0 ==> !succeeded[n])
    ensures Reports(batches, t, answers, maxRetries, succeeded, calls)
  {
    u := t;
    succeeded := [];
    calls := [];
    pauses := [];
    for n := 0 to |batches|
      invariant KeepsCore(t, u)
      invariant |succeeded| == n && |pauses| == n && |calls| == n
      invariant u == AfterBatches(batches, t, answers, calls)
      invariant Reports(batches, t, answers, maxRetries, succeeded, calls)
      invariant forall j :: 0 <= j < n ==>
                  && pauses[j] == Pause(succeeded[j], delay)
                  && (delay < 0 ==> !succeeded[j])
    {
      var next, r := NextBatch(batches, t, u, answers, maxRetries, succeeded, calls);
      u := next;
      succeeded := succeeded + [r.success];
      calls := calls + [r.calls];
      if r.success && delay < 0 {
        return u, succeeded, calls, pauses, true;
      }
      pauses := pauses + [Pause(r.success, delay)];
    }
    raised := false;
  }

  /** Every batch so far reported as the retry loop makes its calls. */
  predicate Reports(batches: seq<Batch>, t: seq<Sentence>, answers: nat -> nat -> Option<seq<AiSentence>>, maxRetries: int,
                    succeeded: seq<bool>, calls: seq<nat>)
    decreases |calls|
  {
    && |calls| == |succeeded| <= |batches|
    && (|calls| != 0 ==>
          var n := |calls| - 1;
          && Reports(batches, t, answers, maxRetries, succeeded[..n], calls[..n])
          && CallsReport(batches[n], t, answers(n), maxRetries, succeeded[n], calls[n]))
  }

  /** Each batch of a report list is reported as the retry loop makes its calls. */
  lemma {:induction false} ReportsEach(batches: seq<Batch>, t: seq<Sentence>, answers: nat -> nat -> Option<seq<AiSentence>>,
                                       maxRetries: int, succeeded: seq<bool>, calls: seq<nat>)
    requires Reports(batches, t, answers, maxRetries, succeeded, calls)
    ensures forall n :: 0 <= n < |calls| ==> CallsReport(batches[n], t, answers(n), maxRetries, succeeded[n], calls[n])
    decreases |calls|
  {
    if |calls| != 0 {
      var m := |calls| - 1;
      ReportsEach(batches, t, answers, maxRetries, succeeded[..m], calls[..m]);
      forall n | 0 <= n < |calls|
        ensures CallsReport(batches[n], t, answers(n), maxRetries, succeeded[n], calls[n])
      {
        if n < m {
          assert succeeded[..m][n] == succeeded[n] && calls[..m][n] == calls[n];
        }
      }
    }
  }

  /** The pause after a batch: the delay after a success, none after a failure. */
  function Pause(success: bool, delay: int): int {
    if success then delay else 0
  }

  /** A batch reported as the retry loop makes its calls succeeds exactly when one of its
      allowed attempts lands. */
  lemma ReportsLand(batches: seq<Batch>, t: seq<Sentence>, answers: nat -> nat -> Option<seq<AiSentence>>, maxRetries: int,
                    succeeded: seq<bool>, calls: seq<nat>)
    requires Reports(batches, t, answers, maxRetries, succeeded, calls)
    ensures forall n :: 0 <= n < |succeeded| ==>
              (succeeded[n] <==> exists k :: 0 <= k < StepAttempts(maxRetries) && Lands(batches[n], t, answers(n)(k)))
  {
    ReportsEach(batches, t, answers, maxRetries, succeeded, calls);
    forall n | 0 <= n < |succeeded|
      ensures succeeded[n] <==> exists k :: 0 <= k < StepAttempts(maxRetries) && Lands(batches[n], t, answers(n)(k))
    {
      assert CallsReport(batches[n], t, answers(n), maxRetries, succeeded[n], calls[n]);
      if succeeded[n] {
        assert Lands(batches[n], t, answers(n)(calls[n] - 1));
      }
    }
  }

  /** The defect in a concrete case: a one-word segment answered with one word. As written the
      merge raises NameError and keeps nothing; with the language in scope the translation and the
      word's annotation are stored. */
  lemma NameErrorExample()
    ensures var w := Word("Hallo", 0.0, 1.0, map[]);
            var t := [Sentence(0, "Hallo", 0.0, 1.0, [w], None, map[])];
            var a := [AiSentence("Hello", [map["text" := Text("Hallo"), "translation" := Text("hello")]])];
            ApplyBatchResults(Batch(0, 0, 1), a, t) == Applied(t, Some(NameError("context")))
    ensures var w := Word("Hallo", 0.0, 1.0, map[]);
            var t := [Sentence(0, "Hallo", 0.0, 1.0, [w], None, map[])];
            var a := [AiSentence("Hello", [map["text" := Text("Hallo"), "translation" := Text("hello")]])];
            ApplyBatchResultsIntended("de", Batch(0, 0, 1), a, t).transcript
               == [Sentence(0, "Hallo", 0.0, 1.0, [Word("Hallo", 0.0, 1.0, map["translation" := Text("hello")])], Some("Hello"), map[])]
  {
    var w := Word("Hallo", 0.0, 1.0, map[]);
    var t := [Sentence(0, "Hallo", 0.0, 1.0, [w], None, map[])];
    var p: map<string, Value> := map["text" := Text("Hallo"), "translation" := Text("hello")];
    var a := [AiSentence("Hello", [p])];
    assert Annotations(p) == map["translation" := Text("hello")];
    var merged := MergedWords(t[0].words, a[0].words, "de");
    assert merged == [Word("Hallo", 0.0, 1.0, map["translation" := Text("hello")])];
    assert CleanIntended("de", t[0], a[0]) == Ok(Cleaned(t[0], a[0], merged));
    assert Target(Batch(0, 0, 1), 1, 1, 0);
    var ap := ApplyBatchResultsIntended("de", Batch(0, 0, 1), a, t);
    assert ap.transcript[0] == Cleaned(t[0], a[0], merged);
    assert ap.transcript == [ap.transcript[0]];
  }
}
