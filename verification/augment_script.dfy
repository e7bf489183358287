/** The stand-alone augmentation script: its Japanese character classes, its own
    `merge_timestamps` and Japanese preprocessing, and the batch, retry and merge loop that asks
    the language model for translations and word annotations. The model's answers are a
    parameter: `answers(k)(a)` is the validated answer to attempt `a` of batch `k`, or `None`
    when that attempt raised. */
module AugmentScript {
  import opened Prelude
  import opened Strings
  import opened Batching
  import opened DictMerge
  import AugmentStep
  import Transcript
  import Tokenizer
  import Kana
  import Dictionary
  import JapaneseTranscript

  // ---------------------------------------------------------------------------
  // is_kanji, is_kana, is_special_char
  // ---------------------------------------------------------------------------

  /** A CJK unified ideograph. */
  predicate IsKanji(c: char) {
    0x4E00 <= c as int <= 0x9FFF
  }

  /** A character of the hiragana or the katakana block. */
  predicate IsKana(c: char) {
    (0x3040 <= c as int <= 0x309F) || (0x30A0 <= c as int <= 0x30FF)
  }

  /** `is_special_char`, with `str.isdigit` as `isDigit`. */
  predicate IsSpecialChar(isDigit: char -> bool, c: char) {
    if isDigit(c) then true else !(IsKanji(c) || IsKana(c))
  }

  /** The classes split the characters: no kanji is kana, a special character is a digit or
      outside both scripts, and a character of either script is special only as a digit. */
  lemma CharClasses(isDigit: char -> bool, c: char)
    ensures !(IsKanji(c) && IsKana(c))
    ensures IsSpecialChar(isDigit, c) <==> isDigit(c) || (!IsKanji(c) && !IsKana(c))
    ensures (IsKanji(c) || IsKana(c)) ==> (IsSpecialChar(isDigit, c) <==> isDigit(c))
  {
  }

  // ---------------------------------------------------------------------------
  // merge_timestamps as written
  // ---------------------------------------------------------------------------

  /** A word or sentence as a dictionary. */
  type Fields = DictMerge.Fields

  /** The exception Python raises when a tuple of `got` values is unpacked into `expected` names,
      if any. */
  function UnpackError(expected: nat, got: nat): (r: Option<Error>)
    ensures r.None? <==> got == expected
    ensures r.Some? ==> r.value.ValueError?
  {
    if got < expected then
      Some(ValueError("not enough values to unpack (expected " + NatToString(expected) + ", got " + NatToString(got) + ")"))
    else if got > expected then
      Some(ValueError("too many values to unpack (expected " + NatToString(expected) + ")"))
    else None
  }

  /** The legacy splitter's `split_sentence` returns the three lists of `Kana.Split`. */
  const LegacySplitArity: nat := 3

  /** `''.join(word['text'] for word in words)`: the first word without a text raises KeyError,
      the first whose text is not a string raises TypeError. */
  function WordTexts(ws: seq<Fields>): (r: Result<seq<string>>)
    ensures r.Ok? <==> forall j :: 0 <= j < |ws| ==> "text" in ws[j] && ws[j]["text"].Text?
    ensures r.Ok? ==> |r.value| == |ws| && forall j :: 0 <= j < |ws| ==> r.value[j] == ws[j]["text"].s
    ensures r.Err? ==> r.error == KeyError("text") || r.error == TypeError
  {
    if |ws| == 0 then Ok([])
    else if "text" !in ws[0] then Err(KeyError("text"))
    else if ws[0]["text"].Number? then Err(TypeError)
    else
      match WordTexts(ws[1..])
      case Err(e) => Err(e)
      case Ok(rest) =>
        assert forall j :: 1 <= j < |ws| ==> ws[j] == ws[1..][j - 1];
        Ok([ws[0]["text"].s] + rest)
  }

  /** `merge_timestamps` as written: after joining the texts and splitting the sentence it
      unpacks six names from the three lists the splitter returns, so it never returns. */
  function MergeTimestampsAsWritten(ws: seq<Fields>, split: string -> Result<Kana.Split>): (r: Result<seq<Fields>>)
    ensures r.Err?
    ensures WordTexts(ws).Err? ==> r.error == WordTexts(ws).error
    ensures WordTexts(ws).Ok? ==>
              var sentence := Concat(WordTexts(ws).value);
              (split(sentence).Err? ==> r.error == split(sentence).error)
              && (split(sentence).Ok? ==> r.error == ValueError("not enough values to unpack (expected 6, got 3)"))
  {
    match WordTexts(ws)
    case Err(e) => Err(e)
    case Ok(texts) =>
      match split(Concat(texts))
      case Err(e) => Err(e)
      case Ok(_) =>
        var e := UnpackError(6, LegacySplitArity);
        assert NatToString(6) == "6" && NatToString(3) == "3";
        Err(e.value)
  }

  // ---------------------------------------------------------------------------
  // merge_timestamps as intended
  // ---------------------------------------------------------------------------

  /** `merge_timestamps` with a splitter that returns the six lists the loop reads: each token
      becomes a word with its annotations and the times of the timed words it consumes. */
  function MergeTimestampsFixed(words: seq<Transcript.Word>, split: string -> Result<Tokenizer.SixLists>)
    : (r: Result<seq<JapaneseTranscript.Merged>>)
    ensures r.Err? <==> split(Concat(Transcript.Texts(words))).Err?
    ensures r.Ok? ==>
              var l := split(Concat(Transcript.Texts(words))).value;
              |r.value| == JapaneseTranscript.Zipped(l)
              && forall k :: 0 <= k < |r.value| ==>
                   r.value[k].text == l.words[k] && r.value[k].baseForm == l.lemmas[k]
                   && r.value[k].baseForm2 == l.lemmasKanji[k] && r.value[k].pos == l.pos[k]
                   && r.value[k].romanji == l.romaji[k] && r.value[k].hiragana == l.hiragana[k]
  {
    match split(Concat(Transcript.Texts(words)))
    case Err(e) => Err(e)
    case Ok(l) => Ok(JapaneseTranscript.Merge(words, l))
  }

  /** When the tokens are the timed words, one for one, every new word carries its own timed
      word's start and end. */
  lemma MergeTimestampsFixedOneToOne(words: seq<Transcript.Word>, split: string -> Result<Tokenizer.SixLists>, k: nat)
    requires split(Concat(Transcript.Texts(words))).Ok?
    requires var l := split(Concat(Transcript.Texts(words))).value;
             |l.words| <= |words| && forall i :: 0 <= i < |l.words| ==> |l.words[i]| == |words[i].text| > 0
    requires k < |MergeTimestampsFixed(words, split).value|
    ensures MergeTimestampsFixed(words, split).value[k].start == Some(words[k].start)
    ensures MergeTimestampsFixed(words, split).value[k].end == Some(words[k].end)
  {
    var l := split(Concat(Transcript.Texts(words))).value;
    JapaneseTranscript.OneToOneTimes(words, l, k);
  }

  // ---------------------------------------------------------------------------
  // preprocess_japanese_transcript
  // ---------------------------------------------------------------------------

  /** A transcript sentence as the script reads it: its fields, and its word list when it has
      the key `words`. */
  datatype Entry = Entry(fields: Fields, words: Option<seq<Fields>>)

  /** The index of the first sentence with a word list, at or after `i`. */
  function FirstWithWords(t: seq<Entry>, i: nat): (r: Option<nat>)
    requires i <= |t|
    ensures r.None? <==> forall j :: i <= j < |t| ==> t[j].words.None?
    ensures r.Some? ==> i <= r.value < |t| && t[r.value].words.Some?
                        && forall j :: i <= j < r.value ==> t[j].words.None?
    decreases |t| - i
  {
    if i == |t| then None
    else if t[i].words.Some? then Some(i)
    else FirstWithWords(t, i + 1)
  }

  /** `preprocess_japanese_transcript` as written: a transcript without word lists comes back
      unchanged, and the first sentence with one raises what `merge_timestamps` raises on it. */
  function PreprocessJapaneseAsWritten(t: seq<Entry>, split: string -> Result<Kana.Split>): (r: Result<seq<Entry>>)
    ensures r.Ok? <==> forall j :: 0 <= j < |t| ==> t[j].words.None?
    ensures r.Ok? ==> r.value == t
    ensures r.Err? ==> var i := FirstWithWords(t, 0).value;
                       r.error == MergeTimestampsAsWritten(t[i].words.value, split).error
  {
    match FirstWithWords(t, 0)
    case None => Ok(t)
    case Some(i) => Err(MergeTimestampsAsWritten(t[i].words.value, split).error)
  }

  /** A word of the fixed preprocessing: the merged word and the id of its dictionary entry. */
  datatype AnnotatedWord = AnnotatedWord(word: JapaneseTranscript.Merged, id: Option<string>)

  /** A segment of the fixed preprocessing. */
  datatype JapaneseSegment = JapaneseSegment(text: Option<string>, words: Option<seq<AnnotatedWord>>)

  /** The texts of annotated words. */
  function AnnotatedTexts(ws: seq<AnnotatedWord>): (r: seq<string>)
    ensures |r| == |ws| && forall k :: 0 <= k < |ws| ==> r[k] == ws[k].word.text
  {
    seq(|ws|, k requires 0 <= k < |ws| => ws[k].word.text)
  }

  /** One segment of the fixed preprocessing: its words are merged with the six-list splitter,
      each is looked up under the keys `base_form`, `base_form2` and `pos` the dictionary
      reads, and the segment's text becomes the new words' texts run together. */
  function PreprocessSegment(rows: seq<Dictionary.Record>, split: string -> Result<Tokenizer.SixLists>,
                             s: JapaneseTranscript.InSegment): (r: Result<JapaneseSegment>)
    ensures s.words.None? ==> r == Ok(JapaneseSegment(s.text, None))
    ensures s.words.Some? ==> (r.Err? <==> MergeTimestampsFixed(s.words.value, split).Err?)
    ensures s.words.Some? && r.Ok? ==>
              var merged := MergeTimestampsFixed(s.words.value, split).value;
              r.value.words.Some? && |r.value.words.value| == |merged|
              && r.value.text == Some(Concat(AnnotatedTexts(r.value.words.value)))
              && forall k :: 0 <= k < |merged| ==>
                   r.value.words.value[k].word == merged[k]
                   && r.value.words.value[k].id == JapaneseTranscript.EntryId(rows, JapaneseTranscript.IntendedView, merged[k])
  {
    match s.words
    case None => Ok(JapaneseSegment(s.text, None))
    case Some(ws) =>
      match MergeTimestampsFixed(ws, split)
      case Err(e) => Err(e)
      case Ok(merged) =>
        var out := seq(|merged|, k requires 0 <= k < |merged| =>
                         AnnotatedWord(merged[k], JapaneseTranscript.EntryId(rows, JapaneseTranscript.IntendedView, merged[k])));
        Ok(JapaneseSegment(Some(Concat(AnnotatedTexts(out))), Some(out)))
  }

  /** The fixed preprocessing of a whole transcript; the first exception ends it. */
  function PreprocessJapaneseFixed(rows: seq<Dictionary.Record>, split: string -> Result<Tokenizer.SixLists>,
                                   t: seq<JapaneseTranscript.InSegment>): (r: Result<seq<JapaneseSegment>>)
    ensures r.Ok? <==> forall i :: 0 <= i < |t| ==> PreprocessSegment(rows, split, t[i]).Ok?
    ensures r.Ok? ==> |r.value| == |t| && forall i :: 0 <= i < |t| ==> Ok(r.value[i]) == PreprocessSegment(rows, split, t[i])
    decreases |t|
  {
    if |t| == 0 then Ok([])
    else
      assert forall i :: 1 <= i < |t| ==> t[i] == t[1..][i - 1];
      match PreprocessSegment(rows, split, t[0])
      case Err(e) => Err(e)
      case Ok(s) =>
        match PreprocessJapaneseFixed(rows, split, t[1..])
        case Err(e) => Err(e)
        case Ok(rest) => Ok([s] + rest)
  }

  /** With the fixed preprocessing, a word whose lemma and tag name a Japanese entry gets an id,
      which the package's processor cannot give it when the kana column does not hold its text. */
  lemma FixedLookupFindsLemma(rows: seq<Dictionary.Record>, split: string -> Result<Tokenizer.SixLists>,
                              t: seq<JapaneseTranscript.InSegment>, i: int, k: int, j: int)
    requires PreprocessJapaneseFixed(rows, split, t).Ok? && 0 <= i < |t|
    requires var s := PreprocessJapaneseFixed(rows, split, t).value[i];
             s.words.Some? && 0 <= k < |s.words.value|
    requires var m := PreprocessJapaneseFixed(rows, split, t).value[i].words.value[k].word;
             m.baseForm != "" && m.pos != "" && 0 <= j < |rows|
             && rows[j].lang == "ja" && rows[j].lemmaForm == Some(m.baseForm) && rows[j].pos == Some(m.pos)
    ensures PreprocessJapaneseFixed(rows, split, t).value[i].words.value[k].id.Some?
  {
    var m := PreprocessJapaneseFixed(rows, split, t).value[i].words.value[k].word;
    JapaneseTranscript.IntendedLemmaFirst(rows, m, j);
  }

  // ---------------------------------------------------------------------------
  // augment_transcript: the batch, retry and merge loop
  // ---------------------------------------------------------------------------

  /** How the script ends: the augmented transcript is saved together with each batch's
      attempts and the pause slept after it, an exception ends it before anything is saved, or
      the batching loop never ends. */
  datatype Outcome = Saved(transcript: seq<Sent>, attempts: seq<Attempts>, pauses: seq<int>) | Failed(error: Error) | Loops

  /** A validated answer sentence: the schema guarantees both keys. */
  function RawOf(a: AugmentStep.AiSentence): (r: RawSentence)
    ensures Complete(r) && r.translation == Some(AugmentStep.Text(a.translation)) && r.words == Some(a.words)
  {
    RawSentence(Some(AugmentStep.Text(a.translation)), Some(a.words))
  }

  function RawAnswer(answer: seq<AugmentStep.AiSentence>): (r: seq<RawSentence>)
    ensures |r| == |answer| && forall i :: 0 <= i < |r| ==> r[i] == RawOf(answer[i])
  {
    seq(|answer|, i requires 0 <= i < |answer| => RawOf(answer[i]))
  }

  /** `len(sentence["words"])` for every sentence. */
  function SentenceCounts(t: seq<Sent>): (r: seq<nat>)
    ensures |r| == |t| && forall i :: 0 <= i < |t| ==> r[i] == |t[i].words|
  {
    seq(|t|, i requires 0 <= i < |t| => |t[i].words|)
  }

  /** Attempt `a` of batch `k` lands. */
  predicate Answered(answers: nat -> nat -> Option<seq<AugmentStep.AiSentence>>, k: nat, a: nat) {
    answers(k)(a).Some?
  }

  /** Batch `k` succeeds exactly when one of its allowed attempts lands, after at least one call
      and at most the allowed number. */
  predicate BatchReport(answers: nat -> nat -> Option<seq<AugmentStep.AiSentence>>, k: nat, maxRetries: int, r: Attempts) {
    (r.success <==> exists a :: 0 <= a < ScriptAttempts(maxRetries) && Answered(answers, k, a))
    && 1 <= r.calls <= ScriptAttempts(maxRetries)
  }

  /** The pause after a batch: `delay_between_batches` after a success, none after a failure. */
  function PauseAfter(r: Attempts, delay: int): int {
    if r.success then delay else 0
  }

  /** The transcript after one batch opened at `start` and numbered `k`: when the batch
      succeeds, the answer of its last call merged from `start` on; otherwise `u` unchanged. */
  function AfterBatch(u: seq<Sent>, start: nat, answers: nat -> nat -> Option<seq<AugmentStep.AiSentence>>,
                      k: nat, r: Attempts): seq<Sent>
  {
    if r.success && 1 <= r.calls && Answered(answers, k, r.calls - 1)
    then MergeAnswer(start, u, RawAnswer(answers(k)(r.calls - 1).value)).transcript
    else u
  }

  /** The transcript after the batches of `reports` in turn, from `t`. */
  function AfterBatches(t: seq<Sent>, batches: seq<Batch>, answers: nat -> nat -> Option<seq<AugmentStep.AiSentence>>,
                        reports: seq<Attempts>): seq<Sent>
    requires |reports| <= |batches|
    decreases |reports|
  {
    if |reports| == 0 then t
    else
      var n := |reports| - 1;
      AfterBatch(AfterBatches(t, batches, answers, reports[..n]), batches[n].start, answers, n, reports[n])
  }

  /** One more batch extends the transcript after the batches before it. */
  lemma AfterBatchesSnoc(t: seq<Sent>, batches: seq<Batch>, answers: nat -> nat -> Option<seq<AugmentStep.AiSentence>>,
                         reports: seq<Attempts>, r: Attempts)
    requires |reports| < |batches|
    ensures AfterBatches(t, batches, answers, reports + [r])
      == AfterBatch(AfterBatches(t, batches, answers, reports), batches[|reports|].start, answers, |reports|, r)
  {
    var rs := reports + [r];
    assert rs[..|reports|] == reports && rs[|rs| - 1] == r;
  }

  /** One batch opened at `start` of a transcript that keeps `t`: the request is retried until an attempt lands or the attempts
      run out, and a landing answer is merged. */
  method RunBatch(ghost t: seq<Sent>, u: seq<Sent>, start: nat, answers: nat -> nat -> Option<seq<AugmentStep.AiSentence>>,
                  k: nat, maxRetries: int) returns (v: seq<Sent>, r: Attempts)
    requires KeepsOriginal(t, u)
    ensures BatchReport(answers, k, maxRetries, r)
    ensures KeepsOriginal(t, v)
    ensures !r.success ==> v == u
    ensures r.success ==> Answered(answers, k, r.calls - 1)
                          && v == MergeAnswer(start, u, RawAnswer(answers(k)(r.calls - 1).value)).transcript
    ensures v == AfterBatch(u, start, answers, k, r)
  {
    var ok := (a: nat) => Answered(answers, k, a);
    r := Retry(ok, ScriptAttempts(maxRetries));
    assert forall a: nat :: ok(a) == Answered(answers, k, a);
    v := u;
    if r.success {
      v := MergeAnswer(start, u, RawAnswer(answers(k)(r.calls - 1).value)).transcript;
      KeepsOriginalTrans(t, u, v);
    }
  }

  /** The batches of `augment_transcript`'s batching loop, which depend only on the sentences' word counts. */
  method PlanBatches(t: seq<Sent>, maxWords: int) returns (plan: Plan)
    ensures plan.Stuck? <==> maxWords <= 0 && |t| != 0
    ensures plan.Batches? ==> (|plan.batches| == 0 <==> |t| == 0)
    ensures plan.Batches? ==> CoversUpTo(SentenceCounts(t), plan.batches, |t|, maxWords)
  {
    plan := CreateBatches(SentenceCounts(t), maxWords);
  }

  /** The batches of a plan in turn, each followed by its pause; `raised` when a successful batch
      is followed by a negative pause, which ends the loop there. */
  method RunBatches(t: seq<Sent>, batches: seq<Batch>, answers: nat -> nat -> Option<seq<AugmentStep.AiSentence>>,
                    maxRetries: int, delay: int) returns (u: seq<Sent>, reports: seq<Attempts>, pauses: seq<int>, raised: bool)
    ensures KeepsOriginal(t, u)
    ensures raised ==> delay < 0
    ensures !raised ==> |reports| == |batches|
    ensures |pauses| == |reports| <= |batches|
    ensures forall k :: 0 <= k < |reports| ==>
              && BatchReport(answers, k, maxRetries, reports[k])
              && pauses[k] == PauseAfter(reports[k], delay)
              && (delay < 0 ==> !reports[k].success)
    ensures u == AfterBatches(t, batches, answers, reports)
  {
    u := t;
    reports := [];
    pauses := [];
    for k := 0 to |batches|
      invariant KeepsOriginal(t, u)
      invariant |reports| == k && |pauses| == k
      invariant u == AfterBatches(t, batches, answers, reports)
      invariant forall j :: 0 <= j < k ==>
                  && BatchReport(answers, j, maxRetries, reports[j])
                  && pauses[j] == PauseAfter(reports[j], delay)
                  && (delay < 0 ==> !reports[j].success)
    {
      var v, r := RunBatch(t, u, batches[k].start, answers, k, maxRetries);
      if r.success && delay < 0 {
        return u, reports, pauses, true;
      }
      AfterBatchesSnoc(t, batches, answers, reports, r);
      u := v;
      reports := reports + [r];
      pauses := pauses + [PauseAfter(r, delay)];
    }
    raised := false;
  }

  /** The loop over batches once every sentence has a word list: each batch is tried up to
      `max_api_retries + 1` times (at least once), and a landing answer is merged into the
      transcript from the batch's first sentence on. The merge checks only that a target lies
      inside the transcript, not inside the batch. A successful batch is followed by a pause of
      `delay_between_batches` seconds (0 is recorded after a failed one); a negative delay makes
      that pause raise ValueError. A limit of zero words or less never ends. */
  method AugmentSentences(t: seq<Sent>, answers: nat -> nat -> Option<seq<AugmentStep.AiSentence>>,
                          maxWords: int, maxRetries: int, delay: int) returns (o: Outcome)
    ensures o.Loops? <==> maxWords <= 0 && |t| != 0
    ensures o.Failed? ==> o.error == AugmentStep.SleepError && delay < 0
    ensures o.Saved? ==> KeepsOriginal(t, o.transcript)
    ensures o.Saved? ==> (|o.attempts| == 0 <==> |t| == 0)
    ensures o.Saved? ==> forall k :: 0 <= k < |o.attempts| ==> BatchReport(answers, k, maxRetries, o.attempts[k])
    ensures o.Saved? ==> |o.pauses| == |o.attempts|
                         && forall k :: 0 <= k < |o.pauses| ==> o.pauses[k] == PauseAfter(o.attempts[k], delay)
    ensures o.Saved? && delay < 0 ==> forall k :: 0 <= k < |o.attempts| ==> !o.attempts[k].success
    ensures o.Saved? ==> exists batches :: CoversUpTo(SentenceCounts(t), batches, |t|, maxWords)
                           && |batches| == |o.attempts| && o.transcript == AfterBatches(t, batches, answers, o.attempts)
  {
    var plan := PlanBatches(t, maxWords);
    if plan.Stuck? {
      return Loops;
    }
    var u, reports, pauses, raised := RunBatches(t, plan.batches, answers, maxRetries, delay);
    if raised {
      return Failed(AugmentStep.SleepError);
    }
    return Saved(u, reports, pauses);
  }

  /** The sentences, once every one has a word list. */
  function Sents(t: seq<Entry>): (r: seq<Sent>)
    requires forall i :: 0 <= i < |t| ==> t[i].words.Some?
    ensures |r| == |t| && forall i :: 0 <= i < |t| ==> r[i] == Sent(t[i].fields, t[i].words.value)
  {
    seq(|t|, i requires 0 <= i < |t| => Sent(t[i].fields, t[i].words.value))
  }

  /** `augment_transcript`: Japanese transcripts go through the preprocessing first; a sentence
      without a word list raises KeyError when the batching loop reads it, which it does for
      every sentence unless the word limit stops it reading any. Any exception ends the script
      before the output is written. */
  method AugmentTranscript(language: string, t: seq<Entry>, split: string -> Result<Kana.Split>,
                           answers: nat -> nat -> Option<seq<AugmentStep.AiSentence>>,
                           maxWords: int, maxRetries: int, delay: int) returns (o: Outcome)
    ensures language == "ja" && |t| != 0 ==> !o.Saved?
    ensures language != "ja" ==>
              (o.Loops? <==> maxWords <= 0 && |t| != 0)
              && (o.Failed? && o.error == KeyError("words") <==> 0 < maxWords && exists i :: 0 <= i < |t| && t[i].words.None?)
    ensures language != "ja" && 0 <= delay ==>
              (o.Failed? <==> 0 < maxWords && exists i :: 0 <= i < |t| && t[i].words.None?)
    ensures o.Failed? && language != "ja" ==> o.error == KeyError("words") || (o.error == AugmentStep.SleepError && delay < 0)
    ensures o.Saved? ==> (forall i :: 0 <= i < |t| ==> t[i].words.Some?) && KeepsOriginal(Sents(t), o.transcript)
    ensures o.Saved? && (forall i :: 0 <= i < |t| ==> t[i].words.Some?) ==>
              exists batches :: CoversUpTo(SentenceCounts(Sents(t)), batches, |t|, maxWords)
                && |batches| == |o.attempts| && o.transcript == AfterBatches(Sents(t), batches, answers, o.attempts)
  {
    if language == "ja" {
      var pre := PreprocessJapaneseAsWritten(t, split);
      if pre.Err? {
        return Failed(pre.error);
      }
    }
    if maxWords <= 0 && |t| != 0 {
      return Loops;
    }
    if exists i :: 0 <= i < |t| && t[i].words.None? {
      return Failed(KeyError("words"));
    }
    o := AugmentSentences(Sents(t), answers, maxWords, maxRetries, delay);
  }

  /** As written the script never saves a non-empty Japanese transcript: a sentence with a word
      list makes the preprocessing raise, and a sentence without one makes the batching raise. */
  lemma JapaneseNeverSaved(t: seq<Entry>, split: string -> Result<Kana.Split>)
    requires |t| != 0
    ensures PreprocessJapaneseAsWritten(t, split).Ok? ==> exists i :: 0 <= i < |t| && t[i].words.None?
    ensures PreprocessJapaneseAsWritten(t, split).Err? ==> exists i :: 0 <= i < |t| && t[i].words.Some?
  {
    if PreprocessJapaneseAsWritten(t, split).Ok? {
      assert t[0].words.None?;
    }
  }
}
