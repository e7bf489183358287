/** How the augmentation and upload scripts merge a model's answer into a transcript held as
    plain dictionaries: each answered sentence gets its translation, and each answered word is
    merged under the original word with `proc_word | orig_word`, so the original's keys win. */
module DictMerge {
  import opened Prelude
  import AugmentStep

  type Value = AugmentStep.Value

  /** A word's or sentence's fields. */
  type Fields = map<string, Value>

  /** A transcript sentence: its fields, and its words' fields. */
  datatype Sent = Sent(fields: Fields, words: seq<Fields>)

  /** A sentence of the answer as parsed JSON: either key may be missing. */
  datatype RawSentence = RawSentence(translation: Option<Value>, words: Option<seq<Fields>>)

  /** `proc_word | orig_word`: every key of either word, with the original's value wherever it
      has one. */
  function MergeWord(proc: Fields, orig: Fields): (r: Fields)
    ensures forall k :: k in r <==> k in proc || k in orig
    ensures forall k :: k in orig ==> r[k] == orig[k]
    ensures forall k :: k in proc && k !in orig ==> r[k] == proc[k]
  {
    proc + orig
  }

  /** Merging the same answer word again changes nothing. */
  lemma MergeWordTwice(proc: Fields, orig: Fields)
    ensures MergeWord(proc, MergeWord(proc, orig)) == MergeWord(proc, orig)
  {
  }

  /** The `zip` loop over a sentence's words: the first `min(|orig|, |proc|)` words are merged,
      the rest of the original words stay as they were. */
  function MergeWords(orig: seq<Fields>, proc: seq<Fields>): (r: seq<Fields>)
    ensures |r| == |orig|
    ensures forall j :: 0 <= j < |orig| && j < |proc| ==> r[j] == MergeWord(proc[j], orig[j])
    ensures forall j :: |proc| <= j < |orig| ==> r[j] == orig[j]
  {
    seq(|orig|, j requires 0 <= j < |orig| => if j < |proc| then MergeWord(proc[j], orig[j]) else orig[j])
  }

  /** `u` keeps `t`'s sentences: as many, each with its fields other than the translation and
      with as many words, each word keeping every key it had with its value. */
  predicate KeepsOriginal(t: seq<Sent>, u: seq<Sent>) {
    |t| == |u|
    && forall idx :: 0 <= idx < |t| ==>
         (forall k :: k in t[idx].fields && k != "translation" ==> k in u[idx].fields && u[idx].fields[k] == t[idx].fields[k])
         && |u[idx].words| == |t[idx].words|
         && forall j, k :: 0 <= j < |t[idx].words| && k in t[idx].words[j] ==>
              k in u[idx].words[j] && u[idx].words[j][k] == t[idx].words[j][k]
  }

  lemma KeepsOriginalTrans(t: seq<Sent>, u: seq<Sent>, v: seq<Sent>)
    requires KeepsOriginal(t, u) && KeepsOriginal(u, v)
    ensures KeepsOriginal(t, v)
  {
  }

  /** The sentence an answer sentence with both keys makes. */
  function MergeSentence(s: Sent, translation: Value, proc: seq<Fields>): Sent {
    Sent(s.fields["translation" := translation], MergeWords(s.words, proc))
  }

  /** What the merge loop leaves: the transcript, and the exception that stopped it. */
  datatype Merged = Merged(transcript: seq<Sent>, raised: Option<Error>)

  /** Transcript index `idx` is the target of answer sentence `idx - start`. */
  predicate Target(start: nat, answered: nat, size: nat, idx: int) {
    start <= idx < size && idx - start < answered
  }

  /** An answer sentence the loop can use whole. */
  predicate Complete(a: RawSentence) {
    a.translation.Some? && a.words.Some?
  }

  /** The scripts' merge loop from answer sentence `i` on: answer sentence `i` goes to transcript
      sentence `start + i` when that exists. A missing `translation` raises KeyError before
      anything of the sentence changes; missing `words` raise KeyError after the translation was
      set. The replacements made before the exception stay. */
  function MergeFrom(start: nat, t: seq<Sent>, answer: seq<RawSentence>, i: nat): (r: Merged)
    requires i <= |answer|
    ensures KeepsOriginal(t, r.transcript)
    ensures forall idx :: 0 <= idx < |t| && !(Target(start, |answer|, |t|, idx) && idx - start >= i) ==> r.transcript[idx] == t[idx]
    ensures r.raised.None? <==> forall idx :: 0 <= idx < |t| && Target(start, |answer|, |t|, idx) && idx - start >= i ==> Complete(answer[idx - start])
    ensures r.raised.None? ==> forall idx :: 0 <= idx < |t| && Target(start, |answer|, |t|, idx) && idx - start >= i ==>
              r.transcript[idx] == MergeSentence(t[idx], answer[idx - start].translation.value, answer[idx - start].words.value)
    decreases |answer| - i
  {
    if i == |answer| then Merged(t, None)
    else
      var idx := start + i;
      if idx < |t| then
        var a := answer[i];
        assert Target(start, |answer|, |t|, idx) && answer[idx - start] == a;
        if a.translation.None? then Merged(t, Some(KeyError("translation")))
        else
          var withTranslation := t[idx := t[idx].(fields := t[idx].fields["translation" := a.translation.value])];
          if a.words.None? then Merged(withTranslation, Some(KeyError("words")))
          else MergeFrom(start, t[idx := MergeSentence(t[idx], a.translation.value, a.words.value)], answer, i + 1)
      else MergeFrom(start, t, answer, i + 1)
  }

  /** The merge of a whole answer into the batch opened at `start`. */
  function MergeAnswer(start: nat, t: seq<Sent>, answer: seq<RawSentence>): Merged {
    MergeFrom(start, t, answer, 0)
  }

  /** Merging the same complete answer twice gives what merging it once gave: the original's
      keys already won the first time. */
  lemma MergeAnswerTwice(start: nat, t: seq<Sent>, answer: seq<RawSentence>)
    requires forall i :: 0 <= i < |answer| ==> Complete(answer[i])
    ensures MergeAnswer(start, t, answer).raised.None?
    ensures var once := MergeAnswer(start, t, answer).transcript;
            MergeAnswer(start, once, answer).transcript == once
  {
    var once := MergeAnswer(start, t, answer).transcript;
    var twice := MergeAnswer(start, once, answer).transcript;
    forall idx | 0 <= idx < |t| && Target(start, |answer|, |t|, idx)
      ensures twice[idx] == once[idx]
    {
      var a := answer[idx - start];
      var ws := MergeWords(t[idx].words, a.words.value);
      forall j | 0 <= j < |ws| && j < |a.words.value|
        ensures MergeWord(a.words.value[j], ws[j]) == ws[j]
      {
        MergeWordTwice(a.words.value[j], t[idx].words[j]);
      }
      assert MergeWords(ws, a.words.value) == ws;
    }
  }
}
