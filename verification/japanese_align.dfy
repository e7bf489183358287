/** The Japanese aligner (`_align_words_to_sentence` of the Japanese segmenter): starting at the
    cursor it takes words while each one is an exact character prefix of what is left of the
    sentence, and fails only when it takes none. */
module JapaneseAligner {
  import opened Prelude
  import opened Strings
  import opened Transcript

  /** The matching loop from word `i` with `m` sentence characters matched so far. It returns the
      index of the first word not taken; the taken words spell `sentence[m..]`'s prefix, and the
      loop stops only when the sentence is used up, the words run out, or the next word does not
      fit at the current position. */
  function Take(sentence: string, texts: seq<string>, i: nat, m: nat): (r: nat)
    requires i <= |texts| && m <= |sentence|
    ensures i <= r <= |texts|
    ensures m + |Concat(texts[i..r])| <= |sentence|
    ensures sentence[m..m + |Concat(texts[i..r])|] == Concat(texts[i..r])
    ensures r == |texts| || m + |Concat(texts[i..r])| == |sentence|
            || !StartsWith(sentence[m + |Concat(texts[i..r])|..], texts[r])
    decreases |texts| - i
  {
    if m == |sentence| || i == |texts| then
      assert texts[i..i] == [];
      i
    else if StartsWith(sentence[m..], texts[i]) then
      var r := Take(sentence, texts, i + 1, m + |texts[i]|);
      TakeStep(sentence, texts, i, m, r);
      r
    else
      assert texts[i..i] == [];
      i
  }

  /** Taking word `i` first and then the words up to `r` spells the concatenation from `i`. */
  lemma TakeStep(sentence: string, texts: seq<string>, i: nat, m: nat, r: nat)
    requires i < |texts| && m < |sentence| && StartsWith(sentence[m..], texts[i])
    requires i + 1 <= r <= |texts|
    requires m + |texts[i]| + |Concat(texts[i + 1..r])| <= |sentence|
    requires sentence[m + |texts[i]|..m + |texts[i]| + |Concat(texts[i + 1..r])|] == Concat(texts[i + 1..r])
    ensures Concat(texts[i..r]) == texts[i] + Concat(texts[i + 1..r])
    ensures sentence[m..m + |Concat(texts[i..r])|] == Concat(texts[i..r])
  {
    assert texts[i..r][1..] == texts[i + 1..r];
    var rest := Concat(texts[i + 1..r]);
    var a := m + |texts[i]|;
    assert sentence[m..a] == texts[i];
    assert sentence[m..a + |rest|] == sentence[m..a] + sentence[a..a + |rest|];
  }

  /** `_align_words_to_sentence` of the Japanese segmenter. */
  function AlignWords(sentence: string, words: seq<Word>, start: nat): (r: Result<(seq<Word>, nat)>)
    ensures r.Ok? ==> var (ws, n) := r.value;
      start < n <= |words| && ws == words[start..n]
    ensures r.Ok? ==> var (ws, n) := r.value;
      StartsWith(sentence, Concat(Texts(ws)))
    ensures r.Ok? ==> var (ws, n) := r.value;
      n == |words| || |Concat(Texts(ws))| == |sentence|
      || !StartsWith(sentence[|Concat(Texts(ws))|..], words[n].text)
    ensures r.Err? <==> |sentence| == 0 || start >= |words| || !StartsWith(sentence, words[start].text)
    ensures r.Err? ==> r.error == SentenceMatch(sentence, Concat(Texts(words)), NoMatchingSequence)
  {
    var texts := Texts(words);
    var n := if start < |texts| then Take(sentence, texts, start, 0) else start;
    if n == start then
      Err(SentenceMatch(sentence, Concat(texts), NoMatchingSequence))
    else
      TextsSlice(words, start, n);
      assert sentence[0..] == sentence;
      Ok((words[start..n], n))
  }
}
