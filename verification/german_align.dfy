/** The German aligner (`_align_words_to_sentence` of the German segmenter): it finds the first
    word from which the normalised rest of the transcript starts with the normalised sentence, then
    grows a running normal form one word at a time until it equals the sentence or overshoots it.
    The search and the walk are stated for any normaliser `norm` and running-value update `step`;
    the lemmas at the end instantiate them with `normalize_text` and show that a match really is
    a match of the joined words. */
module GermanAligner {
  import opened Prelude
  import opened Strings
  import opened GermanNormalizer
  import opened Transcript

  /** `normalize_text` as a function value, the normaliser the German segmenter uses. */
  function GermanNorm(isWord: char -> bool): string -> string
  {
    t => NormalizeText(isWord, t)
  }

  /** The German segmenter's update of the running value by the next word:
      `normalize_text((running_norm + " " + word).strip())`. */
  function GermanStep(isWord: char -> bool): (string, string) -> string
  {
    (running, w) => NormalizeText(isWord, Strip(running + " " + w))
  }

  /** The normalised transcript from word `i` on: `norm(" ".join(texts[i:]))`. */
  function SuffixNorm(norm: string -> string, texts: seq<string>, i: nat): string
    requires i <= |texts|
  {
    norm(Join(" ", texts[i..]))
  }

  /** Whether the normalised transcript from word `i` on starts with `target`. */
  predicate StartsAt(norm: string -> string, target: string, texts: seq<string>, i: nat)
    requires i <= |texts|
  {
    StartsWith(SuffixNorm(norm, texts, i), target)
  }

  /** The start search: the first `k >= i` at which the target starts. */
  function FindStart(norm: string -> string, target: string, texts: seq<string>, i: nat): (r: Option<nat>)
    ensures r.Some? ==> i <= r.value < |texts| && StartsAt(norm, target, texts, r.value)
    ensures r.Some? ==> forall k :: i <= k < r.value ==> !StartsAt(norm, target, texts, k)
    ensures r.None? <==> forall k :: i <= k < |texts| ==> !StartsAt(norm, target, texts, k)
    decreases |texts| - i
  {
    if i >= |texts| then None
    else if StartsAt(norm, target, texts, i) then Some(i)
    else FindStart(norm, target, texts, i + 1)
  }

  /** The running value after the words `texts[s..j]`: it starts as `""` and each word updates it
      with `step` (for German, `GermanStep`). */
  function Running(step: (string, string) -> string, texts: seq<string>, s: nat, j: nat): string
    requires s <= j <= |texts|
    decreases j - s
  {
    if j == s then [] else step(Running(step, texts, s, j - 1), texts[j - 1])
  }

  /** The running values after `texts[s..s]`, ..., `texts[s..j]`, built as the loop builds them. */
  function Runs(step: (string, string) -> string, texts: seq<string>, s: nat, j: nat): (r: seq<string>)
    requires s <= j <= |texts|
    ensures |r| == j - s + 1
    ensures forall k :: 0 <= k < |r| ==> r[k] == Running(step, texts, s, s + k)
    decreases j - s
  {
    if j == s then [[]]
    else
      var p := Runs(step, texts, s, j - 1);
      p + [step(p[|p| - 1], texts[j - 1])]
  }

  /** No value `runs[k]`, `j < k < m`, equals the target or is longer than it. */
  predicate Quiet(target: string, runs: seq<string>, j: nat, m: nat)
    requires m <= |runs|
  {
    forall k :: j < k < m ==> runs[k] != target && |runs[k]| <= |target|
  }

  /** How the walk from a start word ends: at a match, past the target, or out of words. */
  datatype Walked = Matched(end: nat) | RanPast(at: nat) | Exhausted

  /** The walk loop over the running values (`runs[k]` is the value after `k` words): it stops at
      the first `k > j` whose value equals the target (a match) or is longer than it (ran past),
      and is exhausted when there is no such `k`. */
  function Walk(target: string, runs: seq<string>, j: nat): (r: Walked)
    requires j < |runs|
    ensures r.Matched? ==> j < r.end < |runs| && runs[r.end] == target && Quiet(target, runs, j, r.end)
    ensures r.RanPast? ==> j < r.at < |runs| && runs[r.at] != target && |runs[r.at]| > |target|
                           && Quiet(target, runs, j, r.at)
    ensures r.Exhausted? <==> Quiet(target, runs, j, |runs|)
    decreases |runs| - j
  {
    if j + 1 == |runs| then Exhausted
    else if runs[j + 1] == target then Matched(j + 1)
    else if |runs[j + 1]| > |target| then RanPast(j + 1)
    else Walk(target, runs, j + 1)
  }

  /** No running value after `texts[s..k]`, `s < k < e`, equals the target or is longer than it. */
  predicate NoEarlierStop(step: (string, string) -> string, target: string, texts: seq<string>, s: nat, e: nat)
    requires s <= e <= |texts| + 1
  {
    forall k :: s < k < e ==>
      Running(step, texts, s, k) != target && |Running(step, texts, s, k)| <= |target|
  }

  /** Quiet running values in the list are quiet running values of the words. */
  lemma RunsQuiet(step: (string, string) -> string, target: string, texts: seq<string>, s: nat,
                  runs: seq<string>, m: nat)
    requires s <= |texts| && runs == Runs(step, texts, s, |texts|) && m <= |runs|
    requires Quiet(target, runs, 0, m)
    ensures NoEarlierStop(step, target, texts, s, s + m)
  {
    forall k | s < k < s + m
      ensures Running(step, texts, s, k) != target && |Running(step, texts, s, k)| <= |target|
    {
      assert runs[k - s] == Running(step, texts, s, k);
    }
  }

  /** A stop at list position `k` is a stop after `texts[s..s+k]`, with nothing quiet broken before it. */
  lemma StopAt(step: (string, string) -> string, target: string, texts: seq<string>, s: nat,
               runs: seq<string>, k: nat)
    requires s <= |texts| && runs == Runs(step, texts, s, |texts|) && k < |runs|
    requires Quiet(target, runs, 0, k)
    ensures s + k <= |texts| && Running(step, texts, s, s + k) == runs[k]
    ensures NoEarlierStop(step, target, texts, s, s + k)
  {
    RunsQuiet(step, target, texts, s, runs, k);
  }

  /** The walk from start word `s`. */
  function WalkFrom(step: (string, string) -> string, target: string, texts: seq<string>, s: nat): (r: Walked)
    requires s <= |texts|
    ensures r.Matched? ==> s < r.end <= |texts| && Running(step, texts, s, r.end) == target
                           && NoEarlierStop(step, target, texts, s, r.end)
    ensures r.RanPast? ==> s < r.at <= |texts| && Running(step, texts, s, r.at) != target
                           && |Running(step, texts, s, r.at)| > |target|
                           && NoEarlierStop(step, target, texts, s, r.at)
    ensures r.Exhausted? <==> NoEarlierStop(step, target, texts, s, |texts| + 1)
  {
    var runs := Runs(step, texts, s, |texts|);
    match Walk(target, runs, 0)
    case Matched(e) =>
      StopAt(step, target, texts, s, runs, e);
      Matched(s + e)
    case RanPast(k) =>
      StopAt(step, target, texts, s, runs, k);
      RanPast(s + k)
    case Exhausted =>
      RunsQuiet(step, target, texts, s, runs, |runs|);
      Exhausted
  }

  /** A walk over quiet values reaches the first value that equals the target. */
  lemma {:induction false} WalkQuietMatch(target: string, runs: seq<string>, j: nat, m: nat)
    requires j < m < |runs| && runs[m] == target && Quiet(target, runs, j, m)
    ensures Walk(target, runs, j) == Matched(m)
    decreases m - j
  {
    if j + 1 < m {
      assert runs[j + 1] != target && |runs[j + 1]| <= |target|;
      WalkQuietMatch(target, runs, j + 1, m);
    }
  }

  /** The walk is determinate: a word count at which the running value meets the target, with no
      earlier stop, is where the walk matches. */
  lemma WalkMeets(step: (string, string) -> string, target: string, texts: seq<string>, s: nat, e: nat)
    requires s < e <= |texts| && Running(step, texts, s, e) == target
    requires NoEarlierStop(step, target, texts, s, e)
    ensures WalkFrom(step, target, texts, s) == Matched(e)
  {
    var runs := Runs(step, texts, s, |texts|);
    assert Quiet(target, runs, 0, e - s) by {
      forall k | 0 < k < e - s
        ensures runs[k] != target && |runs[k]| <= |target|
      {
        assert runs[k] == Running(step, texts, s, s + k);
      }
    }
    assert runs[e - s] == target;
    WalkQuietMatch(target, runs, 0, e - s);
  }

  /** `WalkMeets` for every word count. */
  lemma WalkMeetsAll(step: (string, string) -> string, target: string, texts: seq<string>, s: nat)
    requires s <= |texts|
    ensures forall e :: s < e <= |texts| && Running(step, texts, s, e) == target
                        && NoEarlierStop(step, target, texts, s, e)
                        ==> WalkFrom(step, target, texts, s) == Matched(e)
  {
    forall e | s < e <= |texts| && Running(step, texts, s, e) == target
               && NoEarlierStop(step, target, texts, s, e)
      ensures WalkFrom(step, target, texts, s) == Matched(e)
    {
      WalkMeets(step, target, texts, s, e);
    }
  }

  /** Where the aligner lands: the aligned word range, or why it failed. */
  datatype Alignment = Found(first: nat, end: nat) | Failed(reason: MatchReason)

  /** The aligner over the word texts, for a normalised target. From the first start `s`, a walk
      that meets the target is found, a walk that neither meets nor passes it is "Could not find
      matching word sequence", and a walk that passes it reports the running value it stopped at. */
  function Locate(norm: string -> string, step: (string, string) -> string, target: string, texts: seq<string>, start: nat): (r: Alignment)
    ensures r.Found? ==> start <= r.first < r.end <= |texts|
    ensures r.Found? ==> Running(step, texts, r.first, r.end) == target
    ensures r.Found? ==> StartsAt(norm, target, texts, r.first)
    ensures r.Found? ==> forall k :: start <= k < r.first ==> !StartsAt(norm, target, texts, k)
    ensures r.Found? ==> NoEarlierStop(step, target, texts, r.first, r.end)
    ensures r.Failed? && r.reason.RanPastTarget? ==>
      r.reason.target == target && |r.reason.got| > |target|
    ensures (r.Failed? && r.reason == StartNotFound)
        <==> forall k :: start <= k < |texts| ==> !StartsAt(norm, target, texts, k)
    ensures FindStart(norm, target, texts, start).Some? ==>
      var s := FindStart(norm, target, texts, start).value;
      && (r == Failed(NoMatchingSequence) <==> NoEarlierStop(step, target, texts, s, |texts| + 1))
      && ((exists e :: s < e <= |texts| && Running(step, texts, s, e) == target
                       && NoEarlierStop(step, target, texts, s, e)) ==> r.Found? && r.first == s)
      && (r.Failed? && r.reason.RanPastTarget? ==>
            exists k :: s < k <= |texts| && r.reason.got == Running(step, texts, s, k)
                        && NoEarlierStop(step, target, texts, s, k))
  {
    match FindStart(norm, target, texts, start)
    case None => Failed(StartNotFound)
    case Some(s) =>
      WalkMeetsAll(step, target, texts, s);
      match WalkFrom(step, target, texts, s)
      case Matched(e) => Found(s, e)
      case RanPast(k) => Failed(RanPastTarget(Running(step, texts, s, k), target))
      case Exhausted => Failed(NoMatchingSequence)
  }

  /** `_align_words_to_sentence` of the German segmenter, for the normaliser `norm` and the
      running-value update `step` (`GermanNorm` and `GermanStep` in the segmenter). On success it
      returns the aligned words and the index after them. Every failure is a `SentenceMatchError`
      carrying the sentence and the whole transcript joined by spaces. */
  function AlignWords(norm: string -> string, step: (string, string) -> string, sentence: string, words: seq<Word>, start: nat): (r: Result<(seq<Word>, nat)>)
    ensures var a := Locate(norm, step, norm(sentence), Texts(words), start);
      (r.Ok? <==> a.Found?)
      && (a.Found? ==> r.value == (words[a.first..a.end], a.end) && 1 <= |r.value.0|)
      && (a.Failed? ==> r.error == SentenceMatch(sentence, Join(" ", Texts(words)), a.reason))
  {
    var texts := Texts(words);
    match Locate(norm, step, norm(sentence), texts, start)
    case Found(s, e) => Ok((words[s..e], e))
    case Failed(reason) => Err(SentenceMatch(sentence, Join(" ", texts), reason))
  }

  /** Where a successful alignment starts: the aligned words are the run `words[s..e]`, at or after
      the cursor, and `e` is the index returned with them. */
  function AlignedStart(norm: string -> string, step: (string, string) -> string, sentence: string, words: seq<Word>, start: nat): (s: nat)
    requires AlignWords(norm, step, sentence, words, start).Ok?
    ensures var (ws, e) := AlignWords(norm, step, sentence, words, start).value;
            start <= s < e <= |words| && ws == words[s..e]
  {
    Locate(norm, step, norm(sentence), Texts(words), start).first
  }

  // ---------------------------------------------------------------------------
  // The walk with `normalize_text`
  // ---------------------------------------------------------------------------

  /** Normalising a leading space away changes nothing. */
  lemma NormalizeLeadingSpace(isWord: char -> bool, t: string)
    ensures NormalForm(isWord, Strip(" " + t)) == NormalForm(isWord, t)
  {
    var keep := KeepClass(isWord);
    NormalizeStrip(isWord, " " + t);
    KeptSplitAround(isWord, [], t);
    assert [] + " " + t == " " + t;
    assert Filter(keep, []) == [];
    assert SplitWs([]) == [];
    assert SplitWs(Filter(keep, " " + t)) == SplitWs(Filter(keep, t));
  }

  /** Incremental re-normalisation equals normalising the joined words: with `normalize_text`, the
      running value after `texts[s..j]` is the normal form of those words joined by spaces. */
  lemma {:induction false} RunningIsNormalJoin(isWord: char -> bool, texts: seq<string>, s: nat, j: nat)
    requires s <= j <= |texts|
    ensures Running(GermanStep(isWord), texts, s, j) == NormalForm(isWord, Join(" ", texts[s..j]))
    decreases j - s
  {
    var step := GermanStep(isWord);
    if j == s {
      assert texts[s..j] == [];
      assert SplitWs(Filter(KeepClass(isWord), [])) == [];
    } else {
      RunningIsNormalJoin(isWord, texts, s, j - 1);
      var prev := Running(step, texts, s, j - 1);
      var w := texts[j - 1];
      assert Running(step, texts, s, j) == NormalForm(isWord, Strip(prev + " " + w));
      SliceSnoc(texts, s, j);
      if j - 1 == s {
        assert texts[s..j - 1] == [];
        assert SplitWs(Filter(KeepClass(isWord), [])) == [];
        assert prev == [];
        assert prev + " " + w == " " + w;
        NormalizeLeadingSpace(isWord, w);
        assert texts[s..j] == [w];
      } else {
        JoinSnoc(" ", texts[s..j - 1], w);
        NormalizeIncremental(isWord, Join(" ", texts[s..j - 1]), w);
      }
    }
  }

  /** With `normalize_text`, the words the German aligner returns normalise to the sentence. */
  lemma AlignedWordsMatch(isWord: char -> bool, sentence: string, words: seq<Word>, start: nat)
    ensures var r := AlignWords(GermanNorm(isWord), GermanStep(isWord), sentence, words, start);
            r.Ok? ==> NormalizeText(isWord, Join(" ", Texts(r.value.0))) == NormalizeText(isWord, sentence)
  {
    var texts := Texts(words);
    var a := Locate(GermanNorm(isWord), GermanStep(isWord), NormalizeText(isWord, sentence), texts, start);
    assert GermanNorm(isWord)(sentence) == NormalizeText(isWord, sentence);
    if a.Found? {
      RunningIsNormalJoin(isWord, texts, a.first, a.end);
      TextsSlice(words, a.first, a.end);
    }
  }
}
