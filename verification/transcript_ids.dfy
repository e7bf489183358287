/** The chunking and id scheme of the script that uploads a fetched YouTube transcript: lines and
    sentences are cut into fixed-size chunks, sentences get ids `"{video}-{sentence}"` numbered
    on across chunks, and vocabulary words get ids `"{sentence id}-{position}"`. The language
    model's parsed answers are parameters. */
module TranscriptIds {
  import opened Prelude
  import opened Strings

  // ---------------------------------------------------------------------------
  // chunk_lines, chunk_sentences
  // ---------------------------------------------------------------------------

  /** `[xs[i:i + size] for i in range(0, len(xs), size)]` for a positive size: consecutive
      slices of `size` elements, the last one possibly shorter. */
  function Chunks<T>(xs: seq<T>, size: nat): seq<seq<T>>
    requires size > 0
    decreases |xs|
  {
    if |xs| == 0 then []
    else if |xs| <= size then [xs]
    else [xs[..size]] + Chunks(xs[size..], size)
  }

  /** The chunks put back together are the list, none of them is empty, and every chunk but the
      last has exactly `size` elements. */
  lemma {:induction false} ChunksShape<T>(xs: seq<T>, size: nat)
    requires size > 0
    ensures Flatten(Chunks(xs, size)) == xs
    ensures |Chunks(xs, size)| == 0 <==> |xs| == 0
    ensures forall k :: 0 <= k < |Chunks(xs, size)| ==> 0 < |Chunks(xs, size)[k]| <= size
    ensures forall k :: 0 <= k < |Chunks(xs, size)| - 1 ==> |Chunks(xs, size)[k]| == size
    decreases |xs|
  {
    var r := Chunks(xs, size);
    if |xs| == 0 {
    } else if |xs| <= size {
      assert Flatten([xs]) == xs + Flatten([xs][1..]);
    } else {
      var rest := Chunks(xs[size..], size);
      ChunksShape(xs[size..], size);
      assert r == [xs[..size]] + rest && r[1..] == rest;
      assert xs[..size] + xs[size..] == xs;
    }
  }

  /** `chunk_lines` and `chunk_sentences` (the same function under two names): `range` refuses a
      step of zero with ValueError, and a negative step gives no chunks. */
  function Chunk<T>(xs: seq<T>, size: int): (r: Result<seq<seq<T>>>)
    ensures r.Err? <==> size == 0
    ensures size < 0 ==> r == Ok([])
    ensures size > 0 ==> r.Ok? && Flatten(r.value) == xs
  {
    if size == 0 then Err(ValueError("range() arg 3 must not be zero"))
    else if size < 0 then Ok([])
    else
      ChunksShape(xs, size);
      Ok(Chunks(xs, size))
  }

  lemma MulSucc(a: nat, b: nat)
    ensures (a + 1) * b == a * b + b
  {
  }

  function Min(a: int, b: int): int {
    if a <= b then a else b
  }

  /** A slice of `xs[d..]` is the slice of `xs` moved on by `d`. */
  lemma Shifted<T>(xs: seq<T>, rest: seq<T>, d: nat, i: nat, c: seq<T>)
    requires d <= |xs| && rest == xs[d..] && i < |rest|
    requires c == rest[i .. Min(i + d, |rest|)]
    ensures i + d < |xs| && c == xs[i + d .. Min(i + d + d, |xs|)]
  {
    assert Min(i + d, |rest|) + d == Min(i + d + d, |xs|);
  }

  /** The first chunk and the chunks of the rest. */
  lemma ChunksCons<T>(xs: seq<T>, size: nat)
    requires size > 0 && |xs| > 0
    ensures |xs| <= size ==> Chunks(xs, size) == [xs]
    ensures |xs| > size ==> Chunks(xs, size) == [xs[..size]] + Chunks(xs[size..], size)
  {
  }

  /** Where chunk `k` opens: `size` added `k` times. */
  function Offset(k: nat, size: nat): nat {
    if k == 0 then 0 else Offset(k - 1, size) + size
  }

  /** That is `k * size`, the comprehension's `i`. */
  lemma {:induction false} OffsetIsProduct(k: nat, size: nat)
    ensures Offset(k, size) == k * size
  {
    if k != 0 {
      OffsetIsProduct(k - 1, size);
      MulSucc(k - 1, size);
    }
  }

  /** Past the first, chunk `k` is chunk `k - 1` of the rest. */
  lemma ChunkTail<T>(xs: seq<T>, size: nat, k: nat)
    requires size > 0 && 0 < k < |Chunks(xs, size)|
    ensures |xs| > size && k - 1 < |Chunks(xs[size..], size)|
    ensures Chunks(xs, size)[k] == Chunks(xs[size..], size)[k - 1]
  {
    ChunksCons(xs, size);
  }

  /** Chunk `k` is the slice the comprehension takes at `i = k * size`. */
  lemma {:induction false} ChunkSlices<T>(xs: seq<T>, size: nat, k: nat)
    requires size > 0 && k < |Chunks(xs, size)|
    ensures Offset(k, size) < |xs|
    ensures Chunks(xs, size)[k] == xs[Offset(k, size) .. Min(Offset(k, size) + size, |xs|)]
    decreases k
  {
    if k == 0 {
      ChunksCons(xs, size);
    } else {
      ChunkTail(xs, size, k);
      var rest := xs[size..];
      ChunkSlices(rest, size, k - 1);
      Shifted(xs, rest, size, Offset(k - 1, size), Chunks(rest, size)[k - 1]);
    }
  }

  /** The number of chunks is `ceil(len(xs) / size)`: the chunks before the last fall short of
      the list, and all of them reach its end. */
  lemma {:induction false} ChunkCount<T>(xs: seq<T>, size: nat)
    requires size > 0
    ensures |Chunks(xs, size)| == 0 || (|Chunks(xs, size)| - 1) * size < |xs|
    ensures |xs| <= |Chunks(xs, size)| * size
    decreases |xs|
  {
    if 0 < |xs| <= size {
      assert |Chunks(xs, size)| == 1;
    } else if |xs| > size {
      var n := |Chunks(xs[size..], size)|;
      assert |Chunks(xs, size)| == n + 1;
      ChunkCount(xs[size..], size);
      MulSucc(n, size);
      if n > 0 {
        MulSucc(n - 1, size);
      }
    }
  }

  // ---------------------------------------------------------------------------
  // generate_sentence_id, generate_word_id
  // ---------------------------------------------------------------------------

  /** The id formats of the validation models: `n` groups of ASCII digits joined by `-`, so
      `^[0-9]+-[0-9]+$` is `IdPattern(s, 2)` and `^[0-9]+-[0-9]+-[0-9]+$` is `IdPattern(s, 3)`. */
  predicate IdPattern(s: string, n: nat) {
    var parts := SplitOn(s, '-');
    |parts| == n && forall k :: 0 <= k < |parts| ==> IsDigits(parts[k])
  }

  /** A digit string holds no `-`. */
  lemma DigitsSplit(d: string)
    requires IsDigits(d)
    ensures SplitOn(d, '-') == [d]
  {
    assert forall i :: 0 <= i < |d| ==> d[i] != '-' by {
      forall i | 0 <= i < |d|
        ensures d[i] != '-'
      {
        assert IsDigit(d[i]);
      }
    }
    SplitOnNone(d, '-');
  }

  /** `generate_sentence_id(video_index, sentence_index)`. */
  function SentenceId(video: nat, sentence: nat): (r: string)
    ensures var parts := SplitOn(r, '-');
            IdPattern(r, 2) && DigitsValue(parts[0]) == video + 1 && DigitsValue(parts[1]) == sentence + 1
  {
    var a := NatToString(video + 1);
    var b := NatToString(sentence + 1);
    SplitOnAppend(a, '-', b);
    DigitsSplit(a);
    DigitsSplit(b);
    a + "-" + b
  }

  /** Different indices give different sentence ids. */
  lemma SentenceIdInjective(v: nat, s: nat, v': nat, s': nat)
    requires SentenceId(v, s) == SentenceId(v', s')
    ensures v == v' && s == s'
  {
  }

  /** `generate_word_id(sentence_id, word_index)`. */
  function WordId(sentenceId: string, word: nat): (r: string)
    ensures SplitOn(r, '-') == SplitOn(sentenceId, '-') + [NatToString(word + 1)]
  {
    var d := NatToString(word + 1);
    SplitOnAppend(sentenceId, '-', d);
    DigitsSplit(d);
    sentenceId + "-" + d
  }

  /** A word id has the word format exactly when its sentence id has the sentence format, and
      its last group gives back the position. */
  lemma WordIdPattern(sentenceId: string, word: nat)
    ensures IdPattern(WordId(sentenceId, word), 3) <==> IdPattern(sentenceId, 2)
    ensures DigitsValue(SplitOn(WordId(sentenceId, word), '-')[|SplitOn(sentenceId, '-')|]) == word + 1
  {
    var p := SplitOn(sentenceId, '-');
    var q := SplitOn(WordId(sentenceId, word), '-');
    assert forall k :: 0 <= k < |p| ==> q[k] == p[k];
  }

  /** Word ids built from different positions differ, whatever their sentence ids. */
  lemma WordIdInjective(sid: string, w: nat, sid': string, w': nat)
    requires WordId(sid, w) == WordId(sid', w')
    ensures w == w' && sid == sid'
  {
    var p, p' := SplitOn(sid, '-'), SplitOn(sid', '-');
    var q := SplitOn(WordId(sid, w), '-');
    assert |p| == |p'|;
    assert q[|p|] == NatToString(w + 1) == NatToString(w' + 1);
    assert p == q[..|p|] == p';
    SplitOnJoin(sid, '-');
    SplitOnJoin(sid', '-');
  }

  // ---------------------------------------------------------------------------
  // the main loop's ids
  // ---------------------------------------------------------------------------

  /** The sentences of the chunks whose answer parsed, in order: a chunk whose answer is empty
      is skipped. */
  function Parsed<S>(chunks: seq<Option<seq<S>>>): seq<S>
    decreases |chunks|
  {
    if |chunks| == 0 then []
    else match chunks[0]
      case None => Parsed(chunks[1..])
      case Some(ss) => ss + Parsed(chunks[1..])
  }

  /** The sentence-id loop from `count` on: each sentence of a parsed chunk gets the id of its
      position in the whole transcript, counted by `sent_count` across chunks. */
  function NumberFrom<S>(id: nat -> string, chunks: seq<Option<seq<S>>>, count: nat): (r: seq<(string, S)>)
    ensures |r| == |Parsed(chunks)|
    ensures forall i :: 0 <= i < |r| ==> r[i] == (id(count + i), Parsed(chunks)[i])
    decreases |chunks|
  {
    if |chunks| == 0 then []
    else match chunks[0]
      case None => NumberFrom(id, chunks[1..], count)
      case Some(ss) =>
        var head := seq(|ss|, i requires 0 <= i < |ss| => (id(count + i), ss[i]));
        var rest := NumberFrom(id, chunks[1..], count + |ss|);
        var p := Parsed(chunks);
        assert p == ss + Parsed(chunks[1..]);
        assert forall i :: 0 <= i < |head + rest| ==> (head + rest)[i] == (id(count + i), p[i]) by {
          forall i | 0 <= i < |head + rest|
            ensures (head + rest)[i] == (id(count + i), p[i])
          {
            if i >= |ss| {
              assert (head + rest)[i] == rest[i - |ss|];
              assert count + |ss| + (i - |ss|) == count + i;
            }
          }
        }
        head + rest
  }

  /** The sentence ids of video `video`, by sentence index. */
  function SentenceIds(video: nat): nat -> string {
    (k: nat) => SentenceId(video, k)
  }

  /** The transcript's sentences with their ids, for video `video` (from 0). */
  function NumberSentences<S>(video: nat, chunks: seq<Option<seq<S>>>): (r: seq<(string, S)>)
    ensures |r| == |Parsed(chunks)|
    ensures forall i :: 0 <= i < |r| ==> r[i].1 == Parsed(chunks)[i]
  {
    NumberFrom(SentenceIds(video), chunks, 0)
  }

  /** Sentence `i` of the whole transcript gets id `"{video+1}-{i+1}"`, so no two sentences share
      an id, whichever chunk they came from. */
  lemma SentenceIdsDistinct<S>(video: nat, chunks: seq<Option<seq<S>>>, i: int, j: int)
    requires 0 <= i < j < |NumberSentences(video, chunks)|
    ensures NumberSentences(video, chunks)[i].0 == SentenceId(video, i)
    ensures NumberSentences(video, chunks)[i].0 != NumberSentences(video, chunks)[j].0
  {
  }

  /** The word-id loop of one vocabulary chunk: word `i` of the answer gets its own sentence id
      and its position `i` in the chunk's word list, not its position in its sentence. */
  function NumberWords<W>(words: seq<W>, sentenceIdOf: W -> string): (r: seq<string>)
    ensures |r| == |words|
    ensures forall i :: 0 <= i < |words| ==>
              SplitOn(r[i], '-') == SplitOn(sentenceIdOf(words[i]), '-') + [NatToString(i + 1)]
              && (IdPattern(r[i], 3) <==> IdPattern(sentenceIdOf(words[i]), 2))
  {
    var r := seq(|words|, i requires 0 <= i < |words| => WordId(sentenceIdOf(words[i]), i));
    forall i | 0 <= i < |words|
      ensures IdPattern(r[i], 3) <==> IdPattern(sentenceIdOf(words[i]), 2)
    {
      WordIdPattern(sentenceIdOf(words[i]), i);
    }
    r
  }

  /** Within one chunk no two words share an id. */
  lemma WordIdsDistinct<W>(words: seq<W>, sentenceIdOf: W -> string, i: int, j: int)
    requires 0 <= i < j < |words|
    ensures NumberWords(words, sentenceIdOf)[i] != NumberWords(words, sentenceIdOf)[j]
  {
    var r := NumberWords(words, sentenceIdOf);
    assert r[i] == WordId(sentenceIdOf(words[i]), i);
    assert r[j] == WordId(sentenceIdOf(words[j]), j);
    if r[i] == r[j] {
      WordIdInjective(sentenceIdOf(words[i]), i, sentenceIdOf(words[j]), j);
    }
  }

}
