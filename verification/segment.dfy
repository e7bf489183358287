/** The data the segmentation engine works on: timed words and the segments built from them,
    and the one constructor every segmenter shares (`_create_segment_from_words`). */
module Transcript {
  import opened Prelude
  import opened Strings

  /** A word of an ASR transcript: its text and its start and end times in seconds. */
  datatype Word = Word(text: string, start: real, end: real)

  /** An output segment: a running id, its text, its time span and the words it was built from. */
  datatype Segment = Segment(id: nat, text: string, start: real, end: real, words: seq<Word>)

  /** The texts of a word list, in order. */
  function Texts(words: seq<Word>): (r: seq<string>)
    ensures |r| == |words|
    ensures forall i :: 0 <= i < |words| ==> r[i] == words[i].text
  {
    seq(|words|, i requires 0 <= i < |words| => words[i].text)
  }

  lemma TextsSlice(words: seq<Word>, a: nat, b: nat)
    requires a <= b <= |words|
    ensures Texts(words[a..b]) == Texts(words)[a..b]
  {
  }

  /** `_create_segment_from_words`: an empty word list is a `ValueError`; otherwise the segment
      spans from the first word's start to the last word's end, keeps the words as they are, and
      its text is the word texts run together with no separator and stripped at both ends. */
  function CreateSegmentFromWords(words: seq<Word>, id: nat): (r: Result<Segment>)
    ensures r.Err? <==> |words| == 0
    ensures r.Err? ==> r.error.ValueError?
    ensures r.Ok? ==> r.value.id == id && r.value.words == words
    ensures r.Ok? ==> r.value.start == words[0].start && r.value.end == words[|words| - 1].end
    ensures r.Ok? ==> r.value.text == Strip(Concat(Texts(words)))
  {
    if |words| == 0 then Err(ValueError("Cannot create segment from empty words list"))
    else Ok(Segment(id, Strip(Concat(Texts(words))), words[0].start, words[|words| - 1].end, words))
  }

  /** The segment text is the concatenated texts with only surrounding whitespace removed:
      nothing in the middle is lost, added or reordered. */
  lemma {:induction false} SegmentTextFramed(words: seq<Word>, id: nat)
    requires |words| > 0
    ensures var t := CreateSegmentFromWords(words, id).value.text;
            (|t| == 0 || (!IsSpace(t[0]) && !IsSpace(t[|t| - 1])))
            && exists a, b :: Concat(Texts(words)) == a + t + b && AllSpace(a) && AllSpace(b)
  {
    var all := Concat(Texts(words));
    var a, b := StripParts(all);
    assert all == a + Strip(all) + b;
  }
}
