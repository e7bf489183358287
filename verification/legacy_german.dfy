/** The legacy German pipeline (`split_german_segments` of the older module). It uses the same
    splitter and the same aligner as the template: its `_normalise` is `normalize_text`
    (`GermanNormalizer.NormalizeText`) and its `split_long_sentence` is the as-written rule of
    `GermanSplitter`. It differs from the template in three ways. Every raw segment must have a
    `"words"` key. The first alignment failure aborts the whole call. An output segment's text is
    the candidate sentence itself. The loops below take the German language hooks as
    `lang: Language`. */
module LegacyGerman {
  import opened Prelude
  import opened Strings
  import opened Transcript
  import GermanSplitter
  import opened Segmentation

  /** The alignment loop for one segment: every candidate must align, in order, from the cursor
      left by the previous one, and becomes a segment whose text is the candidate itself. */
  function AlignStrict(lang: Language, sentences: seq<string>, words: seq<Word>, cursor: nat, id: nat): (r: Result<seq<Segment>>)
    ensures r.Ok? ==> |r.value| == |sentences|
    ensures r.Ok? ==> forall k :: 0 <= k < |r.value| ==> r.value[k].id == id + k
    ensures r.Ok? ==> forall k :: 0 <= k < |r.value| ==> r.value[k].text == sentences[k]
    ensures r.Err? ==> r.error.SentenceMatch?
    decreases |sentences|
  {
    if |sentences| == 0 then Ok([])
    else
      match Align(lang, sentences[0], words, cursor)
      case Err(e) => Err(e)
      case Ok((ws, next)) =>
        match AlignStrict(lang, sentences[1..], words, next, id + 1)
        case Err(e) => Err(e)
        case Ok(rest) =>
          var seg := Segment(id, sentences[0], ws[0].start, ws[|ws| - 1].end, ws);
          assert ([seg] + rest)[1..] == rest;
          Ok([seg] + rest)
  }

  /** A successful loop aligned its first candidate, emitted it, and went on from the index after
      its words. */
  lemma {:induction false} AlignStrictStep(lang: Language, sentences: seq<string>, words: seq<Word>, cursor: nat, id: nat)
    requires |sentences| != 0 && AlignStrict(lang, sentences, words, cursor, id).Ok?
    ensures Align(lang, sentences[0], words, cursor).Ok?
    ensures var (ws, next) := Align(lang, sentences[0], words, cursor).value;
            AlignStrict(lang, sentences[1..], words, next, id + 1).Ok?
    ensures var (ws, next) := Align(lang, sentences[0], words, cursor).value;
            AlignStrict(lang, sentences, words, cursor, id).value
            == [Segment(id, sentences[0], ws[0].start, ws[|ws| - 1].end, ws)] + AlignStrict(lang, sentences[1..], words, next, id + 1).value
  { }

  /** The legacy outputs of one segment take disjoint runs of its words, left to right. */
  lemma {:induction false} StrictTiled(lang: Language, sentences: seq<string>, words: seq<Word>, cursor: nat, id: nat)
    requires AlignStrict(lang, sentences, words, cursor, id).Ok?
    ensures Tiled(AlignStrict(lang, sentences, words, cursor, id).value, words, cursor)
    decreases |sentences|
  {
    if |sentences| != 0 {
      AlignStrictStep(lang, sentences, words, cursor, id);
      var (ws, next) := Align(lang, sentences[0], words, cursor).value;
      var s := AlignedFrom(lang, sentences[0], words, cursor);
      StrictTiled(lang, sentences[1..], words, next, id + 1);
      var outs := AlignStrict(lang, sentences, words, cursor, id).value;
      assert outs[1..] == AlignStrict(lang, sentences[1..], words, next, id + 1).value;
      assert outs[0].words == words[s..next];
    }
  }

  /** The outputs for the words of one raw segment: the words joined by spaces, split into
      candidates by `split`, each aligned from a cursor that starts at 0. */
  function SegmentStrict(lang: Language, split: string -> seq<string>, words: seq<Word>, id: nat): (r: Result<seq<Segment>>)
    requires lang.German?
    ensures r.Ok? ==> forall k :: 0 <= k < |r.value| ==> r.value[k].id == id + k
    ensures r.Err? ==> r.error.SentenceMatch?
  {
    AlignStrict(lang, split(Join(" ", Texts(words))), words, 0, id)
  }

  /** The loop of `split_german_segments` with the splitter `split`, numbering the outputs from
      `id`. A segment without a `"words"` key is a `KeyError`; a segment with an empty word list
      is still split. */
  function SplitSegmentsFrom(lang: Language, split: string -> seq<string>, segments: seq<RawSegment>, id: nat): (r: Result<seq<Segment>>)
    requires lang.German?
    ensures r.Ok? ==> forall k :: 0 <= k < |r.value| ==> r.value[k].id == id + k
    ensures r.Err? ==> r.error.SentenceMatch? || r.error == KeyError("words")
    decreases |segments|
  {
    if |segments| == 0 then Ok([])
    else if segments[0].wordList.None? then Err(KeyError("words"))
    else
      var outs := SegmentStrict(lang, split, segments[0].wordList.value, id);
      if outs.Err? then outs
      else
        var rest := SplitSegmentsFrom(lang, split, segments[1..], id + |outs.value|);
        if rest.Err? then rest else Ok(outs.value + rest.value)
  }

  /** `split_german_segments(segments, max_len)` (default `max_len` 60): spaCy's sentences
      (`sentencesOf`) cut by the as-written rule, aligned with `normalize_text`. */
  function SplitGermanSegments(isWord: char -> bool, sentencesOf: string -> seq<seq<string>>,
                               segments: seq<RawSegment>, maxLen: int): (r: Result<seq<Segment>>)
    ensures r.Ok? ==> forall k :: 0 <= k < |r.value| ==> r.value[k].id == k
    ensures r.Err? ==> r.error.SentenceMatch? || r.error == KeyError("words")
  {
    var lang := GermanHooks(isWord, sentencesOf, GermanSplitter.AsWritten);
    SplitSegmentsFrom(lang, Splitter(lang, maxLen), segments, 0)
  }

  /** The template's version of each segment: the same, with the text rebuilt from the words. */
  function Retext(outs: seq<Segment>): seq<Segment>
  {
    seq(|outs|, k requires 0 <= k < |outs| => outs[k].(text := Strip(Concat(Texts(outs[k].words)))))
  }

  lemma RetextCons(seg: Segment, rest: seq<Segment>)
    ensures Retext([seg] + rest) == [seg.(text := Strip(Concat(Texts(seg.words))))] + Retext(rest)
  { }

  /** Where the legacy loop succeeds for a segment, the template's loop takes the same words for
      the same candidates and differs only in the text. */
  lemma {:induction false} StrictAgrees(lang: Language, sentences: seq<string>, words: seq<Word>, cursor: nat, id: nat)
    requires AlignStrict(lang, sentences, words, cursor, id).Ok?
    ensures AlignAll(lang, sentences, words, cursor, id) == Ok(Retext(AlignStrict(lang, sentences, words, cursor, id).value))
    decreases |sentences|
  {
    if |sentences| != 0 {
      AlignStrictStep(lang, sentences, words, cursor, id);
      var (ws, next) := Align(lang, sentences[0], words, cursor).value;
      AlignedCandidateEmitted(lang, sentences, words, cursor, id);
      StrictAgrees(lang, sentences[1..], words, next, id + 1);
      var seg := Segment(id, sentences[0], ws[0].start, ws[|ws| - 1].end, ws);
      var rest := AlignStrict(lang, sentences[1..], words, next, id + 1).value;
      assert CreateSegmentFromWords(ws, id).value == seg.(text := Strip(Concat(Texts(ws))));
      RetextCons(seg, rest);
    } else {
      assert Retext([]) == [];
    }
  }

  /** With an empty word list no candidate aligns, so the legacy loop fails unless the text
      splits into no candidates. */
  lemma NoWordsNoAlignment(lang: Language, sentences: seq<string>, id: nat)
    ensures AlignStrict(lang, sentences, [], 0, id).Ok? <==> |sentences| == 0
  { }

  /** For the words of one raw segment, where the legacy loop succeeds, the template's loop yields
      the same segments with rebuilt texts. */
  lemma {:induction false} SegmentAgrees(lang: Language, split: string -> seq<string>, words: seq<Word>, id: nat)
    requires lang.German? && SegmentStrict(lang, split, words, id).Ok?
    ensures SegmentOf(lang, split, words, id) == Ok(Retext(SegmentStrict(lang, split, words, id).value))
  {
    assert ExtractText(lang, words) == Join(" ", Texts(words));
    StrictAgrees(lang, split(Join(" ", Texts(words))), words, 0, id);
  }
}
