/** The segmentation template (`BaseSegmenter.segment_transcripts`): for every raw ASR segment
    with words, join the word texts the language's way, split the text into candidate sentences,
    and align each candidate to the words from a cursor. A candidate that cannot be aligned is
    skipped and leaves the cursor where it was; every aligned candidate becomes an output segment
    with the next id. */
module Segmentation {
  import opened Prelude
  import opened Strings
  import opened Transcript
  import GermanNormalizer
  import GermanAligner
  import GermanSplitter
  import JapaneseAligner
  import JapaneseSplitter

  /** A raw segment of the ASR output, whose `"words"` key may be missing. */
  datatype RawSegment = RawSegment(wordList: Option<seq<Word>>) {
    /** `segment.get("words", [])`. */
    function Words(): seq<Word> {
      wordList.GetOr([])
    }
  }

  /** The language-specific hooks. German: the aligner's normaliser and running-value update
      (`norm`, `step`; see `GermanHooks`), spaCy's sentence detection (`sentencesOf`, each sentence
      as its `text_with_ws` tokens) and the splitter's cut rule. Japanese: Janome's token surfaces
      (`tokenize`). */
  datatype Language =
    | German(norm: string -> string, step: (string, string) -> string,
             sentencesOf: string -> seq<seq<string>>, rule: GermanSplitter.CutRule)
    | Japanese(tokenize: string -> seq<string>)

  /** The German segmenter's hooks: `normalize_text` with regex `\w` as `isWord`. */
  function GermanHooks(isWord: char -> bool, sentencesOf: string -> seq<seq<string>>, rule: GermanSplitter.CutRule): (lang: Language)
    ensures lang.German? && lang.sentencesOf == sentencesOf && lang.rule == rule
    ensures forall t :: lang.norm(t) == GermanNormalizer.NormalizeText(isWord, t)
  {
    German(GermanAligner.GermanNorm(isWord), GermanAligner.GermanStep(isWord), sentencesOf, rule)
  }

  /** `_extract_text_from_words`: single spaces between German words, nothing between Japanese ones. */
  function ExtractText(lang: Language, words: seq<Word>): string
  {
    match lang
    case German(_, _, _, _) => Join(" ", Texts(words))
    case Japanese(_) => Concat(Texts(words))
  }

  /** `segment_text` of the language. */
  function SegmentText(lang: Language, text: string, maxLen: int): seq<string>
    requires lang.Japanese? ==> maxLen >= 1
  {
    match lang
    case German(_, _, sentencesOf, rule) => GermanSplitter.SegmentText(rule, sentencesOf(text), maxLen)
    case Japanese(tokenize) => JapaneseSplitter.SegmentText(text, tokenize, maxLen)
  }

  /** `_align_words_to_sentence` of the language. */
  function Align(lang: Language, sentence: string, words: seq<Word>, start: nat): (r: Result<(seq<Word>, nat)>)
    ensures r.Err? ==> r.error.SentenceMatch?
    ensures r.Ok? ==> start < r.value.1 <= |words| && 1 <= |r.value.0|
  {
    match lang
    case German(norm, step, _, _) => GermanAligner.AlignWords(norm, step, sentence, words, start)
    case Japanese(_) => JapaneseAligner.AlignWords(sentence, words, start)
  }

  /** A successful alignment takes a contiguous run of words at or after the cursor, and the new
      cursor is the index just after it. */
  function AlignedFrom(lang: Language, sentence: string, words: seq<Word>, start: nat): (s: nat)
    requires Align(lang, sentence, words, start).Ok?
    ensures var (ws, e) := Align(lang, sentence, words, start).value;
            start <= s < e <= |words| && ws == words[s..e]
  {
    match lang
    case German(norm, step, _, _) => GermanAligner.AlignedStart(norm, step, sentence, words, start)
    case Japanese(_) => start
  }

  /** The output segments of one raw segment take disjoint runs of its words, left to right,
      from cursor `c` on. */
  predicate Tiled(outs: seq<Segment>, words: seq<Word>, c: nat)
    decreases |outs|
  {
    |outs| == 0
    || exists s: nat, e: nat :: c <= s < e <= |words| && outs[0].words == words[s..e] && Tiled(outs[1..], words, e)
  }

  /** The alignment loop over the candidate sentences of one segment, from word cursor `cursor`,
      numbering the new segments from `id`. A `SentenceMatchError` skips the candidate; any other
      exception escapes. */
  function AlignAll(lang: Language, sentences: seq<string>, words: seq<Word>, cursor: nat, id: nat): (r: Result<seq<Segment>>)
    ensures r.Ok? ==> forall k :: 0 <= k < |r.value| ==> r.value[k].id == id + k
    ensures r.Ok?
    ensures r.Ok? ==> Tiled(r.value, words, cursor)
    decreases |sentences|
  {
    if |sentences| == 0 then Ok([])
    else
      match Align(lang, sentences[0], words, cursor)
      case Err(e) =>
        if e.SentenceMatch? then AlignAll(lang, sentences[1..], words, cursor, id) else Err(e)
      case Ok((ws, next)) =>
        match CreateSegmentFromWords(ws, id)
        case Err(e) => Err(e)
        case Ok(seg) =>
          match AlignAll(lang, sentences[1..], words, next, id + 1)
          case Err(e) => Err(e)
          case Ok(rest) =>
            TiledCons(seg, rest, words, cursor, AlignedFrom(lang, sentences[0], words, cursor), next);
            IdsCons(seg, rest, id);
            Ok([seg] + rest)
  }

  /** A segment built from the run `words[s..e]` at or after cursor `c`, before segments tiled
      from `e`, gives segments tiled from `c`. */
  lemma TiledCons(seg: Segment, rest: seq<Segment>, words: seq<Word>, c: nat, s: nat, e: nat)
    requires c <= s < e <= |words| && seg.words == words[s..e] && Tiled(rest, words, e)
    ensures Tiled([seg] + rest, words, c)
  {
    assert ([seg] + rest)[1..] == rest;
  }

  /** A segment with id `id` before segments numbered from `id + 1` gives segments numbered
      from `id`. */
  lemma IdsCons(seg: Segment, rest: seq<Segment>, id: nat)
    requires seg.id == id && forall k :: 0 <= k < |rest| ==> rest[k].id == id + 1 + k
    ensures forall k :: 0 <= k < |[seg] + rest| ==> ([seg] + rest)[k].id == id + k
  {
  }

  /** A candidate that cannot be aligned is skipped: the next candidate is aligned from the same
      cursor and gets the same id. */
  lemma FailedCandidateKeepsCursor(lang: Language, sentences: seq<string>, words: seq<Word>, cursor: nat, id: nat)
    requires |sentences| >= 1 && Align(lang, sentences[0], words, cursor).Err?
    ensures AlignAll(lang, sentences, words, cursor, id) == AlignAll(lang, sentences[1..], words, cursor, id)
  { }

  /** An aligned candidate becomes the next segment, built from its words with the next id, and
      the following candidates are aligned from the index after those words. */
  lemma AlignedCandidateEmitted(lang: Language, sentences: seq<string>, words: seq<Word>, cursor: nat, id: nat)
    requires |sentences| >= 1 && Align(lang, sentences[0], words, cursor).Ok?
    ensures var (ws, next) := Align(lang, sentences[0], words, cursor).value;
            AlignAll(lang, sentences, words, cursor, id).value
            == [CreateSegmentFromWords(ws, id).value] + AlignAll(lang, sentences[1..], words, next, id + 1).value
  { }

  /** `segment_text` of the language with the given `max_len`, as a function of the text. */
  function Splitter(lang: Language, maxLen: int): string -> seq<string>
    requires lang.Japanese? ==> maxLen >= 1
  {
    t => SegmentText(lang, t, maxLen)
  }

  /** The outputs for the words of one raw segment: its text split into candidates by `split`,
      each aligned from a cursor that starts at 0. */
  function SegmentOf(lang: Language, split: string -> seq<string>, words: seq<Word>, id: nat): (r: Result<seq<Segment>>)
    ensures r.Ok?
    ensures forall k :: 0 <= k < |r.value| ==> r.value[k].id == id + k
  {
    AlignAll(lang, split(ExtractText(lang, words)), words, 0, id)
  }

  /** The outputs of one raw segment take disjoint runs of its words, left to right. */
  lemma SegmentTiled(lang: Language, split: string -> seq<string>, words: seq<Word>, id: nat)
    ensures Tiled(SegmentOf(lang, split, words, id).value, words, 0)
  { }

  /** `segment_transcripts` from raw segment 0 on with the splitter `split`, numbering the
      outputs from `id`. Each raw segment with words is split and aligned from cursor 0. */
  function SegmentsFrom(lang: Language, split: string -> seq<string>, segments: seq<RawSegment>, id: nat): (r: Result<seq<Segment>>)
    ensures r.Ok?
    ensures forall k :: 0 <= k < |r.value| ==> r.value[k].id == id + k
    decreases |segments|
  {
    if |segments| == 0 then Ok([])
    else
      var words := segments[0].Words();
      if |words| == 0 then SegmentsFrom(lang, split, segments[1..], id)
      else
        // `SegmentOf` never fails: every alignment error is a skipped candidate.
        var outs := SegmentOf(lang, split, words, id).value;
        Ok(outs + SegmentsFrom(lang, split, segments[1..], id + |outs|).value)
  }

  /** `segment_transcripts(segments, max_len)`: no exception escapes and the output ids are
      0, 1, 2, ... across all segments. */
  function SegmentTranscripts(lang: Language, segments: seq<RawSegment>, maxLen: int): (r: Result<seq<Segment>>)
    requires lang.Japanese? ==> maxLen >= 1
    ensures r.Ok?
    ensures forall k :: 0 <= k < |r.value| ==> r.value[k].id == k
  {
    SegmentsFrom(lang, Splitter(lang, maxLen), segments, 0)
  }

  /** A segment without words contributes nothing and uses no id. */
  lemma EmptySegmentSkipped(lang: Language, split: string -> seq<string>, segments: seq<RawSegment>, id: nat)
    requires |segments| != 0 && |segments[0].Words()| == 0
    ensures SegmentsFrom(lang, split, segments, id) == SegmentsFrom(lang, split, segments[1..], id)
  { }

  /** The outputs of a raw segment with words come first, then those of the following segments
      with the ids continued. */
  lemma SegmentOutputs(lang: Language, split: string -> seq<string>, segments: seq<RawSegment>, id: nat)
    requires |segments| != 0 && |segments[0].Words()| != 0
    ensures var outs := SegmentOf(lang, split, segments[0].Words(), id).value;
            SegmentsFrom(lang, split, segments, id).value
            == outs + SegmentsFrom(lang, split, segments[1..], id + |outs|).value
  { }
}
