# mitlesen transcript engine in Dafny

This project models the transcript segmentation and annotation engine of the *mitlesen*
language-learning backend, together with the pure helpers around it. ASR transcripts arrive as
segments of timed words. The engine cuts them into sentence-sized segments, in German and
Japanese, and each cut keeps the exact run of timed words it came from. Words are then annotated
with readings, romaji, lemmas and dictionary ids, and the pipeline batches them for translation.

Around that core the model covers the dictionaries the ids come from and the scripts that feed
and finish the transcripts. The dictionaries are built from JMdict, Wiktionary and Kaikki dumps.
ElevenLabs word lists become segments. Sentences are batched for the language model, whose
answers are merged back. SRT files and raw captions are read, ids are generated, and the result
is validated.

The external analysers are parameters of the model:

- spaCy's sentence detection is `sentencesOf`, which gives each sentence as its `text_with_ws`
  tokens.
- Janome's tokenisation is `tokenize`, which gives the token surfaces.
- The regex class `\w` is `isWord`.
- jaconv, pykakasi, Jamdict and sha1 are function parameters of the modules that call them.

Whitespace (`\s`, `str.isspace`) is the concrete Python set. In the segmentation core and the
transcript processors, timestamps are `real` values that are only ever copied. `RawTranscript`
computes integer seconds from `h:m:s` clocks, and `Srt` computes integer milliseconds.

Modules, one per file:

| module | file | models |
|---|---|---|
| `Prelude` | prelude.dfy | `Option`, `Result` and the Python exceptions the code raises |
| `Strings` | strings.dfy | `str.strip`, `split()`, `join`, `find`, slicing and `lower` on `seq<char>` |
| `Transcript` | segment.dfy | words, segments, `_create_segment_from_words` |
| `GermanNormalizer` | german_normalizer.dfy | `normalize_text` and `_normalise` |
| `GermanAligner` | german_align.dfy | the German `_align_words_to_sentence` |
| `GermanSplitter` | german_split.dfy | the German `split_long_sentence` and `segment_text` |
| `JapaneseAligner` | japanese_align.dfy | the Japanese `_align_words_to_sentence` |
| `JapaneseSplitter` | japanese_split.dfy | the Japanese `split_long_sentence` and `segment_text` |
| `Segmentation` | orchestrator.dfy | `BaseSegmenter.segment_transcripts` with its language hooks |
| `LegacyGerman` | legacy_german.dfy | `split_german_segments` of the legacy module |
| `Tokenizer` | tokenizer.dfy | the Janome-based `JapaneseWordSplitter`: part-of-speech mapping, lemmas and romaji |
| `Kana` | kana.dfy | the legacy `japanese.py` splitter: kana tables, reading expansion, `split_sentence` |
| `Phonetics` | phonetics.dfy | `to_romaji` and `to_hiragana` of the phonetics helper |
| `Romanizer` | romanizer.dfy | `is_kana_only` and `kana_to_kanji` |
| `JapaneseTranscript` | ja_transcript.dfy | the Japanese transcript processor: timestamp merge, dictionary ids, cleanup |
| `Dictionary` | dictionary.dfy | `canonicalise_pos`, `make_id`, the upsert store, `search_by_lemma`, `search_japanese_word` |
| `GermanTranscript` | de_transcript.dfy | the German transcript processor: word cleaning, lemma lookup, entry choice |
| `SpanishNormalizer` | spanish_normalizer.dfy | the Spanish `normalize`, accent removal and strict mode |
| `JMdict` | jmdict.dfy | the two JMdict parsers: part-of-speech remarks, levels, furigana, rows |
| `Wiktionary` | wiktionary.dfy | the German and Japanese Wiktionary parsers, with redirects |
| `BuildGermanDictionary` | build_de_dictionary.dfy | the Kaikki German dictionary builder |
| `ElevenLabs` | elevenlabs.dfy | the ElevenLabs transform: sentence grouping, comma splitting, segments |
| `Batching` | batching.dfy | batch creation by word count and the retry schedule |
| `DictMerge` | dict_merge.dfy | the `proc_word \| orig_word` merge of the scripts |
| `AugmentStep` | augment_step.dfy | the pipeline's augmentation step |
| `AugmentScript` | augment_script.dfy | the stand-alone augmentation script |
| `JsonUpload` | json_upload.dfy | the JSON transcript upload script |
| `TranscriptIds` | transcript_ids.dfy | chunking and sentence and word ids of the transcript upload script |
| `Srt` | srt.dfy | the SRT-to-JSON script |
| `RawTranscript` | raw_transcript.dfy | the caption helpers of `ai.py`: seconds, end times, grouping lines |
| `Validate` | validate.dfy | the pydantic validation models |
| `Dispatch` | dispatch.dfy | the language dispatch of the NLP package |

## Model

| member | source | states |
|---|---|---|
| Transcript.CreateSegmentFromWords | mitlesen/nlp/base.py:116-135 | an empty word list is a ValueError; otherwise the segment carries the given id, starts at the first word's start, ends at the last word's end, keeps the word list, and its text is the word texts run together and stripped |
| Transcript.SegmentTextFramed | mitlesen/nlp/base.py:127 | the segment text is the concatenated word texts minus whitespace at both ends, and nothing else |
| Segmentation.GermanHooks | mitlesen/nlp/german/segmenter.py:109-131 | the German hooks normalise with `normalize_text` |
| Segmentation.Align | mitlesen/nlp/base.py:96-109 | every aligner failure is a SentenceMatchError; a success takes at least one word and moves the cursor forward |
| Segmentation.AlignedFrom | mitlesen/nlp/base.py:65-67 | a successful alignment returns a contiguous run of words at or after the cursor, and the new cursor is the index just past it |
| Segmentation.AlignAll | mitlesen/nlp/base.py:62-79 | the candidate loop never fails, numbers its outputs consecutively from the current id, and its outputs take disjoint runs of the words from left to right |
| Segmentation.FailedCandidateKeepsCursor | mitlesen/nlp/base.py:76-79 | an unalignable candidate is skipped: the rest is aligned from the same cursor with the same id |
| Segmentation.AlignedCandidateEmitted | mitlesen/nlp/base.py:65-74 | an aligned candidate becomes the next output, built from its words with the current id, and the rest is aligned from the returned cursor with the next id |
| Segmentation.SegmentOf | mitlesen/nlp/base.py:55-79 | the outputs of one raw segment come from aligning its candidates from cursor 0, with consecutive ids |
| Segmentation.SegmentTiled | mitlesen/nlp/base.py:62-81 | the outputs of one raw segment take disjoint runs of its words from left to right |
| Segmentation.SegmentsFrom | mitlesen/nlp/base.py:44-81 | the loop over raw segments never fails and numbers its outputs consecutively from the given id |
| Segmentation.SegmentTranscripts | mitlesen/nlp/base.py:35-81 | `segment_transcripts` raises nothing and numbers its outputs 0, 1, 2, ... across all segments |
| Segmentation.EmptySegmentSkipped | mitlesen/nlp/base.py:47-50 | a raw segment whose words are missing or empty contributes nothing and uses no id |
| Segmentation.SegmentOutputs | mitlesen/nlp/base.py:47-79 | a raw segment with words contributes its own outputs first, then the following segments continue the ids |
| GermanNormalizer.NormalizeText | mitlesen/nlp/german/normalizer.py:5-20 | the result is the normal form: word characters only, single spaces between runs, no space at either end, case kept |
| GermanNormalizer.NormalizeTextIdempotent | mitlesen/nlp/german/normalizer.py:18-20 | normalising twice gives the same as normalising once |
| GermanNormalizer.NormalizeStrip | mitlesen/nlp/german/normalizer.py:19-20 | stripping the input first changes nothing |
| GermanNormalizer.NormalizeIncremental | mitlesen/nlp/german/segmenter.py:131 | normalising the running normal form plus a space and the next word gives the normal form of the two texts joined by a space |
| GermanAligner.FindStart | mitlesen/nlp/german/segmenter.py:112-123 | the start search returns the first index at or after the cursor whose normalised word suffix starts with the target, and finds none exactly when no such index exists |
| GermanAligner.Locate | mitlesen/nlp/german/segmenter.py:109-148 | a found range starts at the first possible start, its running value equals the target and no earlier word stopped the walk; start not found exactly when no start exists; from the first start, a word count whose running value meets the target with no earlier stop is found, "Could not find matching word sequence" happens exactly when no running value meets or passes the target, and a ran-past error reports the running value at which the walk stopped, longer than the target |
| GermanAligner.WalkMeets | mitlesen/nlp/german/segmenter.py:127-135 | the walk is determinate: if the running value after some word meets the target and no earlier value met or passed it, the walk returns exactly there |
| GermanAligner.AlignWords | mitlesen/nlp/german/segmenter.py:103-148 | success returns the found run of words and the index after it; each failure is a SentenceMatchError with the sentence, the words joined by spaces and the reason |
| GermanAligner.AlignedStart | mitlesen/nlp/german/segmenter.py:129-135 | the returned words are the contiguous run `words[s..e]` with the cursor at most `s`, and `e` is the returned index |
| GermanAligner.RunningIsNormalJoin | mitlesen/nlp/german/segmenter.py:127-131 | the incremental running value over a run of words equals `normalize_text` of those words joined by spaces |
| GermanAligner.AlignedWordsMatch | mitlesen/nlp/german/segmenter.py:129-135 | on success the returned words joined by spaces normalise to the normalised sentence |
| GermanSplitter.LastPunct | mitlesen/nlp/german/segmenter.py:62-73 | `last_punct_pos` is the last buffer position holding a token that ends in `,;:` |
| GermanSplitter.LastPunctSnoc | mitlesen/nlp/german/segmenter.py:72-73 | appending a token moves the last clause-mark position to it exactly when it ends in a clause mark |
| GermanSplitter.SplitAt | mitlesen/nlp/german/segmenter.py:78-82 | as written, the cut always leaves the overflowing token in the buffer |
| GermanSplitter.CutRulesAgree | mitlesen/nlp/german/segmenter.py:75-83 | the code and its comment pick different cuts exactly when the overflowing token is the last clause mark |
| GermanSplitter.AfterPunctCut | mitlesen/nlp/german/segmenter.py:76-77 | the commented rule cuts just after the last clause mark when there is one, and just before the overflowing token otherwise |
| GermanSplitter.Slices | mitlesen/nlp/german/segmenter.py:68-85 | the flushed buffers, put back together, are the tokens in order |
| GermanSplitter.Chunks | mitlesen/nlp/german/segmenter.py:52-61 | every emitted chunk is non-empty and stripped |
| GermanSplitter.ChunksKeepGlyphs | mitlesen/nlp/german/segmenter.py:57-59 | the chunks hold the non-whitespace characters of the flushed buffers, in order |
| GermanSplitter.SplitLongSentence | mitlesen/nlp/german/segmenter.py:29-86 | a sentence that fits is returned stripped as one chunk; otherwise the chunks come from the token loop and are stripped |
| GermanSplitter.SplitKeepsGlyphs | mitlesen/nlp/german/segmenter.py:29-86 | splitting neither loses, adds nor reorders a non-whitespace character |
| GermanSplitter.SegmentText | mitlesen/nlp/german/segmenter.py:88-97 | the chunks of all spaCy sentences are stripped and hold the sentences' non-whitespace characters in order |
| GermanSplitter.OverflowPunctKeptBack | mitlesen/nlp/german/segmenter.py:78-83 | as written, `"a b,"` with `max_len` 2 is cut into `"a"` and `"b,"` |
| GermanSplitter.OverflowPunctFlushed | mitlesen/nlp/german/segmenter.py:76-77 | under the commented rule the same input stays whole as `"a b,"` |
| GermanSplitter.LoneLongToken | mitlesen/nlp/german/segmenter.py:57-61 | a single token longer than `max_len` is flushed as nothing and comes out whole, so chunks are not bounded by `max_len` |
| GermanSplitter.BufferNotRechecked | mitlesen/nlp/german/segmenter.py:75-83 | the rest of the buffer is not measured again after a cut, so a chunk without a clause mark can exceed `max_len` |
| JapaneseAligner.Take | mitlesen/nlp/japanese/segmenter.py:177-200 | the taken words spell a prefix of the rest of the sentence, and the loop stops only when the sentence is used up, the words run out or the next word does not fit |
| JapaneseAligner.AlignWords | mitlesen/nlp/japanese/segmenter.py:166-209 | success returns `words[start..n]` with `n` past the cursor, spelling a prefix of the sentence; it fails exactly when the sentence is empty, the cursor is past the words or the first word is not a prefix |
| JapaneseSplitter.ScanBack | mitlesen/nlp/japanese/segmenter.py:68-96 | the backward scan returns the rightmost safe cut in its window, or none when there is none |
| JapaneseSplitter.BestSplit | mitlesen/nlp/japanese/segmenter.py:63-99 | the cut is the rightmost safe position in `[start+2, start+max_len]`, else `start+max_len` |
| JapaneseSplitter.ChunksFrom | mitlesen/nlp/japanese/segmenter.py:52-112 | every chunk is non-empty, stripped and at most `max_len` long; for text without whitespace the chunks put back together are the text |
| JapaneseSplitter.LoopStepAsWritten | mitlesen/nlp/japanese/segmenter.py:55-112 | one pass of the loop for any `max_len >= 0`: the cut lies in the window `[cursor, cursor + max_len]`, and the next cursor is the first non-space position at or after the cut |
| JapaneseSplitter.ZeroMaxLenStalls | mitlesen/nlp/japanese/segmenter.py:55-112 | with `max_len` 0, a pass at a non-space character cuts an empty chunk and returns to the same cursor |
| JapaneseSplitter.LoopStepAdvances | mitlesen/nlp/japanese/segmenter.py:55-112 | with `max_len >= 1` a pass cuts at the best split and the next cursor is past the current one |
| JapaneseSplitter.SplitLongSentence | mitlesen/nlp/japanese/segmenter.py:23-112 | a text that fits is returned stripped; every chunk is at most `max_len` long; for text without whitespace nothing is lost |
| JapaneseSplitter.ReSplitFrom | mitlesen/nlp/japanese/segmenter.py:123 | `re.split` with a captured group gives text pieces without marks at even positions and runs of marks at odd positions |
| JapaneseSplitter.ReSplitConcat | mitlesen/nlp/japanese/segmenter.py:123 | the pieces put back together are the text |
| JapaneseSplitter.CombinedSentences | mitlesen/nlp/japanese/segmenter.py:125-140 | the recombined sentences are never an empty list and each is stripped |
| JapaneseSplitter.DropBlank | mitlesen/nlp/japanese/segmenter.py:147 | every piece kept has something other than whitespace and is one of the pieces; for pieces without whitespace nothing is lost |
| JapaneseSplitter.DropBlankKeeps | mitlesen/nlp/japanese/segmenter.py:147 | every piece with something other than whitespace is kept |
| JapaneseSplitter.DropBlankGlyphs | mitlesen/nlp/japanese/segmenter.py:147 | the kept pieces hold all non-whitespace characters of the pieces, in order |
| JapaneseSplitter.ChunksGlyphs | mitlesen/nlp/japanese/segmenter.py:52-112 | the chunks from a cursor hold the non-whitespace characters of the text from that cursor, in order |
| JapaneseSplitter.CutGlyphs | mitlesen/nlp/japanese/segmenter.py:98-110 | a cut chunk, stripped, followed by the chunks after the skipped whitespace loses no non-whitespace character |
| JapaneseSplitter.SplitLongGlyphs | mitlesen/nlp/japanese/segmenter.py:23-112 | the chunks of a sentence hold its non-whitespace characters, in order |
| JapaneseSplitter.SplitAllGlyphs | mitlesen/nlp/japanese/segmenter.py:142-145 | splitting every sentence keeps the non-whitespace characters of all sentences, in order |
| JapaneseSplitter.CombinePairsGlyphs | mitlesen/nlp/japanese/segmenter.py:125-131 | the recombined pairs and the trailing piece hold the non-whitespace characters of the split pieces, in order |
| JapaneseSplitter.CombineGlyphStep | mitlesen/nlp/japanese/segmenter.py:127-131 | one recombined pair, kept or dropped, holds the non-whitespace characters of the two pieces |
| JapaneseSplitter.RecombineGlyphs | mitlesen/nlp/japanese/segmenter.py:133-139 | adding the stripped trailing piece, or falling back to the stripped text, loses no non-whitespace character |
| JapaneseSplitter.CombinedGlyphs | mitlesen/nlp/japanese/segmenter.py:122-139 | the combined sentences hold the text's non-whitespace characters, in order |
| JapaneseSplitter.SegmentTextKeepsGlyphs | mitlesen/nlp/japanese/segmenter.py:114-147 | the segments of any text hold its non-whitespace characters, in order: only whitespace is dropped |
| JapaneseSplitter.SegmentText | mitlesen/nlp/japanese/segmenter.py:114-147 | every output is non-blank, stripped and at most `max_len` long |
| JapaneseSplitter.SegmentTextLossless | mitlesen/nlp/japanese/segmenter.py:114-147 | for text without whitespace the outputs put back together are the text |
| JapaneseSplitter.SegmentTextShort | mitlesen/nlp/japanese/segmenter.py:37-38 | a short non-blank text without sentence-ending marks is one segment, stripped |
| LegacyGerman.AlignStrict | mitlesen/german.py:144-197 | on success there is one output per candidate, with consecutive ids and the candidate itself as text; every failure is a SentenceMatchError |
| LegacyGerman.AlignStrictStep | mitlesen/german.py:166-196 | a successful loop aligned its first candidate, emitted it from the first to the last aligned word, and continued from the index after them |
| LegacyGerman.StrictTiled | mitlesen/german.py:166-174 | the outputs of one segment take disjoint runs of its words from left to right |
| LegacyGerman.SplitSegmentsFrom | mitlesen/german.py:136-197 | ids are consecutive; the only failures are a missing `"words"` key and a SentenceMatchError |
| LegacyGerman.SplitGermanSegments | mitlesen/german.py:124-199 | output ids are 0, 1, 2, ...; any alignment failure aborts the call |
| LegacyGerman.StrictAgrees | mitlesen/german.py:144-197 | when every candidate aligns, the legacy loop emits the same segments as the template loop except that the text is the candidate instead of the stripped concatenation of the words |
| LegacyGerman.NoWordsNoAlignment | mitlesen/german.py:150-186 | with no words the legacy loop succeeds exactly when there are no candidates |
| LegacyGerman.SegmentAgrees | mitlesen/german.py:136-197 | for one segment the template's outputs are the legacy outputs with the text recomputed from the words, whenever the legacy loop succeeds |
| Tokenizer.JanomePosMapValues | mitlesen/nlp/japanese/tokenizer.py:12-27 | every value of `JANOME_POS_MAP` is one of the canonical tags and non-empty, so a hit is never read as a miss |
| Tokenizer.CanonHead | mitlesen/nlp/japanese/tokenizer.py:99-101 | the `canonicalise_pos` fallback raises the unpacking ValueError exactly when the head field is blank once parentheses are removed, and otherwise gives "other" or a canonical tag |
| Tokenizer.NormalizePos | mitlesen/nlp/japanese/tokenizer.py:87-102 | a 名詞 whose second field is 代名詞 is "pronoun"; otherwise the result is the two-field key's table value, else the head field's, else the fallback's tag; an error only comes when both lookups miss |
| Tokenizer.HeadFieldDecides | mitlesen/nlp/japanese/tokenizer.py:95-98 | when the two-field key misses and the head field hits, the head field's value is the tag |
| Tokenizer.LemmaKanji | mitlesen/nlp/japanese/tokenizer.py:110-115 | Jamdict's kanji form is asked for exactly when the lemma is kana only; otherwise the lemma is kept |
| Tokenizer.RomajiOf | mitlesen/nlp/japanese/tokenizer.py:117-125 | the romaji list fails exactly when the per-character conversion raises, and then with IndexError |
| Tokenizer.BulkFallbackUnreachable | mitlesen/nlp/japanese/tokenizer.py:120-125 | the bulk pykakasi fallback never runs: a per-character conversion that returns has one entry per hiragana character |
| Tokenizer.Analyse | mitlesen/nlp/japanese/tokenizer.py:79-128 | one token gives its surface, its lemma (base form or surface), its kanji lemma, its hiragana and romaji (equally long) and its tag; a tag error wins over a romaji error |
| Tokenizer.SplitWith | mitlesen/nlp/japanese/tokenizer.py:74-128 | the loop succeeds exactly when every non-symbol token's step succeeds; then the six lists are parallel and entry `i` comes from the `i`-th non-symbol token; a failure is the error of some non-symbol token |
| Tokenizer.SplitSentence | mitlesen/nlp/japanese/tokenizer.py:39-137 | `split_sentence` fails exactly when some non-symbol token fails, and otherwise returns six parallel lists over the non-symbol tokens |
| Tokenizer.SplitParity | mitlesen/nlp/japanese/tokenizer.py:117-128 | every word has as many romaji entries as hiragana entries, and its romaji is the per-character conversion of its reading |
| Tokenizer.SymbolsOnly | mitlesen/nlp/japanese/tokenizer.py:74-77 | a sentence of symbols alone gives six empty lists |
| Kana.HiraganaChar | mitlesen/japanese.py:54-72 | a katakana of the table other than ー becomes a hiragana of the block ぁ..ん; ー and every character outside the table are kept |
| Kana.HiraganaCharIdempotent | mitlesen/japanese.py:54-72 | no value of the table is itself converted again |
| Kana.KatakanaToHiragana | mitlesen/japanese.py:90-95 | `katakana_to_hiragana` keeps the length and converts each character by the table on its own |
| Kana.KatakanaToHiraganaIdempotent | mitlesen/japanese.py:90-95 | converting twice is converting once |
| Kana.SplitKanaReading | mitlesen/japanese.py:83-88 | one unit per character of the reading, in order |
| Kana.SplitKanaReadingConcat | mitlesen/japanese.py:83-88 | the units joined again give back the reading |
| Kana.LeadMarks | mitlesen/japanese.py:151-156 | the ー that open a reading are counted; the character after them is not ー |
| Kana.ExpandFromSpec | mitlesen/japanese.py:150-164 | the unit loop, from any state its invariant describes, raises IndexError exactly when some ー follows a unit with an empty romaji token, and otherwise gives one entry per unit after the leading ー, each ー repeating the last letter of the entry before it and staying ー in hiragana |
| Kana.ExpandReading | mitlesen/japanese.py:127-164 | the unit loop over a Janome reading ends as that invariant says |
| Kana.ExpandReadingParity | mitlesen/japanese.py:150-164 | a reading that does not raise gives equally many romaji and hiragana entries, as many as its units after the leading ー |
| Kana.Fallback | mitlesen/japanese.py:136-148 | a surface without reading gets one entry per character, so the fallback never raises |
| Kana.FallbackAgreesOnKana | mitlesen/japanese.py:139-142 | on a character of the romaji table the fallback gives what the reading loop gives |
| Kana.FallbackKanjiSpelled | mitlesen/japanese.py:143-145 | a surface of kanji only is spelled out character by character in both lists |
| Kana.ExpandToken | mitlesen/japanese.py:126-164 | a token only raises when it has a reading, and then with IndexError; both lists are equally long; without a reading there is one entry per surface character |
| Kana.Kept | mitlesen/japanese.py:118-121 | the kept tokens are the non-symbol tokens of the input; without symbols nothing is dropped |
| Kana.DescribesCons | mitlesen/japanese.py:123-167 | a kept token in front adds its surface and its units in front of the three lists |
| Kana.SplitSentence | mitlesen/japanese.py:104-169 | the legacy `split_sentence` succeeds exactly when every kept token expands, fails only with IndexError, and then lists each kept token's surface with its units |
| Kana.SplitSentenceParity | mitlesen/japanese.py:166-167 | every word gets as many romaji units as hiragana units |
| Kana.CoffeeReading | mitlesen/japanese.py:150-164 | コーヒー reads ko, o, hi, i and こ, ー, ひ, ー |
| Kana.VuMarkFails | mitlesen/japanese.py:151-155 | ヴー raises IndexError: the ー reads the last letter of an empty token |
| Phonetics.Kata2Hira | mitlesen/nlp/japanese/phonetics.py:22 | `jaconv.kata2hira` keeps the length and converts each character on its own |
| Phonetics.Kata2HiraAppend | mitlesen/nlp/japanese/phonetics.py:22 | converting a concatenation converts the parts |
| Phonetics.ToHiragana | mitlesen/nlp/japanese/phonetics.py:40-43 | one single-character entry per character, and the entries joined give `kata2hira(kata)` |
| Phonetics.MarkTestNeverHolds | mitlesen/nlp/japanese/phonetics.py:26 | the long-vowel test compares one character with a three-character literal and so never holds |
| Phonetics.Hepburn | mitlesen/nlp/japanese/phonetics.py:35 | the first item pykakasi gives for a character, and IndexError exactly when it gives none |
| Phonetics.Syllables | mitlesen/nlp/japanese/phonetics.py:34-36 | reference reading: one entry per character, each that character's Hepburn, failing with IndexError exactly when some character has none |
| Phonetics.SyllablesAppend | mitlesen/nlp/japanese/phonetics.py:25-36 | the reference reading of a concatenation is the readings of the parts, one after the other, and exists exactly when both do |
| Phonetics.VowelEnd | mitlesen/nlp/japanese/phonetics.py:29-31 | the prolonged vowel is one of a, e, i, o, u or "-"; a previous entry ending in a vowel gives that vowel; a vowel found is one of the last two characters, since `$` also matches before a final newline |
| Phonetics.RomajiLoopSyllables | mitlesen/nlp/japanese/phonetics.py:25-38 | with a test literal that is not one character long, the loop appends exactly the reference reading of the remaining characters and fails exactly when it does |
| Phonetics.ToRomaji | mitlesen/nlp/japanese/phonetics.py:15-38 | `to_romaji` as written is the reference reading of the hiragana: one entry per character, IndexError exactly when pykakasi gives nothing for some character |
| Phonetics.ToRomajiParity | mitlesen/nlp/japanese/phonetics.py:15-43 | when the romaji exists it is as long as `to_hiragana` |
| Phonetics.ToRomajiLocal | mitlesen/nlp/japanese/phonetics.py:25-36 | entry `i` depends on character `i` alone |
| Phonetics.IntendedStep | mitlesen/nlp/japanese/phonetics.py:25-36 | under the intended test one more character keeps the loop's description: a ー repeats the vowel of the entry before it, or "-" first, and any other character gets its Hepburn |
| Phonetics.IntendedLoopSpec | mitlesen/nlp/japanese/phonetics.py:25-38 | the intended loop fails with IndexError exactly when some character other than ー has no Hepburn, and otherwise gives one described entry per character |
| Phonetics.ToRomajiIntended | mitlesen/nlp/japanese/phonetics.py:15-38 | `to_romaji` with the test against ー: the intended description, as long as the input |
| Phonetics.IntendedAgreesWithoutMark | mitlesen/nlp/japanese/phonetics.py:26 | on a reading without ー the written and the intended test give the same result |
| Phonetics.LongVowelFinding | mitlesen/nlp/japanese/phonetics.py:26-31 | カー reads ["ka", "ー"] as written and ["ka", "a"] as intended |
| Romanizer.KanaRun | mitlesen/nlp/japanese/romanizer.py:12 | the greedy run of the character class: all kana, and the next character is not |
| Romanizer.IsKanaOnly | mitlesen/nlp/japanese/romanizer.py:33-35 | `is_kana_only` holds exactly for a non-empty string of the class, optionally followed by one newline |
| Romanizer.EmptyNotKanaOnly | mitlesen/nlp/japanese/romanizer.py:12 | the empty string is not kana-only |
| Romanizer.TrailingNewline | mitlesen/nlp/japanese/romanizer.py:12 | a kana string plus one newline is kana-only, plus two newlines is not |
| Romanizer.KanaOnlyConcat | mitlesen/nlp/japanese/romanizer.py:33-35 | kana-only strings without a trailing newline stay kana-only when joined |
| Romanizer.KanaToKanji | mitlesen/nlp/japanese/romanizer.py:14-31 | the result differs from the input only when it is the first kanji form of the first entry; a failing lookup gives the input back; a first entry with a kanji form gives that form |
| JapaneseTranscript.Take | mitlesen/nlp/japanese/transcript_processor.py:76-82 | the inner loop from a position stops at the first position where the timed words ran out or the texts taken reach the token's length, and not before |
| JapaneseTranscript.Consume | mitlesen/nlp/japanese/transcript_processor.py:76-82 | the cursor after a token is the first stopping position from where the token found it |
| JapaneseTranscript.Cursor | mitlesen/nlp/japanese/transcript_processor.py:66-82 | the cursor stays within the timed words |
| JapaneseTranscript.CursorMonotone | mitlesen/nlp/japanese/transcript_processor.py:66-82 | the cursor never moves back |
| JapaneseTranscript.Zipped | mitlesen/nlp/japanese/transcript_processor.py:68-70 | `zip` of the six lists runs to the length of the shortest one |
| JapaneseTranscript.Merge | mitlesen/nlp/japanese/transcript_processor.py:62-97 | one new word per zipped token |
| JapaneseTranscript.MergedTimes | mitlesen/nlp/japanese/transcript_processor.py:71-94 | a token's start is the start of the first timed word it took and its end that of the last, both `None` when it took none |
| JapaneseTranscript.MergedAtFrom | mitlesen/nlp/japanese/transcript_processor.py:84-94 | a new word carries the token's text, both lemmas, tag, romaji and hiragana, with the times its timed words give |
| JapaneseTranscript.TextLengthSnoc | mitlesen/nlp/japanese/transcript_processor.py:76-78 | taking one more timed word adds the length of its text |
| JapaneseTranscript.TakeWords | mitlesen/nlp/japanese/transcript_processor.py:71-82 | the inner loop ends at the cursor `Consume` defines, with the first start and the last end of the words it took |
| JapaneseTranscript.MergeTimestamps | mitlesen/nlp/japanese/transcript_processor.py:51-97 | the loop of `_merge_timestamps` builds exactly the merged list |
| JapaneseTranscript.LengthsOnly | mitlesen/nlp/japanese/transcript_processor.py:76 | only text lengths move the cursor: timed words of equal lengths are consumed alike |
| JapaneseTranscript.SameLength | mitlesen/nlp/japanese/transcript_processor.py:76 | word lists of equal text lengths have the same joined length |
| JapaneseTranscript.OneToOne | mitlesen/nlp/japanese/transcript_processor.py:66-82 | when every token is as long as the timed word at its position, each token takes exactly one timed word |
| JapaneseTranscript.OneToOneTimes | mitlesen/nlp/japanese/transcript_processor.py:71-94 | then each token carries its own timed word's start and end |
| JapaneseTranscript.Exhausted | mitlesen/nlp/japanese/transcript_processor.py:76-94 | once the timed words run out, later tokens get no times |
| JapaneseTranscript.LookupSeesOnlyText | mitlesen/nlp/japanese/transcript_processor.py:84-94 | handed the underscore-named fields, the lookup can only succeed by its last step, surface text against the kana column |
| JapaneseTranscript.UnderscoreMissesEntry | mitlesen/nlp/japanese/transcript_processor.py:87-89 | 食べ with lemma 食べる is missed as written and found with the lookup's own field names |
| JapaneseTranscript.IntendedLemmaFirst | mitlesen/dictionary.py:161-179 | with the intended names, a Japanese row with the token's lemma and tag is found by the first step |
| JapaneseTranscript.CleanupTempFields | mitlesen/nlp/japanese/transcript_processor.py:99-108 | exactly the keys that do not start with "_" remain, with their values |
| JapaneseTranscript.CleanupIdempotent | mitlesen/nlp/japanese/transcript_processor.py:99-108 | cleaning twice is cleaning once |
| JapaneseTranscript.CleanupIgnoresTemporary | mitlesen/nlp/japanese/transcript_processor.py:99-108 | adding a temporary field changes nothing after clean-up |
| JapaneseTranscript.EntryId | mitlesen/nlp/japanese/transcript_processor.py:36-38 | an id is set exactly when the lookup finds an entry, and it is the id of a Japanese row |
| JapaneseTranscript.Annotate | mitlesen/nlp/japanese/transcript_processor.py:35-41 | the output word keeps the token's text, times, romaji and hiragana, and carries the lookup's id |
| JapaneseTranscript.AnnotateIsCleanup | mitlesen/nlp/japanese/transcript_processor.py:35-41 | the output word is exactly what clean-up leaves of the word the processor built |
| JapaneseTranscript.UnderscoreKeys | mitlesen/nlp/japanese/transcript_processor.py:87-89 | the three lookup fields are temporary |
| JapaneseTranscript.OutKeysKept | mitlesen/nlp/japanese/transcript_processor.py:99-108 | no field of an output word is temporary |
| JapaneseTranscript.ProcessSegment | mitlesen/nlp/japanese/transcript_processor.py:28-45 | a segment without words is left as it is; otherwise it fails exactly when the splitter fails on the joined word texts, keeps its text (or takes the joined texts) and gets one annotated word per merged token |
| JapaneseTranscript.PreprocessWith | mitlesen/nlp/japanese/transcript_processor.py:11-49 | the transcript succeeds exactly when every segment does, segment by segment |
| JapaneseTranscript.PreprocessIdsByText | mitlesen/nlp/japanese/transcript_processor.py:35-41 | as written, an output word has an id only when some Japanese row's kana is its text |
| JapaneseTranscript.AnnotateIdByText | mitlesen/nlp/japanese/transcript_processor.py:35-41 | the same for one annotated word |
| Dictionary.PosCanonValues | mitlesen/dictionary.py:14-34 | every value of `POS_CANON` is a canonical tag, and "other" is not one |
| Dictionary.Mapped | mitlesen/dictionary.py:43 | the tag is "other" exactly when the head is not in the table, and otherwise the table's value |
| Dictionary.CanonOfKey | mitlesen/dictionary.py:42-45 | the computation from the key fails with the unpacking ValueError exactly when nothing but blanks remains once parentheses are removed |
| Dictionary.CanonicalisePos | mitlesen/dictionary.py:38-46 | the first word of the lower-cased, stripped input without parentheses decides the tag, "other" exactly for an unknown head; the remarks are the other words joined by spaces, or when there are none "" for a known tag and the key for "other"; blank input fails to unpack |
| Dictionary.CanonicaliseWord | mitlesen/dictionary.py:38-46 | a single lower-case word maps through the table and, when unknown, keeps itself as the remark |
| Dictionary.CanonicaliseIgnoresCase | mitlesen/dictionary.py:39 | lower-casing the input first changes nothing |
| Dictionary.Memo | mitlesen/dictionary.py:40-46 | a hit returns the stored pair and leaves the table alone; a miss computes, stores only a success, and keeps every other entry; a coherent table stays coherent and answers as the computation does |
| Dictionary.CanonicalisePosCached | mitlesen/dictionary.py:36-46 | through a coherent memo table `canonicalise_pos` answers as without it, and the table only gains the key of a success |
| Dictionary.CachedCallsAgree | mitlesen/dictionary.py:36-46 | any sequence of calls sharing the memo table answers as the plain function does |
| Dictionary.CachedRun | mitlesen/dictionary.py:36-46 | one answer per call |
| Dictionary.CanonicaliseNoun | mitlesen/dictionary.py:38-46 | "Noun" gives ("noun", "") |
| Dictionary.CanonicaliseParens | mitlesen/dictionary.py:42 | "()" leaves no word to unpack and raises ValueError |
| Dictionary.IdCollision | mitlesen/dictionary.py:48-49 | `make_id` sees only the joined key, so ("a:b", "noun") and ("a", "b:noun") get the same id whatever the hash |
| Dictionary.ColonSplit | mitlesen/dictionary.py:49 | splitting at the first ':' is unambiguous when the part before it has none |
| Dictionary.IdKeyInjective | mitlesen/dictionary.py:48-49 | with no ':' in the language and the lemma, equal id keys mean equal fields |
| Dictionary.Stored | mitlesen/dictionary.py:122-127 | the stored tuple keeps id, lemma, tag and kana, and has meanings exactly when the row has a non-empty list |
| Dictionary.StoredAll | mitlesen/dictionary.py:121-127 | one stored tuple per row, in order |
| Dictionary.UpsertAppend | mitlesen/dictionary.py:85-90 | `INSERT OR REPLACE` of a concatenation is the two loads one after the other |
| Dictionary.LastWith | mitlesen/dictionary.py:85-90 | the last position with a given key, or -1 when none has it |
| Dictionary.UpsertLookup | mitlesen/dictionary.py:70-90 | after a load each key holds the last record written with it, and keys no record carries keep what the table had |
| Dictionary.UpsertTwice | mitlesen/dictionary.py:85-90 | loading the same records again changes nothing |
| Dictionary.UpsertSameKey | mitlesen/dictionary.py:85-90 | of two records with one key the table keeps the second |
| Dictionary.BulkLoopUpserts | mitlesen/dictionary.py:120-133 | the buffered loop, from any row and buffer, writes exactly the buffer and the remaining rows, in order |
| Dictionary.BulkInsert | mitlesen/dictionary.py:117-133 | `_bulk_insert` is one upsert of all stored rows, in order |
| Dictionary.BatchSizeIrrelevant | mitlesen/dictionary.py:117-133 | the batch size does not change the table |
| Dictionary.BulkInsertIdempotent | mitlesen/dictionary.py:117-133 | re-running a load over its own result changes nothing |
| Dictionary.SearchByLemma | mitlesen/dictionary.py:135-143 | exactly the rows whose lemma equals the argument and, when a language is given, whose language matches |
| Dictionary.FirstHit | mitlesen/dictionary.py:172-212 | `fetchone` gives a row exactly when some Japanese row matches the step's clause, and then a matching row |
| Dictionary.SearchJapaneseWord | mitlesen/dictionary.py:161-214 | an entry is found exactly when some step runs and matches; it is a Japanese row; and it is the first hit of the first step that answers |
| Dictionary.OnlyTextStepForBareWord | mitlesen/dictionary.py:163-212 | a word without `base_form`, `base_form2` and `pos` can only be found by its text against the kana column |
| GermanTranscript.CleanText | mitlesen/nlp/german/transcript_processor.py:30-31 | the cleaned text keeps exactly the German letters and spaces of the input, in order, lower-cased, so it holds only lower-case letters, umlauts, ß and spaces |
| GermanTranscript.CleanTextIdempotent | mitlesen/nlp/german/transcript_processor.py:30-31 | cleaning a cleaned text changes nothing |
| GermanTranscript.FilterKeepsAll | mitlesen/nlp/german/transcript_processor.py:30 | the character filter keeps every character of a clean text |
| GermanTranscript.LemmaOf | mitlesen/nlp/german/transcript_processor.py:28-32 | a non-empty `base_form` is the lemma, else the cleaned text, a missing text counting as "" |
| GermanTranscript.ChooseEntry | mitlesen/nlp/german/transcript_processor.py:37-47 | no entry exactly when there are none; the first entry whose tag equals the word's when one does; else the first entry |
| GermanTranscript.ProcessWord | mitlesen/nlp/german/transcript_processor.py:27-50 | only `id` can change; an empty lemma leaves the word alone; an id set is that of a German row whose lemma is the lower-cased lemma |
| GermanTranscript.EntryOfLemma | mitlesen/dictionary.py:135-143 | an entry the lemma search returns is a German row with that lemma |
| GermanTranscript.ProcessWordTwice | mitlesen/nlp/german/transcript_processor.py:27-50 | processing a word twice gives what processing it once gave |
| GermanTranscript.PosPreferred | mitlesen/nlp/german/transcript_processor.py:39-43 | a word whose tag matches one of its lemma's entries gets the first such entry, even after entries of other tags |
| GermanTranscript.ChosenFirst | mitlesen/nlp/german/transcript_processor.py:39-43 | the entry chosen is the first with the word's tag |
| GermanTranscript.Preprocess | mitlesen/nlp/german/transcript_processor.py:11-54 | segments keep their number and whether they have words; every word of a segment with words is processed, in place |
| GermanTranscript.PreprocessIdempotent | mitlesen/nlp/german/transcript_processor.py:11-54 | running the processor over its own output changes nothing |
| SpanishNormalizer.SpaceIsLower | mitlesen/nlp/spanish/normalizer.py:25 | `lower()` leaves whitespace alone |
| SpanishNormalizer.NormalFormOfLower | mitlesen/nlp/spanish/normalizer.py:29-34 | deleting, collapsing and stripping a lower-case text keeps it lower-case |
| SpanishNormalizer.NormalizeSpanishText | mitlesen/nlp/spanish/normalizer.py:6-34 | the result is the German normaliser's normal form of the lower-cased text with the seven Spanish letters added to the word class: already normal, and lower-case |
| SpanishNormalizer.NormalizeSpanishIdempotent | mitlesen/nlp/spanish/normalizer.py:6-34 | normalising twice is normalising once |
| SpanishNormalizer.BlankNormalizesEmpty | mitlesen/nlp/spanish/normalizer.py:32-34 | empty and whitespace-only text normalises to "" |
| SpanishNormalizer.InvertedMarksRemoved | mitlesen/nlp/spanish/normalizer.py:24-34 | "¡Sí!" normalises to "sí": the inverted mark goes, the accented letter stays |
| SpanishNormalizer.ReplaceChar | mitlesen/nlp/spanish/normalizer.py:61 | `replace` of one character by another changes exactly its occurrences |
| SpanishNormalizer.RemoveLowerAccents | mitlesen/nlp/spanish/normalizer.py:53-61 | the seven lower-case replacements take lower-case letters to their base and leave the upper-case block alone |
| SpanishNormalizer.RemoveUpperAccents | mitlesen/nlp/spanish/normalizer.py:53-61 | the seven upper-case replacements take the upper-case block to its base and leave the rest alone |
| SpanishNormalizer.RemoveSpanishAccents | mitlesen/nlp/spanish/normalizer.py:36-63 | the fourteen replacements in table order take every character to its accent-free base, one by one |
| SpanishNormalizer.AccentBaseIdempotent | mitlesen/nlp/spanish/normalizer.py:53-58 | a base is its own base |
| SpanishNormalizer.AccentBaseLower | mitlesen/nlp/spanish/normalizer.py:53-58 | taking the base commutes with lower-casing |
| SpanishNormalizer.RemoveAccentsIdempotent | mitlesen/nlp/spanish/normalizer.py:36-63 | removing accents twice is removing them once |
| SpanishNormalizer.RemoveAccentsKeepsCase | mitlesen/nlp/spanish/normalizer.py:36-63 | removing accents commutes with `lower()` |
| SpanishNormalizer.AccentBaseChanges | mitlesen/nlp/spanish/normalizer.py:53-58 | exactly the fourteen accented letters change |
| SpanishNormalizer.LowerBase | mitlesen/nlp/spanish/normalizer.py:53-58 | the base of a lower-case character is lower-case and has no Spanish accent |
| SpanishNormalizer.NormalizeSpanishTextStrict | mitlesen/nlp/spanish/normalizer.py:65-84 | the strict form is the normal form with each character replaced by its accent-free base; it is lower-case and free of Spanish accents, so removing accents again changes nothing |
| JMdict.Texts | mitlesen/dictionary.py:321 | `[t.text for t in ... if t.text]` keeps exactly the non-empty texts, in order |
| JMdict.CollapsePairs | mitlesen/dictionary.py:316 | `replace("  ", " ")` never lengthens and leaves a text without double spaces alone |
| JMdict.CollapsePreserves | mitlesen/dictionary.py:316 | the pass writes only characters of its input |
| JMdict.CollapseThree | mitlesen/dictionary.py:316 | three spaces become two, not one |
| JMdict.Render | mitlesen/dictionary.py:318 | `cleaned if cleaned else raw` is empty exactly when both are |
| JMdict.CleanRemarkEmpty | mitlesen/dictionary.py:314-316 | the empty remark cleans to "" |
| JMdict.NormalizeWith | mitlesen/dictionary.py:313-318 | over any remark table: the cleaned text or the table's answer for it, the cleaned text when the table has none |
| JMdict.NormalizePosRemarks | mitlesen/dictionary.py:313-318 | empty exactly when the cleaned text is; otherwise the remark table's rendering of the cleaned text, or the cleaned text itself |
| JMdict.RemarkMapNoEmptyKey | mitlesen/dictionary.py:262-305 | the remark table has no empty key |
| JMdict.CleanRemarkKept | mitlesen/dictionary.py:313-318 | a remark already in clean form that the table does not know comes back unchanged |
| JMdict.CleanRemarkPlain | mitlesen/dictionary.py:316 | the cleaned remark has no parenthesis or comma and is lower-case |
| JMdict.CleanTagPlain | mitlesen/dictionary.py:325-326 | the cleaned tag and each of its words have no parenthesis or comma and are lower-case |
| JMdict.ExtractPos | mitlesen/dictionary.py:320-333 | only the first non-empty `<pos>` text decides: none gives ("other", ""); blank once cleaned raises IndexError at `parts[0]`; otherwise the head's tag, with the whole cleaned text as remark for "other" and the remaining words for a known tag |
| JMdict.FirstTagOnly | mitlesen/dictionary.py:324-332 | later `<pos>` texts are never read |
| JMdict.PackageHeadOk | mitlesen/dictionary.py:326-328 | a head word produced by the cleaning is never blank, so `canonicalise_pos` cannot raise on it |
| JMdict.PackagePos | mitlesen/dictionary.py:320-333 | the package's tag is a `POS_CANON` value or "other", and the only failure is the blank first tag |
| JMdict.ScriptHead | create_japanese_dictionary.py:97 | the script's head mapping never fails and gives one of its own tags |
| JMdict.ScriptPos | create_japanese_dictionary.py:87-103 | the script's tag is one of its table's values or "other", and the only failure is the blank first tag |
| JMdict.HeadTablesDiffer | create_japanese_dictionary.py:20-32 | the two tables disagree on "nouns", "adjectival", "counter" and "particle" |
| JMdict.ExtractLevel | mitlesen/dictionary.py:335-337 | a level exactly when some `<misc>` text starts with "jlpt", and then an upper-cased such text |
| JMdict.LevelIsFirst | mitlesen/dictionary.py:335-337 | the level comes from the earliest "jlpt" text |
| JMdict.ExtractFurigana | mitlesen/dictionary.py:339-345 | `None` exactly when there are no kanji texts or no kana texts; otherwise the pairs by position, as many as the shorter list |
| JMdict.PackageRow | mitlesen/dictionary.py:351-372 | a row fails exactly when the tag fails; the word and lemma are the first `<keb>`, else the first `<reb>`; the id hashes language, lemma and tag; meanings are stored exactly when some gloss has text |
| JMdict.ScriptRow | create_japanese_dictionary.py:148-172 | an entry with neither kanji nor kana raises AttributeError; a row has the first `<keb>` or `<reb>` as word and lemma, a script tag, the hashed id, the glosses joined by "; " and no gender or audio |
| JMdict.ParseJmdict | create_japanese_dictionary.py:143-175 | the script fails exactly when some entry's row fails |
| JMdict.ParseJmdictIdempotent | create_japanese_dictionary.py:143-175 | re-running the script over its own table changes nothing |
| JMdict.LaterEntryWins | create_japanese_dictionary.py:162-172 | two entries with the same lemma and tag share an id, so the later one replaces the earlier |
| Wiktionary.ArgGet | mitlesen/dictionary.py:389 | `args.get(key)` finds a value exactly when some argument has the key, and then that argument's value |
| Wiktionary.SenseGender | mitlesen/dictionary.py:232-237 | no gender exactly when no sense has a gender tag; otherwise the initial m, f or n of a sense's first gender tag |
| Wiktionary.ValueGender | mitlesen/dictionary.py:242-249 | a template value that mentions a gender gives the letter m, f or n |
| Wiktionary.LastGender | mitlesen/dictionary.py:238-249 | reference reading: the last template value that mentions a gender decides, and none gives none |
| Wiktionary.ScanGenderSnoc | mitlesen/dictionary.py:239-249 | one more value overwrites the gender exactly when it mentions one |
| Wiktionary.ScanIsLast | mitlesen/dictionary.py:238-249 | the template loop, which overwrites on every match, equals asking the last value that mentions a gender, keeping the sense result otherwise |
| Wiktionary.Gender | mitlesen/dictionary.py:229-249 | the sense tags decide first; the head templates only when they give nothing, and then their last gender mention |
| Wiktionary.Meanings | mitlesen/dictionary.py:250-254 | one "; "-joined string per sense that has glosses, in order; none exactly when no sense has glosses |
| Wiktionary.GermanRow | mitlesen/dictionary.py:226-259 | a German row fails exactly when `canonicalise_pos` does; it has the word as word and lemma, the canonical tag, the hashed id, a gender letter or none, meanings exactly when some sense has glosses, and no kana, romaji, furigana or level |
| Wiktionary.ParseGerman | mitlesen/dictionary.py:220-259 | the German parser fails exactly when some German entry's tag fails, and otherwise gives one German row per German entry |
| Wiktionary.ScanTemplates | mitlesen/dictionary.py:387-391 | the first template that matches gives its pick; a template without `args` that the loop reaches raises KeyError; no match gives `None` |
| Wiktionary.ExtractKana | mitlesen/dictionary.py:380-392 | a form tagged hiragana or katakana, or with ruby, decides, so the templates are never read then |
| Wiktionary.ExtractRomaji | mitlesen/dictionary.py:394-405 | a form tagged romanization or with `roman` decides; otherwise a found romanisation is the entry's own word |
| Wiktionary.ExtractFurigana | mitlesen/dictionary.py:407-412 | none exactly when no form has ruby; otherwise some form's ruby |
| Wiktionary.ExtractLemma | mitlesen/dictionary.py:414-419 | the text of a form tagged canonical when there is one, else the word |
| Wiktionary.WikiLevel | mitlesen/dictionary.py:429-434 | a level exactly when some category mentions JLPT, and then that category's name upper-cased |
| Wiktionary.Target | mitlesen/dictionary.py:464-468 | a redirect target is non-empty and comes from a truthy `redirect` or `redirects` |
| Wiktionary.Lookup | mitlesen/dictionary.py:450-452 | the first pass's dictionary holds an entry for a key exactly when some indexed entry has it, and then such an entry |
| Wiktionary.BuildRow | mitlesen/dictionary.py:472-502 | a row is built exactly when its reading and romanisation can be read, and fails only with KeyError |
| Wiktionary.JaRow | mitlesen/dictionary.py:453-502 | a yielded row is Japanese with the entry's own word, tag and hashed id; a redirect without target, or whose target is not filed, yields nothing |
| Wiktionary.CollectSome | mitlesen/dictionary.py:453-502 | draining the generator succeeds exactly when every step does, and yields exactly the rows the steps produce |
| Wiktionary.Kept | mitlesen/dictionary.py:443-449 | the first pass keeps only Japanese entries whose tag is outside the filter |
| Wiktionary.Indexed | mitlesen/dictionary.py:450-452 | only entries that do not redirect are filed |
| Wiktionary.SecondPass | mitlesen/dictionary.py:453-502 | every row is Japanese and has the tag of some kept entry |
| Wiktionary.ParseJapanese | mitlesen/dictionary.py:436-502 | one Japanese entry with a blank part of speech aborts the parse; every row is Japanese with a tag outside the filter |
| Wiktionary.RedirectTakesTarget | mitlesen/dictionary.py:463-486 | a soft redirect keeps its own word as word and lemma and takes reading, romanisation, meanings and level from its target |
| Wiktionary.TargetPreference | mitlesen/dictionary.py:469 | the target filed under the redirect's own part of speech is preferred, the blank one consulted only when there is none |
| Wiktionary.TargetEntryIndexed | mitlesen/dictionary.py:469 | what the lookup finds is one of the filed entries |
| Wiktionary.TargetIsNoRedirect | mitlesen/dictionary.py:443-469 | a redirect never finds another redirect, nor an entry the first pass dropped |
| BuildGermanDictionary.DePos | build_de_dictionary.py:61-63 | the tag is "other" exactly when the lower-cased raw value is not in the script's table, and then that value is the remark; a known tag has no remark |
| BuildGermanDictionary.NumeralTables | build_de_dictionary.py:30-41 | "numeral" is "number" for the script and ("other", "numeral") for the package's canonicalisation |
| BuildGermanDictionary.NumeralScript | build_de_dictionary.py:39 | the script maps "numeral" to "number" |
| BuildGermanDictionary.NumeralPackage | mitlesen/dictionary.py:14-46 | the package files "numeral" under "other" with the word as remark |
| BuildGermanDictionary.BlankPosDiffers | build_de_dictionary.py:61-63 | a blank part of speech aborts the package parser but gives an ordinary ("other", "") row here |
| BuildGermanDictionary.ScanUrlIsFirst | build_de_dictionary.py:98-102 | while the URL is falsy the loop takes the first sound with a non-empty URL, an empty URL not stopping the search |
| BuildGermanDictionary.ScanUrlDone | build_de_dictionary.py:98-102 | once the URL is non-empty the loop keeps it |
| BuildGermanDictionary.SoundUrl | build_de_dictionary.py:95-102 | no URL exactly when no sound has the key; a non-empty URL exactly when some sound carries one, and then that sound's |
| BuildGermanDictionary.UrlsIndependent | build_de_dictionary.py:98-102 | the two URLs come from different sounds when the first sound carries only one key |
| BuildGermanDictionary.GlossGroups | build_de_dictionary.py:87-91 | the glosses of every sense that has some, in order |
| BuildGermanDictionary.MeaningText | build_de_dictionary.py:92 | no meaning text exactly when no sense has glosses |
| BuildGermanDictionary.MeaningTextFlat | build_de_dictionary.py:87-92 | joining twice with "; " loses the sense boundaries: the text is every gloss joined once |
| BuildGermanDictionary.DeRecord | build_de_dictionary.py:57-119 | the row of one German entry: word and lemma the entry's word, a script tag, the hashed id, the package's gender, meanings exactly when some sense has glosses, no kana, romaji, furigana or level |
| BuildGermanDictionary.DeRecords | build_de_dictionary.py:51-55 | one row per German entry, in file order |
| BuildGermanDictionary.BuildIdempotent | build_de_dictionary.py:47-122 | running the script twice leaves the table as one run left it |
| BuildGermanDictionary.OtherLanguagesIgnored | build_de_dictionary.py:54-55 | entries in other languages leave the table alone |
| ElevenLabs.EllipsisCases | mitlesen/pipeline/steps/elevenlabs_transcribe.py:127-130 | a bare "..." does not end a sentence, "so..." does, "Hallo," does not |
| ElevenLabs.ShouldSplitSegment | mitlesen/pipeline/steps/elevenlabs_transcribe.py:11-32 | always after a sentence ending; otherwise only after a comma ending, and then exactly when the given total, or failing that the accumulated length, reaches 15 for Japanese and 80 otherwise |
| ElevenLabs.NewlineComma | mitlesen/pipeline/steps/elevenlabs_transcribe.py:20-21 | the comma pattern accepts a comma before a final newline, which `endswith(',')` on the same text does not |
| ElevenLabs.CloseAtSpeaker | mitlesen/pipeline/steps/elevenlabs_transcribe.py:101-109 | closing the open group at a change of speaker keeps every closed group good, and the new word shows the change |
| ElevenLabs.AdmitKeeps | mitlesen/pipeline/steps/elevenlabs_transcribe.py:100-109 | the speaker handling before a word keeps the loop invariant |
| ElevenLabs.StepKeeps | mitlesen/pipeline/steps/elevenlabs_transcribe.py:96-118 | one iteration keeps the invariant and appends the word to the words seen |
| ElevenLabs.StepInv | mitlesen/pipeline/steps/elevenlabs_transcribe.py:96-118 | one iteration keeps the invariant |
| ElevenLabs.CloseAtEnding | mitlesen/pipeline/steps/elevenlabs_transcribe.py:111-118 | a sentence ending closes the open group with the word in it, and the closed groups stay good |
| ElevenLabs.KeepOpen | mitlesen/pipeline/steps/elevenlabs_transcribe.py:111-113 | any other word joins the open group, which stays of one speaker with no sentence ending inside |
| ElevenLabs.GroupWith | mitlesen/pipeline/steps/elevenlabs_transcribe.py:90-124 | the groups put together give the words back; in each, only the last word may end a sentence and all content words share a speaker; each group is closed by a sentence ending or by a change of speaker the next group opens with |
| ElevenLabs.GroupIntoSentences | mitlesen/pipeline/steps/elevenlabs_transcribe.py:90-130 | `_group_into_sentences` with the real sentence-ending test has those properties |
| ElevenLabs.FinalClose | mitlesen/pipeline/steps/elevenlabs_transcribe.py:120-122 | the open group left at the end is good and closes the list |
| ElevenLabs.CutsWith | mitlesen/pipeline/steps/elevenlabs_transcribe.py:147-161 | the comma loop cuts after every cutting word and nowhere else, and gives no pieces exactly for no words |
| ElevenLabs.CutsCons | mitlesen/pipeline/steps/elevenlabs_transcribe.py:150-157 | a cutting first word becomes a piece of its own in front of the rest's cut |
| ElevenLabs.CutsJoin | mitlesen/pipeline/steps/elevenlabs_transcribe.py:150-157 | any other first word joins the rest's first piece |
| ElevenLabs.CutsUnique | mitlesen/pipeline/steps/elevenlabs_transcribe.py:147-161 | any partition cut after exactly the cutting words is the one the loop makes |
| ElevenLabs.CutTail | mitlesen/pipeline/steps/elevenlabs_transcribe.py:150-157 | dropping a first piece of one word leaves a partition of the rest, and that word cuts when more pieces follow |
| ElevenLabs.CutShift | mitlesen/pipeline/steps/elevenlabs_transcribe.py:150-157 | dropping the first word of a longer first piece leaves a partition of the rest |
| ElevenLabs.CommaCuts | mitlesen/pipeline/steps/elevenlabs_transcribe.py:150-161 | the comma partition cuts after exactly the words whose stripped text ends with "," or "、" |
| ElevenLabs.CommaPartitionUnique | mitlesen/pipeline/steps/elevenlabs_transcribe.py:150-161 | any cut after exactly the comma words is the comma partition |
| ElevenLabs.SplitLongSentenceAtCommas | mitlesen/pipeline/steps/elevenlabs_transcribe.py:133-163 | the pieces give the sentence back and none is empty; a sentence below the threshold stays whole; a longer one is cut after exactly its comma words |
| ElevenLabs.ContentWords | mitlesen/pipeline/steps/elevenlabs_transcribe.py:41 | spacing entries are dropped, so there are never more words than entries |
| ElevenLabs.ContentAppend | mitlesen/pipeline/steps/elevenlabs_transcribe.py:41 | the content words of two lists in a row are those of the first, then those of the second |
| ElevenLabs.ContentWordsKeep | mitlesen/pipeline/steps/elevenlabs_transcribe.py:41-49 | no content words exactly when every entry is spacing; without spacing every entry is kept with its text and times |
| ElevenLabs.ApiTexts | mitlesen/pipeline/steps/elevenlabs_transcribe.py:45 | the texts of all entries, spacing included, in order |
| ElevenLabs.CreateSegment | mitlesen/pipeline/steps/elevenlabs_transcribe.py:35-50 | no segment exactly for no words; otherwise the given id, the first start and last end (0.0 when missing), the content words, and a stripped text |
| ElevenLabs.CreateSegmentText | mitlesen/pipeline/steps/elevenlabs_transcribe.py:45 | the segment's text is all the texts joined with only surrounding whitespace removed |
| ElevenLabs.Transform | mitlesen/pipeline/steps/elevenlabs_transcribe.py:53-87 | no words give no segments; segments are numbered 0, 1, 2, … and together hold exactly the content words, in order; for a grouping of the words into sentences as `_group_into_sentences` promises, segment k is what `_create_segment` makes of the k-th comma piece of those sentences |
| ElevenLabs.SegmentSentences | mitlesen/pipeline/steps/elevenlabs_transcribe.py:78-85 | every sentence's comma pieces become segments, one per piece and in order, numbered by position, holding the sentences' content words |
| ElevenLabs.AddSentence | mitlesen/pipeline/steps/elevenlabs_transcribe.py:80-85 | a sentence's pieces become segments numbered on from those before, one per piece and made by `_create_segment`, the earlier segments unchanged, and add exactly its content words |
| ElevenLabs.PieceSnoc | mitlesen/pipeline/steps/elevenlabs_transcribe.py:82-85 | the segment of one more piece extends the segments made so far |
| ElevenLabs.PiecesSnoc | mitlesen/pipeline/steps/elevenlabs_transcribe.py:79-81 | the pieces of one more sentence follow those of the sentences before |
| ElevenLabs.SegmentsJoin | mitlesen/pipeline/steps/elevenlabs_transcribe.py:79-85 | segments of earlier pieces followed by segments numbered on from them are the segments of both piece lists |
| ElevenLabs.SegmentIds | mitlesen/pipeline/steps/elevenlabs_transcribe.py:84 | segments made of pieces from 0 on are numbered by their position |
| ElevenLabs.AppendPiece | mitlesen/pipeline/steps/elevenlabs_transcribe.py:82-85 | one more piece adds its segment's words |
| ElevenLabs.AppendGroup | mitlesen/pipeline/steps/elevenlabs_transcribe.py:80-85 | one more sentence adds its content words |
| Batching.RetryDelaySchedule | mitlesen/pipeline/steps/augment.py:22-27 | the back-off never shrinks, grows strictly up to the fifth retry, stays between 30 and 300 seconds, and is 300 from the fifth retry on |
| Batching.SingleBatch | mitlesen/pipeline/steps/augment.py:99-125 | a batch takes sentences from its start while under the limit, always the first one, and stops before the sentence that would pass the limit; its word count is the sum of what it took |
| Batching.StopsBounds | mitlesen/pipeline/steps/augment.py:104-118 | with a positive limit a batch is never empty while sentences remain, with no positive limit it is, and a batch of two or more sentences keeps within the limit |
| Batching.CreateBatches | mitlesen/pipeline/steps/augment.py:85-97 | the loop never ends exactly when the limit is not positive and sentences exist; otherwise the batches are rule-made, contiguous, cover every sentence once and in order, and there are none only for no sentences |
| Batching.AddBatch | mitlesen/pipeline/steps/augment.py:91-94 | appending the next non-empty batch extends the cover to where that batch stops |
| Batching.Pieces | mitlesen/pipeline/steps/augment.py:119-125 | each batch's sentences are the slice from its first to its last index |
| Batching.BatchesPartition | mitlesen/pipeline/steps/augment.py:85-97 | contiguous batches put back together give exactly the sentences they cover |
| Batching.ContiguousInit | mitlesen/pipeline/steps/augment.py:91-94 | the last of contiguous batches opens where the earlier ones stop and ends at the cover's end |
| Batching.JoinLast | mitlesen/pipeline/steps/augment.py:91-94 | the sentences up to the end split at where the last batch opens |
| Batching.PiecesSnoc | mitlesen/pipeline/steps/augment.py:91-94 | one more batch adds its own sentences after those of the others |
| Batching.Retry | mitlesen/pipeline/steps/augment.py:143-172 | calls stop at the first success; success exactly when some call within the budget succeeds; a failure uses the whole budget; the k-th wait is the retry delay of retry k |
| JsonUpload.TextCount | 3_json_transcript_to_supabase.py:112-120 | a sentence's word count is the number of whitespace-separated words of its text; a missing text is KeyError, a numeric one AttributeError |
| JsonUpload.TextCounts | 3_json_transcript_to_supabase.py:109-130 | all counts when every sentence has a text, otherwise the error of the first one that has none |
| JsonUpload.MergeRaisesUnlessLands | 3_json_transcript_to_supabase.py:200-216 | merging a parsed answer raises exactly when a sentence it targets lacks a key |
| JsonUpload.UploadBatch | 3_json_transcript_to_supabase.py:190-230 | one to ten calls; success exactly when one of the ten calls lands, and then the last call made is the first that lands; between calls the retry delays 1, 2, … are slept; the original fields are never lost; the transcript is the batch's parsed answers merged in call order, a raising merge keeping what it changed |
| JsonUpload.Call | 3_json_transcript_to_supabase.py:196-222 | one call merges its parsed answer and lands exactly when the merge does not raise; the original fields survive |
| JsonUpload.AfterUploadsSnoc | 3_json_transcript_to_supabase.py:190-234 | one more batch's calls extend the transcript after the batches before it |
| JsonUpload.ProcessTranscript | 3_json_transcript_to_supabase.py:27-240 | the script fails exactly when some sentence has no word count, with that sentence's error; otherwise the batches open where the planned batches do, every batch gets its calls, the original fields survive, and the inserted transcript is every batch's calls merged in turn |
| JsonUpload.BatchStarts | 3_json_transcript_to_supabase.py:109-130 | batches exist exactly when sentences do; the starts are those of batches that cover the sentences in order within the 25-word limit |
| JsonUpload.UploadBatches | 3_json_transcript_to_supabase.py:190-234 | every batch is reported, in order, with the calls it made and whether it landed; the transcript is every batch's calls merged in turn |
| JsonUpload.PlanUpload | 3_json_transcript_to_supabase.py:37 | with the limit 25 the batching loop always ends, and its batches cover every sentence once and in order |
| JsonUpload.UploadBatchBound | 3_json_transcript_to_supabase.py:115-124 | a batch of the upload holds at most 25 words unless it is a single sentence |
| AugmentStep.WordCounts | mitlesen/pipeline/steps/augment.py:109 | one count per sentence: the length of its word list |
| AugmentStep.CreateTranscriptBatches | mitlesen/pipeline/steps/augment.py:85-125 | the step's batches never end exactly when its limit is not positive and the transcript is not empty; otherwise they cover every sentence once and in order |
| AugmentStep.BareWords | mitlesen/pipeline/steps/augment.py:194-202 | every word keeps only its text and times |
| AugmentStep.Annotations | mitlesen/pipeline/steps/augment.py:214-216 | the answer's word fields other than text, start and end, unchanged |
| AugmentStep.CleanAsWritten | mitlesen/pipeline/steps/augment.py:179-224 | as written, raises exactly when the counts agree and are not zero (the undefined `context` is reached); otherwise the original's id, text and times with the answer's translation and bare words |
| AugmentStep.CleanIntended | mitlesen/pipeline/steps/augment.py:179-224 | with the language in scope the cleaning never raises |
| AugmentStep.MergedWords | mitlesen/pipeline/steps/augment.py:205-224 | each word is merged with the answer word at its position |
| AugmentStep.ApplyFrom | mitlesen/pipeline/steps/augment.py:174-227 | only answered sentences inside the batch and the transcript change, each to its cleaning; it raises exactly when one such cleaning raises, and without raising every target holds its cleaning |
| AugmentStep.ApplyRaises | mitlesen/pipeline/steps/augment.py:200-221 | as written the apply raises exactly when some target has as many words as its answer sentence, and at least one |
| AugmentStep.AsWrittenDropsAnnotations | mitlesen/pipeline/steps/augment.py:193-221 | as written no word annotation from the answer reaches the transcript |
| AugmentStep.ApplyIntendedMerges | mitlesen/pipeline/steps/augment.py:174-227 | with the language in scope the apply never raises, and every target gets the answer's translation while keeping its id, text, times and number of words |
| AugmentStep.KeepsCoreTrans | mitlesen/pipeline/steps/augment.py:127-141 | keeping the core of sentences carries over from batch to batch |
| AugmentStep.ApplyKeepsCore | mitlesen/pipeline/steps/augment.py:180-186 | the apply never changes a sentence's id, text or times, its number of words, or a word's text or times |
| AugmentStep.LandsByCounts | mitlesen/pipeline/steps/augment.py:196-221 | whether an answer lands depends only on the core of the sentences, so a failed merge does not change later attempts' fate |
| AugmentStep.ProcessBatchWithRetry | mitlesen/pipeline/steps/augment.py:143-172 | at most retries + 1 calls, stopping at the first that lands, and all of them after a failure; success exactly when one lands; the k-th wait is the delay of retry k; the core of the transcript is kept; the transcript is every answer received merged in call order, a raising merge keeping its replacements |
| AugmentStep.Attempt | mitlesen/pipeline/steps/augment.py:151-160 | one attempt merges its answer, if any, and lands exactly when it would on the original transcript; the core is kept |
| AugmentStep.ProcessBatches | mitlesen/pipeline/steps/augment.py:127-141 | every batch is tried and reported with its calls; a batch succeeds exactly when one of its allowed attempts lands; each successful batch is followed by a pause of `delay_between_batches`, and a negative delay raises ValueError at the first successful batch; the core of every sentence survives; the transcript is every batch's attempts merged in turn |
| AugmentStep.BatchLoop | mitlesen/pipeline/steps/augment.py:129-139 | the loop over batches: each batch reported with its calls and its pause, the transcript every batch's attempts merged in turn, stopping at a raising pause |
| AugmentStep.NextBatch | mitlesen/pipeline/steps/augment.py:129-133 | the next batch's attempts extend the transcript and the reports so far |
| AugmentStep.AfterBatchesSnoc | mitlesen/pipeline/steps/augment.py:129-133 | one more batch's attempts extend the transcript after the batches before it |
| AugmentStep.ReportsEach | mitlesen/pipeline/steps/augment.py:129-133 | every batch of the reports made its calls as the retry loop makes them |
| AugmentStep.ReportsLand | mitlesen/pipeline/steps/augment.py:129-133 | a batch reported so succeeds exactly when one of its allowed attempts lands |
| AugmentStep.NameErrorExample | mitlesen/pipeline/steps/augment.py:219-221 | a one-word segment answered with one word raises NameError as written, and gets its translation and annotation with the language in scope |
| AugmentScript.CharClasses | 3_augment_transcript.py:21-43 | no character is both kanji and kana; a special character is a digit or neither kanji nor kana |
| AugmentScript.UnpackError | 3_augment_transcript.py:80 | unpacking a tuple raises ValueError exactly when its length differs from the names |
| AugmentScript.WordTexts | 3_augment_transcript.py:77 | the texts in order when every word has a string text, KeyError or TypeError otherwise |
| AugmentScript.MergeTimestampsAsWritten | 3_augment_transcript.py:66-114 | as written `merge_timestamps` always raises: a missing text's error, or the ValueError of unpacking six names from the splitter's three lists |
| AugmentScript.MergeTimestampsFixed | 3_augment_transcript.py:83-114 | with six lists, one new word per token of the shortest list, carrying the token's fields and the times of the timed words it covers |
| AugmentScript.MergeTimestampsFixedOneToOne | 3_augment_transcript.py:91-101 | when tokens and timed words match one for one, each new word takes its own word's start and end |
| AugmentScript.FirstWithWords | 3_augment_transcript.py:126-127 | the first sentence with a word list from the given index, or none exactly when no later one has one |
| AugmentScript.PreprocessJapaneseAsWritten | 3_augment_transcript.py:116-144 | as written the preprocessing succeeds exactly when no sentence has a word list, and then returns the transcript unchanged; otherwise it raises at the first one |
| AugmentScript.AnnotatedTexts | 3_augment_transcript.py:140 | the texts of the merged words |
| AugmentScript.PreprocessSegment | 3_augment_transcript.py:126-141 | a sentence without words is kept; otherwise it raises exactly when the merge does, and its text becomes its words' texts joined and each word carries the id of its entry when there is one |
| AugmentScript.PreprocessJapaneseFixed | 3_augment_transcript.py:116-144 | every segment is preprocessed, and the first failure ends it |
| AugmentScript.FixedLookupFindsLemma | 3_augment_transcript.py:129-134 | a merged word whose lemma and tag name an entry gets an id |
| AugmentScript.RawOf | 3_augment_transcript.py:207 | a validated answer sentence always has both keys |
| AugmentScript.RawAnswer | 3_augment_transcript.py:207 | each validated sentence, in order |
| AugmentScript.SentenceCounts | 3_augment_transcript.py:184 | one count per sentence: the length of its word list |
| AugmentScript.RunBatch | 3_augment_transcript.py:200-241 | a batch succeeds exactly when one of its retries + 1 attempts lands; a successful batch merges the answer of its last call, a failed one leaves the transcript as it was; the original fields survive |
| AugmentScript.AfterBatchesSnoc | 3_augment_transcript.py:172-241 | one more batch extends the transcript after the batches before it |
| AugmentScript.PlanBatches | 3_augment_transcript.py:172-194 | the batching loop never ends exactly when the limit is not positive and the transcript is not empty; otherwise it covers every sentence once and in order |
| AugmentScript.RunBatches | 3_augment_transcript.py:172-241 | the batches in turn: one report per batch tried, each with its pause, all batches unless a negative pause after a success raises; the original fields survive; the transcript is each successful batch's landing answer merged in turn |
| AugmentScript.AugmentSentences | 3_augment_transcript.py:172-244 | the batch loop raises only the ValueError of a negative pause, and only after a successful batch; otherwise it saves a transcript keeping the original fields, with one report per batch and the pause after each (`delay_between_batches` after a success, none after a failure), or never ends; the saved transcript is, for batches that cover the sentences in order within the word limit, each successful batch's landing answer merged in turn |
| AugmentScript.Sents | 3_augment_transcript.py:184 | the sentences with their word lists, in order |
| AugmentScript.AugmentTranscript | 3_augment_transcript.py:146-247 | a non-empty Japanese transcript is never saved; otherwise a sentence without a word list ends the run with KeyError, which with a non-negative delay is the only failure, and a saved transcript keeps the original fields and is each successful batch's landing answer merged in turn |
| AugmentScript.JapaneseNeverSaved | 3_augment_transcript.py:116-144 | as written a non-empty Japanese transcript either raises or has a sentence with no word list, which the batching then cannot count |
| DictMerge.MergeWord | 3_augment_transcript.py:216-220 | the merged word has every key of either word, with the original's value wherever it has one and the answer's value otherwise |
| DictMerge.MergeWordTwice | 3_augment_transcript.py:220 | merging the same answer word again changes nothing |
| DictMerge.MergeWords | 3_augment_transcript.py:216-220 | the words `zip` reaches are merged pairwise; any further original words stay as they were, and the count never changes |
| DictMerge.KeepsOriginalTrans | 3_json_transcript_to_supabase.py:195-230 | keeping the original fields carries over from one merge to the next |
| DictMerge.MergeFrom | 3_json_transcript_to_supabase.py:200-214 | the original fields are kept and only answered sentences change; the loop raises exactly when some answered sentence lacks a key, and otherwise every target gets its translation and merged words |
| DictMerge.MergeAnswerTwice | 3_json_transcript_to_supabase.py:200-214 | merging the same complete answer twice gives what merging it once gave |
| Dispatch.GetSegmenter | mitlesen/nlp/__init__.py:9-30 | a segmenter exactly for "de", "ja" and "jp" in any case, the German one exactly for "de"; otherwise ValueError naming the lower-cased code |
| Dispatch.GetWordSplitter | mitlesen/nlp/__init__.py:32-50 | a word splitter exactly for "ja" and "jp" in any case; otherwise ValueError naming the lower-cased code |
| Dispatch.GetLanguageProcessor | mitlesen/nlp/__init__.py:52-70 | "segmenter" and "splitter" hand over to the two factories; any other kind is ValueError |
| Dispatch.DispatchIgnoresCase | mitlesen/nlp/__init__.py:21-44 | a code and its lower-case form dispatch alike |
| Dispatch.SplitterImpliesSegmenter | mitlesen/nlp/__init__.py:26-48 | every code with a word splitter has the Japanese segmenter |
| Dispatch.GermanCodes | mitlesen/nlp/__init__.py:23-25 | "de" and "DE" get the German segmenter |
| Dispatch.JapaneseCodes | mitlesen/nlp/__init__.py:26-28 | "ja" and "JP" get the Japanese segmenter |
| Dispatch.SpanishCode | mitlesen/nlp/__init__.py:29-30 | "es" has no segmenter, although a Spanish normalizer exists |
| TranscriptIds.ChunksShape | 3_transcript2supabase.py:12-16 | the chunks put back together are the list; there are none only for an empty list; none is empty or longer than the size, and all but the last are full |
| TranscriptIds.Chunk | 3_transcript2supabase.py:12-16 | a size of zero is the `range` error, a negative size gives no chunks, and a positive one chunks that give the list back |
| TranscriptIds.ChunksCons | 3_transcript2supabase.py:13 | a short list is one chunk; otherwise the first chunk is the first `size` items and the rest is chunked alike |
| TranscriptIds.OffsetIsProduct | 3_transcript2supabase.py:13 | chunk k opens at k times the size |
| TranscriptIds.ChunkTail | 3_transcript2supabase.py:13 | after the first, chunk k is chunk k - 1 of the rest |
| TranscriptIds.ChunkSlices | 3_transcript2supabase.py:13 | chunk k is the slice the comprehension takes at i = k * size |
| TranscriptIds.ChunkCount | 3_transcript2supabase.py:13 | the number of chunks is the length divided by the size, rounded up |
| TranscriptIds.SentenceId | 3_transcript2supabase.py:18-19 | two parts split at "-", the decimal forms of the video and sentence numbers counted from 1 |
| TranscriptIds.SentenceIdInjective | 3_transcript2supabase.py:18-19 | different indices give different sentence ids |
| TranscriptIds.WordId | 3_transcript2supabase.py:21-22 | the sentence id's parts followed by the word's number counted from 1 |
| TranscriptIds.WordIdPattern | 3_transcript2supabase.py:21-22 | a word id matches the three-number pattern of the word model exactly when its sentence id matches the two-number pattern, and its last part reads back as the position plus one |
| TranscriptIds.WordIdInjective | 3_transcript2supabase.py:21-22 | word ids from different sentence ids or positions differ |
| TranscriptIds.NumberFrom | 3_transcript2supabase.py:58-72 | sentences of parsed chunks are numbered on from the count, one after another, with unparsed chunks adding nothing |
| TranscriptIds.NumberSentences | 3_transcript2supabase.py:54-72 | every parsed sentence, in order, with its id |
| TranscriptIds.SentenceIdsDistinct | 3_transcript2supabase.py:56-72 | sentence i of the transcript gets id "{video+1}-{i+1}", so no two sentences share an id |
| TranscriptIds.NumberWords | 3_transcript2supabase.py:91-94 | each word gets its sentence's id and its position in the chunk plus one, and has the word format exactly when that sentence id has the sentence format |
| TranscriptIds.WordIdsDistinct | 3_transcript2supabase.py:91-94 | within one chunk no two words share an id |
| Srt.SrtTimeToMillis | 2_transcript2json.py:7-12 | `strptime` accepts a stamp exactly when hours are below 24 and minutes and seconds below 60, else ValueError; the value is under a day, its milliseconds are the three-digit fraction and its whole seconds are h·3600 + m·60 + s |
| Srt.Digit | 2_transcript2json.py:30 | a digit character whose value is the given number |
| Srt.DayParts | 2_transcript2json.py:11-12 | a time under a day splits into hours below 24, minutes, seconds and milliseconds that add back up to it |
| Srt.StampFields | 2_transcript2json.py:30 | a formatted stamp has the stamp's shape and its fields are the time's hours, minutes, seconds and milliseconds |
| Srt.StampRoundTrip | 2_transcript2json.py:7-12 | reading a formatted stamp gives back the time |
| Srt.ParseTimeLine | 2_transcript2json.py:30 | a match yields two stamp-shaped texts, the first at the start of the line |
| Srt.TimeLineRoundTrip | 2_transcript2json.py:30 | two stamps around "-->", with any spaces between and anything after, match as those two stamps |
| Srt.LastNewline | 2_transcript2json.py:22 | the last newline in a range, or none exactly when the range holds none |
| Srt.SepEnd | 2_transcript2json.py:22 | a blank-line separator from a position is at least two characters long |
| Srt.SepEndIsLongestMatch | 2_transcript2json.py:22 | the separator found is a match of `\n\s*\n` and the longest one, and none exactly when there is no match |
| Srt.FirstSep | 2_transcript2json.py:22 | the leftmost position with a separator, and none when no position has one |
| Srt.SplitBlocks | 2_transcript2json.py:22 | `re.split` always gives at least one block |
| Srt.FirstSepAt | 2_transcript2json.py:22 | a separator with none before it is the first separator |
| Srt.MatchInFirst | 2_transcript2json.py:22 | a separator match starting inside a trimmed block ends inside it |
| Srt.NoSepInsideFirst | 2_transcript2json.py:22 | no separator starts inside a block that has none |
| Srt.SepBetween | 2_transcript2json.py:22 | the blank line between two blocks is a separator ending right before the next block |
| Srt.SplitBlocksJoin | 2_transcript2json.py:22 | blocks joined with blank lines split back into the same blocks |
| Srt.LineEnd | 2_transcript2json.py:25 | the next line break or the end, with no break before it |
| Srt.SplitLines | 2_transcript2json.py:25 | `splitlines` gives lines without line breaks |
| Srt.JoinLastNonEmpty | 2_transcript2json.py:25 | lines joined with a non-empty last line are not empty |
| Srt.SplitLinesJoin | 2_transcript2json.py:25 | lines without breaks and with a non-empty last line, joined by newlines, split back into themselves |
| Srt.StripCharsNoSpace | 2_transcript2json.py:40 | stripping punctuation from a word without spaces leaves no spaces |
| Srt.CleanWords | 2_transcript2json.py:39-41 | the punctuation-stripped words that are not empty, never more than there were |
| Srt.CleanWordsOfClean | 2_transcript2json.py:39-41 | words already clean pass through unchanged |
| Srt.CleanWordsIdempotent | 2_transcript2json.py:39-41 | cleaning twice is cleaning once |
| Srt.SplitWsSpaced | 2_transcript2json.py:37-39 | the words of two texts joined by a space are the words of each, in order |
| Srt.SplitWsJoinSpaces | 2_transcript2json.py:37-39 | the words of lines joined by spaces are the words of each line, in order |
| Srt.TextWordsPerLine | 2_transcript2json.py:37-39 | stripping each line first does not change the words |
| Srt.CueWords | 2_transcript2json.py:24-46 | a block either raises ValueError from its stamps or gives clean words that all share one start and one end |
| Srt.Gather | 2_transcript2json.py:23-47 | the words of every block in order, or the error of the first block that raises |
| Srt.FlattenAll | 2_transcript2json.py:23-47 | what holds for every word of every block holds for every word of the result |
| Srt.GatherAll | 2_transcript2json.py:23-47 | a property of every block's words holds for the whole result |
| Srt.ParseSrtClean | 2_transcript2json.py:14-47 | every word of a parsed file is non-empty and has no surrounding punctuation |
| Srt.BreakIsSpace | 2_transcript2json.py:25 | every line break is whitespace |
| Srt.JoinWordsNoBreak | 2_transcript2json.py:37 | words without spaces joined by spaces have no line break |
| Srt.NoSepOfText | 2_transcript2json.py:22 | a text whose newlines are each followed by a non-space has no separator |
| Srt.TextAfterNewlinesCons | 2_transcript2json.py:22 | a line before such a text, on its own line, keeps that shape |
| Srt.NoBreakAppend | 2_transcript2json.py:25 | two texts without breaks joined have none |
| Srt.DigitsNoBreak | 2_transcript2json.py:25 | a digit string has no line break |
| Srt.StampNoBreak | 2_transcript2json.py:29-30 | a formatted stamp has no line break |
| Srt.JoinSmall | 2_transcript2json.py:37 | joining two or three parts puts the separator between them |
| Srt.RenderCueShape | 2_transcript2json.py:24-37 | a written cue is its number, its timing line and, when it has words, a line of them |
| Srt.NoBreakText | 2_transcript2json.py:22 | a text without breaks has no newline at all |
| Srt.HeadLines | 2_transcript2json.py:25-30 | the number and timing lines have no break, and the timing line is 29 characters from digit to digit |
| Srt.RenderedCueIsBlock | 2_transcript2json.py:22-25 | a written cue is trimmed and holds no separator, so it is one block |
| Srt.CueSplitsIntoLines | 2_transcript2json.py:25 | a written cue splits into its number line, timing line and word line |
| Srt.CueTimes | 2_transcript2json.py:29-35 | the timing line matches as the cue's two stamps, which read back as its start and end |
| Srt.CueText | 2_transcript2json.py:37-41 | the text lines give back the cue's words, already clean |
| Srt.CueRoundTrip | 2_transcript2json.py:24-46 | a written cue reads back as its words, each with its start and end |
| Srt.CueBlocks | 2_transcript2json.py:22 | each cue written with its number from 1 |
| Srt.SrtSplitsIntoCues | 2_transcript2json.py:22 | a written file splits into one block per cue |
| Srt.GatherOk | 2_transcript2json.py:23-47 | when every block succeeds the result is all their words in order |
| Srt.CueBlockWords | 2_transcript2json.py:24-46 | each block of a written file reads back as its cue's words |
| Srt.EmptySrt | 2_transcript2json.py:22-27 | an empty file gives no words |
| Srt.SrtRoundTrip | 2_transcript2json.py:14-47 | parsing a written file gives back every cue's words, in order, each with its cue's start and end |
| RawTranscript.NonBlank | mitlesen/ai.py:411 | only non-empty stripped lines, never more than there were |
| RawTranscript.FindAt | mitlesen/ai.py:143 | `find` gives the first position of the character |
| RawTranscript.CaptionBrackets | mitlesen/ai.py:143-144 | in a caption line the first "[" opens it and the first "]" closes its time |
| RawTranscript.SpaceThenText | mitlesen/ai.py:144 | stripping the space after the bracket gives back a trimmed text |
| RawTranscript.CaptionParts | mitlesen/ai.py:143-144 | the time and text read from a caption line are the ones it was written with |
| RawTranscript.CaptionShape | mitlesen/ai.py:141-142 | a caption line is non-empty, trimmed and has no newline |
| RawTranscript.CaptionsAreLines | mitlesen/ai.py:411 | trimmed non-empty lines joined by newlines read back as the same lines |
| RawTranscript.NonBlankKeeps | mitlesen/ai.py:411 | lines already trimmed and non-empty all survive the filter |
| RawTranscript.Fields | mitlesen/ai.py:147 | one `int()` result per ":"-separated field |
| RawTranscript.ClockOf | mitlesen/ai.py:148-153 | three fields read as hours, minutes and seconds, two as minutes and seconds, otherwise the first as seconds; ValueError exactly when a field read is not an integer |
| RawTranscript.ClockSeconds | mitlesen/ai.py:147-153 | a caption's seconds, ValueError exactly when a field it reads is not an integer |
| RawTranscript.Stamped | mitlesen/ai.py:142-144 | a line is a caption exactly when it has both brackets |
| RawTranscript.Pick | mitlesen/ai.py:141-155 | the captions kept never outnumber the lines |
| RawTranscript.PickAll | mitlesen/ai.py:141-155 | when every line is a caption all are kept, in order |
| RawTranscript.Captions | mitlesen/ai.py:141-144 | no more captions than lines |
| RawTranscript.ReadSeconds | mitlesen/ai.py:141-155 | every caption's seconds and text in order, or ValueError exactly when one time is not read |
| RawTranscript.WithEnds | mitlesen/ai.py:157-161 | each entry ends where the next starts, and the last five seconds after its own start |
| RawTranscript.EndMeetsStart | mitlesen/ai.py:158-159 | consecutive entries leave no gap |
| RawTranscript.TimestampData | mitlesen/ai.py:138-161 | the only way the timestamp pass fails is ValueError from a bad time |
| RawTranscript.CoveredSpan | mitlesen/ai.py:157-161 | the entries span from the first start to five seconds after the last start |
| RawTranscript.Pad2 | mitlesen/ai.py:147 | a two-digit field reading back as its number |
| RawTranscript.ParseDigits | mitlesen/ai.py:149 | `int()` of a digit string is its value |
| RawTranscript.DigitsNoColon | mitlesen/ai.py:147 | a digit string has no ":" |
| RawTranscript.ClockArith | mitlesen/ai.py:149 | hours, minutes and seconds of a count add back up to it |
| RawTranscript.SplitDigitFields | mitlesen/ai.py:147 | "h:m:s" of digit strings splits into its three fields |
| RawTranscript.ThreeFields | mitlesen/ai.py:147-149 | three integer fields are read as such |
| RawTranscript.ClockFields | mitlesen/ai.py:147-149 | an "H:MM:SS" time reads as its hours, minutes and seconds |
| RawTranscript.ClockRoundTrip | mitlesen/ai.py:147-149 | an "H:MM:SS" time reads back as its seconds |
| RawTranscript.ClockOfThree | mitlesen/ai.py:148-149 | three fields give h·3600 + m·60 + s |
| RawTranscript.ClockOfTwo | mitlesen/ai.py:150-151 | two fields give m·60 + s |
| RawTranscript.MinutesRoundTrip | mitlesen/ai.py:150-151 | an "M:SS" time reads back as its seconds |
| RawTranscript.MinutesFields | mitlesen/ai.py:147-151 | an "M:SS" time reads as its minutes and seconds |
| RawTranscript.CaptionLines | mitlesen/ai.py:433 | each entry written as "[time] text" |
| RawTranscript.ClockCaptions | mitlesen/ai.py:147-149 | each entry's seconds written as "H:MM:SS" |
| RawTranscript.Seconds | mitlesen/ai.py:155 | each entry's seconds and text |
| RawTranscript.CaptionsOfLines | mitlesen/ai.py:141-144 | well-formed caption lines read back as their times and texts |
| RawTranscript.CaptionStamped | mitlesen/ai.py:142-144 | a well-formed caption line is a caption with its own time and text |
| RawTranscript.SplitJoinedLines | mitlesen/ai.py:141 | trimmed lines joined by newlines split back into themselves, or one empty line for none |
| RawTranscript.ReadWritten | mitlesen/ai.py:141-155 | captions written with "H:MM:SS" times read back as their seconds |
| RawTranscript.TimestampRoundTrip | mitlesen/ai.py:138-161 | a transcript written from timed captions gives back those seconds and texts, each ending where the next starts |
| RawTranscript.PyIndex | mitlesen/ai.py:419-428 | Python list indexing: a negative index counts from the end, and one outside the list raises |
| RawTranscript.MaxOf | mitlesen/ai.py:415 | `max` is an element no element exceeds |
| RawTranscript.GroupTexts | mitlesen/ai.py:427-429 | one text per index of the group |
| RawTranscript.KeptGroups | mitlesen/ai.py:414-416 | the groups not passed over, none of them empty or reaching past the lines |
| RawTranscript.CombineWith | mitlesen/ai.py:414-434 | one line per kept group, or IndexError exactly when a kept group has an index below minus the number of lines |
| RawTranscript.CombineWithLines | mitlesen/ai.py:414-434 | the lines made are those of the kept groups, in order |
| RawTranscript.LineMaker | mitlesen/ai.py:419-433 | a kept group's line is its first line's time and the group's texts |
| RawTranscript.AccumulateStarted | mitlesen/ai.py:430 | once the text is non-empty the rest are added with one space each |
| RawTranscript.GroupTextJoined | mitlesen/ai.py:426-433 | the combined text is the texts from the first non-empty one joined by single spaces |
| RawTranscript.KeptPrefix | mitlesen/ai.py:414-416 | when only the trailing groups are passed over the kept groups are the leading ones |
| RawTranscript.FallbackRanges | mitlesen/ai.py:397-398 | one singleton group per line of the stripped transcript, blank or not |
| RawTranscript.DetectSentenceRanges | mitlesen/ai.py:387-398 | the first of three answers that parses is the grouping, and with none the fallback |
| RawTranscript.Normalized | mitlesen/ai.py:433 | each line rewritten as "[time] text" |
| RawTranscript.SingleGroupLine | mitlesen/ai.py:419-433 | a one-line group makes that line's time and text |
| RawTranscript.FallbackKeepsEveryLine | mitlesen/ai.py:397-436 | with the fallback grouping every non-blank line becomes a line of its own, in order |
| RawTranscript.SingletonGroups | mitlesen/ai.py:414-436 | groups [0], [1], … over the lines give each line back on its own |
| RawTranscript.SingletonsKept | mitlesen/ai.py:414-416 | of the groups [0], [1], … exactly those naming a line are kept |
| RawTranscript.FallbackKeepsCaptions | mitlesen/ai.py:397-436 | a transcript of well-formed caption lines comes back unchanged from the fallback grouping |
| Validate.WordTypeOf | mitlesen/validate.py:5-15 | a part of speech is accepted only under its own name |
| Validate.WordTypeNames | mitlesen/validate.py:5-15 | exactly the ten names are accepted, each as its own part of speech |
| Validate.CaseOf | mitlesen/validate.py:17-21 | a case is accepted only under its own name |
| Validate.CaseNames | mitlesen/validate.py:17-21 | exactly the four names are accepted, each as its own case |
| Validate.TextOf | mitlesen/validate.py:25-26 | a string field with at least one character is accepted as it is, and nothing else |
| Validate.CountOf | mitlesen/validate.py:33-34 | an integer time is accepted exactly when it is not negative; strings (numeric ones included), null, lists and objects are refused |
| Validate.IdOf | mitlesen/validate.py:24 | an id is accepted exactly when it is a string of the given number of digit groups joined by "-" |
| Validate.AllOf | mitlesen/validate.py:37 | a list is accepted exactly when every item is, item for item |
| Validate.NonEmptyListOf | mitlesen/validate.py:37-42 | a list field is accepted exactly when it is a non-empty list of accepted items |
| Validate.ListRoundTrip | mitlesen/validate.py:37-42 | a non-empty list of items that each read as a value reads as the list of those values |
| Validate.ParseWord | mitlesen/validate.py:23-29 | an accepted word has every required key and no undeclared one, and satisfies every field constraint |
| Validate.ParseSentence | mitlesen/validate.py:31-38 | an accepted sentence has exactly the declared keys and satisfies every field constraint |
| Validate.ParseTranscript | mitlesen/validate.py:40-43 | an accepted transcript has exactly its two keys and at least one valid sentence |
| Validate.WordsJson | mitlesen/validate.py:37 | each word as its JSON object |
| Validate.SentencesJson | mitlesen/validate.py:42 | each sentence as its JSON object |
| Validate.WordRoundTrip | mitlesen/validate.py:23-29 | a valid word written as JSON validates back to itself |
| Validate.WordsRoundTrip | mitlesen/validate.py:37 | a non-empty list of valid words validates back to itself |
| Validate.SentenceRoundTrip | mitlesen/validate.py:31-38 | a valid sentence written as JSON validates back to itself |
| Validate.SentencesRoundTrip | mitlesen/validate.py:42 | a non-empty list of valid sentences validates back to itself |
| Validate.TranscriptRoundTrip | mitlesen/validate.py:40-43 | a valid transcript written as JSON validates back to itself |
| Validate.GeneratedIdsValid | mitlesen/validate.py:24-32 | the ids the upload script generates always match the sentence and word patterns |

## Left out

- The regex class `\w` is a parameter. Every property holds for any character class.
- spaCy's `Span.text` is taken to be the stripped concatenation of the sentence's `text_with_ws` tokens.
- Words in the segmentation core always carry `text`, `start` and `end`. The `.get(..., 0.0)` defaults of `_create_segment_from_words` are not modelled.
- The Japanese 70% threshold `max_len * 0.7` is compared as `10 * d >= 7 * max_len` on integers. Floating-point rounding at exact multiples is not modelled.
- JapaneseSplitter.SplitLongSentence requires `max_len >= 1`. With `max_len` 0 the source loop stalls at the first non-space character; this is listed under Findings. A negative `max_len` moves the cursor backwards into Python's negative indices, which the model does not represent (`max_len` is a `nat`).
- `_normalise` in both the normaliser module and the legacy module is the same function as `normalize_text`. It is not written out twice: `GermanNormalizer.NormalizeText` stands for all three.
- The legacy module's own `split_long_sentence` is textually the class version. The model reuses `GermanSplitter` with the as-written cut rule.
- LegacyGerman.SegmentAgrees relates the legacy and template loops one raw segment at a time. Their agreement over a whole transcript is not stated as one lemma.
- Logging is not modelled.
- File, database and network I/O are not modelled: the SQLite connection, indexes and commits, JSON files, and the Supabase insert. The store is a sequence of rows, and files are strings.
- The language model, ElevenLabs, Janome, pykakasi, jaconv, Jamdict, sha1, `time.sleep` and the clock are parameters. Answers are functions from the call number. The retry delays slept between failed calls are recorded as a list of delays, and the augmentation loops record the pause after each batch.
- AugmentScript.AugmentTranscript: a sentence without a word list is detected before any batch runs. The source builds and sends batches as it reads the sentences, so with a negative `delay_between_batches` a successful batch before that sentence raises ValueError first; either way nothing is saved.
- JsonUpload.UploadBatch: the fixed two-second pause after each successful batch (3_json_transcript_to_supabase.py lines 232-233) is not recorded in the batch's sleeps. It changes no data.
- DictMerge.MergeFrom: a transcript sentence always has a word list (`Sent.words` is a sequence). In the upload script a transcript sentence without `"words"` raises KeyError at line 207, after line 204 has set its translation; the model does not represent that case.
- DictMerge.MergeWords: every answer word is an object (`RawSentence.words` holds field maps). In the upload script an answer word that is not an object makes `proc_word | orig_word` raise TypeError at line 211, after the same sentence's earlier words were merged. That partial merge inside one sentence is not modelled; partial merges are modelled only between sentences.
- Srt.ParseTimeLine, Srt.Digit: `\d` in the time-line pattern (2_transcript2json.py line 30) is ASCII digits in the model. Python's `str` patterns also match every other Unicode decimal digit, so a time line written with such digits is read by the source and rejected by the model.
- JapaneseTranscript.ProcessSegment: a segment's `text` is missing or a string. An explicit `"text": null` is kept as `None` by `segment.get` in the source; the model cannot tell it from a missing text and fills in the joined word texts.
- ElevenLabs.GroupIntoSentences: an `ApiWord` field is `None` both for a missing key and for an explicit JSON null, and `dict.get(k, default)` tells them apart (elevenlabs_transcribe.py lines 97-98). An explicit `"speaker_id": null` is read here as "speaker_0", while the source keeps `None`: it closes an open group of another speaker and lets the next content word's speaker be adopted without a cut, so the speakers `[null, "a"]` give one group in the source and two in the model. An explicit `"text": null` is read as "", while `.strip()` raises AttributeError in the source.
- ElevenLabs.ContentWordsKeep: an explicit `"start": null` or `"end": null` becomes 0.0 in a transcript word, while the source keeps `None` (elevenlabs_transcribe.py line 48). A null text becomes "" where the source keeps `None`.
- ElevenLabs.CreateSegment: an explicit null `start` of the first word or `end` of the last becomes 0.0, while the source keeps `None` (lines 46-47). A null text is read as "", while `''.join` raises TypeError (line 45).
- ElevenLabs.CreateSegmentText: a null text is read as "", so the lemma covers word lists whose texts the source would refuse with TypeError at line 45.
- ElevenLabs.Transform: it inherits the readings above. With an explicit null text anywhere the source raises AttributeError while grouping, and the model returns segments; with null times or speakers the segments differ as described for the members above.
- The ElevenLabs API call, its caching and the writing of the result (`execute`, elevenlabs_transcribe.py lines 174-242) are not modelled. Neither is the conversion of the response object (lines 63-69).
- ElevenLabs.ShouldSplitSegment: `_should_split_segment` is modelled, but nothing in the step calls it.
- The prompts, printing and LLM wrappers of `ai.py` (`fetch_completion`, `fix_grammar`, `process_vocabulary`) are not modelled. They are calls into services.
- `split_sentences` and `split_sentences_json` in tokenizer.py and japanese.py are not modelled. They are JSON wrappers that map `split_sentence` over a list.
- `is_special_char` of japanese.py (lines 78-81) is not modelled. It needs Unicode general categories, and nothing in the core calls it.
- The Spanish `normalize_text` alias (normalizer.py lines 87-89) is the same function as `normalize`. It is not written out twice.
- Validate.CountOf: a string is refused, while pydantic's lax `int` mode accepts a numeric string such as `"12"` and reads it as 12. Bool and integral float values are coerced as in lax mode.
- Validate.ParseWord, Validate.ParseSentence, Validate.ParseTranscript: they state only that an accepted record meets every constraint. The converse, that every valid record is accepted, is stated as the round-trip lemmas over typed records. Pydantic's lax coercions (numeric strings for `int`, say) are not modelled.
- RawTranscript.ClockOf: its `ParseInt` strips surrounding whitespace and reads ASCII digits with an optional sign. Python's `int()` also takes other Unicode digits and single `_` separators between digits (`int("1_0")` is 10), so `ClockOf` reports `BadInt` on a stamp such as `[00:1_0]` that the source reads as 10 seconds.
- `Lower` covers ASCII and Latin-1. Python's `str.lower` covers all of Unicode.
- JMdict.ExtractLevel, Wiktionary.WikiLevel: `Upper` covers ASCII and Latin-1 letters with a Latin-1 capital, one character for one. Python's `str.upper` (dictionary.py lines 337 and 433, create_japanese_dictionary.py line 107) also maps 'ß' to "SS", which lengthens the text, 'ÿ' to 'Ÿ', 'µ' to 'Μ', and Greek, Cyrillic and other letters; the model leaves those unchanged. The JLPT texts these read are ASCII in practice.
- Timings are `real` numbers and are only copied. Rounding (`round(start, 3)`) and float seconds in the SRT script are whole milliseconds in the model.
- RawTranscript.GroupTextJoined: the text is joined from the first non-empty text on. An empty text after that adds a double space, which the model keeps as written.
- `validate.py` is not used by the other modules. It is modelled on its own, and the ids TranscriptIds generates are proved to match it.
- Batch sentences sent to the model are not modelled beyond their indices. Prompt text and JSON serialisation are left out.

## Findings

| source | as written | input that shows it | evidently intended | confidence | as-written member | corrected member |
|---|---|---|---|---|---|---|
| mitlesen/nlp/german/segmenter.py:76-82 | when the overflowing token is itself the last clause mark, the cut falls before it | tokens `"a "`, `"b,"` with `max_len` 2 give `"a"`, `"b,"` | the comment says the mark is included, giving `"a b,"` | not executed | GermanSplitter.OverflowPunctKeptBack | GermanSplitter.AfterPunctCut |
| mitlesen/nlp/japanese/phonetics.py:26 | the long-vowel test compares each character with the three-character text `ãƒ¼`, the UTF-8 bytes of ー read as cp1252, so it never holds and ー goes to pykakasi | カー, with pykakasi reading カ as "ka" and passing ー through, gives `["ka", "ー"]` | the docstring's rule: ー repeats the previous vowel, giving `["ka", "a"]` | not executed | Phonetics.LongVowelFinding | Phonetics.ToRomajiIntended |
| mitlesen/nlp/japanese/transcript_processor.py:87-89 | the merged word stores its lemmas and tag under `_base_form`, `_base_form2` and `_pos`, while `search_japanese_word` reads `base_form`, `base_form2` and `pos` (dictionary.py lines 163-165), so only the last step, by surface text, can match | the token 食べ with lemma 食べる and tag verb, against the entry 食べる (verb, kana たべる), finds nothing | the lemma-and-tag steps run first and find 食べる | not executed | JapaneseTranscript.UnderscoreMissesEntry | JapaneseTranscript.IntendedLemmaFirst |
| mitlesen/pipeline/steps/augment.py:222 | `_apply_batch_results` reads `context.language`, but `context` is not in scope there, so every merge of a non-empty word list with matching counts raises NameError and the batch is retried until it fails | a one-word segment "Hallo" answered with one word | the step's `language` argument decides whether `case` is emptied | not executed | AugmentStep.NameErrorExample | AugmentStep.ApplyIntendedMerges |
| 3_augment_transcript.py:80 | `merge_timestamps` unpacks six lists from `split_sentence`, which returns three, so it always raises ValueError and no non-empty Japanese transcript is saved | any segment with a word list | a splitter that returns the six lists the loop reads | not executed | AugmentScript.MergeTimestampsAsWritten | AugmentScript.MergeTimestampsFixedOneToOne |
| mitlesen/nlp/japanese/segmenter.py:55-112 | with `max_len` 0 the backward scan is empty and the fallback cut `min(current_start + max_len, len(text))` is the cursor itself, so a pass at a non-space character cuts nothing and the loop repeats it forever | `split_long_sentence("ab", 0)` | the fallback cut exists "to avoid infinite loops", so every pass should move the cursor, as it does for `max_len >= 1` | not executed | JapaneseSplitter.ZeroMaxLenStalls | JapaneseSplitter.LoopStepAdvances |
