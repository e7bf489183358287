/** The language dispatch table of the NLP package (`get_segmenter`, `get_word_splitter`,
    `get_language_processor`): language codes are lower-cased, German and Japanese have
    segmenters, only Japanese has a word splitter, and everything else is a `ValueError`. */
module Dispatch {
  import opened Prelude
  import opened Strings

  datatype Segmenter = GermanSegmenter | JapaneseSegmenter
  datatype WordSplitter = JapaneseWordSplitter
  datatype Processor = SegmenterOf(segmenter: Segmenter) | SplitterOf(splitter: WordSplitter)

  /** The codes with a segmenter, as lower-case strings. */
  predicate SegmenterCode(code: string) {
    code == "de" || code == "ja" || code == "jp"
  }

  /** `get_segmenter(language)`. */
  function GetSegmenter(language: string): (r: Result<Segmenter>)
    ensures r.Ok? <==> SegmenterCode(Lower(language))
    ensures r.Ok? ==> (r.value == GermanSegmenter <==> Lower(language) == "de")
    ensures r.Err? ==> r.error == ValueError("Unsupported language for segmentation: " + Lower(language))
  {
    var code := Lower(language);
    if code == "de" then Ok(GermanSegmenter)
    else if code == "ja" || code == "jp" then Ok(JapaneseSegmenter)
    else Err(ValueError("Unsupported language for segmentation: " + code))
  }

  /** `get_word_splitter(language)`. */
  function GetWordSplitter(language: string): (r: Result<WordSplitter>)
    ensures r.Ok? <==> Lower(language) == "ja" || Lower(language) == "jp"
    ensures r.Err? ==> r.error == ValueError("Unsupported language for word splitting: " + Lower(language))
  {
    var code := Lower(language);
    if code == "ja" || code == "jp" then Ok(JapaneseWordSplitter)
    else Err(ValueError("Unsupported language for word splitting: " + code))
  }

  /** `get_language_processor(language, processor_type)`. */
  function GetLanguageProcessor(language: string, processorType: string): (r: Result<Processor>)
    ensures processorType == "segmenter" ==>
              (r.Ok? <==> GetSegmenter(language).Ok?)
              && (r.Ok? ==> r.value == SegmenterOf(GetSegmenter(language).value))
    ensures processorType == "splitter" ==>
              (r.Ok? <==> GetWordSplitter(language).Ok?)
              && (r.Ok? ==> r.value == SplitterOf(GetWordSplitter(language).value))
    ensures processorType != "segmenter" && processorType != "splitter" ==>
              r == Err(ValueError("Unsupported processor type: " + processorType))
  {
    if processorType == "segmenter" then
      match GetSegmenter(language)
      case Ok(s) => Ok(SegmenterOf(s))
      case Err(e) => Err(e)
    else if processorType == "splitter" then
      match GetWordSplitter(language)
      case Ok(s) => Ok(SplitterOf(s))
      case Err(e) => Err(e)
    else Err(ValueError("Unsupported processor type: " + processorType))
  }

  /** Dispatch does not depend on the case of the code: a code and its lower-case form get the
      same answer from every entry point. */
  lemma DispatchIgnoresCase(language: string, processorType: string)
    ensures GetSegmenter(language) == GetSegmenter(Lower(language))
    ensures GetWordSplitter(language) == GetWordSplitter(Lower(language))
    ensures GetLanguageProcessor(language, processorType) == GetLanguageProcessor(Lower(language), processorType)
  {
    LowerIdempotent(language);
  }

  /** Every code with a word splitter also has a segmenter, the Japanese one. */
  lemma SplitterImpliesSegmenter(language: string)
    requires GetWordSplitter(language).Ok?
    ensures GetSegmenter(language) == Ok(JapaneseSegmenter)
  {
  }

  lemma GermanCodes()
    ensures GetSegmenter("de") == Ok(GermanSegmenter) && GetSegmenter("DE") == Ok(GermanSegmenter)
  {
    assert Lower("DE") == "de";
    assert Lower("de") == "de";
  }

  lemma JapaneseCodes()
    ensures GetSegmenter("ja") == Ok(JapaneseSegmenter) && GetSegmenter("JP") == Ok(JapaneseSegmenter)
  {
    assert Lower("ja") == "ja";
    assert Lower("JP") == "jp";
  }

  lemma SpanishCode()
    ensures GetSegmenter("es") == Err(ValueError("Unsupported language for segmentation: es"))
  {
    assert Lower("es") == "es";
  }
}
