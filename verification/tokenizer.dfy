/** `JapaneseWordSplitter.split_sentence` of the NLP package: Janome's tokens turned into six
    parallel lists (surface, lemma, kanji lemma, romaji, hiragana, part of speech). Janome's
    tokens are the input; jaconv, pykakasi and Jamdict come in through `Analysers`. */
module Tokenizer {
  import opened Prelude
  import opened Strings
  import Dictionary
  import Phonetics
  import Romanizer

  /** A Janome token: the surface, the comma-joined part of speech, the base form and the
      katakana reading, the last two `"*"` when Janome has none. */
  datatype Morpheme = Morpheme(surface: string, partOfSpeech: string, baseForm: string, reading: string)

  /** The foreign analysers: jaconv's per-character katakana-to-hiragana table, pykakasi's
      `hepburn` items for one character and for a whole reading, and Jamdict's lookup. */
  datatype Analysers = Analysers(
    kataToHira: char -> char, kakasi: string -> seq<string>, kakasiBulk: string -> seq<string>,
    lookup: string -> Option<seq<Romanizer.Entry>>)

  // ---------------------------------------------------------------------------
  // part of speech
  // ---------------------------------------------------------------------------

  /** `JANOME_POS_MAP.get(key)`. */
  function JanomePosMap(key: string): Option<string>
  {
    if key == "名詞" then Some("noun")
    else if key == "動詞" then Some("verb")
    else if key == "形容詞" then Some("adjective")
    else if key == "副詞" then Some("adverb")
    else if key == "連体詞" then Some("adjective")
    else if key == "接続詞" then Some("conjunction")
    else if key == "感動詞" then Some("interjection")
    else if key == "助詞" then Some("particle")
    else if key == "助動詞" then Some("auxiliary")
    else if key == "記号" then Some("symbol")
    else if key == "フィラー" then Some("filler")
    else if key == "その他" then Some("other")
    else if key == "接頭詞" then Some("prefix")
    else if key == "名詞,代名詞" then Some("pronoun")
    else None
  }

  /** The values of the table. */
  predicate JanomeTag(tag: string) {
    tag in {"noun", "verb", "adjective", "adverb", "conjunction", "interjection", "particle",
            "auxiliary", "symbol", "filler", "other", "prefix", "pronoun"}
  }

  /** Every value of the table is non-empty, so a hit is never mistaken for a miss. */
  lemma JanomePosMapValues(key: string)
    ensures JanomePosMap(key).Some? ==> JanomeTag(JanomePosMap(key).value) && JanomePosMap(key).value != ""
  {
  }

  /** The first two fields of the part of speech joined back with a comma, then stripped. */
  function FullPos(fields: seq<string>): string {
    Strip(Join(",", if |fields| >= 2 then fields[..2] else fields))
  }

  /** `canonicalise_pos(head)[0]`: the fallback for a head field the table does not know. */
  function CanonHead(head: string): (r: Result<string>)
    ensures r.Err? <==> AllSpace(Filter(Dictionary.NotParen, Dictionary.CanonKey(head)))
    ensures r.Err? ==> r.error == ValueError(Dictionary.UnpackMessage)
    ensures r.Ok? ==> r.value == "other" || Dictionary.CanonTag(r.value)
  {
    match Dictionary.CanonicalisePos(head)
    case Err(x) => Err(x)
    case Ok(p) => Ok(p.0)
  }

  /** A table hit: `if not pos_norm` treats a missing key and an empty value alike. */
  predicate Hit(x: Option<string>) {
    x.Some? && x.value != ""
  }

  /** The part-of-speech normalisation, for a given table: a 名詞 whose second field is
      代名詞 is a pronoun; otherwise the two-field key, then the head field, are looked up;
      failing both, `canonicalise_pos` of the head field decides, and raises when the head is
      blank once parentheses are removed. */
  function NormalizePos(table: string -> Option<string>, partOfSpeech: string): (r: Result<string>)
    ensures var fields := SplitOn(partOfSpeech, ',');
            var head := Strip(fields[0]);
            (head == "名詞" && |fields| > 1 && Strip(fields[1]) == "代名詞" ==> r == Ok("pronoun"))
            && (r.Err? ==> !Hit(table(FullPos(fields))) && !Hit(table(head)) && r == Err(ValueError(Dictionary.UnpackMessage)))
            && (r.Ok? ==> r.value == "pronoun" || (Hit(table(FullPos(fields))) && r == Ok(table(FullPos(fields)).value))
                          || (Hit(table(head)) && r == Ok(table(head).value))
                          || r.value == "other" || Dictionary.CanonTag(r.value))
  {
    var fields := SplitOn(partOfSpeech, ',');
    var head := Strip(fields[0]);
    if head == "名詞" && |fields| > 1 && Strip(fields[1]) == "代名詞" then Ok("pronoun")
    else
      var full := table(FullPos(fields));
      if Hit(full) then Ok(full.value)
      else
        var single := table(head);
        if Hit(single) then Ok(single.value)
        else CanonHead(head)
  }

  /** A head field the table knows decides the tag when the second field does not make a
      pronoun and the two-field key is unknown. */
  lemma HeadFieldDecides(table: string -> Option<string>, partOfSpeech: string)
    requires var fields := SplitOn(partOfSpeech, ',');
             !(Strip(fields[0]) == "名詞" && |fields| > 1 && Strip(fields[1]) == "代名詞")
             && !Hit(table(FullPos(fields))) && Hit(table(Strip(fields[0])))
    ensures NormalizePos(table, partOfSpeech) == Ok(table(Strip(SplitOn(partOfSpeech, ',')[0])).value)
  {
  }

  /** The Janome tags this splitter produces. */
  function JanomePos(partOfSpeech: string): Result<string> {
    NormalizePos(JanomePosMap, partOfSpeech)
  }

  // ---------------------------------------------------------------------------
  // one token
  // ---------------------------------------------------------------------------

  /** The six entries one token contributes. */
  datatype Analysed = Analysed(word: string, lemmaForm: string, lemmaKanji: string, romaji: seq<string>,
                               hiragana: seq<string>, pos: string)

  /** `base_form`, or the surface when Janome has none. */
  function LemmaOf(t: Morpheme): string {
    if t.baseForm != "*" then t.baseForm else t.surface
  }

  /** `reading`, or the surface when Janome has none. */
  function ReadingOf(t: Morpheme): string {
    if t.reading != "*" then t.reading else t.surface
  }

  /** The kanji lemma: Jamdict is consulted only for a kana-only lemma. */
  function LemmaKanji(a: Analysers, lemmaForm: string): (r: string)
    ensures !Romanizer.IsKanaOnly(lemmaForm) ==> r == lemmaForm
    ensures Romanizer.IsKanaOnly(lemmaForm) ==> r == Romanizer.KanaToKanji(a.lookup, lemmaForm)
  {
    if Romanizer.IsKanaOnly(lemmaForm) then Romanizer.KanaToKanji(a.lookup, lemmaForm) else lemmaForm
  }

  /** The romaji list as written: per-character romaji, replaced by pykakasi's bulk conversion
      of the reading when its length differs from the hiragana list's. */
  function RomajiOf(a: Analysers, reading: string): (r: Result<seq<string>>)
    ensures r.Err? <==> Phonetics.ToRomaji(a.kataToHira, a.kakasi, reading).Err?
    ensures r.Err? ==> r.error == IndexError
  {
    match Phonetics.ToRomaji(a.kataToHira, a.kakasi, reading)
    case Err(x) => Err(x)
    case Ok(romaji) =>
      if |Phonetics.ToHiragana(a.kataToHira, reading)| != |romaji| then Ok(a.kakasiBulk(reading)) else Ok(romaji)
  }

  /** The bulk fallback never runs: when the per-character conversion returns at all, it returns
      one entry per character, which is the hiragana list's length. */
  lemma BulkFallbackUnreachable(a: Analysers, reading: string)
    requires Phonetics.ToRomaji(a.kataToHira, a.kakasi, reading).Ok?
    ensures RomajiOf(a, reading) == Phonetics.ToRomaji(a.kataToHira, a.kakasi, reading)
    ensures |RomajiOf(a, reading).value| == |Phonetics.ToHiragana(a.kataToHira, reading)|
  {
    Phonetics.ToRomajiParity(a.kataToHira, a.kakasi, reading);
  }

  /** One loop iteration for a token that is not a symbol. The part of speech is worked out
      before the romaji, so its `ValueError` wins over the romaji's `IndexError`. */
  function Analyse(a: Analysers, t: Morpheme): (r: Result<Analysed>)
    ensures r.Err? <==> JanomePos(t.partOfSpeech).Err? || Phonetics.ToRomaji(a.kataToHira, a.kakasi, ReadingOf(t)).Err?
    ensures JanomePos(t.partOfSpeech).Err? ==> r == Err(JanomePos(t.partOfSpeech).error)
    ensures r.Ok? ==>
      r.value.word == t.surface && r.value.lemmaForm == LemmaOf(t)
      && r.value.lemmaKanji == LemmaKanji(a, LemmaOf(t))
      && r.value.hiragana == Phonetics.ToHiragana(a.kataToHira, ReadingOf(t))
      && r.value.romaji == Phonetics.ToRomaji(a.kataToHira, a.kakasi, ReadingOf(t)).value
      && |r.value.romaji| == |r.value.hiragana|
      && r.value.pos == JanomePos(t.partOfSpeech).value
  {
    var reading := ReadingOf(t);
    match JanomePos(t.partOfSpeech)
    case Err(x) => Err(x)
    case Ok(pos) =>
      match RomajiOf(a, reading)
      case Err(x) => Err(x)
      case Ok(romaji) =>
        BulkFallbackUnreachable(a, reading);
        Ok(Analysed(t.surface, LemmaOf(t), LemmaKanji(a, LemmaOf(t)), romaji,
                    Phonetics.ToHiragana(a.kataToHira, reading), pos))
  }

  // ---------------------------------------------------------------------------
  // the sentence
  // ---------------------------------------------------------------------------

  /** Janome tags punctuation as 記号 ("symbol"); those tokens are skipped. */
  predicate IsSymbol(t: Morpheme) {
    StartsWith(t.partOfSpeech, "記号")
  }

  predicate Content(t: Morpheme) {
    !IsSymbol(t)
  }

  /** The six lists `split_sentence` returns. */
  datatype SixLists = SixLists(words: seq<string>, lemmas: seq<string>, lemmasKanji: seq<string>,
                               romaji: seq<seq<string>>, hiragana: seq<seq<string>>, pos: seq<string>)

  /** `lists` holds, at every index, the entries `step` gives the token at that index of `kept`. */
  predicate Parallel(step: Morpheme -> Result<Analysed>, kept: seq<Morpheme>, lists: SixLists) {
    |lists.words| == |lists.lemmas| == |lists.lemmasKanji| == |lists.romaji| == |lists.hiragana| == |lists.pos| == |kept|
    && forall i :: 0 <= i < |kept| ==>
         step(kept[i]) == Ok(Analysed(lists.words[i], lists.lemmas[i], lists.lemmasKanji[i],
                                      lists.romaji[i], lists.hiragana[i], lists.pos[i]))
  }

  function Push(x: Analysed, rest: SixLists): SixLists {
    SixLists([x.word] + rest.words, [x.lemmaForm] + rest.lemmas, [x.lemmaKanji] + rest.lemmasKanji,
             [x.romaji] + rest.romaji, [x.hiragana] + rest.hiragana, [x.pos] + rest.pos)
  }

  /** A token in front adds its entries in front. */
  lemma ParallelCons(step: Morpheme -> Result<Analysed>, t: Morpheme, kept: seq<Morpheme>, rest: SixLists)
    requires step(t).Ok? && Parallel(step, kept, rest)
    ensures Parallel(step, [t] + kept, Push(step(t).value, rest))
  {
    var s := Push(step(t).value, rest);
    forall i | 0 < i < |kept| + 1
      ensures step(([t] + kept)[i]) == Ok(Analysed(s.words[i], s.lemmas[i], s.lemmasKanji[i],
                                                    s.romaji[i], s.hiragana[i], s.pos[i]))
    {
      assert ([t] + kept)[i] == kept[i - 1];
    }
  }

  /** The token loop for a given per-token step: symbols are skipped and the first exception
      ends the loop. */
  function SplitWith(step: Morpheme -> Result<Analysed>, tokens: seq<Morpheme>): (r: Result<SixLists>)
    ensures r.Ok? <==> forall i :: 0 <= i < |tokens| && Content(tokens[i]) ==> step(tokens[i]).Ok?
    ensures r.Ok? ==> Parallel(step, Keep(Content, tokens), r.value)
    ensures r.Err? ==> exists i :: 0 <= i < |tokens| && Content(tokens[i]) && step(tokens[i]) == Err(r.error)
    decreases |tokens|
  {
    if |tokens| == 0 then Ok(SixLists([], [], [], [], [], []))
    else
      var tail := SplitWith(step, tokens[1..]);
      assert forall i :: 1 <= i < |tokens| ==> tokens[i] == tokens[1..][i - 1];
      if IsSymbol(tokens[0]) then
        assert Keep(Content, tokens) == Keep(Content, tokens[1..]);
        tail
      else
        assert Keep(Content, tokens) == [tokens[0]] + Keep(Content, tokens[1..]);
        match step(tokens[0])
        case Err(x) => Err(x)
        case Ok(x) =>
          match tail
          case Err(y) => Err(y)
          case Ok(rest) =>
            ParallelCons(step, tokens[0], Keep(Content, tokens[1..]), rest);
            Ok(Push(x, rest))
  }

  function AnalyseWith(a: Analysers): Morpheme -> Result<Analysed> {
    t => Analyse(a, t)
  }

  /** `split_sentence(sentence)` over Janome's tokens for it. */
  function SplitSentence(a: Analysers, tokens: seq<Morpheme>): (r: Result<SixLists>)
    ensures r.Ok? <==> forall i :: 0 <= i < |tokens| && Content(tokens[i]) ==> Analyse(a, tokens[i]).Ok?
    ensures r.Ok? ==> Parallel(AnalyseWith(a), Keep(Content, tokens), r.value)
  {
    SplitWith(AnalyseWith(a), tokens)
  }

  /** Every word has exactly as many romaji entries as hiragana entries, and its romaji is the
      per-character conversion of its reading. */
  lemma SplitParity(a: Analysers, tokens: seq<Morpheme>, i: int)
    requires SplitSentence(a, tokens).Ok? && 0 <= i < |SplitSentence(a, tokens).value.romaji|
    ensures |SplitSentence(a, tokens).value.romaji[i]| == |SplitSentence(a, tokens).value.hiragana[i]|
    ensures SplitSentence(a, tokens).value.romaji[i]
            == Phonetics.ToRomaji(a.kataToHira, a.kakasi, ReadingOf(Keep(Content, tokens)[i])).value
  {
    var kept := Keep(Content, tokens);
    assert AnalyseWith(a)(kept[i]).Ok?;
  }

  /** A sentence of punctuation alone gives six empty lists. */
  lemma SymbolsOnly(a: Analysers, tokens: seq<Morpheme>)
    requires forall i :: 0 <= i < |tokens| ==> IsSymbol(tokens[i])
    ensures SplitSentence(a, tokens) == Ok(SixLists([], [], [], [], [], []))
  {
    assert Keep(Content, tokens) == [];
  }

}
