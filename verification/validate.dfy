/** The validation models of a finished transcript: a transcript has a video id and at least one
    sentence, a sentence has an id, start and end times, a text, a translation and at least one
    word, and a word has an id, a text, a translation, a part of speech and an optional case.
    Every model refuses keys it does not declare. Input is parsed JSON; validation either builds
    the typed record or fails. */
module Validate {
  import opened Prelude
  import opened Strings
  import TranscriptIds

  /** Parsed JSON. */
  datatype Json =
    | JNull
    | JBool(b: bool)
    | JInt(i: int)
    | JFloat(x: real)
    | JString(s: string)
    | JList(items: seq<Json>)
    | JObject(fields: map<string, Json>)

  // ---------------------------------------------------------------------------
  // the two enumerations
  // ---------------------------------------------------------------------------

  /** `WordType`. */
  datatype WordType = Verb | Noun | Pronoun | Adjective | Adverb | Preposition | Conjunction | Article | Numeral | Particle

  /** The value a part of speech is written as. */
  function WordTypeName(t: WordType): string {
    match t
    case Verb => "verb"
    case Noun => "noun"
    case Pronoun => "pronoun"
    case Adjective => "adjective"
    case Adverb => "adverb"
    case Preposition => "preposition"
    case Conjunction => "conjunction"
    case Article => "article"
    case Numeral => "numeral"
    case Particle => "particle"
  }

  /** The part of speech a string names, if any. */
  function WordTypeOf(s: string): (r: Option<WordType>)
    ensures r.Some? ==> WordTypeName(r.value) == s
  {
    if s == "verb" then Some(Verb)
    else if s == "noun" then Some(Noun)
    else if s == "pronoun" then Some(Pronoun)
    else if s == "adjective" then Some(Adjective)
    else if s == "adverb" then Some(Adverb)
    else if s == "preposition" then Some(Preposition)
    else if s == "conjunction" then Some(Conjunction)
    else if s == "article" then Some(Article)
    else if s == "numeral" then Some(Numeral)
    else if s == "particle" then Some(Particle)
    else None
  }

  /** The ten names are exactly the strings a part of speech is read from. */
  lemma WordTypeNames(t: WordType, s: string)
    ensures WordTypeOf(s) == Some(t) <==> s == WordTypeName(t)
  {
  }

  /** `CaseType`. */
  datatype Case = Nominativ | Akkusativ | Dativ | Genitiv

  function CaseName(c: Case): string {
    match c
    case Nominativ => "nominativ"
    case Akkusativ => "akkusativ"
    case Dativ => "dativ"
    case Genitiv => "genitiv"
  }

  /** The case a string names, if any. */
  function CaseOf(s: string): (r: Option<Case>)
    ensures r.Some? ==> CaseName(r.value) == s
  {
    if s == "nominativ" then Some(Nominativ)
    else if s == "akkusativ" then Some(Akkusativ)
    else if s == "dativ" then Some(Dativ)
    else if s == "genitiv" then Some(Genitiv)
    else None
  }

  /** The four names are exactly the strings a case is read from. */
  lemma CaseNames(c: Case, s: string)
    ensures CaseOf(s) == Some(c) <==> s == CaseName(c)
  {
  }

  // ---------------------------------------------------------------------------
  // field values
  // ---------------------------------------------------------------------------

  /** A string field: only a JSON string is taken. */
  function StrOf(v: Json): Option<string> {
    if v.JString? then Some(v.s) else None
  }

  /** A string field of at least one character. */
  function TextOf(v: Json): (r: Option<string>)
    ensures r.Some? <==> v.JString? && |v.s| >= 1
    ensures r.Some? ==> r.value == v.s
  {
    if v.JString? && |v.s| >= 1 then Some(v.s) else None
  }

  /** An integer field at or above zero: an integer, a boolean (as 0 or 1), or a float without a
      fractional part. */
  function CountOf(v: Json): (r: Option<int>)
    ensures r.Some? ==> r.value >= 0
    ensures v.JInt? ==> (r.Some? <==> v.i >= 0) && (r.Some? ==> r.value == v.i)
    ensures v.JString? || v.JNull? || v.JList? || v.JObject? ==> r.None?
  {
    var n := match v
      case JInt(i) => Some(i)
      case JBool(b) => Some(if b then 1 else 0)
      case JFloat(x) => if x.Floor as real == x then Some(x.Floor) else None
      case _ => None;
    if n.Some? && n.value >= 0 then n else None
  }

  /** An id field of `n` groups of digits joined by `-`. */
  function IdOf(v: Json, n: nat): (r: Option<string>)
    ensures r.Some? <==> v.JString? && TranscriptIds.IdPattern(v.s, n)
    ensures r.Some? ==> r.value == v.s
  {
    if v.JString? && TranscriptIds.IdPattern(v.s, n) then Some(v.s) else None
  }

  /** Every element converted, or `None` when one fails. */
  function AllOf<T>(f: Json -> Option<T>, items: seq<Json>): (r: Option<seq<T>>)
    ensures r.Some? <==> forall k :: 0 <= k < |items| ==> f(items[k]).Some?
    ensures r.Some? ==> |r.value| == |items| && forall k :: 0 <= k < |items| ==> f(items[k]) == Some(r.value[k])
    decreases |items|
  {
    if |items| == 0 then Some([])
    else
      assert forall k :: 1 <= k < |items| ==> items[k] == items[1..][k - 1];
      match (f(items[0]), AllOf(f, items[1..]))
      case (Some(x), Some(rest)) => Some([x] + rest)
      case _ => None
  }

  /** A list field with at least one element, each converted. */
  function NonEmptyListOf<T>(f: Json -> Option<T>, v: Json): (r: Option<seq<T>>)
    ensures r.Some? <==> v.JList? && |v.items| >= 1 && forall k :: 0 <= k < |v.items| ==> f(v.items[k]).Some?
    ensures r.Some? ==> |r.value| == |v.items| && forall k :: 0 <= k < |v.items| ==> f(v.items[k]) == Some(r.value[k])
  {
    if v.JList? && |v.items| >= 1 then AllOf(f, v.items) else None
  }

  /** A list whose items each convert to the matching value converts to those values. */
  lemma ListRoundTrip<T>(f: Json -> Option<T>, items: seq<Json>, xs: seq<T>)
    requires |items| == |xs| >= 1 && forall k :: 0 <= k < |items| ==> f(items[k]) == Some(xs[k])
    ensures NonEmptyListOf(f, JList(items)) == Some(xs)
  {
    var r := NonEmptyListOf(f, JList(items));
    assert r.Some?;
    assert forall k :: 0 <= k < |xs| ==> Some(r.value[k]) == f(items[k]) == Some(xs[k]);
    assert r.value == xs;
  }

  /** An object holding every required key and no key outside the declared ones. */
  predicate Shaped(v: Json, required: set<string>, declared: set<string>) {
    v.JObject? && required <= v.fields.Keys && v.fields.Keys <= declared
  }

  // ---------------------------------------------------------------------------
  // the three models
  // ---------------------------------------------------------------------------

  datatype Word = Word(id: string, text: string, translation: string, wordType: WordType, wordCase: Option<Case>)

  datatype Sentence = Sentence(id: string, startTime: int, endTime: int, text: string, translation: string, words: seq<Word>)

  datatype Transcript = Transcript(videoId: string, sentences: seq<Sentence>)

  const WordRequired: set<string> := {"id", "text", "translation", "type"}
  const WordDeclared: set<string> := WordRequired + {"case"}
  const SentenceKeys: set<string> := {"id", "startTime", "endTime", "text", "translation", "words"}
  const TranscriptKeys: set<string> := {"videoId", "sentences"}

  /** What a valid word promises. */
  predicate GoodWord(w: Word) {
    TranscriptIds.IdPattern(w.id, 3) && |w.text| >= 1 && |w.translation| >= 1
  }

  /** What a valid sentence promises; nothing orders its start and end. */
  predicate GoodSentence(s: Sentence) {
    TranscriptIds.IdPattern(s.id, 2) && s.startTime >= 0 && s.endTime >= 0
    && |s.text| >= 1 && |s.translation| >= 1
    && |s.words| >= 1 && forall k :: 0 <= k < |s.words| ==> GoodWord(s.words[k])
  }

  /** What a valid transcript promises. */
  predicate GoodTranscript(t: Transcript) {
    |t.videoId| >= 1 && |t.sentences| >= 1 && forall k :: 0 <= k < |t.sentences| ==> GoodSentence(t.sentences[k])
  }

  /** The optional `case`: missing or null is no case, otherwise one of the four names. */
  function CaseField(o: map<string, Json>): Option<Option<Case>> {
    if "case" !in o || o["case"].JNull? then Some(None)
    else if o["case"].JString? && CaseOf(o["case"].s).Some? then Some(CaseOf(o["case"].s))
    else None
  }

  /** `Word` validation. */
  function ParseWord(v: Json): (r: Option<Word>)
    ensures r.Some? ==> Shaped(v, WordRequired, WordDeclared) && GoodWord(r.value)
  {
    if !Shaped(v, WordRequired, WordDeclared) then None
    else
      var o := v.fields;
      match (IdOf(o["id"], 3), TextOf(o["text"]), TextOf(o["translation"]), StrOf(o["type"]), CaseField(o))
      case (Some(id), Some(text), Some(translation), Some(t), Some(c)) =>
        if WordTypeOf(t).Some? then Some(Word(id, text, translation, WordTypeOf(t).value, c)) else None
      case _ => None
  }

  /** `Sentence` validation. */
  function ParseSentence(v: Json): (r: Option<Sentence>)
    ensures r.Some? ==> Shaped(v, SentenceKeys, SentenceKeys) && GoodSentence(r.value)
  {
    if !Shaped(v, SentenceKeys, SentenceKeys) then None
    else
      var o := v.fields;
      match (IdOf(o["id"], 2), CountOf(o["startTime"]), CountOf(o["endTime"]), TextOf(o["text"]), TextOf(o["translation"]), NonEmptyListOf(ParseWord, o["words"]))
      case (Some(id), Some(start), Some(end), Some(text), Some(translation), Some(words)) =>
        Some(Sentence(id, start, end, text, translation, words))
      case _ => None
  }

  /** `Transcript` validation. */
  function ParseTranscript(v: Json): (r: Option<Transcript>)
    ensures r.Some? ==> Shaped(v, TranscriptKeys, TranscriptKeys) && GoodTranscript(r.value)
  {
    if !Shaped(v, TranscriptKeys, TranscriptKeys) then None
    else
      var o := v.fields;
      match (TextOf(o["videoId"]), NonEmptyListOf(ParseSentence, o["sentences"]))
      case (Some(id), Some(sentences)) => Some(Transcript(id, sentences))
      case _ => None
  }

  // ---------------------------------------------------------------------------
  // writing records back as JSON
  // ---------------------------------------------------------------------------

  function WordJson(w: Word): Json {
    JObject(map["id" := JString(w.id), "text" := JString(w.text), "translation" := JString(w.translation),
                "type" := JString(WordTypeName(w.wordType)),
                "case" := if w.wordCase.Some? then JString(CaseName(w.wordCase.value)) else JNull])
  }

  function WordsJson(ws: seq<Word>): (r: seq<Json>)
    ensures |r| == |ws| && forall k :: 0 <= k < |ws| ==> r[k] == WordJson(ws[k])
  {
    seq(|ws|, k requires 0 <= k < |ws| => WordJson(ws[k]))
  }

  function SentenceJson(s: Sentence): Json {
    JObject(map["id" := JString(s.id), "startTime" := JInt(s.startTime), "endTime" := JInt(s.endTime),
                "text" := JString(s.text), "translation" := JString(s.translation),
                "words" := JList(WordsJson(s.words))])
  }

  function SentencesJson(ss: seq<Sentence>): (r: seq<Json>)
    ensures |r| == |ss| && forall k :: 0 <= k < |ss| ==> r[k] == SentenceJson(ss[k])
  {
    seq(|ss|, k requires 0 <= k < |ss| => SentenceJson(ss[k]))
  }

  function TranscriptJson(t: Transcript): Json {
    JObject(map["videoId" := JString(t.videoId),
                "sentences" := JList(SentencesJson(t.sentences))])
  }

  /** A good word written as JSON validates back to itself. */
  lemma WordRoundTrip(w: Word)
    requires GoodWord(w)
    ensures ParseWord(WordJson(w)) == Some(w)
  {
    var o := WordJson(w).fields;
    assert o.Keys == WordDeclared;
    WordTypeNames(w.wordType, WordTypeName(w.wordType));
    if w.wordCase.Some? {
      CaseNames(w.wordCase.value, CaseName(w.wordCase.value));
    }
  }

  /** Good words written as JSON validate back to themselves. */
  lemma WordsRoundTrip(ws: seq<Word>)
    requires |ws| >= 1 && forall k :: 0 <= k < |ws| ==> GoodWord(ws[k])
    ensures NonEmptyListOf(ParseWord, JList(WordsJson(ws))) == Some(ws)
  {
    var items := WordsJson(ws);
    forall k | 0 <= k < |items|
      ensures ParseWord(items[k]) == Some(ws[k])
    {
      WordRoundTrip(ws[k]);
    }
    ListRoundTrip(ParseWord, items, ws);
  }

  /** A good sentence written as JSON validates back to itself. */
  lemma SentenceRoundTrip(s: Sentence)
    requires GoodSentence(s)
    ensures ParseSentence(SentenceJson(s)) == Some(s)
  {
    var o := SentenceJson(s).fields;
    assert o.Keys == SentenceKeys;
    assert IdOf(o["id"], 2) == Some(s.id);
    assert CountOf(o["startTime"]) == Some(s.startTime) && CountOf(o["endTime"]) == Some(s.endTime);
    assert TextOf(o["text"]) == Some(s.text) && TextOf(o["translation"]) == Some(s.translation);
    WordsRoundTrip(s.words);
  }

  /** Good sentences written as JSON validate back to themselves. */
  lemma SentencesRoundTrip(ss: seq<Sentence>)
    requires |ss| >= 1 && forall k :: 0 <= k < |ss| ==> GoodSentence(ss[k])
    ensures NonEmptyListOf(ParseSentence, JList(SentencesJson(ss))) == Some(ss)
  {
    var items := SentencesJson(ss);
    forall k | 0 <= k < |items|
      ensures ParseSentence(items[k]) == Some(ss[k])
    {
      SentenceRoundTrip(ss[k]);
    }
    ListRoundTrip(ParseSentence, items, ss);
  }

  /** A good transcript written as JSON validates back to itself. */
  lemma TranscriptRoundTrip(t: Transcript)
    requires GoodTranscript(t)
    ensures ParseTranscript(TranscriptJson(t)) == Some(t)
  {
    var o := TranscriptJson(t).fields;
    assert o.Keys == TranscriptKeys;
    SentencesRoundTrip(t.sentences);
  }

  /** The ids the upload scripts number sentences and words with pass the id checks. */
  lemma GeneratedIdsValid(video: nat, sentence: nat, word: nat)
    ensures IdOf(JString(TranscriptIds.SentenceId(video, sentence)), 2).Some?
    ensures IdOf(JString(TranscriptIds.WordId(TranscriptIds.SentenceId(video, sentence), word)), 3).Some?
  {
    TranscriptIds.WordIdPattern(TranscriptIds.SentenceId(video, sentence), word);
  }
}
