/** `GermanTranscriptProcessor` of the NLP package: every word of a segment is looked up in the
    dictionary by its lemma, and the id of the entry chosen is attached to it. Words are field
    dictionaries; the dictionary's rows are an input. */
module GermanTranscript {
  import opened Prelude
  import opened Strings
  import Dictionary

  type WordFields = Dictionary.WordFields

  /** The characters the cleaning keeps: ASCII letters, the umlauts in both cases, ß and the
      space. */
  predicate GermanChar(c: char) {
    'a' <= c <= 'z' || 'A' <= c <= 'Z' || c in {'ä', 'ö', 'ü', 'Ä', 'Ö', 'Ü', 'ß', ' '}
  }

  /** What a cleaned text consists of: lower-case letters, lower-case umlauts, ß and spaces. */
  predicate CleanChar(c: char) {
    'a' <= c <= 'z' || c in {'ä', 'ö', 'ü', 'ß', ' '}
  }

  /** `re.sub(r'[^a-zA-ZäöüÄÖÜß ]', '', text).lower()`. */
  function CleanText(text: string): (r: string)
    ensures |r| == |Filter(GermanChar, text)|
    ensures forall i :: 0 <= i < |r| ==> CleanChar(r[i])
    ensures forall i :: 0 <= i < |r| ==> r[i] == LowerChar(Filter(GermanChar, text)[i])
  {
    var kept := Filter(GermanChar, text);
    assert forall i :: 0 <= i < |kept| ==> GermanChar(kept[i]);
    Lower(kept)
  }

  /** A text that is already clean comes back unchanged, so cleaning is idempotent. */
  lemma CleanTextIdempotent(text: string)
    ensures CleanText(CleanText(text)) == CleanText(text)
  {
    var c := CleanText(text);
    FilterKeepsAll(c);
    assert forall i :: 0 <= i < |c| ==> LowerChar(c[i]) == c[i];
  }

  lemma {:induction false} FilterKeepsAll(s: string)
    requires forall i :: 0 <= i < |s| ==> CleanChar(s[i])
    ensures Filter(GermanChar, s) == s
    decreases |s|
  {
    if |s| != 0 {
      assert forall i :: 0 <= i < |s[1..]| ==> s[1..][i] == s[i + 1];
      FilterKeepsAll(s[1..]);
    }
  }

  function Get(word: WordFields, key: string): Option<string> {
    Dictionary.Get(word, key)
  }

  /** `word.get('base_form') or cleaned_text`. */
  function LemmaOf(word: WordFields): (r: string)
    ensures Dictionary.Truthy(Get(word, "base_form")) ==> r == word["base_form"]
    ensures !Dictionary.Truthy(Get(word, "base_form")) ==> r == CleanText(Get(word, "text").GetOr(""))
  {
    if Dictionary.Truthy(Get(word, "base_form")) then word["base_form"] else CleanText(Get(word, "text").GetOr(""))
  }

  /** The entry chosen among the lemma's entries: the first whose tag equals the word's tag,
      else the first entry, else none. */
  function ChooseEntry(entries: seq<Dictionary.Record>, pos: Option<string>): (r: Option<Dictionary.Record>)
    ensures r.None? <==> |entries| == 0
    ensures (exists i :: 0 <= i < |entries| && entries[i].pos == pos) ==>
              exists i :: 0 <= i < |entries| && entries[i].pos == pos && r == Some(entries[i])
                          && forall j :: 0 <= j < i ==> entries[j].pos != pos
    ensures (forall i :: 0 <= i < |entries| ==> entries[i].pos != pos) && |entries| != 0 ==> r == Some(entries[0])
  {
    match First((e: Dictionary.Record) => e.pos == pos, entries)
    case Some(e) => Some(e)
    case None => if |entries| != 0 then Some(entries[0]) else None
  }

  /** One word: a non-empty lemma is lowered and looked up among the German entries, and the
      chosen entry's id is attached; nothing else about the word changes. */
  function ProcessWord(rows: seq<Dictionary.Record>, word: WordFields): (r: WordFields)
    ensures forall k :: k != "id" ==> (k in r <==> k in word) && (k in r ==> r[k] == word[k])
    ensures LemmaOf(word) == "" ==> r == word
    ensures "id" in r && ("id" !in word || r["id"] != word["id"]) ==>
              exists i :: 0 <= i < |rows| && rows[i].id == r["id"] && rows[i].lang == "de"
                          && rows[i].lemmaForm == Some(Lower(LemmaOf(word)))
  {
    var lemmaForm := LemmaOf(word);
    if lemmaForm == "" then word
    else
      var entries := Dictionary.SearchByLemma(rows, Lower(lemmaForm), Some("de"));
      match ChooseEntry(entries, Get(word, "pos"))
      case None => word
      case Some(e) =>
        EntryOfLemma(rows, Lower(lemmaForm), e);
        word["id" := e.id]
  }

  /** An entry the lemma lookup returns is a German row with that lemma. */
  lemma EntryOfLemma(rows: seq<Dictionary.Record>, lemmaForm: string, e: Dictionary.Record)
    requires e in Dictionary.SearchByLemma(rows, lemmaForm, Some("de"))
    ensures exists i :: 0 <= i < |rows| && rows[i].id == e.id && rows[i].lang == "de" && rows[i].lemmaForm == Some(lemmaForm)
  {
    var i :| 0 <= i < |rows| && rows[i] == e;
  }

  /** The id a word ends up with depends only on its text, lemma and tag, which the lookup
      leaves alone: processing a word twice gives what processing it once gave. */
  lemma ProcessWordTwice(rows: seq<Dictionary.Record>, word: WordFields)
    ensures ProcessWord(rows, ProcessWord(rows, word)) == ProcessWord(rows, word)
  {
    var once := ProcessWord(rows, word);
    assert Get(once, "base_form") == Get(word, "base_form");
    assert Get(once, "text") == Get(word, "text");
    assert Get(once, "pos") == Get(word, "pos");
    var lemmaForm := LemmaOf(word);
    assert LemmaOf(once) == lemmaForm;
    if lemmaForm != "" {
      var entries := Dictionary.SearchByLemma(rows, Lower(lemmaForm), Some("de"));
      var chosen := ChooseEntry(entries, Get(word, "pos"));
      if chosen.Some? {
        assert once == word["id" := chosen.value.id];
        assert once["id" := chosen.value.id] == once;
      }
    }
  }

  /** A word whose tag matches one of its lemma's entries gets the first such entry, even when an
      entry of another tag comes first. */
  lemma PosPreferred(rows: seq<Dictionary.Record>, word: WordFields, i: int)
    requires LemmaOf(word) != ""
    requires var entries := Dictionary.SearchByLemma(rows, Lower(LemmaOf(word)), Some("de"));
             0 <= i < |entries| && entries[i].pos == Get(word, "pos")
             && forall j :: 0 <= j < i ==> entries[j].pos != Get(word, "pos")
    ensures ProcessWord(rows, word) == word["id" := Dictionary.SearchByLemma(rows, Lower(LemmaOf(word)), Some("de"))[i].id]
  {
    ChosenFirst(Dictionary.SearchByLemma(rows, Lower(LemmaOf(word)), Some("de")), Get(word, "pos"), i);
  }

  lemma ChosenFirst(entries: seq<Dictionary.Record>, pos: Option<string>, i: int)
    requires 0 <= i < |entries| && entries[i].pos == pos && forall j :: 0 <= j < i ==> entries[j].pos != pos
    ensures ChooseEntry(entries, pos) == Some(entries[i])
  {
    var k :| 0 <= k < |entries| && entries[k].pos == pos && ChooseEntry(entries, pos) == Some(entries[k])
             && forall j :: 0 <= j < k ==> entries[j].pos != pos;
    assert k == i;
  }

  /** A transcript segment: its word list, if it has one. */
  datatype Segment = Segment(words: Option<seq<WordFields>>)

  /** `preprocess_transcript`: every word of every segment that has words is processed; segments
      without words are left alone. */
  function Preprocess(rows: seq<Dictionary.Record>, segments: seq<Segment>): (r: seq<Segment>)
    ensures |r| == |segments|
    ensures forall i :: 0 <= i < |segments| ==>
              (segments[i].words.None? <==> r[i].words.None?)
              && (segments[i].words.Some? ==>
                    |r[i].words.value| == |segments[i].words.value|
                    && forall k :: 0 <= k < |segments[i].words.value| ==>
                         r[i].words.value[k] == ProcessWord(rows, segments[i].words.value[k]))
  {
    seq(|segments|, i requires 0 <= i < |segments| =>
      match segments[i].words
      case None => segments[i]
      case Some(ws) => Segment(Some(seq(|ws|, k requires 0 <= k < |ws| => ProcessWord(rows, ws[k])))))
  }

  /** Running the processor over its own output changes nothing. */
  lemma PreprocessIdempotent(rows: seq<Dictionary.Record>, segments: seq<Segment>)
    ensures Preprocess(rows, Preprocess(rows, segments)) == Preprocess(rows, segments)
  {
    var once := Preprocess(rows, segments);
    forall i | 0 <= i < |segments| && segments[i].words.Some?
      ensures Preprocess(rows, once)[i] == once[i]
    {
      forall k | 0 <= k < |segments[i].words.value|
        ensures ProcessWord(rows, once[i].words.value[k]) == once[i].words.value[k]
      {
        ProcessWordTwice(rows, segments[i].words.value[k]);
      }
      assert Preprocess(rows, once)[i].words.value == once[i].words.value;
    }
  }
}
