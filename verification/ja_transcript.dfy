/** `JapaneseTranscriptProcessor` of the NLP package: the tokenizer's words are laid over the
    transcript's timed words by character count, each is looked up in the dictionary, and the
    temporary lookup fields are removed again. The tokenizer and the dictionary rows are inputs. */
module JapaneseTranscript {
  import opened Prelude
  import opened Strings
  import opened Transcript
  import Dictionary
  import Tokenizer

  // ---------------------------------------------------------------------------
  // consuming timed words by length
  // ---------------------------------------------------------------------------

  /** `len(''.join(texts))` of a word list. */
  function TextLength(words: seq<Word>): nat {
    if |words| == 0 then 0 else TextLength(words[..|words| - 1]) + |words[|words| - 1].text|
  }

  /** Whether the inner loop stops at `at` after starting at `from`: the words ran out or the
      words taken so far are at least as long as the token. */
  predicate Stops(words: seq<Word>, from: nat, at: nat, need: nat)
    requires from <= at <= |words|
  {
    at == |words| || TextLength(words[from..at]) >= need
  }

  /** The inner loop from `at` on. */
  function Take(words: seq<Word>, from: nat, at: nat, need: nat): (e: nat)
    requires from <= at <= |words|
    ensures at <= e <= |words| && Stops(words, from, e, need)
    ensures forall m :: at <= m < e ==> !Stops(words, from, m, need)
    decreases |words| - at
  {
    if Stops(words, from, at, need) then at else Take(words, from, at + 1, need)
  }

  /** Where the cursor stands after a token of length `need` that found it at `from`: the first
      position at which the loop's condition fails. */
  function Consume(words: seq<Word>, from: nat, need: nat): (e: nat)
    requires from <= |words|
    ensures from <= e <= |words| && Stops(words, from, e, need)
    ensures forall m :: from <= m < e ==> !Stops(words, from, m, need)
  {
    Take(words, from, from, need)
  }

  /** The cursor after the first `k` tokens; it starts at 0. */
  function Cursor(words: seq<Word>, tokens: seq<string>, k: nat): (c: nat)
    requires k <= |tokens|
    ensures c <= |words|
  {
    if k == 0 then 0 else Consume(words, Cursor(words, tokens, k - 1), |tokens[k - 1]|)
  }

  /** The cursor never moves back. */
  lemma CursorMonotone(words: seq<Word>, tokens: seq<string>, j: nat, k: nat)
    requires j <= k <= |tokens|
    ensures Cursor(words, tokens, j) <= Cursor(words, tokens, k)
    decreases k - j
  {
    if j < k {
      CursorMonotone(words, tokens, j, k - 1);
    }
  }

  // ---------------------------------------------------------------------------
  // _merge_timestamps
  // ---------------------------------------------------------------------------

  /** One word of the new list, before the lookup: the token's text and annotations, the
      temporary lookup fields, and the times of the timed words it took (`None` when it took
      none). */
  datatype Merged = Merged(text: string, baseForm: string, baseForm2: string, pos: string,
                           start: Option<real>, end: Option<real>, romanji: seq<string>, hiragana: seq<string>)

  /** `zip` stops at the shortest of the six lists. */
  function Zipped(l: Tokenizer.SixLists): (n: nat)
    ensures n <= |l.words| && n <= |l.lemmas| && n <= |l.lemmasKanji| && n <= |l.romaji| && n <= |l.hiragana| && n <= |l.pos|
    ensures n == |l.words| || n == |l.lemmas| || n == |l.lemmasKanji| || n == |l.romaji| || n == |l.hiragana| || n == |l.pos|
  {
    var a := if |l.words| <= |l.lemmas| then |l.words| else |l.lemmas|;
    var b := if a <= |l.lemmasKanji| then a else |l.lemmasKanji|;
    var c := if b <= |l.romaji| then b else |l.romaji|;
    var d := if c <= |l.hiragana| then c else |l.hiragana|;
    if d <= |l.pos| then d else |l.pos|
  }

  /** The `k`-th new word: the timed words between the cursors before and after it give its
      first start and last end. */
  function MergedAt(words: seq<Word>, l: Tokenizer.SixLists, k: nat): (m: Merged)
    requires k < Zipped(l)
  {
    var a := Cursor(words, l.words, k);
    var b := Cursor(words, l.words, k + 1);
    Merged(l.words[k], l.lemmas[k], l.lemmasKanji[k], l.pos[k],
           if a < b then Some(words[a].start) else None,
           if a < b then Some(words[b - 1].end) else None,
           l.romaji[k], l.hiragana[k])
  }

  /** The merged list as a whole. */
  function Merge(words: seq<Word>, l: Tokenizer.SixLists): (r: seq<Merged>)
    ensures |r| == Zipped(l)
  {
    seq(Zipped(l), k requires 0 <= k < Zipped(l) => MergedAt(words, l, k))
  }

  /** The times of the timed words one token takes: the first start and the last end, `None`
      when it takes none. */
  lemma MergedTimes(words: seq<Word>, l: Tokenizer.SixLists, k: nat)
    requires k < Zipped(l)
    ensures var a := Cursor(words, l.words, k);
            var b := Cursor(words, l.words, k + 1);
            a <= b == Consume(words, a, |l.words[k]|)
            && (MergedAt(words, l, k).start.None? <==> a == b)
            && (MergedAt(words, l, k).start.None? <==> MergedAt(words, l, k).end.None?)
            && (a < b ==> MergedAt(words, l, k).start == Some(words[a].start) && MergedAt(words, l, k).end == Some(words[b - 1].end))
  {
  }

  /** A token's entry, given the cursors around it and the times the inner loop found. */
  lemma MergedAtFrom(words: seq<Word>, l: Tokenizer.SixLists, k: nat, from: nat, pos: nat, start: Option<real>, end: Option<real>)
    requires k < Zipped(l) && from == Cursor(words, l.words, k) && pos == Cursor(words, l.words, k + 1)
    requires start == (if from < pos then Some(words[from].start) else None)
    requires end == (if from < pos then Some(words[pos - 1].end) else None)
    ensures MergedAt(words, l, k) == Merged(l.words[k], l.lemmas[k], l.lemmasKanji[k], l.pos[k], start, end, l.romaji[k], l.hiragana[k])
  {
  }

  lemma TextLengthSnoc(words: seq<Word>, from: nat, pos: nat)
    requires from <= pos < |words|
    ensures TextLength(words[from..pos + 1]) == TextLength(words[from..pos]) + |words[pos].text|
  {
    assert words[from..pos + 1][..pos - from] == words[from..pos];
  }

  /** The inner loop of `_merge_timestamps`: timed words are taken from `from` on while some are
      left and their texts together are shorter than the token. */
  method TakeWords(words: seq<Word>, from: nat, need: nat) returns (pos: nat, start: Option<real>, end: Option<real>)
    requires from <= |words|
    ensures pos == Consume(words, from, need)
    ensures start == (if from < pos then Some(words[from].start) else None)
    ensures end == (if from < pos then Some(words[pos - 1].end) else None)
  {
    pos := from;
    var taken := 0;
    start := None;
    end := None;
    while pos < |words| && taken < need
      invariant from <= pos <= |words|
      invariant taken == TextLength(words[from..pos])
      invariant Take(words, from, pos, need) == Consume(words, from, need)
      invariant start == (if from < pos then Some(words[from].start) else None)
      invariant end == (if from < pos then Some(words[pos - 1].end) else None)
      decreases |words| - pos
    {
      TextLengthSnoc(words, from, pos);
      taken := taken + |words[pos].text|;
      if start.None? {
        start := Some(words[pos].start);
      }
      end := Some(words[pos].end);
      pos := pos + 1;
    }
  }

  /** `_merge_timestamps(words, splitter)` for the six lists the splitter returned: one new word
      per zipped token, with the cursor carried from token to token. */
  method MergeTimestamps(words: seq<Word>, l: Tokenizer.SixLists) returns (merged: seq<Merged>)
    ensures merged == Merge(words, l)
  {
    var n := Zipped(l);
    merged := [];
    var pos := 0;
    var k := 0;
    while k < n
      invariant 0 <= k <= n
      invariant |merged| == k
      invariant pos == Cursor(words, l.words, k)
      invariant forall i :: 0 <= i < k ==> merged[i] == MergedAt(words, l, i)
    {
      var start, end;
      var from := pos;
      pos, start, end := TakeWords(words, pos, |l.words[k]|);
      MergedAtFrom(words, l, k, from, pos, start, end);
      merged := merged + [Merged(l.words[k], l.lemmas[k], l.lemmasKanji[k], l.pos[k], start, end, l.romaji[k], l.hiragana[k])];
      k := k + 1;
    }
  }

  /** Only lengths are compared: timed words of the same lengths move the cursor alike, whatever
      their characters. */
  lemma {:induction false} LengthsOnly(a: seq<Word>, b: seq<Word>, from: nat, at: nat, need: nat)
    requires |a| == |b| && forall i :: 0 <= i < |a| ==> |a[i].text| == |b[i].text|
    requires from <= at <= |a|
    ensures Take(a, from, at, need) == Take(b, from, at, need)
    decreases |a| - at
  {
    SameLength(a[from..at], b[from..at]);
    if at < |a| && TextLength(a[from..at]) < need {
      LengthsOnly(a, b, from, at + 1, need);
    }
  }

  lemma {:induction false} SameLength(a: seq<Word>, b: seq<Word>)
    requires |a| == |b| && forall i :: 0 <= i < |a| ==> |a[i].text| == |b[i].text|
    ensures TextLength(a) == TextLength(b)
    decreases |a|
  {
    if |a| != 0 {
      SameLength(a[..|a| - 1], b[..|b| - 1]);
    }
  }

  /** When every token has the length of the timed word at its position, each token takes
      exactly that word and its times. */
  lemma {:induction false} OneToOne(words: seq<Word>, tokens: seq<string>, k: nat)
    requires |tokens| <= |words| && k <= |tokens|
    requires forall i :: 0 <= i < |tokens| ==> |tokens[i]| == |words[i].text| > 0
    ensures Cursor(words, tokens, k) == k
  {
    if k > 0 {
      OneToOne(words, tokens, k - 1);
      var c := k - 1;
      assert words[c..c] == [];
      assert words[c..c + 1][..0] == [];
      assert TextLength(words[c..c + 1]) == |words[c].text|;
      assert !Stops(words, c, c, |tokens[c]|);
      assert Stops(words, c, c + 1, |tokens[c]|);
      assert Cursor(words, tokens, k) == Consume(words, c, |tokens[c]|);
    }
  }

  /** So such a token carries its own word's start and end. */
  lemma OneToOneTimes(words: seq<Word>, l: Tokenizer.SixLists, k: nat)
    requires |l.words| <= |words| && k < Zipped(l)
    requires forall i :: 0 <= i < |l.words| ==> |l.words[i]| == |words[i].text| > 0
    ensures MergedAt(words, l, k).start == Some(words[k].start)
    ensures MergedAt(words, l, k).end == Some(words[k].end)
  {
    OneToOne(words, l.words, k);
    OneToOne(words, l.words, k + 1);
  }

  /** Once the timed words run out, later tokens get no times. */
  lemma Exhausted(words: seq<Word>, l: Tokenizer.SixLists, k: nat)
    requires k < Zipped(l) && Cursor(words, l.words, k) == |words|
    ensures MergedAt(words, l, k).start.None? && MergedAt(words, l, k).end.None?
  {
  }

  // ---------------------------------------------------------------------------
  // the lookup and the temporary fields
  // ---------------------------------------------------------------------------

  /** The string fields the dictionary lookup can see on a new word, under the names the
      processor gives them: the lemmas and the tag carry a leading underscore. */
  function AsWrittenView(m: Merged): Dictionary.WordFields {
    map["text" := m.text, "_base_form" := m.baseForm, "_base_form2" := m.baseForm2, "_pos" := m.pos]
  }

  /** The same fields under the names the lookup reads. */
  function IntendedView(m: Merged): Dictionary.WordFields {
    map["text" := m.text, "base_form" := m.baseForm, "base_form2" := m.baseForm2, "pos" := m.pos]
  }

  /** As written, the lookup sees neither lemma nor tag: only its last step, by surface text
      against the kana column, can find an entry. */
  lemma LookupSeesOnlyText(rows: seq<Dictionary.Record>, m: Merged)
    ensures Dictionary.SearchJapaneseWord(rows, AsWrittenView(m))
            == if m.text != "" then Dictionary.FirstHit(rows, 4, AsWrittenView(m)) else None
  {
    var v := AsWrittenView(m);
    assert "base_form" !in v && "base_form2" !in v && "pos" !in v;
    Dictionary.OnlyTextStepForBareWord(rows, v);
  }

  /** A verb written in kanji, whose reading is stored as the entry's kana. */
  function TaberuRow(): Dictionary.Record {
    Dictionary.Record("id-taberu", "ja", Some("食べる"), Some("たべる"), None, Some("食べる"), Some("verb"), "", None,
                      None, None, None)
  }

  /** The token 食べ of 食べた, lemma 食べる, tagged as a verb. */
  function TabeToken(): Merged {
    Merged("食べ", "食べる", "食べる", "verb", None, None, ["ta", "be"], ["た", "べ"])
  }

  /** As written the entry is missed; with the lookup's own field names its first step finds it. */
  lemma UnderscoreMissesEntry()
    ensures Dictionary.SearchJapaneseWord([TaberuRow()], AsWrittenView(TabeToken())).None?
    ensures Dictionary.SearchJapaneseWord([TaberuRow()], IntendedView(TabeToken())) == Some(TaberuRow())
  {
    LookupSeesOnlyText([TaberuRow()], TabeToken());
    assert !Dictionary.StepHit(4, AsWrittenView(TabeToken()), TaberuRow());
    assert Dictionary.StepHit(1, IntendedView(TabeToken()), TaberuRow());
  }

  /** With the intended names the first two steps run for every token with a lemma and a tag,
      so an entry with that lemma and tag is found ahead of any kana match. */
  lemma IntendedLemmaFirst(rows: seq<Dictionary.Record>, m: Merged, i: int)
    requires m.baseForm != "" && m.pos != "" && 0 <= i < |rows|
    requires rows[i].lang == "ja" && rows[i].lemmaForm == Some(m.baseForm) && rows[i].pos == Some(m.pos)
    ensures Dictionary.SearchJapaneseWord(rows, IntendedView(m)) == Dictionary.FirstHit(rows, 1, IntendedView(m))
    ensures Dictionary.SearchJapaneseWord(rows, IntendedView(m)).Some?
  {
    assert Dictionary.StepHit(1, IntendedView(m), rows[i]);
    assert Dictionary.Answers(rows, 1, IntendedView(m));
  }

  /** A value of a word dictionary, by the kind of field. */
  datatype FieldValue = Text(s: string) | Time(t: Option<real>) | Syllables(parts: seq<string>)

  /** `_cleanup_temp_fields(word)`: every key starting with an underscore is deleted. */
  function CleanupTempFields<V>(fields: map<string, V>): (r: map<string, V>)
    ensures forall k :: k in r <==> k in fields && !StartsWith(k, "_")
    ensures forall k :: k in r ==> r[k] == fields[k]
  {
    map k | k in fields && !StartsWith(k, "_") :: fields[k]
  }

  /** Cleaning twice is cleaning once. */
  lemma CleanupIdempotent<V>(fields: map<string, V>)
    ensures CleanupTempFields(CleanupTempFields(fields)) == CleanupTempFields(fields)
  {
  }

  /** Cleaning keeps a field that was not temporary, and adding a temporary field changes
      nothing that cleaning keeps. */
  lemma CleanupIgnoresTemporary<V>(fields: map<string, V>, key: string, v: V)
    requires StartsWith(key, "_")
    ensures CleanupTempFields(fields[key := v]) == CleanupTempFields(fields)
  {
  }

  /** A word of the output: the token's text, its times, its syllables and the entry's id. */
  datatype OutWord = OutWord(text: string, start: Option<real>, end: Option<real>, romanji: seq<string>,
                             hiragana: seq<string>, id: Option<string>)

  /** The new word as the processor builds it, with the id added when the lookup succeeds. */
  function MergedFields(m: Merged, id: Option<string>): map<string, FieldValue> {
    var base := map["text" := Text(m.text), "_base_form" := Text(m.baseForm), "_base_form2" := Text(m.baseForm2),
                    "_pos" := Text(m.pos), "start" := Time(m.start), "end" := Time(m.end),
                    "romanji" := Syllables(m.romanji), "hiragana" := Syllables(m.hiragana)];
    if id.Some? then base["id" := Text(id.value)] else base
  }

  /** The fields of an output word. */
  function OutFields(o: OutWord): map<string, FieldValue> {
    var base := map["text" := Text(o.text), "start" := Time(o.start), "end" := Time(o.end),
                    "romanji" := Syllables(o.romanji), "hiragana" := Syllables(o.hiragana)];
    if o.id.Some? then base["id" := Text(o.id.value)] else base
  }

  /** The lookup for one new word: the id of the entry found, if any. */
  function EntryId(rows: seq<Dictionary.Record>, view: Merged -> Dictionary.WordFields, m: Merged): (r: Option<string>)
    ensures r.Some? <==> Dictionary.SearchJapaneseWord(rows, view(m)).Some?
    ensures r.Some? ==> exists i :: 0 <= i < |rows| && rows[i].id == r.value && rows[i].lang == "ja"
  {
    match Dictionary.SearchJapaneseWord(rows, view(m))
    case None => None
    case Some(rec) =>
      var i :| 0 <= i < |rows| && rows[i] == rec;
      Some(rec.id)
  }

  /** One new word after the lookup and the clean-up. */
  function Annotate(rows: seq<Dictionary.Record>, view: Merged -> Dictionary.WordFields, m: Merged): (o: OutWord)
    ensures o.text == m.text && o.start == m.start && o.end == m.end
    ensures o.romanji == m.romanji && o.hiragana == m.hiragana
    ensures o.id == EntryId(rows, view, m)
  {
    OutWord(m.text, m.start, m.end, m.romanji, m.hiragana, EntryId(rows, view, m))
  }

  /** The output word is exactly what clean-up leaves of the word the processor built: the three
      underscore fields go, and nothing else does. */
  lemma AnnotateIsCleanup(rows: seq<Dictionary.Record>, view: Merged -> Dictionary.WordFields, m: Merged)
    ensures OutFields(Annotate(rows, view, m)) == CleanupTempFields(MergedFields(m, EntryId(rows, view, m)))
  {
    var id := EntryId(rows, view, m);
    var out := OutFields(Annotate(rows, view, m));
    assert MergedFields(m, id) == out["_base_form" := Text(m.baseForm)]["_base_form2" := Text(m.baseForm2)]["_pos" := Text(m.pos)];
    UnderscoreKeys();
    CleanupIgnoresTemporary(out["_base_form" := Text(m.baseForm)]["_base_form2" := Text(m.baseForm2)], "_pos", Text(m.pos));
    CleanupIgnoresTemporary(out["_base_form" := Text(m.baseForm)], "_base_form2", Text(m.baseForm2));
    CleanupIgnoresTemporary(out, "_base_form", Text(m.baseForm));
    OutKeysKept(Annotate(rows, view, m));
  }

  lemma UnderscoreKeys()
    ensures StartsWith("_base_form", "_") && StartsWith("_base_form2", "_") && StartsWith("_pos", "_")
  {
  }

  /** No field of an output word is temporary. */
  lemma OutKeysKept(o: OutWord)
    ensures CleanupTempFields(OutFields(o)) == OutFields(o)
  {
    forall k | k in OutFields(o)
      ensures !StartsWith(k, "_")
    {
      assert k[0] != '_';
    }
  }

  // ---------------------------------------------------------------------------
  // preprocess_transcript
  // ---------------------------------------------------------------------------

  /** A transcript segment as it comes in: an optional text and an optional timed word list. */
  datatype InSegment = InSegment(text: Option<string>, words: Option<seq<Word>>)

  /** A segment as it goes out. */
  datatype OutSegment = OutSegment(text: Option<string>, words: Option<seq<OutWord>>)

  /** One segment: without words it is left as it is; otherwise its text keeps its value (or
      becomes the concatenated word texts) and its words are replaced by the annotated ones. The
      splitter's exception propagates. */
  function ProcessSegment(rows: seq<Dictionary.Record>, split: string -> Result<Tokenizer.SixLists>,
                          view: Merged -> Dictionary.WordFields, s: InSegment): (r: Result<OutSegment>)
    ensures s.words.None? ==> r == Ok(OutSegment(s.text, None))
    ensures s.words.Some? ==> (r.Err? <==> split(Concat(Texts(s.words.value))).Err?)
    ensures s.words.Some? && r.Ok? ==>
              var merged := Merge(s.words.value, split(Concat(Texts(s.words.value))).value);
              r.value.text == Some(s.text.GetOr(Concat(Texts(s.words.value))))
              && r.value.words.Some? && |r.value.words.value| == |merged|
              && forall k :: 0 <= k < |merged| ==> r.value.words.value[k] == Annotate(rows, view, merged[k])
  {
    match s.words
    case None => Ok(OutSegment(s.text, None))
    case Some(ws) =>
      var sentence := Concat(Texts(ws));
      match split(sentence)
      case Err(e) => Err(e)
      case Ok(l) =>
        var merged := Merge(ws, l);
        Ok(OutSegment(Some(s.text.GetOr(sentence)),
                      Some(seq(|merged|, k requires 0 <= k < |merged| => Annotate(rows, view, merged[k])))))
  }

  /** The transcript, segment by segment; the first exception ends the call. */
  function PreprocessWith(rows: seq<Dictionary.Record>, split: string -> Result<Tokenizer.SixLists>,
                          view: Merged -> Dictionary.WordFields, segments: seq<InSegment>): (r: Result<seq<OutSegment>>)
    ensures r.Ok? <==> forall i :: 0 <= i < |segments| ==> ProcessSegment(rows, split, view, segments[i]).Ok?
    ensures r.Ok? ==> |r.value| == |segments|
                      && forall i :: 0 <= i < |segments| ==> Ok(r.value[i]) == ProcessSegment(rows, split, view, segments[i])
    decreases |segments|
  {
    if |segments| == 0 then Ok([])
    else
      assert forall i :: 1 <= i < |segments| ==> segments[i] == segments[1..][i - 1];
      match ProcessSegment(rows, split, view, segments[0])
      case Err(e) => Err(e)
      case Ok(s) =>
        match PreprocessWith(rows, split, view, segments[1..])
        case Err(e) => Err(e)
        case Ok(rest) => Ok([s] + rest)
  }

  /** `preprocess_transcript` as written: the lookup is handed the underscore-named fields. */
  function Preprocess(rows: seq<Dictionary.Record>, split: string -> Result<Tokenizer.SixLists>,
                      segments: seq<InSegment>): Result<seq<OutSegment>>
  {
    PreprocessWith(rows, split, AsWrittenView, segments)
  }

  /** The evidently intended processor: the lookup reads the lemmas and the tag. */
  function PreprocessIntended(rows: seq<Dictionary.Record>, split: string -> Result<Tokenizer.SixLists>,
                              segments: seq<InSegment>): Result<seq<OutSegment>>
  {
    PreprocessWith(rows, split, IntendedView, segments)
  }

  /** As written, an output word carries an id only when some Japanese entry's kana is its text. */
  lemma PreprocessIdsByText(rows: seq<Dictionary.Record>, split: string -> Result<Tokenizer.SixLists>,
                            segments: seq<InSegment>, i: int, k: int)
    requires Preprocess(rows, split, segments).Ok? && 0 <= i < |segments|
    requires var s := Preprocess(rows, split, segments).value[i];
             s.words.Some? && 0 <= k < |s.words.value|
    ensures var o := Preprocess(rows, split, segments).value[i].words.value[k];
            o.id.Some? ==> exists j :: 0 <= j < |rows| && rows[j].lang == "ja" && rows[j].kana == Some(o.text)
                                       && rows[j].id == o.id.value
  {
    var s := segments[i];
    var o := Preprocess(rows, split, segments).value[i].words.value[k];
    var merged := Merge(s.words.value, split(Concat(Texts(s.words.value))).value);
    assert o == Annotate(rows, AsWrittenView, merged[k]);
    AnnotateIdByText(rows, merged[k]);
  }

  /** As written, an annotated word carries an id only when some Japanese entry's kana is its text. */
  lemma AnnotateIdByText(rows: seq<Dictionary.Record>, m: Merged)
    ensures var o := Annotate(rows, AsWrittenView, m);
            o.id.Some? ==> exists j :: 0 <= j < |rows| && rows[j].lang == "ja" && rows[j].kana == Some(o.text)
                                       && rows[j].id == o.id.value
  {
    var o := Annotate(rows, AsWrittenView, m);
    LookupSeesOnlyText(rows, m);
    if o.id.Some? {
      var rec := Dictionary.FirstHit(rows, 4, AsWrittenView(m)).value;
      var j :| 0 <= j < |rows| && rows[j] == rec;
    }
  }
}
