/** The standalone German builder script build_de_dictionary.py: one `dictionary` row per German
    kaikki.org entry, upserted by id. It shares the gender and gloss extraction with the
    package's German parser but has its own part-of-speech table, which never raises, stores the
    meanings as one string, and keeps the first audio URLs. */
module BuildGermanDictionary {
  import opened Prelude
  import opened Strings
  import opened Dictionary
  import opened Wiktionary

  /** `POS_MAP.get(raw)`. */
  function DePosMap(raw: string): Option<string>
  {
    if raw == "noun" then Some("noun")
    else if raw == "verb" then Some("verb")
    else if raw == "adjective" then Some("adjective")
    else if raw == "adverb" then Some("adverb")
    else if raw == "pronoun" then Some("pronoun")
    else if raw == "conjunction" then Some("conjunction")
    else if raw == "interjection" then Some("interjection")
    else if raw == "particle" then Some("particle")
    else if raw == "numeral" then Some("number")
    else if raw == "letter" then Some("letter")
    else None
  }

  predicate DeTag(tag: string) {
    tag in {"noun", "verb", "adjective", "adverb", "pronoun", "conjunction", "interjection",
            "particle", "number", "letter"}
  }

  /** The tag and remarks for one entry: the lower-cased raw value is looked up, and it becomes
      the remark exactly when the lookup fails. */
  function DePos(e: WikiEntry): (r: (string, string))
    ensures r.0 == "other" || DeTag(r.0)
    ensures r.0 == "other" <==> DePosMap(Lower(PosRaw(e))).None?
    ensures r.1 == (if r.0 == "other" then Lower(PosRaw(e)) else "")
  {
    var raw := Lower(PosRaw(e));
    var pos := DePosMap(raw).GetOr("other");
    (pos, if pos == "other" then raw else "")
  }

  /** The script's table maps "numeral" to "number"; the package's canonicalisation does not
      know that head and files it under "other", keeping the word as the remark. */
  lemma NumeralTables(e: WikiEntry)
    requires PosRaw(e) == "numeral"
    ensures DePos(e) == ("number", "")
    ensures CanonicalisePos(PosRaw(e)) == Ok(("other", "numeral"))
  {
    NumeralScript(e);
    NumeralPackage();
  }

  lemma NumeralScript(e: WikiEntry)
    requires PosRaw(e) == "numeral"
    ensures DePos(e) == ("number", "")
  {
    NumeralLower();
  }

  lemma NumeralPackage()
    ensures CanonicalisePos("numeral") == Ok(("other", "numeral"))
  {
    NumeralLower();
    NumeralPlain();
    NumeralUnknown();
    CanonicaliseWord("numeral");
  }

  lemma NumeralLower()
    ensures Lower("numeral") == "numeral"
  {
  }

  lemma NumeralPlain()
    ensures NoSpace("numeral") && All(NotParen, "numeral") && IsLower("numeral")
  {
  }

  lemma NumeralUnknown()
    ensures Mapped("numeral") == "other"
  {
  }

  /** A blank part of speech aborts the package parser but gives an ordinary "other" row here. */
  lemma BlankPosDiffers(sha1: string -> string, e: WikiEntry)
    requires PosRaw(e) == ""
    ensures GermanRow(sha1, e).Err?
    ensures DePos(e) == ("other", "")
  {
    SplitWsEmpty("");
  }

  // ---------------------------------------------------------------------------
  // sounds
  // ---------------------------------------------------------------------------

  /** The sound loop for one key: the URL is replaced while it is still falsy (missing or
      empty) by the next sound that carries the key. */
  function ScanUrl(acc: Option<string>, key: string, sounds: seq<map<string, string>>): Option<string>
    decreases |sounds|
  {
    if |sounds| == 0 then acc
    else ScanUrl(if !Truthy(acc) && key in sounds[0] then Some(sounds[0][key]) else acc, key, sounds[1..])
  }

  predicate CarriesUrl(key: string, s: map<string, string>) {
    key in s && s[key] != ""
  }

  predicate CarriesKey(key: string, s: map<string, string>) {
    key in s
  }

  /** Reference reading: the first non-empty URL under the key; failing that an empty string if
      some sound carries the key at all; failing that the starting value. */
  function FirstUrl(acc: Option<string>, key: string, sounds: seq<map<string, string>>): (r: Option<string>)
  {
    match First((s: map<string, string>) => CarriesUrl(key, s), sounds)
    case Some(s) => Some(s[key])
    case None => if First((s: map<string, string>) => CarriesKey(key, s), sounds).Some? then Some("") else acc
  }

  /** The loop finds the first sound with a non-empty URL; a sound whose URL is empty does not
      stop the search. */
  lemma {:induction false} ScanUrlIsFirst(acc: Option<string>, key: string, sounds: seq<map<string, string>>)
    requires !Truthy(acc)
    ensures ScanUrl(acc, key, sounds) == FirstUrl(acc, key, sounds)
    decreases |sounds|
  {
    if |sounds| != 0 {
      var s := sounds[0];
      var rest := sounds[1..];
      var next := if key in s then Some(s[key]) else acc;
      assert forall i :: 1 <= i < |sounds| ==> sounds[i] == rest[i - 1];
      if CarriesUrl(key, s) {
        ScanUrlDone(next, key, rest);
        FirstAt((x: map<string, string>) => CarriesUrl(key, x), sounds, 0);
      } else {
        ScanUrlIsFirst(next, key, rest);
        FirstSkip((x: map<string, string>) => CarriesUrl(key, x), sounds);
        FirstSkipOr((x: map<string, string>) => CarriesKey(key, x), sounds, key in s);
      }
    }
  }

  /** Once the URL is non-empty the loop keeps it. */
  lemma {:induction false} ScanUrlDone(acc: Option<string>, key: string, sounds: seq<map<string, string>>)
    requires Truthy(acc)
    ensures ScanUrl(acc, key, sounds) == acc
    decreases |sounds|
  {
    if |sounds| != 0 {
      ScanUrlDone(acc, key, sounds[1..]);
    }
  }

  lemma FirstSkip<T>(p: T -> bool, xs: seq<T>)
    requires |xs| != 0 && !p(xs[0])
    ensures First(p, xs) == First(p, xs[1..])
  {
  }

  lemma FirstSkipOr<T>(p: T -> bool, xs: seq<T>, head: bool)
    requires |xs| != 0 && head == p(xs[0])
    ensures First(p, xs).Some? <==> head || First(p, xs[1..]).Some?
  {
  }

  /** `ogg_url` or `mp3_url` of an entry. */
  function SoundUrl(key: string, sounds: seq<map<string, string>>): (r: Option<string>)
    ensures r.None? <==> forall i :: 0 <= i < |sounds| ==> key !in sounds[i]
    ensures Truthy(r) <==> exists i :: 0 <= i < |sounds| && CarriesUrl(key, sounds[i])
    ensures Truthy(r) ==> exists i :: 0 <= i < |sounds| && CarriesUrl(key, sounds[i]) && r.value == sounds[i][key]
                                      && forall j :: 0 <= j < i ==> !CarriesUrl(key, sounds[j])
  {
    ScanUrlIsFirst(None, key, sounds);
    ScanUrl(None, key, sounds)
  }

  /** The two URLs are chosen independently: each is the first sound carrying its own key. */
  lemma UrlsIndependent()
    ensures var sounds := [map["mp3_url" := "a.mp3"], map["ogg_url" := "b.ogg", "mp3_url" := "b.mp3"]];
            SoundUrl("ogg_url", sounds) == Some("b.ogg") && SoundUrl("mp3_url", sounds) == Some("a.mp3")
  {
    var sounds := [map["mp3_url" := "a.mp3"], map["ogg_url" := "b.ogg", "mp3_url" := "b.mp3"]];
    assert CarriesUrl("mp3_url", sounds[0]);
    assert !CarriesKey("ogg_url", sounds[0]) && CarriesUrl("ogg_url", sounds[1]);
  }

  // ---------------------------------------------------------------------------
  // rows
  // ---------------------------------------------------------------------------

  /** The glosses of every sense that has some, in order. */
  function GlossGroups(senses: seq<Sense>): (r: seq<seq<string>>)
    ensures |r| == |Keep(HasGlosses, senses)|
    ensures forall k :: 0 <= k < |r| ==> r[k] == Keep(HasGlosses, senses)[k].glosses && |r[k]| != 0
  {
    var kept := Keep(HasGlosses, senses);
    seq(|kept|, k requires 0 <= k < |kept| => kept[k].glosses)
  }

  /** `meaning_text`: the per-sense strings joined once more with "; ", or `None`. */
  function MeaningText(senses: seq<Sense>): (r: Option<string>)
    ensures r.None? <==> forall i :: 0 <= i < |senses| ==> !HasGlosses(senses[i])
  {
    var m := Meanings(senses);
    if |m| != 0 then Some(Join("; ", m)) else None
  }

  /** Joining twice with one separator is joining every gloss once: the sense boundaries are
      lost in the stored text. */
  lemma MeaningTextFlat(senses: seq<Sense>)
    ensures MeaningText(senses).Some? ==> MeaningText(senses).value == Join("; ", Flatten(GlossGroups(senses)))
  {
    var groups := GlossGroups(senses);
    var m := Meanings(senses);
    assert m == seq(|groups|, k requires 0 <= k < |groups| => Join("; ", groups[k]));
    JoinJoin("; ", groups);
  }

  /** The row the script writes for one German entry. */
  function DeRecord(sha1: string -> string, e: WikiEntry): (r: ScriptRecord)
    ensures r.lang == "de" && r.word == e.word && r.lemmaForm == e.word
    ensures r.pos.Some? && (r.pos.value == "other" || DeTag(r.pos.value))
    ensures r.id == MakeId(sha1, "de", PyStr(e.word), r.pos.value)
    ensures r.gender == Gender(e)
    ensures r.gender.None? || IsGenderLetter(r.gender.value)
    ensures r.meanings.None? <==> forall i :: 0 <= i < |e.senses| ==> !HasGlosses(e.senses[i])
    ensures r.kana.None? && r.romaji.None? && r.furigana.None? && r.level.None?
  {
    var pr := DePos(e);
    ScriptRecord(MakeId(sha1, "de", PyStr(e.word), pr.0), "de", e.word, None, None, e.word, Some(pr.0), pr.1,
                 Gender(e), MeaningText(e.senses), None, SoundUrl("ogg_url", e.sounds), SoundUrl("mp3_url", e.sounds), None)
  }

  /** The records of the German entries, in file order. */
  function DeRecords(sha1: string -> string, entries: seq<WikiEntry>): (r: seq<ScriptRecord>)
    ensures |r| == |Keep(IsGerman, entries)|
    ensures forall k :: 0 <= k < |r| ==> r[k] == DeRecord(sha1, Keep(IsGerman, entries)[k])
  {
    var german := Keep(IsGerman, entries);
    seq(|german|, k requires 0 <= k < |german| => DeRecord(sha1, german[k]))
  }

  /** The whole script: every German entry upserted in order, then committed. */
  function BuildDictionary(sha1: string -> string, table: map<string, ScriptRecord>, entries: seq<WikiEntry>): map<string, ScriptRecord>
  {
    Upsert(ScriptId, table, DeRecords(sha1, entries))
  }

  /** Running the script twice leaves the table as one run left it. */
  lemma BuildIdempotent(sha1: string -> string, table: map<string, ScriptRecord>, entries: seq<WikiEntry>)
    ensures BuildDictionary(sha1, BuildDictionary(sha1, table, entries), entries) == BuildDictionary(sha1, table, entries)
  {
    UpsertTwice(ScriptId, table, DeRecords(sha1, entries));
  }

  /** Entries in other languages leave no trace. */
  lemma OtherLanguagesIgnored(sha1: string -> string, table: map<string, ScriptRecord>, entries: seq<WikiEntry>)
    requires forall i :: 0 <= i < |entries| ==> !IsGerman(entries[i])
    ensures BuildDictionary(sha1, table, entries) == table
  {
    assert |DeRecords(sha1, entries)| == 0;
  }
}
