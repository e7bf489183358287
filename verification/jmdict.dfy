/** Rows from JMdict entries, in the two versions the repository carries: the package's
    `JapaneseJMDictParser` (mitlesen/dictionary.py) and the standalone `create_japanese_dictionary.py`.
    Both share the remark table and the tag cleaning; they differ in the part-of-speech table, in
    how meanings are stored, and in what happens to an entry with neither kanji nor kana.
    An `<entry>` is the text of each element the parsers look at, in document order; `None` stands
    for an element without text. pykakasi's romanisation of a reading is the parameter `romanize`,
    Python's `str()` of a furigana list the parameter `show`. */
module JMdict {
  import opened Prelude
  import opened Strings
  import opened Dictionary

  /** One `<entry>`: `k_ele/keb`, `r_ele/reb`, `sense/pos`, `sense/misc` and `sense/gloss`. */
  datatype XmlEntry = XmlEntry(
    kebs: seq<Option<string>>, rebs: seq<Option<string>>, posTags: seq<Option<string>>,
    miscTags: seq<Option<string>>, glosses: seq<Option<string>>)

  /** `[t.text for t in elements if t.text]`. */
  function Texts(xs: seq<Option<string>>): (r: seq<string>)
    ensures |r| <= |xs|
    ensures forall k :: 0 <= k < |r| ==> |r[k]| != 0 && Some(r[k]) in xs
    ensures forall k :: 0 <= k < |xs| && Truthy(xs[k]) ==> xs[k].value in r
    decreases |xs|
  {
    if |xs| == 0 then []
    else
      var rest := Texts(xs[1..]);
      assert forall k :: 1 <= k < |xs| ==> xs[k] == xs[1..][k - 1];
      if Truthy(xs[0]) then [xs[0].value] + rest else rest
  }

  // ---------------------------------------------------------------------------
  // normalize_pos_remarks
  // ---------------------------------------------------------------------------

  /** `POS_REMARK_MAP.get(raw)`; both files carry the same table. */
  function RemarkMap(raw: string): Option<string>
  {
    if raw == "common futsuumeishi" then Some("common noun (futsuumeishi)")
    else if raw == "phrases clauses etc." then Some("phrase or clause")
    else if raw == "quasi-adjectives keiyodoshi" then Some("quasi-adjective (keiyodoshi)")
    else if raw == "keiyoushi" then Some("i-adjective (keiyoushi)")
    else if raw == "godan with 'u' ending" then Some("godan verb, -u ending")
    else if raw == "fukushi" then Some("adverb (fukushi)")
    else if raw == "kandoushi" then Some("interjection (kandoushi)")
    else if raw == "which may take the genitive case particle 'no'" then Some("takes 'no' (genitive case)")
    else if raw == "godan with 'su' ending" then Some("godan verb, -su ending")
    else if raw == "adjectival rentaishi" then Some("prenominal adjective (rentaishi)")
    else if raw == "ichidan" then Some("ichidan verb")
    else if raw == "taking the 'to' particle" then Some("takes 'to' particle")
    else if raw == "godan with 'ku' ending" then Some("godan verb, -ku ending")
    else if raw == "godan with 'ru' ending" then Some("godan verb, -ru ending")
    else if raw == "godan - -aru special class" then Some("godan verb (special -aru class)")
    else if raw == "godan with 'mu' ending" then Some("godan verb, -mu ending")
    else if raw == "participle which takes the aux. verb suru" then Some("participle with suru")
    else if raw == "used as a suffix" then Some("used as a suffix")
    else if raw == "auxiliary" then Some("auxiliary verb")
    else if raw == "suru - special class" then Some("suru verb (special class)")
    else if raw == "shiku archaic" then Some("shiku adjective (archaic)")
    else if raw == "taru" then Some("taru adjective")
    else if raw == "godan with 'tsu' ending" then Some("godan verb, -tsu ending")
    else if raw == "suru - included" then Some("includes suru verb")
    else if raw == "godan - iku/yuku special class" then Some("godan verb (iku/yuku special class)")
    else if raw == "used as a prefix" then Some("used as a prefix")
    else if raw == "godan with 'bu' ending" then Some("godan verb, -bu ending")
    else if raw == "ichidan - zuru alternative form of -jiru verbs" then Some("ichidan zuru verb (alt. of -jiru)")
    else if raw == "keiyoushi - yoi/ii class" then Some("i-adjective (yoi/ii class)")
    else if raw == "nidan lower class with 'mu' ending archaic" then Some("nidan verb (lower), -mu ending (archaic)")
    else if raw == "su - precursor to the modern suru" then Some("old form of suru")
    else if raw == "ichidan - kureru special class" then Some("ichidan kureru verb (special class)")
    else if raw == "godan with 'ru' ending irregular verb" then Some("godan verb, -ru ending (irregular)")
    else if raw == "godan with 'nu' ending" then Some("godan verb, -nu ending")
    else if raw == "ku archaic" then Some("ku adjective (archaic)")
    else if raw == "form of na-adjective" then Some("form of na-adjective")
    else if raw == "intransitive" then Some("intransitive verb")
    else if raw == "transitive" then Some("transitive verb")
    else if raw == "copula" then Some("copula")
    else if raw == "prefix" then Some("used as a prefix")
    else if raw == "suffix" then Some("used as a suffix")
    else if raw == "archaic/formal" then Some("archaic/formal usage")
    else None
  }

  /** The characters the cleaning deletes: `(`, `)` and `,`. */
  predicate NotPunct(c: char) {
    c != '(' && c != ')' && c != ','
  }

  predicate NoDoubleSpace(s: string) {
    forall i :: 0 <= i < |s| - 1 ==> !(s[i] == ' ' && s[i + 1] == ' ')
  }

  /** `s.replace("  ", " ")`: one left-to-right pass over non-overlapping pairs of spaces, so
      a run of three spaces still leaves two. */
  function CollapsePairs(s: string): (r: string)
    ensures |r| <= |s|
    ensures NoDoubleSpace(s) ==> r == s
    decreases |s|
  {
    if |s| >= 2 && s[0] == ' ' && s[1] == ' ' then " " + CollapsePairs(s[2..])
    else if |s| == 0 then []
    else
      assert NoDoubleSpace(s) ==> NoDoubleSpace(s[1..]) by {
        if NoDoubleSpace(s) {
          forall i | 0 <= i < |s[1..]| - 1 ensures !(s[1..][i] == ' ' && s[1..][i + 1] == ' ') {
            assert s[1..][i] == s[i + 1] && s[1..][i + 1] == s[i + 2];
          }
        }
      }
      [s[0]] + CollapsePairs(s[1..])
  }

  /** The pass keeps only characters of its input (every space it writes replaces two). */
  lemma {:induction false} CollapsePreserves(q: char -> bool, s: string)
    requires All(q, s)
    ensures All(q, CollapsePairs(s))
    decreases |s|
  {
    if |s| >= 2 && s[0] == ' ' && s[1] == ' ' {
      CollapsePreserves(q, s[2..]);
    } else if |s| != 0 {
      CollapsePreserves(q, s[1..]);
    }
  }

  /** Three spaces become two, not one. */
  lemma CollapseThree()
    ensures CollapsePairs("a   b") == "a  b"
  {
    assert "a   b"[1..] == "   b";
    assert "   b"[2..] == " b";
    assert " b"[1..] == "b";
  }

  /** The cleaning of `normalize_pos_remarks`: strip, lower, drop `(`, `)`, `,`, collapse pairs. */
  function CleanRemark(remarkRaw: string): string {
    CollapsePairs(Filter(NotPunct, Lower(Strip(remarkRaw))))
  }

  /** `cleaned if cleaned else raw` for the table's answer `cleaned`. */
  function Render(cleaned: Option<string>, raw: string): (r: string)
    ensures |r| == 0 <==> |raw| == 0 && (cleaned.None? || |cleaned.value| == 0)
  {
    if cleaned.Some? && |cleaned.value| != 0 then cleaned.value else raw
  }

  lemma CleanRemarkEmpty()
    ensures CleanRemark("") == ""
  {
    assert Strip("") == "";
  }

  /** `normalize_pos_remarks` over a remark table `table`. */
  function NormalizeWith(table: string -> Option<string>, remarkRaw: string): (r: string)
    ensures table("").None? ==> (|r| == 0 <==> |CleanRemark(remarkRaw)| == 0)
    ensures r == CleanRemark(remarkRaw) || table(CleanRemark(remarkRaw)) == Some(r)
    ensures table(CleanRemark(remarkRaw)).None? ==> r == CleanRemark(remarkRaw)
  {
    if |remarkRaw| == 0 then CleanRemarkEmpty(); ""
    else
      var raw := CleanRemark(remarkRaw);
      Render(table(raw), raw)
  }

  /** `normalize_pos_remarks(remark_raw)`: "" for an empty input; otherwise the table's
      rendering of the cleaned text, or the cleaned text itself when the table has none. */
  function NormalizePosRemarks(remarkRaw: string): (r: string)
    ensures |r| == 0 <==> |CleanRemark(remarkRaw)| == 0
    ensures r == CleanRemark(remarkRaw) || RemarkMap(CleanRemark(remarkRaw)) == Some(r)
    ensures RemarkMap(CleanRemark(remarkRaw)).None? ==> r == CleanRemark(remarkRaw)
  {
    RemarkMapNoEmptyKey();
    NormalizeWith(RemarkMap, remarkRaw)
  }

  lemma RemarkMapNoEmptyKey()
    ensures RemarkMap("").None?
  {
  }

  /** A remark already in clean form (trimmed, lower-case, without the deleted characters or
      a double space) that the table does not know comes back unchanged. */
  lemma CleanRemarkKept(s: string)
    requires Trimmed(s) && IsLower(s) && All(NotPunct, s) && NoDoubleSpace(s)
    requires RemarkMap(s).None?
    ensures NormalizePosRemarks(s) == s
  {
    TrimmedIsStripped(s);
    LowerOfLower(s);
    FilterKeepsAll(NotPunct, s);
  }

  /** Whatever the input, the cleaned text has no `(`, `)` or `,` and is lower-case. */
  lemma CleanRemarkPlain(remarkRaw: string)
    ensures All(Plain, CleanRemark(remarkRaw))
  {
    var low := Lower(Strip(remarkRaw));
    LowerIsLower(Strip(remarkRaw));
    var f := Filter(NotPunct, low);
    FilterPreserves(NotPunct, LowerFixed, low);
    assert All(Plain, f);
    CollapsePreserves(Plain, f);
  }

  predicate LowerFixed(c: char) {
    LowerChar(c) == c
  }

  /** Characters that survive the cleaning: not deleted, and left alone by `lower()`. */
  predicate Plain(c: char) {
    NotPunct(c) && LowerFixed(c)
  }

  // ---------------------------------------------------------------------------
  // extract_pos_and_remarks
  // ---------------------------------------------------------------------------

  /** The cleaning of a `<pos>` text: lower, drop `(`, `)`, `,`, then strip. */
  function CleanTag(tag: string): string {
    Strip(Filter(NotPunct, Lower(tag)))
  }

  lemma CleanTagPlain(tag: string)
    ensures All(Plain, CleanTag(tag))
    ensures forall k :: 0 <= k < |SplitWs(CleanTag(tag))| ==> All(Plain, SplitWs(CleanTag(tag))[k])
  {
    var low := Lower(tag);
    LowerIsLower(tag);
    var f := Filter(NotPunct, low);
    FilterPreserves(NotPunct, LowerFixed, low);
    assert All(Plain, f);
    StripPreserves(Plain, f);
    SplitWsPreserves(Plain, CleanTag(tag));
  }

  /** `extract_pos_and_remarks(ent)` with the head-word mapping `head` (which may raise): the
      first non-empty `<pos>` text alone decides. No such text gives ("other", ""); a text that
      is blank once cleaned fails at `parts[0]`; an unknown head keeps the whole cleaned text as
      the remark, a known one the remaining words. */
  function ExtractPos(head: string -> Result<string>, e: XmlEntry): (r: Result<(string, string)>)
    ensures |Texts(e.posTags)| == 0 ==> r == Ok(("other", ""))
    ensures |Texts(e.posTags)| != 0 && AllSpace(CleanTag(Texts(e.posTags)[0])) ==> r == Err(IndexError)
    ensures r.Ok? && |Texts(e.posTags)| != 0 ==>
      var parts := SplitWs(CleanTag(Texts(e.posTags)[0]));
      |parts| != 0 && head(parts[0]) == Ok(r.value.0)
      && r.value.1 == NormalizePosRemarks(if r.value.0 == "other" then CleanTag(Texts(e.posTags)[0]) else Join(" ", parts[1..]))
  {
    var tags := Texts(e.posTags);
    if |tags| == 0 then Ok(("other", ""))
    else
      var raw := CleanTag(tags[0]);
      var parts := SplitWs(raw);
      SplitWsEmpty(raw);
      if |parts| == 0 then Err(IndexError)
      else
        match head(parts[0])
        case Err(x) => Err(x)
        case Ok(simplified) =>
          if simplified == "other" then Ok(("other", NormalizePosRemarks(raw)))
          else Ok((simplified, NormalizePosRemarks(Join(" ", parts[1..]))))
  }

  /** Only the first non-empty `<pos>` text matters: later tags are never read. */
  lemma FirstTagOnly(head: string -> Result<string>, e: XmlEntry, tail: seq<Option<string>>)
    requires |Texts(e.posTags)| != 0
    ensures ExtractPos(head, e) == ExtractPos(head, e.(posTags := [Some(Texts(e.posTags)[0])] + tail))
  {
    var t := Texts(e.posTags)[0];
    var xs := [Some(t)] + tail;
    assert xs[1..] == tail;
    assert Texts(xs) == [t] + Texts(tail);
  }

  /** The package's head mapping: `canonicalise_pos(main)[0]`. */
  function PackageHead(w: string): Result<string> {
    match CanonicalisePos(w)
    case Ok(v) => Ok(v.0)
    case Err(x) => Err(x)
  }

  /** A head word produced by the cleaning is never blank, so `canonicalise_pos` cannot raise on it. */
  lemma PackageHeadOk(tags: seq<string>)
    ensures |tags| != 0 && |SplitWs(CleanTag(tags[0]))| != 0 ==>
      var w := SplitWs(CleanTag(tags[0]))[0];
      PackageHead(w) == Ok(Mapped(w))
  {
    if |tags| != 0 && |SplitWs(CleanTag(tags[0]))| != 0 {
      var w := SplitWs(CleanTag(tags[0]))[0];
      CleanTagPlain(tags[0]);
      SplitWsWords(CleanTag(tags[0]));
      assert All(NotParen, w) && IsLower(w) by {
        assert forall i :: 0 <= i < |w| ==> Plain(w[i]);
      }
      CanonicaliseWord(w);
    }
  }

  /** `JapaneseJMDictParser.extract_pos_and_remarks`: the tag is a `POS_CANON` value or "other",
      and the only failure is the blank first tag. */
  function PackagePos(e: XmlEntry): (r: Result<(string, string)>)
    ensures r.Err? <==> |Texts(e.posTags)| != 0 && AllSpace(CleanTag(Texts(e.posTags)[0]))
    ensures r.Err? ==> r.error == IndexError
    ensures r.Ok? ==> r.value.0 == "other" || CanonTag(r.value.0)
  {
    var tags := Texts(e.posTags);
    PackageHeadOk(tags);
    if |tags| != 0 then SplitWsEmpty(CleanTag(tags[0])); ExtractPos(PackageHead, e)
    else ExtractPos(PackageHead, e)
  }

  /** `POS_MAP.get(main)` of create_japanese_dictionary.py. */
  function ScriptPosMap(head: string): Option<string>
  {
    if head == "noun" || head == "nouns" then Some("noun")
    else if head == "verb" then Some("verb")
    else if head == "adjective" || head == "adjectival" then Some("adjective")
    else if head == "adverb" then Some("adverb")
    else if head == "pronoun" then Some("pronoun")
    else if head == "conjunction" then Some("conjunction")
    else if head == "interjection" then Some("interjection")
    else if head == "numeric" || head == "counter" then Some("number")
    else None
  }

  predicate ScriptTag(tag: string) {
    tag == "noun" || tag == "verb" || tag == "adjective" || tag == "adverb" || tag == "pronoun"
    || tag == "conjunction" || tag == "interjection" || tag == "number" || tag == "other"
  }

  function ScriptHead(w: string): (r: Result<string>)
    ensures r.Ok? && ScriptTag(r.value)
  {
    Ok(ScriptPosMap(w).GetOr("other"))
  }

  /** create_japanese_dictionary.py's `extract_pos_and_remarks`. */
  function ScriptPos(e: XmlEntry): (r: Result<(string, string)>)
    ensures r.Err? <==> |Texts(e.posTags)| != 0 && AllSpace(CleanTag(Texts(e.posTags)[0]))
    ensures r.Err? ==> r.error == IndexError
    ensures r.Ok? ==> ScriptTag(r.value.0)
  {
    var tags := Texts(e.posTags);
    if |tags| != 0 then SplitWsEmpty(CleanTag(tags[0])); ExtractPos(ScriptHead, e)
    else ExtractPos(ScriptHead, e)
  }

  /** The two tables disagree: the script knows "nouns" and "adjectival" and sends "counter"
      to "number"; the package keeps "counter" and knows "particle". */
  lemma HeadTablesDiffer()
    ensures ScriptPosMap("nouns") == Some("noun") && PosCanon("nouns").None?
    ensures ScriptPosMap("adjectival") == Some("adjective") && PosCanon("adjectival").None?
    ensures ScriptPosMap("counter") == Some("number") && PosCanon("counter") == Some("counter")
    ensures ScriptPosMap("particle").None? && PosCanon("particle") == Some("particle")
  {
  }

  // ---------------------------------------------------------------------------
  // extract_level, extract_furigana, extract_meanings
  // ---------------------------------------------------------------------------

  predicate IsJlpt(t: string) {
    StartsWith(t, "jlpt")
  }

  /** `extract_level(ent)`: the first `<misc>` text starting with "jlpt", upper-cased. */
  function ExtractLevel(e: XmlEntry): (r: Option<string>)
    ensures r.None? <==> forall k :: 0 <= k < |Texts(e.miscTags)| ==> !IsJlpt(Texts(e.miscTags)[k])
    ensures r.Some? ==> exists t :: t in Texts(e.miscTags) && IsJlpt(t) && r.value == Upper(t)
  {
    var tags := Texts(e.miscTags);
    var levels := Keep(IsJlpt, tags);
    assert |levels| != 0 ==> levels[0] in tags && IsJlpt(levels[0]);
    assert |levels| == 0 <==> forall k :: 0 <= k < |tags| ==> !IsJlpt(tags[k]);
    assert tags == Texts(e.miscTags);
    assert |levels| == 0 <==> forall k :: 0 <= k < |Texts(e.miscTags)| ==> !IsJlpt(Texts(e.miscTags)[k]);
    if |levels| != 0 then Some(Upper(levels[0])) else None
  }

  /** The level comes from the earliest "jlpt" tag, whatever follows it. */
  lemma LevelIsFirst(e: XmlEntry, k: nat)
    requires k < |Texts(e.miscTags)| && IsJlpt(Texts(e.miscTags)[k])
    requires forall j :: 0 <= j < k ==> !IsJlpt(Texts(e.miscTags)[j])
    ensures ExtractLevel(e) == Some(Upper(Texts(e.miscTags)[k]))
  {
    KeepFirst(IsJlpt, Texts(e.miscTags), k);
  }

  /** `extract_furigana(ent)`: kanji and kana texts paired by position, `None` when no pair forms. */
  function ExtractFurigana(e: XmlEntry): (r: Option<seq<(string, string)>>)
    ensures r.None? <==> |Texts(e.kebs)| == 0 || |Texts(e.rebs)| == 0
    ensures r.Some? ==>
      |r.value| == (if |Texts(e.kebs)| <= |Texts(e.rebs)| then |Texts(e.kebs)| else |Texts(e.rebs)|)
      && forall i :: 0 <= i < |r.value| ==> r.value[i] == (Texts(e.kebs)[i], Texts(e.rebs)[i])
  {
    var pairs := Zip(Texts(e.kebs), Texts(e.rebs));
    if |pairs| != 0 then Some(pairs) else None
  }

  /** `str(extract_furigana(ent))`: the text "None" when there is no pair. */
  function FuriganaText(show: seq<(string, string)> -> string, f: Option<seq<(string, string)>>): string {
    match f
    case None => "None"
    case Some(pairs) => show(pairs)
  }

  /** The package's `extract_meanings`: the non-empty glosses, as a list. */
  function PackageMeanings(e: XmlEntry): seq<string> {
    Texts(e.glosses)
  }

  /** The script's `extract_meanings`: the same glosses joined by "; " into one string. */
  function ScriptMeanings(e: XmlEntry): string {
    Join("; ", Texts(e.glosses))
  }

  // ---------------------------------------------------------------------------
  // rows
  // ---------------------------------------------------------------------------

  /** The reading column: the first `<reb>`'s text, or "" when the entry has none. */
  function KanaText(e: XmlEntry): Option<string> {
    if |e.rebs| != 0 then e.rebs[0] else Some("")
  }

  function Romaji(romanize: string -> string, kana: Option<string>): string {
    if Truthy(kana) then romanize(kana.value) else ""
  }

  /** `JapaneseJMDictParser.parse` for one entry: the word and lemma are the first `<keb>`'s
      text, else the first `<reb>`'s, else `None`; the id hashes "ja", that lemma (as `str`) and
      the tag. */
  function PackageRow(sha1: string -> string, romanize: string -> string, show: seq<(string, string)> -> string, e: XmlEntry): (r: Result<DictRow>)
    ensures r.Err? <==> PackagePos(e).Err?
    ensures r.Err? ==> r.error == IndexError
    ensures r.Ok? ==>
      var row := r.value;
      row.lang == "ja" && row.lemmaForm == row.word
      && row.word == (if |e.kebs| != 0 then e.kebs[0] else if |e.rebs| != 0 then e.rebs[0] else None)
      && row.pos == Some(PackagePos(e).value.0) && row.posRemarks == PackagePos(e).value.1
      && row.id == MakeId(sha1, "ja", PyStr(row.lemmaForm), row.pos.value)
      && (row.meanings.None? <==> |Texts(e.glosses)| == 0)
      && (|Texts(e.kebs)| == 0 ==> row.furigana == Some("None"))
  {
    var word := if |e.kebs| != 0 then e.kebs[0] else if |e.rebs| != 0 then e.rebs[0] else None;
    var kana := KanaText(e);
    match PackagePos(e)
    case Err(x) => Err(x)
    case Ok(pr) =>
      var meanings := PackageMeanings(e);
      Ok(DictRow(MakeId(sha1, "ja", PyStr(word), pr.0), "ja", word, kana, Some(Romaji(romanize, kana)),
                 word, Some(pr.0), pr.1, None, if |meanings| != 0 then Some(meanings) else None,
                 Some(FuriganaText(show, ExtractFurigana(e))), ExtractLevel(e)))
  }

  /** `JapaneseJMDictParser.parse` over a whole file. */
  function PackageRows(sha1: string -> string, romanize: string -> string, show: seq<(string, string)> -> string, entries: seq<XmlEntry>): Result<seq<DictRow>> {
    Collect(e => PackageRow(sha1, romanize, show, e), entries)
  }

  /** create_japanese_dictionary.py's row for one entry. An entry with neither kanji nor kana
      reads `.text` of `None` and raises; meanings are always stored, as one string. */
  function ScriptRow(sha1: string -> string, romanize: string -> string, show: seq<(string, string)> -> string, e: XmlEntry): (r: Result<ScriptRecord>)
    ensures |e.kebs| == 0 && |e.rebs| == 0 ==> r == Err(AttributeError)
    ensures r.Err? ==> r.error == AttributeError || r.error == IndexError
    ensures r.Ok? ==>
      var row := r.value;
      row.lang == "ja" && row.lemmaForm == row.word
      && row.word == (if |e.kebs| != 0 then e.kebs[0] else e.rebs[0])
      && row.pos.Some? && ScriptTag(row.pos.value)
      && row.id == MakeId(sha1, "ja", PyStr(row.lemmaForm), row.pos.value)
      && row.meanings == Some(Join("; ", Texts(e.glosses)))
      && row.gender.None? && row.oggUrl.None? && row.mp3Url.None?
  {
    if |e.kebs| == 0 && |e.rebs| == 0 then Err(AttributeError)
    else
      var word := if |e.kebs| != 0 then e.kebs[0] else e.rebs[0];
      var kana := KanaText(e);
      match ScriptPos(e)
      case Err(x) => Err(x)
      case Ok(pr) =>
        Ok(ScriptRecord(MakeId(sha1, "ja", PyStr(word), pr.0), "ja", word, kana, Some(Romaji(romanize, kana)),
                        word, Some(pr.0), pr.1, None, Some(ScriptMeanings(e)),
                        Some(FuriganaText(show, ExtractFurigana(e))), None, None, ExtractLevel(e)))
  }

  /** `parse_jmdict(conn)`: every entry is upserted in order and committed at the end; an
      exception leaves the committed table as it was. */
  function ParseJmdict(sha1: string -> string, romanize: string -> string, show: seq<(string, string)> -> string,
                       table: map<string, ScriptRecord>, entries: seq<XmlEntry>): (r: Result<map<string, ScriptRecord>>)
    ensures r.Ok? <==> forall i :: 0 <= i < |entries| ==> ScriptRow(sha1, romanize, show, entries[i]).Ok?
  {
    match Collect(e => ScriptRow(sha1, romanize, show, e), entries)
    case Err(x) => Err(x)
    case Ok(rows) => Ok(Upsert(ScriptId, table, rows))
  }

  /** Re-running the script over its own output changes nothing. */
  lemma ParseJmdictIdempotent(sha1: string -> string, romanize: string -> string, show: seq<(string, string)> -> string,
                              table: map<string, ScriptRecord>, entries: seq<XmlEntry>)
    requires ParseJmdict(sha1, romanize, show, table, entries).Ok?
    ensures ParseJmdict(sha1, romanize, show, ParseJmdict(sha1, romanize, show, table, entries).value, entries)
         == ParseJmdict(sha1, romanize, show, table, entries)
  {
    var rows := Collect(e => ScriptRow(sha1, romanize, show, e), entries).value;
    UpsertTwice(ScriptId, table, rows);
  }

  /** Two entries with the same lemma and tag share an id, so the later one replaces the earlier. */
  lemma LaterEntryWins(sha1: string -> string, romanize: string -> string, show: seq<(string, string)> -> string,
                       table: map<string, ScriptRecord>, e1: XmlEntry, e2: XmlEntry)
    requires ScriptRow(sha1, romanize, show, e1).Ok? && ScriptRow(sha1, romanize, show, e2).Ok?
    requires ScriptRow(sha1, romanize, show, e1).value.word == ScriptRow(sha1, romanize, show, e2).value.word
    requires ScriptRow(sha1, romanize, show, e1).value.pos == ScriptRow(sha1, romanize, show, e2).value.pos
    ensures var r2 := ScriptRow(sha1, romanize, show, e2).value;
            ParseJmdict(sha1, romanize, show, table, [e1, e2]) == Ok(table[r2.id := r2])
  {
    var f := e => ScriptRow(sha1, romanize, show, e);
    CollectPair(f, e1, e2);
    UpsertSameKey(ScriptId, table, f(e1).value, f(e2).value);
  }
}
