/** The dictionary store of the package: part-of-speech canonicalisation with its memo table,
    content-hash ids, the `INSERT OR REPLACE` bulk load, and the two lookups the transcript
    processors use. A table is a map from id to record; a query reads the records in the order
    SQLite returns them, given as a sequence. `sha1(...).hexdigest()` is the parameter `sha1` and
    `json.dumps` of a meanings list the parameter `dumps`. */
module Dictionary {
  import opened Prelude
  import opened Strings

  // ---------------------------------------------------------------------------
  // canonicalise_pos
  // ---------------------------------------------------------------------------

  /** `POS_CANON.get(head)`. */
  function PosCanon(head: string): Option<string>
  {
    if head == "noun" || head == "name" then Some("noun")
    else if head == "adj" || head == "adjective" then Some("adjective")
    else if head == "adv" || head == "adverb" then Some("adverb")
    else if head == "pron" || head == "pronoun" then Some("pronoun")
    else if head == "conj" || head == "conjunction" then Some("conjunction")
    else if head == "intj" || head == "interjection" then Some("interjection")
    else if head == "num" || head == "number" then Some("number")
    else if head == "verb" then Some("verb")
    else if head == "counter" then Some("counter")
    else if head == "romanization" then Some("romanization")
    else if head == "character" then Some("character")
    else if head == "particle" then Some("particle")
    else None
  }

  /** The values of `POS_CANON`. */
  predicate CanonTag(tag: string) {
    tag == "noun" || tag == "adjective" || tag == "adverb" || tag == "pronoun" || tag == "conjunction"
    || tag == "interjection" || tag == "number" || tag == "verb" || tag == "counter"
    || tag == "romanization" || tag == "character" || tag == "particle"
  }

  /** Every value of the table is a canonical tag, and "other" is not one. */
  lemma PosCanonValues(head: string)
    ensures PosCanon(head).Some? ==> CanonTag(PosCanon(head).value)
    ensures !CanonTag("other")
  {
  }

  predicate NotParen(c: char) {
    c != '(' && c != ')'
  }

  /** The memo key: `raw.lower().strip()`. */
  function CanonKey(raw: string): string {
    Strip(Lower(raw))
  }

  /** The message of unpacking an empty list into `head, *tail`. */
  const UnpackMessage: string := "not enough values to unpack (expected at least 1, got 0)"

  /** `POS_CANON.get(head, "other")`. */
  function Mapped(head: string): (tag: string)
    ensures tag == "other" <==> PosCanon(head).None?
    ensures tag != "other" ==> CanonTag(tag) && PosCanon(head) == Some(tag)
  {
    PosCanonValues(head);
    PosCanon(head).GetOr("other")
  }

  /** The computation `canonicalise_pos` memoises, from its key. */
  function CanonOfKey(key: string): (r: Result<(string, string)>)
    ensures r.Err? <==> AllSpace(Filter(NotParen, key))
    ensures r.Err? ==> r.error == ValueError(UnpackMessage)
  {
    var words := SplitWs(Filter(NotParen, key));
    SplitWsEmpty(Filter(NotParen, key));
    if |words| == 0 then Err(ValueError(UnpackMessage))
    else
      var mapped := Mapped(words[0]);
      var remarks := if mapped != "other" then "" else key;
      Ok((mapped, if |words| > 1 then Join(" ", words[1..]) else remarks))
  }

  /** `canonicalise_pos(raw)` on an empty memo table: the first word of the lower-cased, stripped
      input without parentheses goes through `POS_CANON`, unknown heads giving "other"; the
      remarks are the remaining words, or, when there are none, "" for a known tag and the key
      for "other". Input with nothing but blanks and parentheses fails to unpack. */
  function CanonicalisePos(raw: string): (r: Result<(string, string)>)
    ensures r.Err? <==> AllSpace(Filter(NotParen, CanonKey(raw)))
    ensures r.Err? ==> r.error == ValueError(UnpackMessage)
    ensures r.Ok? ==> r.value.0 == "other" || CanonTag(r.value.0)
    ensures r.Ok? ==>
      var words := SplitWs(Filter(NotParen, CanonKey(raw)));
      |words| >= 1
      && (r.value.0 == "other" <==> PosCanon(words[0]).None?)
      && (|words| > 1 ==> r.value.1 == Join(" ", words[1..]))
      && (|words| == 1 ==> r.value.1 == if r.value.0 == "other" then CanonKey(raw) else "")
  {
    CanonOfKey(CanonKey(raw))
  }

  /** A single lower-case word without parentheses is its own key: it maps through the table,
      and an unknown one keeps itself as the remark. */
  lemma CanonicaliseWord(w: string)
    requires |w| != 0 && NoSpace(w) && All(NotParen, w) && IsLower(w)
    ensures CanonicalisePos(w) == Ok((Mapped(w), if Mapped(w) == "other" then w else ""))
  {
    LowerOfLower(w);
    StripNoSpace(w);
    FilterKeepsAll(NotParen, w);
    SplitWsWord(w);
  }

  /** Case does not matter: the key is lower-cased first. */
  lemma CanonicaliseIgnoresCase(raw: string)
    ensures CanonicalisePos(Lower(raw)) == CanonicalisePos(raw)
  {
    LowerIdempotent(raw);
  }

  /** The memo table, keyed by `raw.lower().strip()`. */
  type PosCache = map<string, (string, string)>

  /** Every memoised value is what `compute` gives for its key. */
  predicate Coherent(compute: string -> Result<(string, string)>, cache: PosCache) {
    forall k :: k in cache ==> compute(k) == Ok(cache[k])
  }

  /** One memoised call: a hit returns the stored pair unchanged; a miss computes the pair and
      stores it, unless the computation raises first. */
  function Memo(compute: string -> Result<(string, string)>, cache: PosCache, key: string): (r: (Result<(string, string)>, PosCache))
    ensures key in cache ==> r == (Ok(cache[key]), cache)
    ensures Coherent(compute, cache) ==> r.0 == compute(key) && Coherent(compute, r.1)
    ensures r.1.Keys == cache.Keys + (if r.0.Ok? then {key} else {})
    ensures forall k :: k in cache ==> k in r.1 && r.1[k] == cache[k]
  {
    if key in cache then (Ok(cache[key]), cache)
    else
      var computed := compute(key);
      if computed.Err? then (computed, cache) else (computed, cache[key := computed.value])
  }

  /** The memo table holds only what `canonicalise_pos` would compute. */
  predicate CacheCoherent(cache: PosCache) {
    Coherent(CanonOfKey, cache)
  }

  /** `canonicalise_pos(raw)` with the module-level `_pos_cache`, keyed by the lower-cased,
      stripped input. */
  function CanonicalisePosCached(cache: PosCache, raw: string): (r: (Result<(string, string)>, PosCache))
    ensures CanonKey(raw) in cache ==> r == (Ok(cache[CanonKey(raw)]), cache)
    ensures CacheCoherent(cache) ==> r.0 == CanonicalisePos(raw) && CacheCoherent(r.1)
    ensures r.1.Keys == cache.Keys + (if r.0.Ok? then {CanonKey(raw)} else {})
  {
    Memo(CanonOfKey, cache, CanonKey(raw))
  }

  /** Any sequence of calls through the memo table answers as the plain function does. */
  lemma {:induction false} CachedCallsAgree(cache: PosCache, raws: seq<string>)
    requires CacheCoherent(cache)
    ensures CachedRun(cache, raws) == seq(|raws|, i requires 0 <= i < |raws| => CanonicalisePos(raws[i]))
    decreases |raws|
  {
    if |raws| != 0 {
      var step := CanonicalisePosCached(cache, raws[0]);
      CachedCallsAgree(step.1, raws[1..]);
    }
  }

  /** The answers of successive calls that share the memo table. */
  function CachedRun(cache: PosCache, raws: seq<string>): (r: seq<Result<(string, string)>>)
    ensures |r| == |raws|
    decreases |raws|
  {
    if |raws| == 0 then []
    else
      var step := CanonicalisePosCached(cache, raws[0]);
      [step.0] + CachedRun(step.1, raws[1..])
  }

  lemma NounLower()
    ensures Lower("Noun") == "noun"
  {
  }

  lemma NounKey()
    ensures CanonKey("Noun") == "noun"
  {
    NounLower();
    StripNoSpace("noun");
  }

  lemma NounWords()
    ensures SplitWs(Filter(NotParen, "noun")) == ["noun"]
  {
    assert All(NotParen, "noun");
    FilterKeepsAll(NotParen, "noun");
    SplitWsWord("noun");
  }

  /** "Noun" is a known head with no remark. */
  lemma CanonicaliseNoun()
    ensures CanonicalisePos("Noun") == Ok(("noun", ""))
  {
    NounKey();
    NounWords();
    assert Mapped("noun") == "noun";
  }

  /** "()" leaves no word to unpack. */
  lemma CanonicaliseParens()
    ensures CanonicalisePos("()") == Err(ValueError(UnpackMessage))
  {
    assert Lower("()") == "()";
    StripNoSpace("()");
    assert Filter(NotParen, "()") == "";
  }

  // ---------------------------------------------------------------------------
  // make_id
  // ---------------------------------------------------------------------------

  /** Python's `f"{x}"` of a value that may be `None`. */
  function PyStr(x: Option<string>): string {
    match x
    case Some(s) => s
    case None => "None"
  }

  /** The string `make_id` hashes: `f"{lang}:{lemma}:{pos}"`. */
  function IdKey(lang: string, lemmaForm: string, pos: string): string {
    lang + ":" + lemmaForm + ":" + pos
  }

  /** `make_id(lang, lemma, pos)`: the hex SHA-1 of the key. */
  function MakeId(sha1: string -> string, lang: string, lemmaForm: string, pos: string): string {
    sha1(IdKey(lang, lemmaForm, pos))
  }

  /** The id sees only the joined key, so a ':' moved between fields collides, whatever the hash. */
  lemma IdCollision(sha1: string -> string)
    ensures MakeId(sha1, "ja", "a:b", "noun") == MakeId(sha1, "ja", "a", "b:noun")
    ensures ("a:b", "noun") != ("a", "b:noun")
  {
    assert IdKey("ja", "a:b", "noun") == IdKey("ja", "a", "b:noun");
  }

  /** In `a + ":" + x` with no ':' in `a`, the first ':' is at `|a|`. */
  lemma FirstColon(a: string, x: string)
    requires ':' !in a
    ensures (a + ":" + x)[|a|] == ':'
    ensures forall k :: 0 <= k < |a| ==> (a + ":" + x)[k] != ':'
  {
    assert forall k :: 0 <= k < |a| ==> (a + ":" + x)[k] == a[k];
  }

  /** Splitting at the first ':' is unambiguous when the part before it has none. */
  lemma ColonSplit(a: string, b: string, x: string, y: string)
    requires ':' !in a && ':' !in b && a + ":" + x == b + ":" + y
    ensures a == b && x == y
  {
    var s := a + ":" + x;
    FirstColon(a, x);
    FirstColon(b, y);
    assert |a| == |b|;
    assert a == s[..|a|] == b;
    assert x == s[|a| + 1..] == y;
  }

  /** With no ':' in the language and the lemma, equal keys mean equal fields. */
  lemma IdKeyInjective(lang1: string, lemmaForm1: string, pos1: string, lang2: string, lemmaForm2: string, pos2: string)
    requires ':' !in lang1 && ':' !in lang2 && ':' !in lemmaForm1 && ':' !in lemmaForm2
    requires IdKey(lang1, lemmaForm1, pos1) == IdKey(lang2, lemmaForm2, pos2)
    ensures lang1 == lang2 && lemmaForm1 == lemmaForm2 && pos1 == pos2
  {
    assert lang1 + ":" + (lemmaForm1 + ":" + pos1) == IdKey(lang1, lemmaForm1, pos1);
    assert lang2 + ":" + (lemmaForm2 + ":" + pos2) == IdKey(lang2, lemmaForm2, pos2);
    ColonSplit(lang1, lang2, lemmaForm1 + ":" + pos1, lemmaForm2 + ":" + pos2);
    ColonSplit(lemmaForm1, lemmaForm2, pos1, pos2);
  }

  // ---------------------------------------------------------------------------
  // rows and the bulk load
  // ---------------------------------------------------------------------------

  /** `DictRow`, as the parsers yield it. */
  datatype DictRow = DictRow(
    id: string, lang: string, word: Option<string>, kana: Option<string>, romaji: Option<string>,
    lemmaForm: Option<string>, pos: Option<string>, posRemarks: string, gender: Option<string>,
    meanings: Option<seq<string>>, furigana: Option<string>, level: Option<string>)

  /** A row of the `dictionaries` table: the meanings are stored as JSON text. */
  datatype Record = Record(
    id: string, lang: string, word: Option<string>, kana: Option<string>, romaji: Option<string>,
    lemmaForm: Option<string>, pos: Option<string>, posRemarks: string, gender: Option<string>,
    meanings: Option<string>, furigana: Option<string>, level: Option<string>)

  /** The tuple `_bulk_insert` hands to SQLite for one row: an empty or missing meanings list is
      stored as NULL. */
  function Stored(dumps: seq<string> -> string, r: DictRow): (rec: Record)
    ensures rec.id == r.id && rec.lemmaForm == r.lemmaForm && rec.pos == r.pos && rec.kana == r.kana
    ensures rec.meanings.Some? <==> r.meanings.Some? && |r.meanings.value| > 0
  {
    Record(r.id, r.lang, r.word, r.kana, r.romaji, r.lemmaForm, r.pos, r.posRemarks, r.gender,
           if r.meanings.Some? && |r.meanings.value| > 0 then Some(dumps(r.meanings.value)) else None,
           r.furigana, r.level)
  }

  function StoredAll(dumps: seq<string> -> string, rows: seq<DictRow>): (recs: seq<Record>)
    ensures |recs| == |rows|
    ensures forall i :: 0 <= i < |rows| ==> recs[i] == Stored(dumps, rows[i])
  {
    seq(|rows|, i requires 0 <= i < |rows| => Stored(dumps, rows[i]))
  }

  /** `executemany(INSERT OR REPLACE ...)` into a table whose primary key is `key`: each record
      in turn replaces the one with its key. */
  function Upsert<R>(key: R -> string, table: map<string, R>, recs: seq<R>): map<string, R>
    decreases |recs|
  {
    if |recs| == 0 then table
    else
      var last := recs[|recs| - 1];
      Upsert(key, table, recs[..|recs| - 1])[key(last) := last]
  }

  lemma {:induction false} UpsertAppend<R>(key: R -> string, table: map<string, R>, a: seq<R>, b: seq<R>)
    ensures Upsert(key, table, a + b) == Upsert(key, Upsert(key, table, a), b)
    decreases |b|
  {
    if |b| == 0 {
      assert a + b == a;
    } else {
      assert (a + b)[..|a + b| - 1] == a + b[..|b| - 1];
      UpsertAppend(key, table, a, b[..|b| - 1]);
    }
  }

  /** The last position in `recs` whose key is `id`, or -1. */
  function LastWith<R>(key: R -> string, recs: seq<R>, id: string): (k: int)
    ensures -1 <= k < |recs|
    ensures k >= 0 ==> key(recs[k]) == id
    ensures forall j :: k < j < |recs| ==> key(recs[j]) != id
    decreases |recs|
  {
    if |recs| == 0 then -1
    else if key(recs[|recs| - 1]) == id then |recs| - 1
    else LastWith(key, recs[..|recs| - 1], id)
  }

  /** After the load each key holds the last record written with it, and keys no record carries
      keep what the table had. */
  lemma {:induction false} UpsertLookup<R>(key: R -> string, table: map<string, R>, recs: seq<R>, id: string)
    ensures var t := Upsert(key, table, recs);
            var k := LastWith(key, recs, id);
            (id in t <==> id in table || k >= 0)
            && (k >= 0 ==> t[id] == recs[k])
            && (k < 0 && id in table ==> t[id] == table[id])
    decreases |recs|
  {
    if |recs| != 0 {
      UpsertLookup(key, table, recs[..|recs| - 1], id);
    }
  }

  /** Loading the same records again changes nothing. */
  lemma UpsertTwice<R>(key: R -> string, table: map<string, R>, recs: seq<R>)
    ensures Upsert(key, Upsert(key, table, recs), recs) == Upsert(key, table, recs)
  {
    var t := Upsert(key, table, recs);
    var tt := Upsert(key, t, recs);
    forall id | id in tt
      ensures id in t && tt[id] == t[id]
    {
      UpsertLookup(key, t, recs, id);
      UpsertLookup(key, table, recs, id);
    }
    forall id | id in t
      ensures id in tt
    {
      UpsertLookup(key, t, recs, id);
    }
  }

  /** Of two records with one key, the second is what the table keeps. */
  lemma UpsertSameKey<R>(key: R -> string, table: map<string, R>, r1: R, r2: R)
    requires key(r1) == key(r2)
    ensures Upsert(key, table, [r1, r2]) == table[key(r2) := r2]
  {
    assert Upsert(key, table, [r1]) == table[key(r1) := r1] by {
      assert [r1][..0] == [];
    }
    assert [r1, r2][..1] == [r1];
  }

  /** The primary key of the `dictionaries` table. */
  function IdOf(r: Record): string {
    r.id
  }

  type Table = map<string, Record>

  /** The loop of `_bulk_insert` from row `i`, with the rows buffered so far. */
  function BulkLoop(dumps: seq<string> -> string, table: Table, rows: seq<DictRow>, i: nat, buf: seq<Record>, batchSize: int): Table
    requires i <= |rows|
    decreases |rows| - i
  {
    if i == |rows| then (if |buf| > 0 then Upsert(IdOf, table, buf) else table)
    else
      var buf' := buf + [Stored(dumps, rows[i])];
      if |buf'| >= batchSize then BulkLoop(dumps, Upsert(IdOf, table, buf'), rows, i + 1, [], batchSize)
      else BulkLoop(dumps, table, rows, i + 1, buf', batchSize)
  }

  lemma {:induction false} BulkLoopUpserts(dumps: seq<string> -> string, table: Table, rows: seq<DictRow>, i: nat, buf: seq<Record>, batchSize: int)
    requires i <= |rows|
    ensures BulkLoop(dumps, table, rows, i, buf, batchSize) == Upsert(IdOf, table, buf + StoredAll(dumps, rows[i..]))
    decreases |rows| - i
  {
    var rest := StoredAll(dumps, rows[i..]);
    if i == |rows| {
      assert buf + rest == buf;
    } else {
      var buf' := buf + [Stored(dumps, rows[i])];
      var rest' := StoredAll(dumps, rows[i + 1..]);
      assert rest == [Stored(dumps, rows[i])] + rest';
      assert buf + rest == buf' + rest';
      if |buf'| >= batchSize {
        BulkLoopUpserts(dumps, Upsert(IdOf, table, buf'), rows, i + 1, [], batchSize);
        assert [] + rest' == rest';
        UpsertAppend(IdOf, table, buf', rest');
      } else {
        BulkLoopUpserts(dumps, table, rows, i + 1, buf', batchSize);
      }
    }
  }

  /** `_bulk_insert(rows, batch_size)` into `table`. */
  function BulkInsert(dumps: seq<string> -> string, table: Table, rows: seq<DictRow>, batchSize: int): (r: Table)
    ensures r == Upsert(IdOf, table, StoredAll(dumps, rows))
  {
    BulkLoopUpserts(dumps, table, rows, 0, [], batchSize);
    assert rows[0..] == rows && [] + StoredAll(dumps, rows) == StoredAll(dumps, rows);
    BulkLoop(dumps, table, rows, 0, [], batchSize)
  }

  /** The batch size does not change the table. */
  lemma BatchSizeIrrelevant(dumps: seq<string> -> string, table: Table, rows: seq<DictRow>, b1: int, b2: int)
    ensures BulkInsert(dumps, table, rows, b1) == BulkInsert(dumps, table, rows, b2)
  {
  }

  /** Re-running a load over its own result is a no-op. */
  lemma BulkInsertIdempotent(dumps: seq<string> -> string, table: Table, rows: seq<DictRow>, batchSize: int)
    ensures BulkInsert(dumps, BulkInsert(dumps, table, rows, batchSize), rows, batchSize)
         == BulkInsert(dumps, table, rows, batchSize)
  {
    UpsertTwice(IdOf, table, StoredAll(dumps, rows));
  }

  /** A row of the 14-column `dictionary` table the standalone builder scripts write: meanings
      are one joined string, and there are two audio columns. */
  datatype ScriptRecord = ScriptRecord(
    id: string, lang: string, word: Option<string>, kana: Option<string>, romaji: Option<string>,
    lemmaForm: Option<string>, pos: Option<string>, posRemarks: string, gender: Option<string>,
    meanings: Option<string>, furigana: Option<string>, oggUrl: Option<string>, mp3Url: Option<string>,
    level: Option<string>)

  function ScriptId(r: ScriptRecord): string {
    r.id
  }

  /** Python truthiness of an optional string. */
  predicate Truthy(x: Option<string>) {
    x.Some? && x.value != ""
  }

  /** The `WHERE` clause of `search_by_lemma`: exact, case-sensitive equality on the lemma, and on
      the language when one is given. */
  predicate LemmaMatches(lemmaForm: string, lang: Option<string>, rec: Record) {
    rec.lemmaForm == Some(lemmaForm) && (Truthy(lang) ==> rec.lang == lang.value)
  }

  /** `search_by_lemma(lemma, lang)`. */
  function SearchByLemma(rows: seq<Record>, lemmaForm: string, lang: Option<string>): (r: seq<Record>)
    ensures forall x :: x in r <==> x in rows && LemmaMatches(lemmaForm, lang, x)
    ensures |r| <= |rows|
  {
    Keep(x => LemmaMatches(lemmaForm, lang, x), rows)
  }

  /** A word as the Japanese lookup reads it: a dictionary from field names to strings. */
  type WordFields = map<string, string>

  function Get(word: WordFields, key: string): Option<string> {
    if key in word then Some(word[key]) else None
  }

  /** Whether step `k` of the cascade runs for this word. */
  predicate StepRuns(k: int, word: WordFields) {
    match k
    case 1 => Truthy(Get(word, "base_form")) && Truthy(Get(word, "pos"))
    case 2 => Truthy(Get(word, "base_form2")) && Truthy(Get(word, "pos"))
    case 3 => Truthy(Get(word, "base_form"))
    case 4 => Truthy(Get(word, "text"))
    case _ => false
  }

  /** The `WHERE` clause of step `k`, always restricted to Japanese. */
  predicate StepHit(k: int, word: WordFields, rec: Record) {
    rec.lang == "ja"
    && match k
       case 1 => rec.lemmaForm == Get(word, "base_form") && rec.pos == Get(word, "pos")
       case 2 => rec.lemmaForm == Get(word, "base_form2") && rec.pos == Get(word, "pos")
       case 3 => rec.lemmaForm == Get(word, "base_form")
       case 4 => rec.kana == Get(word, "text")
       case _ => false
  }

  /** `cursor.fetchone()` after step `k`'s query: the first row that matches. */
  function FirstHit(rows: seq<Record>, k: int, word: WordFields): (r: Option<Record>)
    ensures r.Some? <==> exists i :: 0 <= i < |rows| && StepHit(k, word, rows[i])
    ensures r.Some? ==> r.value in rows && StepHit(k, word, r.value)
  {
    if |rows| == 0 then None
    else if StepHit(k, word, rows[0]) then Some(rows[0])
    else
      var r := FirstHit(rows[1..], k, word);
      assert forall i :: 1 <= i < |rows| ==> rows[i] == rows[1..][i - 1];
      r
  }

  /** Step `k` runs and finds a row. */
  predicate Answers(rows: seq<Record>, k: int, word: WordFields) {
    StepRuns(k, word) && FirstHit(rows, k, word).Some?
  }

  /** `search_japanese_word(word)`: the four steps in order, each skipped when its inputs are
      missing or empty; the first row of the first step that finds one, else `None`. */
  function SearchJapaneseWord(rows: seq<Record>, word: WordFields): (r: Option<Record>)
    ensures r.Some? <==> exists k :: 1 <= k <= 4 && Answers(rows, k, word)
    ensures r.Some? ==> r.value in rows && r.value.lang == "ja"
    ensures forall k :: (1 <= k <= 4 && Answers(rows, k, word)
                         && forall j :: 1 <= j < k ==> !Answers(rows, j, word)) ==> r == FirstHit(rows, k, word)
  {
    if Answers(rows, 1, word) then FirstHit(rows, 1, word)
    else if Answers(rows, 2, word) then FirstHit(rows, 2, word)
    else if Answers(rows, 3, word) then FirstHit(rows, 3, word)
    else if Answers(rows, 4, word) then FirstHit(rows, 4, word)
    else None
  }

  /** A word carrying none of `base_form`, `base_form2` and `pos` can only be found by its text. */
  lemma OnlyTextStepForBareWord(rows: seq<Record>, word: WordFields)
    requires "base_form" !in word && "base_form2" !in word && "pos" !in word
    ensures SearchJapaneseWord(rows, word) == if StepRuns(4, word) then FirstHit(rows, 4, word) else None
  {
    assert !StepRuns(1, word) && !StepRuns(2, word) && !StepRuns(3, word);
  }
}
