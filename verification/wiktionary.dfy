/** The kaikki.org (wiktextract) JSON-lines parsers of mitlesen/dictionary.py: the German one, and
    the Japanese one with its two passes and soft-redirect resolution. The gender and meaning
    extraction is shared, word for word, with build_de_dictionary.py.
    A JSON entry keeps only the keys the parsers read; a missing list is the empty list, and
    a head template's `args` object is kept in document order with string values only. */
module Wiktionary {
  import opened Prelude
  import opened Strings
  import opened Dictionary

  datatype Sense = Sense(tags: seq<string>, glosses: seq<string>)

  /** One head template; `args` is `None` when the key is absent. */
  datatype HeadTemplate = HeadTemplate(args: Option<seq<(string, string)>>)

  /** One element of `forms`; each field is `None` when its key is absent. */
  datatype Form = Form(tags: Option<seq<string>>, form: Option<string>, ruby: Option<seq<seq<string>>>,
                       roman: Option<string>)

  /** The value of `redirect` or `redirects`: a string or a list of strings. */
  datatype Redirect = Text(text: string) | Items(items: seq<string>)

  datatype WikiEntry = WikiEntry(
    lang: Option<string>, word: Option<string>, pos: Option<string>, senses: seq<Sense>,
    headTemplates: seq<HeadTemplate>, forms: seq<Form>, categories: seq<string>,
    redirect: Option<Redirect>, redirects: Option<Redirect>, sounds: seq<map<string, string>>)

  /** `entry.get("pos", "")`. */
  function PosRaw(e: WikiEntry): string {
    e.pos.GetOr("")
  }

  /** `args.get(key)`: a JSON object has each key once, so the first pair with it is the value. */
  function ArgGet(args: seq<(string, string)>, key: string): (r: Option<string>)
    ensures r.Some? <==> exists i :: 0 <= i < |args| && args[i].0 == key
    ensures r.Some? ==> exists i :: 0 <= i < |args| && args[i] == (key, r.value)
  {
    match First((a: (string, string)) => a.0 == key, args)
    case None => None
    case Some(a) => Some(a.1)
  }

  // ---------------------------------------------------------------------------
  // gender
  // ---------------------------------------------------------------------------

  predicate IsGenderTag(t: string) {
    t == "masculine" || t == "feminine" || t == "neuter"
  }

  predicate IsGenderLetter(g: string) {
    g == "m" || g == "f" || g == "n"
  }

  predicate HasGenderTag(s: Sense) {
    |Keep(IsGenderTag, s.tags)| != 0
  }

  /** The sense loop: the first sense with a gender tag decides, by the initial of its first
      gender tag. */
  function SenseGender(senses: seq<Sense>): (g: Option<string>)
    ensures g.None? <==> forall i :: 0 <= i < |senses| ==> !HasGenderTag(senses[i])
    ensures g.Some? ==> IsGenderLetter(g.value)
    ensures g.Some? ==> exists i :: 0 <= i < |senses| && HasGenderTag(senses[i])
                                    && g.value == [Keep(IsGenderTag, senses[i].tags)[0][0]]
                                    && forall j :: 0 <= j < i ==> !HasGenderTag(senses[j])
  {
    match First(HasGenderTag, senses)
    case None => None
    case Some(s) =>
      var t := Keep(IsGenderTag, s.tags)[0];
      assert IsGenderTag(t);
      Some([t[0]])
  }

  /** What one head-template value says, tested in the order masculine, feminine, neuter. */
  function ValueGender(v: string): (g: Option<string>)
    ensures g.Some? ==> IsGenderLetter(g.value)
  {
    var l := Lower(v);
    if Contains(l, "masculine") then Some("m")
    else if Contains(l, "feminine") then Some("f")
    else if Contains(l, "neuter") then Some("n")
    else None
  }

  /** Every argument value of every head template, in document order. */
  function ArgValues(hts: seq<HeadTemplate>): (vs: seq<string>)
    decreases |hts|
  {
    if |hts| == 0 then []
    else
      var own := if hts[0].args.Some? then seq(|hts[0].args.value|, i requires 0 <= i < |hts[0].args.value| => hts[0].args.value[i].1) else [];
      own + ArgValues(hts[1..])
  }

  /** The template loop as written: each value that mentions a gender overwrites the one
      before; a value that mentions none leaves it alone. */
  function ScanGender(acc: Option<string>, vs: seq<string>): (g: Option<string>)
    decreases |vs|
  {
    if |vs| == 0 then acc
    else ScanGender(if ValueGender(vs[0]).Some? then ValueGender(vs[0]) else acc, vs[1..])
  }

  /** Reference reading: the last value that mentions a gender decides. */
  function LastGender(vs: seq<string>): (g: Option<string>)
    ensures g.Some? ==> IsGenderLetter(g.value)
    ensures g.None? <==> forall i :: 0 <= i < |vs| ==> ValueGender(vs[i]).None?
    decreases |vs|
  {
    if |vs| == 0 then None
    else if ValueGender(vs[|vs| - 1]).Some? then ValueGender(vs[|vs| - 1])
    else
      var g := LastGender(vs[..|vs| - 1]);
      assert forall i :: 0 <= i < |vs| - 1 ==> vs[..|vs| - 1][i] == vs[i];
      g
  }

  lemma {:induction false} ScanGenderSnoc(acc: Option<string>, vs: seq<string>, v: string)
    ensures ScanGender(acc, vs + [v]) == (if ValueGender(v).Some? then ValueGender(v) else ScanGender(acc, vs))
    decreases |vs|
  {
    if |vs| != 0 {
      assert (vs + [v])[1..] == vs[1..] + [v];
      ScanGenderSnoc(if ValueGender(vs[0]).Some? then ValueGender(vs[0]) else acc, vs[1..], v);
    }
  }

  /** The loop keeps the last match: scanning from the left equals asking the last value that
      mentions a gender, and falls back to the starting value when none does. */
  lemma {:induction false} ScanIsLast(acc: Option<string>, vs: seq<string>)
    ensures ScanGender(acc, vs) == (if LastGender(vs).Some? then LastGender(vs) else acc)
    decreases |vs|
  {
    if |vs| != 0 {
      var p := vs[..|vs| - 1];
      assert vs == p + [vs[|vs| - 1]];
      ScanGenderSnoc(acc, p, vs[|vs| - 1]);
      ScanIsLast(acc, p);
    }
  }

  /** The gender of an entry: the sense tags first, and the head templates only when they give
      nothing. */
  function Gender(e: WikiEntry): (g: Option<string>)
    ensures g.Some? ==> IsGenderLetter(g.value)
    ensures SenseGender(e.senses).Some? ==> g == SenseGender(e.senses)
    ensures SenseGender(e.senses).None? ==> g == LastGender(ArgValues(e.headTemplates))
  {
    var g := SenseGender(e.senses);
    ScanIsLast(None, ArgValues(e.headTemplates));
    if g.Some? then g else ScanGender(None, ArgValues(e.headTemplates))
  }

  // ---------------------------------------------------------------------------
  // meanings
  // ---------------------------------------------------------------------------

  predicate HasGlosses(s: Sense) {
    |s.glosses| != 0
  }

  /** One `"; "`-joined string per sense that has glosses, in sense order. */
  function Meanings(senses: seq<Sense>): (r: seq<string>)
    ensures |r| == |Keep(HasGlosses, senses)|
    ensures |r| == 0 <==> forall i :: 0 <= i < |senses| ==> !HasGlosses(senses[i])
    ensures forall k :: 0 <= k < |r| ==> r[k] == Join("; ", Keep(HasGlosses, senses)[k].glosses)
  {
    var kept := Keep(HasGlosses, senses);
    seq(|kept|, k requires 0 <= k < |kept| => Join("; ", kept[k].glosses))
  }

  // ---------------------------------------------------------------------------
  // GermanWiktionaryParser
  // ---------------------------------------------------------------------------

  predicate IsGerman(e: WikiEntry) {
    e.lang == Some("German")
  }

  /** The row for one German entry; a part of speech that is blank once parentheses are removed
      makes `canonicalise_pos` raise, and the exception ends the parse. */
  function GermanRow(sha1: string -> string, e: WikiEntry): (r: Result<DictRow>)
    ensures r.Err? <==> CanonicalisePos(PosRaw(e)).Err?
    ensures r.Err? ==> r.error == ValueError(UnpackMessage)
    ensures r.Ok? ==>
      var row := r.value;
      row.lang == "de" && row.word == e.word && row.lemmaForm == e.word
      && row.pos == Some(CanonicalisePos(PosRaw(e)).value.0)
      && (row.pos.value == "other" || CanonTag(row.pos.value))
      && row.id == MakeId(sha1, "de", PyStr(e.word), row.pos.value)
      && (row.gender.None? || IsGenderLetter(row.gender.value))
      && (row.meanings.None? <==> forall i :: 0 <= i < |e.senses| ==> !HasGlosses(e.senses[i]))
      && row.kana.None? && row.romaji.None? && row.furigana.None? && row.level.None?
  {
    match CanonicalisePos(PosRaw(e))
    case Err(x) => Err(x)
    case Ok(pr) =>
      var meanings := Meanings(e.senses);
      Ok(DictRow(MakeId(sha1, "de", PyStr(e.word), pr.0), "de", e.word, None, None, e.word, Some(pr.0), pr.1,
                 Gender(e), if |meanings| != 0 then Some(meanings) else None, None, None))
  }

  /** `GermanWiktionaryParser.parse`: the German entries in file order. */
  function ParseGerman(sha1: string -> string, entries: seq<WikiEntry>): (r: Result<seq<DictRow>>)
    ensures r.Ok? <==> forall i :: 0 <= i < |entries| && IsGerman(entries[i]) ==> CanonicalisePos(PosRaw(entries[i])).Ok?
    ensures r.Ok? ==> |r.value| == |Keep(IsGerman, entries)|
    ensures r.Ok? ==> forall k :: 0 <= k < |r.value| ==> r.value[k].lang == "de"
  {
    var german := Keep(IsGerman, entries);
    Collect((e: WikiEntry) => GermanRow(sha1, e), german)
  }

  // ---------------------------------------------------------------------------
  // JapaneseWiktionaryParser: extractors
  // ---------------------------------------------------------------------------

  predicate TaggedWith(f: Form, tag: string) {
    f.tags.Some? && tag in f.tags.value
  }

  predicate KanaTagged(f: Form) {
    TaggedWith(f, "hiragana") || TaggedWith(f, "katakana")
  }

  predicate HasRuby(f: Form) {
    f.ruby.Some?
  }

  /** The reading spelt by a ruby list: the second element of every pair that has one. */
  function RubyReading(ruby: seq<seq<string>>): string {
    var pairs := Keep((r: seq<string>) => |r| > 1, ruby);
    Concat(seq(|pairs|, i requires 0 <= i < |pairs| => pairs[i][1]))
  }

  /** The head-template loop shared by `extract_kana` and `extract_romaji`: the first template
      whose arguments satisfy `hit` yields `pick` of them; `ht["args"]` raises on a template
      without arguments that the loop reaches. */
  function ScanTemplates(hts: seq<HeadTemplate>, hit: seq<(string, string)> -> bool,
                         pick: seq<(string, string)> -> Option<string>): (r: Result<Option<string>>)
    ensures r.Err? <==> exists i :: 0 <= i < |hts| && hts[i].args.None?
                                    && forall j :: 0 <= j < i ==> hts[j].args.Some? && !hit(hts[j].args.value)
    ensures r.Err? ==> r.error == KeyError("args")
    ensures r.Ok? && r.value.Some? ==>
              exists i :: 0 <= i < |hts| && hts[i].args.Some? && hit(hts[i].args.value)
                          && r.value == pick(hts[i].args.value)
    ensures (forall i :: 0 <= i < |hts| ==> hts[i].args.Some? && !hit(hts[i].args.value)) ==> r == Ok(None)
    decreases |hts|
  {
    if |hts| == 0 then Ok(None)
    else if hts[0].args.None? then Err(KeyError("args"))
    else if hit(hts[0].args.value) then Ok(pick(hts[0].args.value))
    else
      var rest := ScanTemplates(hts[1..], hit, pick);
      assert forall i :: 1 <= i < |hts| ==> hts[i] == hts[1..][i - 1];
      rest
  }

  predicate KanaScript(args: seq<(string, string)>) {
    ArgGet(args, "2") == Some("hiragana") || ArgGet(args, "2") == Some("katakana")
  }

  /** `extract_kana(entry)`: a form tagged hiragana or katakana gives its text, a form with ruby
      gives the ruby reading; failing both, a head template whose second argument names a kana
      script gives its first argument. */
  function ExtractKana(e: WikiEntry): (r: Result<Option<string>>)
    ensures (exists i :: 0 <= i < |e.forms| && (KanaTagged(e.forms[i]) || HasRuby(e.forms[i]))) ==> r.Ok?
  {
    match First((f: Form) => KanaTagged(f) || HasRuby(f), e.forms)
    case Some(f) => Ok(if KanaTagged(f) then f.form else Some(RubyReading(f.ruby.value)))
    case None => ScanTemplates(e.headTemplates, KanaScript, (a: seq<(string, string)>) => ArgGet(a, "1"))
  }

  predicate LatinScript(args: seq<(string, string)>) {
    ArgGet(args, "sc") == Some("Latn")
  }

  /** `extract_romaji(entry)`: a form tagged romanization gives its text, a form with `roman`
      gives that; failing both, a head template in Latin script gives the entry's own word. */
  function ExtractRomaji(e: WikiEntry): (r: Result<Option<string>>)
    ensures (exists i :: 0 <= i < |e.forms| && (TaggedWith(e.forms[i], "romanization") || e.forms[i].roman.Some?)) ==> r.Ok?
    ensures r.Ok? && r.value.Some? && (forall i :: 0 <= i < |e.forms| ==> e.forms[i].roman.None? && !TaggedWith(e.forms[i], "romanization"))
            ==> r.value == e.word
  {
    match First((f: Form) => TaggedWith(f, "romanization") || f.roman.Some?, e.forms)
    case Some(f) => Ok(if TaggedWith(f, "romanization") then f.form else f.roman)
    case None => ScanTemplates(e.headTemplates, LatinScript, (a: seq<(string, string)>) => e.word)
  }

  /** `extract_furigana(entry)`: the ruby list of the first form that has one. */
  function ExtractFurigana(e: WikiEntry): (r: Option<seq<seq<string>>>)
    ensures r.None? <==> forall i :: 0 <= i < |e.forms| ==> !HasRuby(e.forms[i])
    ensures r.Some? ==> exists i :: 0 <= i < |e.forms| && e.forms[i].ruby == r
  {
    match First(HasRuby, e.forms)
    case None => None
    case Some(f) => f.ruby
  }

  predicate Canonical(f: Form) {
    TaggedWith(f, "canonical")
  }

  /** `extract_lemma(entry)`: the text of the first form tagged canonical, else the word. */
  function ExtractLemma(e: WikiEntry): (r: Option<string>)
    ensures (forall i :: 0 <= i < |e.forms| ==> !Canonical(e.forms[i])) ==> r == e.word
    ensures (exists i :: 0 <= i < |e.forms| && Canonical(e.forms[i])) ==>
              exists i :: 0 <= i < |e.forms| && Canonical(e.forms[i]) && r == e.forms[i].form
  {
    match First(Canonical, e.forms)
    case None => e.word
    case Some(f) => f.form
  }

  predicate NamesJlpt(c: string) {
    Contains(Lower(c), "jlpt")
  }

  /** `extract_level(entry)`: the first category whose name mentions JLPT, upper-cased. */
  function WikiLevel(e: WikiEntry): (r: Option<string>)
    ensures r.None? <==> forall i :: 0 <= i < |e.categories| ==> !NamesJlpt(e.categories[i])
    ensures r.Some? ==> exists i :: 0 <= i < |e.categories| && NamesJlpt(e.categories[i]) && r.value == Upper(e.categories[i])
  {
    match First(NamesJlpt, e.categories)
    case None => None
    case Some(c) => Some(Upper(c))
  }

  // ---------------------------------------------------------------------------
  // JapaneseWiktionaryParser: the two passes
  // ---------------------------------------------------------------------------

  predicate IsJapanese(e: WikiEntry) {
    e.lang == Some("Japanese")
  }

  predicate TruthyRedirect(x: Option<Redirect>) {
    match x
    case None => false
    case Some(Text(s)) => s != ""
    case Some(Items(xs)) => |xs| != 0
  }

  /** `is_soft_redirect`. */
  predicate IsRedirect(e: WikiEntry) {
    PosRaw(e) == "soft-redirect" || TruthyRedirect(e.redirect) || TruthyRedirect(e.redirects)
  }

  /** `redirect or redirects`, a list replaced by its first element; `None` when the result is
      falsy. */
  function Target(e: WikiEntry): (r: Option<string>)
    ensures r.Some? ==> r.value != "" && (TruthyRedirect(e.redirect) || TruthyRedirect(e.redirects))
  {
    var t := if TruthyRedirect(e.redirect) then e.redirect else e.redirects;
    match t
    case None => None
    case Some(Text(s)) => if s == "" then None else Some(s)
    case Some(Items(xs)) => if |xs| == 0 || xs[0] == "" then None else Some(xs[0])
  }

  /** The first pass's dictionary key. */
  function KeyOf(e: WikiEntry): (Option<string>, string) {
    (e.word, PosRaw(e))
  }

  /** `entry_lookup.get(key)` after the first pass stored every indexed entry in turn: the last
      entry with the key. */
  function Lookup(index: seq<WikiEntry>, key: (Option<string>, string)): (r: Option<WikiEntry>)
    ensures r.Some? <==> exists i :: 0 <= i < |index| && KeyOf(index[i]) == key
    ensures r.Some? ==> exists i :: 0 <= i < |index| && index[i] == r.value && KeyOf(index[i]) == key
                                    && forall j :: i < j < |index| ==> KeyOf(index[j]) != key
    decreases |index|
  {
    if |index| == 0 then None
    else if KeyOf(index[|index| - 1]) == key then Some(index[|index| - 1])
    else
      var r := Lookup(index[..|index| - 1], key);
      assert forall i :: 0 <= i < |index| - 1 ==> index[..|index| - 1][i] == index[i];
      r
  }

  /** `lookup.get((target, pos_raw)) or lookup.get((target, ""))`. */
  function TargetEntry(index: seq<WikiEntry>, target: string, posRaw: string): Option<WikiEntry> {
    var exact := Lookup(index, (Some(target), posRaw));
    if exact.Some? then exact else Lookup(index, (Some(target), ""))
  }

  /** `CanonicalisePos` of the entry's part of speech. */
  function JaPos(e: WikiEntry): Result<(string, string)> {
    CanonicalisePos(PosRaw(e))
  }

  /** The row both branches of the second pass build: `lemma` and `word` from the entry itself,
      everything else from `src` (the entry, or a redirect's target). */
  function BuildRow(sha1: string -> string, showRuby: seq<seq<string>> -> string, lemmaForm: Option<string>,
                    word: Option<string>, src: WikiEntry, pr: (string, string)): (r: Result<Option<DictRow>>)
    ensures r.Err? ==> r.error == KeyError("args")
    ensures r.Ok? ==> r.value.Some?
    ensures r.Ok? <==> ExtractKana(src).Ok? && ExtractRomaji(src).Ok?
    ensures r.Ok? ==>
      var row := r.value.value;
      ExtractKana(src).Ok? && ExtractRomaji(src).Ok?
      && row.lang == "ja" && row.word == word && row.lemmaForm == lemmaForm && row.pos == Some(pr.0)
      && row.id == MakeId(sha1, "ja", PyStr(lemmaForm), pr.0)
      && row.kana == (if ExtractKana(src).value.None? then lemmaForm else ExtractKana(src).value)
      && row.romaji == ExtractRomaji(src).value && row.level == WikiLevel(src)
      && (row.meanings.None? <==> forall i :: 0 <= i < |src.senses| ==> !HasGlosses(src.senses[i]))
      && (row.furigana.None? <==> forall i :: 0 <= i < |src.forms| ==> !HasRuby(src.forms[i]))
  {
    match ExtractKana(src)
    case Err(x) => Err(x)
    case Ok(k) =>
      match ExtractRomaji(src)
      case Err(x) => Err(x)
      case Ok(romaji) =>
        var kana := if k.None? then lemmaForm else k;
        var meanings := Meanings(src.senses);
        var ruby := ExtractFurigana(src);
        Ok(Some(DictRow(MakeId(sha1, "ja", PyStr(lemmaForm), pr.0), "ja", word, kana, romaji, lemmaForm,
                        Some(pr.0), pr.1, None, if |meanings| != 0 then Some(meanings) else None,
                        if ruby.Some? then Some(showRuby(ruby.value)) else None, WikiLevel(src))))
  }

  /** The second pass for one entry kept by the first: `Ok(None)` when nothing is yielded. */
  function JaRow(sha1: string -> string, showRuby: seq<seq<string>> -> string, index: seq<WikiEntry>,
                 e: WikiEntry): (r: Result<Option<DictRow>>)
    ensures r.Ok? && r.value.Some? ==>
      JaPos(e).Ok? && r.value.value.lang == "ja" && r.value.value.pos == Some(JaPos(e).value.0)
      && r.value.value.id == MakeId(sha1, "ja", PyStr(r.value.value.lemmaForm), JaPos(e).value.0)
      && r.value.value.word == e.word
      && (r.value.value.kana.None? ==> r.value.value.lemmaForm.None?)
    ensures JaPos(e).Ok? && IsRedirect(e) && Target(e).None? ==> r == Ok(None)
    ensures JaPos(e).Ok? && IsRedirect(e) && Target(e).Some? && TargetEntry(index, Target(e).value, PosRaw(e)).None? ==> r == Ok(None)
  {
    match JaPos(e)
    case Err(x) => Err(x)
    case Ok(pr) =>
      if IsRedirect(e) then
        match Target(e)
        case None => Ok(None)
        case Some(t) =>
          match TargetEntry(index, t, PosRaw(e))
          case None => Ok(None)
          case Some(te) => BuildRow(sha1, showRuby, e.word, e.word, te, pr)
      else BuildRow(sha1, showRuby, ExtractLemma(e), e.word, e, pr)
  }

  /** Draining a generator that yields `f(x)` when it is `Some` and nothing when it is `None`;
      the first exception ends it. */
  function CollectSome<A, B>(f: A -> Result<Option<B>>, xs: seq<A>): (r: Result<seq<B>>)
    ensures r.Ok? <==> forall i :: 0 <= i < |xs| ==> f(xs[i]).Ok?
    ensures r.Ok? ==> forall k :: 0 <= k < |r.value| ==> exists i :: 0 <= i < |xs| && f(xs[i]) == Ok(Some(r.value[k]))
    ensures r.Ok? ==> forall i :: 0 <= i < |xs| && f(xs[i]).value.Some? ==> f(xs[i]).value.value in r.value
    ensures r.Err? ==> exists i :: 0 <= i < |xs| && f(xs[i]) == Err(r.error)
    decreases |xs|
  {
    if |xs| == 0 then Ok([])
    else
      var rest := CollectSome(f, xs[1..]);
      assert forall i :: 1 <= i < |xs| ==> xs[i] == xs[1..][i - 1];
      match f(xs[0])
      case Err(x) => Err(x)
      case Ok(y) =>
        match rest
        case Err(x) => Err(x)
        case Ok(ys) => Ok(if y.Some? then [y.value] + ys else ys)
  }

  /** The entries the first pass keeps: Japanese, with a part of speech outside the filter. */
  function Kept(posFilter: seq<string>, entries: seq<WikiEntry>): (r: seq<WikiEntry>)
    ensures forall k :: 0 <= k < |r| ==> IsJapanese(r[k]) && JaPos(r[k]).Ok? && JaPos(r[k]).value.0 !in posFilter
  {
    Keep((e: WikiEntry) => IsJapanese(e) && JaPos(e).Ok? && JaPos(e).value.0 !in posFilter, entries)
  }

  /** The entries the first pass files under `(word, pos)`: the kept ones that do not redirect. */
  function Indexed(kept: seq<WikiEntry>): (r: seq<WikiEntry>)
    ensures forall k :: 0 <= k < |r| ==> !IsRedirect(r[k])
  {
    Keep((e: WikiEntry) => !IsRedirect(e), kept)
  }

  /** The second pass over the kept entries, with the first pass's index built from them. */
  function SecondPass(sha1: string -> string, showRuby: seq<seq<string>> -> string, kept: seq<WikiEntry>): (r: Result<seq<DictRow>>)
    ensures r.Ok? ==> forall k :: 0 <= k < |r.value| ==>
                        r.value[k].lang == "ja"
                        && exists i :: 0 <= i < |kept| && JaPos(kept[i]).Ok? && r.value[k].pos == Some(JaPos(kept[i]).value.0)
  {
    var f := (e: WikiEntry) => JaRow(sha1, showRuby, Indexed(kept), e);
    CollectSome(f, kept)
  }

  /** `JapaneseWiktionaryParser(pos_filter).parse()`. The first pass canonicalises the part of
      speech of every Japanese entry, so one blank part of speech aborts before any row. */
  function ParseJapanese(sha1: string -> string, showRuby: seq<seq<string>> -> string, posFilter: seq<string>,
                         entries: seq<WikiEntry>): (r: Result<seq<DictRow>>)
    ensures (exists i :: 0 <= i < |entries| && IsJapanese(entries[i]) && JaPos(entries[i]).Err?) ==> r.Err?
    ensures r.Ok? ==> forall k :: 0 <= k < |r.value| ==>
                        r.value[k].lang == "ja" && r.value[k].pos.Some? && r.value[k].pos.value !in posFilter
  {
    match Collect(JaPos, Keep(IsJapanese, entries))
    case Err(x) => Err(x)
    case Ok(_) => SecondPass(sha1, showRuby, Kept(posFilter, entries))
  }

  /** A soft redirect keeps its own word as word and lemma and takes its reading, romanisation,
      meanings and level from the entry filed under the target and its part of speech, falling
      back to the target filed with a blank part of speech. */
  lemma RedirectTakesTarget(sha1: string -> string, showRuby: seq<seq<string>> -> string, index: seq<WikiEntry>,
                            e: WikiEntry, te: WikiEntry)
    requires IsRedirect(e) && JaPos(e).Ok? && Target(e).Some?
    requires TargetEntry(index, Target(e).value, PosRaw(e)) == Some(te)
    requires ExtractKana(te).Ok? && ExtractRomaji(te).Ok?
    ensures var r := JaRow(sha1, showRuby, index, e);
            r.Ok? && r.value.Some?
            && r.value.value.word == e.word && r.value.value.lemmaForm == e.word
            && r.value.value.kana == (if ExtractKana(te).value.None? then e.word else ExtractKana(te).value)
            && r.value.value.romaji == ExtractRomaji(te).value
            && r.value.value.meanings == (if |Meanings(te.senses)| != 0 then Some(Meanings(te.senses)) else None)
            && r.value.value.level == WikiLevel(te)
            && r.value.value.id == MakeId(sha1, "ja", PyStr(e.word), JaPos(e).value.0)
  {
  }

  /** The target filed under the redirect's own part of speech is preferred; the blank part of
      speech is consulted only when there is none. */
  lemma TargetPreference(index: seq<WikiEntry>, target: string, posRaw: string)
    ensures (exists i :: 0 <= i < |index| && KeyOf(index[i]) == (Some(target), posRaw))
              ==> TargetEntry(index, target, posRaw) == Lookup(index, (Some(target), posRaw))
    ensures (forall i :: 0 <= i < |index| ==> KeyOf(index[i]) != (Some(target), posRaw))
              ==> TargetEntry(index, target, posRaw) == Lookup(index, (Some(target), ""))
  {
  }

  /** What `TargetEntry` finds is one of the indexed entries. */
  lemma TargetEntryIndexed(index: seq<WikiEntry>, target: string, posRaw: string)
    ensures var t := TargetEntry(index, target, posRaw);
            t.Some? ==> exists i :: 0 <= i < |index| && index[i] == t.value
  {
  }

  /** A redirect never finds another redirect, nor an entry the first pass dropped: only kept,
      non-redirect entries are filed. */
  lemma TargetIsNoRedirect(posFilter: seq<string>, entries: seq<WikiEntry>, target: string, posRaw: string)
    ensures var t := TargetEntry(Indexed(Kept(posFilter, entries)), target, posRaw);
            t.Some? ==> !IsRedirect(t.value) && IsJapanese(t.value) && JaPos(t.value).Ok?
                        && JaPos(t.value).value.0 !in posFilter
  {
    var kept := Kept(posFilter, entries);
    var index := Indexed(kept);
    var t := TargetEntry(index, target, posRaw);
    TargetEntryIndexed(index, target, posRaw);
    if t.Some? {
      var i :| 0 <= i < |index| && index[i] == t.value;
      var j :| 0 <= j < |kept| && kept[j] == index[i];
      assert IsJapanese(kept[j]) && JaPos(kept[j]).Ok? && JaPos(kept[j]).value.0 !in posFilter;
    }
  }
}
