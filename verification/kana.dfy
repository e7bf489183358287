/** The kana tables of the legacy Japanese module and its per-token phonetic expansion
    (`KANA_ROMAJI`, `KATAKANA_TO_HIRAGANA`, `katakana_to_hiragana`, `split_kana_reading` and the
    loop of `JapaneseWordSplitter.split_sentence`). Janome's tokens are an input sequence and
    `is_kanji` (a Unicode-name test) is the parameter `isKanji`. */
module Kana {
  import opened Prelude
  import opened Strings

  /** `KANA_ROMAJI.get(c)`: one romaji token per kana of the table. The prolonged sound mark ー
      is listed with the value `None`, so `.get` cannot tell it from a missing character. */
  function RomajiOf(c: char): Option<string>
  {
    if c == 'ア' then Some("a") else if c == 'イ' then Some("i") else if c == 'ウ' then Some("u") else if c == 'エ' then Some("e") else
    if c == 'オ' then Some("o") else if c == 'カ' then Some("ka") else if c == 'キ' then Some("ki") else if c == 'ク' then Some("ku") else
    if c == 'ケ' then Some("ke") else if c == 'コ' then Some("ko") else if c == 'サ' then Some("sa") else if c == 'シ' then Some("shi") else
    if c == 'ス' then Some("su") else if c == 'セ' then Some("se") else if c == 'ソ' then Some("so") else if c == 'タ' then Some("ta") else
    if c == 'チ' then Some("chi") else if c == 'ツ' then Some("tsu") else if c == 'テ' then Some("te") else if c == 'ト' then Some("to") else
    if c == 'ナ' then Some("na") else if c == 'ニ' then Some("ni") else if c == 'ヌ' then Some("nu") else if c == 'ネ' then Some("ne") else
    if c == 'ノ' then Some("no") else if c == 'ハ' then Some("ha") else if c == 'ヒ' then Some("hi") else if c == 'フ' then Some("fu") else
    if c == 'ヘ' then Some("he") else if c == 'ホ' then Some("ho") else if c == 'マ' then Some("ma") else if c == 'ミ' then Some("mi") else
    if c == 'ム' then Some("mu") else if c == 'メ' then Some("me") else if c == 'モ' then Some("mo") else if c == 'ヤ' then Some("ya") else
    if c == 'ユ' then Some("yu") else if c == 'ヨ' then Some("yo") else if c == 'ラ' then Some("ra") else if c == 'リ' then Some("ri") else
    if c == 'ル' then Some("ru") else if c == 'レ' then Some("re") else if c == 'ロ' then Some("ro") else if c == 'ワ' then Some("wa") else
    if c == 'ヲ' then Some("wo") else if c == 'ン' then Some("n") else if c == 'ガ' then Some("ga") else if c == 'ギ' then Some("gi") else
    if c == 'グ' then Some("gu") else if c == 'ゲ' then Some("ge") else if c == 'ゴ' then Some("go") else if c == 'ザ' then Some("za") else
    if c == 'ジ' then Some("ji") else if c == 'ズ' then Some("zu") else if c == 'ゼ' then Some("ze") else if c == 'ゾ' then Some("zo") else
    if c == 'ダ' then Some("da") else if c == 'ヂ' then Some("ji") else if c == 'ヅ' then Some("zu") else if c == 'デ' then Some("de") else
    if c == 'ド' then Some("do") else if c == 'バ' then Some("ba") else if c == 'ビ' then Some("bi") else if c == 'ブ' then Some("bu") else
    if c == 'ベ' then Some("be") else if c == 'ボ' then Some("bo") else if c == 'パ' then Some("pa") else if c == 'ピ' then Some("pi") else
    if c == 'プ' then Some("pu") else if c == 'ペ' then Some("pe") else if c == 'ポ' then Some("po") else if c == 'ァ' then Some("a") else
    if c == 'ィ' then Some("i") else if c == 'ゥ' then Some("u") else if c == 'ェ' then Some("e") else if c == 'ォ' then Some("o") else
    if c == 'ャ' then Some("ya") else if c == 'ュ' then Some("yu") else if c == 'ョ' then Some("yo") else if c == 'ッ' then Some("xtsu") else
    if c == 'ー' then None else if c == 'あ' then Some("a") else if c == 'い' then Some("i") else if c == 'う' then Some("u") else
    if c == 'え' then Some("e") else if c == 'お' then Some("o") else if c == 'か' then Some("ka") else if c == 'き' then Some("ki") else
    if c == 'く' then Some("ku") else if c == 'け' then Some("ke") else if c == 'こ' then Some("ko") else if c == 'さ' then Some("sa") else
    if c == 'し' then Some("shi") else if c == 'す' then Some("su") else if c == 'せ' then Some("se") else if c == 'そ' then Some("so") else
    if c == 'た' then Some("ta") else if c == 'ち' then Some("chi") else if c == 'つ' then Some("tsu") else if c == 'て' then Some("te") else
    if c == 'と' then Some("to") else if c == 'な' then Some("na") else if c == 'に' then Some("ni") else if c == 'ぬ' then Some("nu") else
    if c == 'ね' then Some("ne") else if c == 'の' then Some("no") else if c == 'は' then Some("ha") else if c == 'ひ' then Some("hi") else
    if c == 'ふ' then Some("fu") else if c == 'へ' then Some("he") else if c == 'ほ' then Some("ho") else if c == 'ま' then Some("ma") else
    if c == 'み' then Some("mi") else if c == 'む' then Some("mu") else if c == 'め' then Some("me") else if c == 'も' then Some("mo") else
    if c == 'や' then Some("ya") else if c == 'ゆ' then Some("yu") else if c == 'よ' then Some("yo") else if c == 'ら' then Some("ra") else
    if c == 'り' then Some("ri") else if c == 'る' then Some("ru") else if c == 'れ' then Some("re") else if c == 'ろ' then Some("ro") else
    if c == 'わ' then Some("wa") else if c == 'を' then Some("wo") else if c == 'ん' then Some("n") else if c == 'ぁ' then Some("a") else
    if c == 'ぃ' then Some("i") else if c == 'ぅ' then Some("u") else if c == 'ぇ' then Some("e") else if c == 'ぉ' then Some("o") else
    if c == 'ゃ' then Some("ya") else if c == 'ゅ' then Some("yu") else if c == 'ょ' then Some("yo") else if c == 'っ' then Some("xtsu") else
    if c == 'が' then Some("ga") else if c == 'ぎ' then Some("gi") else if c == 'ぐ' then Some("gu") else if c == 'げ' then Some("ge") else
    if c == 'ご' then Some("go") else if c == 'ざ' then Some("za") else if c == 'じ' then Some("ji") else if c == 'ず' then Some("zu") else
    if c == 'ぜ' then Some("ze") else if c == 'ぞ' then Some("zo") else if c == 'だ' then Some("da") else if c == 'ぢ' then Some("ji") else
    if c == 'づ' then Some("zu") else if c == 'で' then Some("de") else if c == 'ど' then Some("do") else if c == 'ば' then Some("ba") else
    if c == 'び' then Some("bi") else if c == 'ぶ' then Some("bu") else if c == 'べ' then Some("be") else if c == 'ぼ' then Some("bo") else
    if c == 'ぱ' then Some("pa") else if c == 'ぴ' then Some("pi") else if c == 'ぷ' then Some("pu") else if c == 'ぺ' then Some("pe") else
    if c == 'ぽ' then Some("po") else
    None
  }

  /** The katakana `KATAKANA_TO_HIRAGANA` lists: U+30A1 (ァ) to U+30F3 (ン) except ヮ, ヰ and ヱ,
      and the sound mark ー (U+30FC). */
  predicate InKatakanaTable(c: char) {
    ('\U{30A1}' <= c <= '\U{30F3}' && c != '\U{30EE}' && c != '\U{30F0}' && c != '\U{30F1}')
    || c == '\U{30FC}'
  }

  /** `KATAKANA_TO_HIRAGANA.get(c, c)`. Every pair of the table maps a katakana to the hiragana
      0x60 code points below it (ア to あ, ッ to っ, ヲ to を), except ー, which maps to itself;
      characters outside the table are kept. */
  function HiraganaChar(c: char): (r: char)
    ensures InKatakanaTable(c) && c != '\U{30FC}' ==> '\U{3041}' <= r <= '\U{3093}'
    ensures !InKatakanaTable(c) || c == '\U{30FC}' ==> r == c
  {
    if InKatakanaTable(c) && c != '\U{30FC}' then (c as int - 0x60) as char else c
  }

  /** No value of the table is converted again. */
  lemma HiraganaCharIdempotent(c: char)
    ensures HiraganaChar(HiraganaChar(c)) == HiraganaChar(c)
  {
  }

  /** `katakana_to_hiragana(text)`: the table applied to each character, others kept. */
  function KatakanaToHiragana(text: string): (r: string)
    ensures |r| == |text|
    ensures forall i :: 0 <= i < |text| ==> r[i] == HiraganaChar(text[i])
    ensures forall i :: 0 <= i < |text| && !InKatakanaTable(text[i]) ==> r[i] == text[i]
  {
    if |text| == 0 then [] else [HiraganaChar(text[0])] + KatakanaToHiragana(text[1..])
  }

  /** Converting twice is converting once. */
  lemma KatakanaToHiraganaIdempotent(text: string)
    ensures KatakanaToHiragana(KatakanaToHiragana(text)) == KatakanaToHiragana(text)
  {
    forall i | 0 <= i < |text|
      ensures KatakanaToHiragana(KatakanaToHiragana(text))[i] == KatakanaToHiragana(text)[i]
    {
      HiraganaCharIdempotent(text[i]);
    }
  }

  // ---------------------------------------------------------------------------
  // per-token expansion
  // ---------------------------------------------------------------------------

  /** `split_kana_reading(reading)`: `list(reading)`, one unit per character. */
  function SplitKanaReading(reading: string): (r: seq<string>)
    ensures |r| == |reading|
    ensures forall i :: 0 <= i < |reading| ==> r[i] == [reading[i]]
  {
    seq(|reading|, i requires 0 <= i < |reading| => [reading[i]])
  }

  /** The units put back together are the reading. */
  lemma {:induction false} SplitKanaReadingConcat(reading: string)
    ensures Concat(SplitKanaReading(reading)) == reading
    decreases |reading|
  {
    if |reading| != 0 {
      SplitKanaReadingConcat(reading[1..]);
      assert SplitKanaReading(reading)[1..] == SplitKanaReading(reading[1..]);
      assert reading == [reading[0]] + reading[1..];
    }
  }

  const LongMark: char := '\U{30FC}'

  /** The romaji and hiragana of a unit other than ー: the table's token and the unit in
      hiragana, or two empty strings when the table has no token. */
  function UnitPair(c: char): (string, string)
  {
    match RomajiOf(c)
    case Some(rom) => (rom, KatakanaToHiragana([c]))
    case None => ("", "")
  }

  /** How many ー the reading starts with: they come before any unit and add nothing. */
  function LeadMarks(s: string): (n: nat)
    ensures n <= |s|
    ensures forall k :: 0 <= k < n ==> s[k] == LongMark
    ensures n < |s| ==> s[n] != LongMark
    decreases |s|
  {
    if |s| > 0 && s[0] == LongMark then 1 + LeadMarks(s[1..]) else 0
  }

  /** The ー at `k` follows a unit with an empty romaji token, so `prev[-1]` has nothing to read. */
  predicate BadMark(unit: char -> (string, string), s: string, k: int) {
    1 <= k < |s| && s[k] == LongMark && s[k - 1] != LongMark && unit(s[k - 1]).0 == ""
  }

  /** The unit loop of `split_sentence` for a reading, from unit `i` with the lists built so far. */
  function ExpandFrom(unit: char -> (string, string), s: string, i: nat, rom: seq<string>, hir: seq<string>): Result<(seq<string>, seq<string>)>
    requires i <= |s|
    decreases |s| - i
  {
    if i == |s| then Ok((rom, hir))
    else if s[i] == LongMark then
      if |rom| == 0 then ExpandFrom(unit, s, i + 1, rom, hir)
      else
        var prev := rom[|rom| - 1];
        if |prev| == 0 then Err(IndexError)
        else ExpandFrom(unit, s, i + 1, rom + [[prev[|prev| - 1]]], hir + [[LongMark]])
    else
      var pair := unit(s[i]);
      ExpandFrom(unit, s, i + 1, rom + [pair.0], hir + [pair.1])
  }

  /** Entry counts after units `0..i` when `lead` of them are leading ー. */
  predicate Sized(lead: nat, i: nat, rom: seq<string>, hir: seq<string>) {
    |rom| == |hir| && |rom| == (if i <= lead then 0 else i - lead)
  }

  /** Each unit other than ー in `lead..i` has its pair at its own position. */
  predicate UnitsAt(unit: char -> (string, string), s: string, lead: nat, i: nat, rom: seq<string>, hir: seq<string>)
    requires i <= |s| && Sized(lead, i, rom, hir)
  {
    forall k :: lead <= k < i && s[k] != LongMark ==>
      rom[k - lead] == unit(s[k]).0 && hir[k - lead] == unit(s[k]).1
  }

  /** Each ー after the first unit repeats the last letter of the entry before it. */
  predicate MarksAt(s: string, lead: nat, i: nat, rom: seq<string>, hir: seq<string>)
    requires i <= |s| && Sized(lead, i, rom, hir)
  {
    forall k :: lead < k < i && s[k] == LongMark ==>
      |rom[k - lead - 1]| > 0 && rom[k - lead] == [rom[k - lead - 1][|rom[k - lead - 1]| - 1]]
      && hir[k - lead] == [LongMark]
  }

  /** What the lists hold after units `0..i`: one entry per unit from the first unit that is
      not ー on, each ー repeating the last letter of the entry before it. */
  predicate Built(unit: char -> (string, string), s: string, i: nat, rom: seq<string>, hir: seq<string>)
    requires i <= |s|
  {
    var lead := LeadMarks(s);
    Sized(lead, i, rom, hir) && UnitsAt(unit, s, lead, i, rom, hir) && MarksAt(s, lead, i, rom, hir)
    && (forall k :: 0 <= k < i ==> !BadMark(unit, s, k))
  }

  /** Appending the entries for unit `i` keeps the units in place. */
  lemma UnitsGrow(unit: char -> (string, string), s: string, lead: nat, i: nat, rom: seq<string>, hir: seq<string>, a: string, b: string)
    requires lead <= i < |s| && Sized(lead, i, rom, hir) && UnitsAt(unit, s, lead, i, rom, hir)
    requires s[i] != LongMark ==> a == unit(s[i]).0 && b == unit(s[i]).1
    ensures Sized(lead, i + 1, rom + [a], hir + [b]) && UnitsAt(unit, s, lead, i + 1, rom + [a], hir + [b])
  {
    var rom', hir' := rom + [a], hir + [b];
    forall k | lead <= k < i + 1 && s[k] != LongMark
      ensures rom'[k - lead] == unit(s[k]).0 && hir'[k - lead] == unit(s[k]).1
    {
      if k < i { assert rom'[k - lead] == rom[k - lead] && hir'[k - lead] == hir[k - lead]; }
    }
  }

  /** Appending the entries for unit `i` keeps the ー in place. */
  lemma MarksGrow(s: string, lead: nat, i: nat, rom: seq<string>, hir: seq<string>, a: string, b: string)
    requires lead <= i < |s| && Sized(lead, i, rom, hir) && MarksAt(s, lead, i, rom, hir)
    requires lead < i && s[i] == LongMark ==> |rom[|rom| - 1]| > 0 && a == [rom[|rom| - 1][|rom[|rom| - 1]| - 1]] && b == [LongMark]
    ensures Sized(lead, i + 1, rom + [a], hir + [b]) && MarksAt(s, lead, i + 1, rom + [a], hir + [b])
  {
    var rom', hir' := rom + [a], hir + [b];
    forall k | lead < k < i + 1 && s[k] == LongMark
      ensures |rom'[k - lead - 1]| > 0 && rom'[k - lead] == [rom'[k - lead - 1][|rom'[k - lead - 1]| - 1]]
              && hir'[k - lead] == [LongMark]
    {
      assert rom'[k - lead - 1] == rom[k - lead - 1];
      if k < i { assert rom'[k - lead] == rom[k - lead] && hir'[k - lead] == hir[k - lead]; }
    }
  }

  /** What the loop returns: `IndexError` exactly when some ー follows a unit without romaji,
      and otherwise the lists built over the whole reading. */
  predicate Expanded(unit: char -> (string, string), s: string, r: Result<(seq<string>, seq<string>)>)
  {
    (r.Err? <==> exists k :: 0 <= k < |s| && BadMark(unit, s, k))
    && (r.Err? ==> r.error == IndexError)
    && (r.Ok? ==> Built(unit, s, |s|, r.value.0, r.value.1))
  }

  /** A unit other than ー adds its pair at its own position. */
  lemma BuiltUnit(unit: char -> (string, string), s: string, i: nat, rom: seq<string>, hir: seq<string>)
    requires i < |s| && s[i] != LongMark && Built(unit, s, i, rom, hir)
    ensures Built(unit, s, i + 1, rom + [unit(s[i]).0], hir + [unit(s[i]).1])
  {
    var lead := LeadMarks(s);
    assert lead <= i;
    UnitsGrow(unit, s, lead, i, rom, hir, unit(s[i]).0, unit(s[i]).1);
    MarksGrow(s, lead, i, rom, hir, unit(s[i]).0, unit(s[i]).1);
    assert !BadMark(unit, s, i);
  }

  /** A ー after the first unit repeats the last letter of the entry before it. */
  lemma BuiltMark(unit: char -> (string, string), s: string, i: nat, rom: seq<string>, hir: seq<string>)
    requires i < |s| && s[i] == LongMark && Built(unit, s, i, rom, hir) && |rom| > 0
    requires |rom[|rom| - 1]| > 0 && !BadMark(unit, s, i)
    ensures var prev := rom[|rom| - 1];
            Built(unit, s, i + 1, rom + [[prev[|prev| - 1]]], hir + [[LongMark]])
  {
    var lead := LeadMarks(s);
    var prev := rom[|rom| - 1];
    assert lead < i;
    UnitsGrow(unit, s, lead, i, rom, hir, [prev[|prev| - 1]], [LongMark]);
    MarksGrow(s, lead, i, rom, hir, [prev[|prev| - 1]], [LongMark]);
  }

  /** A leading ー adds nothing. */
  lemma BuiltLeading(unit: char -> (string, string), s: string, i: nat, rom: seq<string>, hir: seq<string>)
    requires i < |s| && s[i] == LongMark && Built(unit, s, i, rom, hir) && |rom| == 0
    ensures Built(unit, s, i + 1, rom, hir)
  {
  }

  /** The entry before a ー that follows the first unit is empty exactly when the ー is a bad one. */
  lemma PrevEntry(unit: char -> (string, string), s: string, i: nat, rom: seq<string>, hir: seq<string>)
    requires i < |s| && s[i] == LongMark && Built(unit, s, i, rom, hir) && |rom| > 0
    ensures |rom[|rom| - 1]| == 0 <==> BadMark(unit, s, i)
  {
    var lead := LeadMarks(s);
    assert lead < i;
    if s[i - 1] == LongMark {
      assert lead < i - 1;
    }
  }

  /** The loop from any state the invariant describes ends as `Expanded` says. */
  lemma {:induction false} ExpandFromSpec(unit: char -> (string, string), s: string, i: nat, rom: seq<string>, hir: seq<string>)
    requires i <= |s| && Built(unit, s, i, rom, hir)
    ensures Expanded(unit, s, ExpandFrom(unit, s, i, rom, hir))
    decreases |s| - i
  {
    if i < |s| {
      if s[i] == LongMark {
        if |rom| == 0 {
          BuiltLeading(unit, s, i, rom, hir);
          ExpandFromSpec(unit, s, i + 1, rom, hir);
        } else {
          PrevEntry(unit, s, i, rom, hir);
          var prev := rom[|rom| - 1];
          if |prev| != 0 {
            BuiltMark(unit, s, i, rom, hir);
            ExpandFromSpec(unit, s, i + 1, rom + [[prev[|prev| - 1]]], hir + [[LongMark]]);
          }
        }
      } else {
        BuiltUnit(unit, s, i, rom, hir);
        ExpandFromSpec(unit, s, i + 1, rom + [unit(s[i]).0], hir + [unit(s[i]).1]);
      }
    }
  }

  /** The unit loop of `split_sentence` over a reading Janome gave. */
  function ExpandReading(s: string): (r: Result<(seq<string>, seq<string>)>)
    ensures Expanded(UnitPair, s, r)
  {
    ExpandFromSpec(UnitPair, s, 0, [], []);
    ExpandFrom(UnitPair, s, 0, [], [])
  }

  /** Romaji and hiragana come out in equal numbers, one per unit after the leading ー. */
  lemma ExpandReadingParity(s: string)
    requires ExpandReading(s).Ok?
    ensures |ExpandReading(s).value.0| == |ExpandReading(s).value.1| == |s| - LeadMarks(s)
  {
  }

  // ---------------------------------------------------------------------------
  // tokens without a reading
  // ---------------------------------------------------------------------------

  /** One character of a surface Janome gave no reading for: the table's token and the
      character in hiragana, the character itself twice when it is a kanji, and two empty
      strings otherwise. */
  function FallbackUnit(isKanji: char -> bool, c: char): (string, string)
  {
    match RomajiOf(c)
    case Some(rom) => (rom, KatakanaToHiragana([c]))
    case None => if isKanji(c) then ([c], [c]) else ("", "")
  }

  /** The fallback loop over the surface: one entry per character, so it never fails. */
  function Fallback(isKanji: char -> bool, surface: string): (r: (seq<string>, seq<string>))
    ensures |r.0| == |r.1| == |surface|
    ensures forall i :: 0 <= i < |surface| ==> (r.0[i], r.1[i]) == FallbackUnit(isKanji, surface[i])
  {
    if |surface| == 0 then ([], [])
    else
      var rest := Fallback(isKanji, surface[1..]);
      var u := FallbackUnit(isKanji, surface[0]);
      ([u.0] + rest.0, [u.1] + rest.1)
  }

  /** On a table character the fallback agrees with the reading loop. */
  lemma FallbackAgreesOnKana(isKanji: char -> bool, c: char)
    requires RomajiOf(c).Some?
    ensures FallbackUnit(isKanji, c) == UnitPair(c)
  {
  }

  /** A surface of kanji only comes out as its own characters, in both lists. */
  lemma {:induction false} FallbackKanjiSpelled(isKanji: char -> bool, surface: string)
    requires forall i :: 0 <= i < |surface| ==> isKanji(surface[i]) && RomajiOf(surface[i]).None?
    ensures Fallback(isKanji, surface).0 == Fallback(isKanji, surface).1 == SplitKanaReading(surface)
    ensures Concat(Fallback(isKanji, surface).0) == surface
  {
    var r := Fallback(isKanji, surface);
    forall i | 0 <= i < |surface|
      ensures r.0[i] == [surface[i]] && r.1[i] == [surface[i]]
    {
      assert (r.0[i], r.1[i]) == FallbackUnit(isKanji, surface[i]);
    }
    SplitKanaReadingConcat(surface);
  }

  // ---------------------------------------------------------------------------
  // the sentence loop
  // ---------------------------------------------------------------------------

  /** A token as Janome gives it: the surface, the comma-joined part of speech and the
      katakana reading, `"*"` when Janome has none. */
  datatype Token = Token(surface: string, partOfSpeech: string, reading: string)

  /** Janome tags punctuation as 記号 ("symbol"); those tokens are skipped. */
  predicate IsSymbol(t: Token) {
    StartsWith(t.partOfSpeech, "記号")
  }

  /** The romaji and hiragana units of one kept token: the reading loop over the reading,
      or the fallback over the surface when the reading is `"*"`. */
  function ExpandToken(isKanji: char -> bool, t: Token): (r: Result<(seq<string>, seq<string>)>)
    ensures r.Err? ==> t.reading != "*" && r.error == IndexError
    ensures r.Ok? ==> |r.value.0| == |r.value.1|
    ensures t.reading == "*" ==> r.Ok? && |r.value.0| == |t.surface|
  {
    if t.reading == "*" then Ok(Fallback(isKanji, t.surface)) else ExpandReading(t.reading)
  }

  /** The tokens the loop does not skip, in order. */
  function Kept(tokens: seq<Token>): (r: seq<Token>)
    ensures |r| <= |tokens|
    ensures forall i :: 0 <= i < |r| ==> !IsSymbol(r[i]) && r[i] in tokens
    ensures (forall i :: 0 <= i < |tokens| ==> !IsSymbol(tokens[i])) ==> r == tokens
  {
    if |tokens| == 0 then []
    else if IsSymbol(tokens[0]) then Kept(tokens[1..])
    else [tokens[0]] + Kept(tokens[1..])
  }

  /** The three parallel lists `split_sentence` returns. */
  datatype Split = Split(words: seq<string>, romaji: seq<seq<string>>, hiragana: seq<seq<string>>)

  /** `split` holds one entry per token of `kept`: its surface and its expanded units. */
  predicate Describes(isKanji: char -> bool, kept: seq<Token>, split: Split) {
    |split.words| == |split.romaji| == |split.hiragana| == |kept|
    && forall i :: 0 <= i < |kept| ==>
         split.words[i] == kept[i].surface
         && ExpandToken(isKanji, kept[i]) == Ok((split.romaji[i], split.hiragana[i]))
  }

  /** A kept token in front adds its entry in front. */
  lemma DescribesCons(isKanji: char -> bool, t: Token, units: (seq<string>, seq<string>), kept: seq<Token>, rest: Split)
    requires ExpandToken(isKanji, t) == Ok(units) && Describes(isKanji, kept, rest)
    ensures Describes(isKanji, [t] + kept,
                      Split([t.surface] + rest.words, [units.0] + rest.romaji, [units.1] + rest.hiragana))
  {
    var s := Split([t.surface] + rest.words, [units.0] + rest.romaji, [units.1] + rest.hiragana);
    forall i | 0 < i < |kept| + 1
      ensures s.words[i] == ([t] + kept)[i].surface
              && ExpandToken(isKanji, ([t] + kept)[i]) == Ok((s.romaji[i], s.hiragana[i]))
    {
      assert ([t] + kept)[i] == kept[i - 1];
      assert s.words[i] == rest.words[i - 1] && s.romaji[i] == rest.romaji[i - 1] && s.hiragana[i] == rest.hiragana[i - 1];
    }
  }

  /** `JapaneseWordSplitter.split_sentence` (legacy module) over Janome's tokens: the surface
      of every token that is not a symbol, with its romaji and hiragana units. The loop raises
      `IndexError` at the first token whose reading has a ー after a unit without romaji. */
  function SplitSentence(isKanji: char -> bool, tokens: seq<Token>): (r: Result<Split>)
    ensures r.Ok? <==> forall t :: t in Kept(tokens) ==> ExpandToken(isKanji, t).Ok?
    ensures r.Err? ==> r.error == IndexError
    ensures r.Ok? ==> Describes(isKanji, Kept(tokens), r.value)
  {
    if |tokens| == 0 then Ok(Split([], [], []))
    else if IsSymbol(tokens[0]) then SplitSentence(isKanji, tokens[1..])
    else
      var head := ExpandToken(isKanji, tokens[0]);
      var tail := SplitSentence(isKanji, tokens[1..]);
      assert Kept(tokens) == [tokens[0]] + Kept(tokens[1..]);
      if head.Err? then Err(head.error)
      else if tail.Err? then Err(tail.error)
      else
        DescribesCons(isKanji, tokens[0], head.value, Kept(tokens[1..]), tail.value);
        Ok(Split([tokens[0].surface] + tail.value.words, [head.value.0] + tail.value.romaji,
                 [head.value.1] + tail.value.hiragana))
  }

  /** Every kept token gets as many romaji units as hiragana units. */
  lemma SplitSentenceParity(isKanji: char -> bool, tokens: seq<Token>, i: int)
    requires SplitSentence(isKanji, tokens).Ok?
    requires 0 <= i < |SplitSentence(isKanji, tokens).value.romaji|
    ensures |SplitSentence(isKanji, tokens).value.romaji[i]| == |SplitSentence(isKanji, tokens).value.hiragana[i]|
  {
    var kept := Kept(tokens);
    assert ExpandToken(isKanji, kept[i]).Ok?;
  }

  // ---------------------------------------------------------------------------
  // worked readings
  // ---------------------------------------------------------------------------

  /** The two kana units of コーヒー, used by `CoffeeReading`. */
  lemma CoffeeUnits()
    ensures UnitPair('コ') == ("ko", "こ") && UnitPair('ヒ') == ("hi", "ひ")
  {
    assert RomajiOf('コ') == Some("ko");
    assert KatakanaToHiragana("コ") == [HiraganaChar('コ')];
    assert RomajiOf('ヒ') == Some("hi");
    assert KatakanaToHiragana("ヒ") == [HiraganaChar('ヒ')];
  }

  /** コーヒー: each ー repeats the vowel before it and stays ー in hiragana. */
  lemma CoffeeReading()
    ensures ExpandReading("コーヒー") == Ok((["ko", "o", "hi", "i"], ["こ", "ー", "ひ", "ー"]))
  {
    CoffeeUnits();
    var s := "コーヒー";
    assert s[0] == 'コ' && s[1] == LongMark && s[2] == 'ヒ' && s[3] == LongMark;
    assert UnitPair(s[0]) == ("ko", "こ") && UnitPair(s[2]) == ("hi", "ひ");
    assert [] + ["ko"] == ["ko"] && [] + ["こ"] == ["こ"];
    assert ExpandFrom(UnitPair, s, 0, [], []) == ExpandFrom(UnitPair, s, 1, ["ko"], ["こ"]);
    assert ["ko"] + ["o"] == ["ko", "o"] && ["こ"] + ["ー"] == ["こ", "ー"];
    assert ExpandFrom(UnitPair, s, 1, ["ko"], ["こ"]) == ExpandFrom(UnitPair, s, 2, ["ko", "o"], ["こ", "ー"]);
    assert ["ko", "o"] + ["hi"] == ["ko", "o", "hi"] && ["こ", "ー"] + ["ひ"] == ["こ", "ー", "ひ"];
    assert ExpandFrom(UnitPair, s, 2, ["ko", "o"], ["こ", "ー"])
        == ExpandFrom(UnitPair, s, 3, ["ko", "o", "hi"], ["こ", "ー", "ひ"]);
    assert ["ko", "o", "hi"] + ["i"] == ["ko", "o", "hi", "i"] && ["こ", "ー", "ひ"] + ["ー"] == ["こ", "ー", "ひ", "ー"];
    assert ExpandFrom(UnitPair, s, 3, ["ko", "o", "hi"], ["こ", "ー", "ひ"])
        == ExpandFrom(UnitPair, s, 4, ["ko", "o", "hi", "i"], ["こ", "ー", "ひ", "ー"]);
  }

  /** ヴ has no romaji token, so the ー after it reads `prev[-1]` of an empty string. */
  lemma VuMarkFails()
    ensures ExpandReading("ヴー") == Err(IndexError)
  {
    assert RomajiOf('ヴ') == None;
    var s := "ヴー";
    assert s[0] == 'ヴ' && s[1] == LongMark;
    assert BadMark(UnitPair, s, 1);
  }
}
