/** `JapanesePhonetics` of the NLP package: per-character hiragana and Hepburn romaji for a
    katakana reading. jaconv's `kata2hira` is a per-character translation table, taken as the
    parameter `kataToHira`; pykakasi's `convert` on one character is the parameter `kakasi`,
    giving the `hepburn` values of the items it returns. */
module Phonetics {
  import opened Prelude
  import opened Strings
  import Kana

  // ---------------------------------------------------------------------------
  // hiragana
  // ---------------------------------------------------------------------------

  /** `jaconv.kata2hira(kata)`: the table applied to every character. */
  function Kata2Hira(kataToHira: char -> char, kata: string): (r: string)
    ensures |r| == |kata|
    ensures forall i :: 0 <= i < |kata| ==> r[i] == kataToHira(kata[i])
  {
    seq(|kata|, i requires 0 <= i < |kata| => kataToHira(kata[i]))
  }

  /** Converting a concatenation converts the parts. */
  lemma Kata2HiraAppend(kataToHira: char -> char, a: string, b: string)
    ensures Kata2Hira(kataToHira, a + b) == Kata2Hira(kataToHira, a) + Kata2Hira(kataToHira, b)
  {
  }

  /** `to_hiragana(kata)`: `list(kata2hira(kata))`, one single-character entry per character. */
  function ToHiragana(kataToHira: char -> char, kata: string): (r: seq<string>)
    ensures |r| == |kata|
    ensures forall i :: 0 <= i < |kata| ==> r[i] == [kataToHira(kata[i])]
    ensures Concat(r) == Kata2Hira(kataToHira, kata)
  {
    Kana.SplitKanaReadingConcat(Kata2Hira(kataToHira, kata));
    Kana.SplitKanaReading(Kata2Hira(kataToHira, kata))
  }

  // ---------------------------------------------------------------------------
  // romaji, as written
  // ---------------------------------------------------------------------------

  /** The literal the long-vowel test compares each character with: ã, ƒ and ¼, which is what
      the UTF-8 bytes of ー (E3 83 BC) turn into when read as Windows-1252. */
  const MarkLiteral: string := "\U{E3}\U{192}\U{BC}"

  /** A single character is never equal to the three-character literal. */
  lemma MarkTestNeverHolds(ch: char)
    ensures [ch] != MarkLiteral
  {
    assert |[ch]| == 1 != |MarkLiteral|;
  }

  /** `self._kks.convert(ch)[0]["hepburn"]`: the first item pykakasi gives for one character,
      and `IndexError` when it gives none. */
  function Hepburn(kakasi: string -> seq<string>, ch: char): (r: Result<string>)
    ensures r.Ok? <==> |kakasi([ch])| > 0
    ensures r.Ok? ==> r.value == kakasi([ch])[0]
    ensures r.Err? ==> r.error == IndexError
  {
    var items := kakasi([ch]);
    if |items| == 0 then Err(IndexError) else Ok(items[0])
  }

  /** Reference definition: one romaji entry per character, each read off that character
      alone, failing at the first character pykakasi gives nothing for. */
  function Syllables(kakasi: string -> seq<string>, hira: string): (r: Result<seq<string>>)
    ensures r.Ok? <==> forall i :: 0 <= i < |hira| ==> |kakasi([hira[i]])| > 0
    ensures r.Err? ==> r.error == IndexError
    ensures r.Ok? ==> |r.value| == |hira| && forall i :: 0 <= i < |hira| ==> r.value[i] == kakasi([hira[i]])[0]
  {
    if |hira| == 0 then Ok([])
    else
      match Hepburn(kakasi, hira[0])
      case Err(e) => Err(e)
      case Ok(first) =>
        match Syllables(kakasi, hira[1..])
        case Err(e) => Err(e)
        case Ok(rest) =>
          assert forall i :: 1 <= i < |hira| ==> hira[i] == hira[1..][i - 1];
          Ok([first] + rest)
  }

  /** The romaji of a concatenation is the romaji of the parts, one after the other. */
  lemma {:induction false} SyllablesAppend(kakasi: string -> seq<string>, a: string, b: string)
    ensures Syllables(kakasi, a + b).Ok? <==> Syllables(kakasi, a).Ok? && Syllables(kakasi, b).Ok?
    ensures Syllables(kakasi, a + b).Ok? ==>
              Syllables(kakasi, a + b).value == Syllables(kakasi, a).value + Syllables(kakasi, b).value
    decreases |a|
  {
    if |a| != 0 {
      SyllablesAppend(kakasi, a[1..], b);
      assert (a + b)[0] == a[0] && (a + b)[1..] == a[1..] + b;
      var w, x, y := Syllables(kakasi, a + b), Syllables(kakasi, a), Syllables(kakasi, a[1..] + b);
      if w.Ok? {
        assert y.Ok?;
        assert w.value == [kakasi([a[0]])[0]] + y.value;
      }
    } else {
      assert a + b == b;
    }
  }

  /** `re.search(r"[aeiou]$", prev)`, the match or `"-"`: Python's `$` also matches just before a
      final newline. */
  function VowelEnd(prev: string): (r: string)
    ensures |r| == 1 && r[0] in "aeiou-"
    ensures |prev| > 0 && prev[|prev| - 1] in "aeiou" ==> r == [prev[|prev| - 1]]
    ensures r != "-" ==> exists k :: |prev| - 2 <= k < |prev| && 0 <= k && r == [prev[k]]
  {
    var n := |prev|;
    if n >= 1 && prev[n - 1] in "aeiou" then [prev[n - 1]]
    else if n >= 2 && prev[n - 1] == '\n' && prev[n - 2] in "aeiou" then [prev[n - 2]]
    else "-"
  }

  /** The loop of `to_romaji` over the hiragana from position `i`, with the entries so far. The
      long-vowel branch is entered when the one-character string equals `mark`; the source
      passes `MarkLiteral`. */
  function RomajiLoop(mark: string, kakasi: string -> seq<string>, hira: string, i: nat, romaji: seq<string>): Result<seq<string>>
    requires i <= |hira|
    decreases |hira| - i
  {
    if i == |hira| then Ok(romaji)
    else if [hira[i]] == mark then
      var prev := if |romaji| > 0 then romaji[|romaji| - 1] else "-";
      RomajiLoop(mark, kakasi, hira, i + 1, romaji + [VowelEnd(prev)])
    else
      match Hepburn(kakasi, hira[i])
      case Err(e) => Err(e)
      case Ok(ro) => RomajiLoop(mark, kakasi, hira, i + 1, romaji + [ro])
  }

  /** The loop puts the reference entries of the remaining characters after those it has. */
  lemma {:induction false} RomajiLoopSyllables(mark: string, kakasi: string -> seq<string>, hira: string, i: nat, romaji: seq<string>)
    requires i <= |hira| && |mark| != 1
    ensures RomajiLoop(mark, kakasi, hira, i, romaji).Ok? <==> Syllables(kakasi, hira[i..]).Ok?
    ensures RomajiLoop(mark, kakasi, hira, i, romaji).Err? ==> RomajiLoop(mark, kakasi, hira, i, romaji).error == IndexError
    ensures RomajiLoop(mark, kakasi, hira, i, romaji).Ok? ==>
              RomajiLoop(mark, kakasi, hira, i, romaji).value == romaji + Syllables(kakasi, hira[i..]).value
    decreases |hira| - i
  {
    if i < |hira| {
      assert [hira[i]] != mark;
      assert hira[i..][0] == hira[i] && hira[i..][1..] == hira[i + 1..];
      match Hepburn(kakasi, hira[i])
      case Err(_) =>
      case Ok(ro) =>
        RomajiLoopSyllables(mark, kakasi, hira, i + 1, romaji + [ro]);
        if RomajiLoop(mark, kakasi, hira, i, romaji).Ok? {
          assert romaji + [ro] + Syllables(kakasi, hira[i + 1..]).value
              == romaji + ([ro] + Syllables(kakasi, hira[i + 1..]).value);
        }
    }
  }

  /** `to_romaji(kata)` as written: the long-vowel branch never runs, so every character,
      ー included, is handed to pykakasi, and entry `i` is pykakasi's first item for
      character `i` of the hiragana. */
  function ToRomaji(kataToHira: char -> char, kakasi: string -> seq<string>, kata: string): (r: Result<seq<string>>)
    ensures r == Syllables(kakasi, Kata2Hira(kataToHira, kata))
    ensures r.Ok? <==> forall i :: 0 <= i < |kata| ==> |kakasi([kataToHira(kata[i])])| > 0
    ensures r.Err? ==> r.error == IndexError
    ensures r.Ok? ==> |r.value| == |kata|
                      && forall i :: 0 <= i < |kata| ==> r.value[i] == kakasi([kataToHira(kata[i])])[0]
  {
    var hira := Kata2Hira(kataToHira, kata);
    RomajiLoopSyllables(MarkLiteral, kakasi, hira, 0, []);
    assert hira[0..] == hira;
    assert RomajiLoop(MarkLiteral, kakasi, hira, 0, []).Ok? ==>
             [] + Syllables(kakasi, hira).value == Syllables(kakasi, hira).value;
    RomajiLoop(MarkLiteral, kakasi, hira, 0, [])
  }

  /** Romaji and hiragana have the same length whenever the romaji exists. */
  lemma ToRomajiParity(kataToHira: char -> char, kakasi: string -> seq<string>, kata: string)
    requires ToRomaji(kataToHira, kakasi, kata).Ok?
    ensures |ToRomaji(kataToHira, kakasi, kata).value| == |ToHiragana(kataToHira, kata)|
  {
  }

  /** Entry `i` depends on character `i` alone: two readings that agree there agree in the entry. */
  lemma ToRomajiLocal(kataToHira: char -> char, kakasi: string -> seq<string>, a: string, b: string, i: int, j: int)
    requires ToRomaji(kataToHira, kakasi, a).Ok? && ToRomaji(kataToHira, kakasi, b).Ok?
    requires 0 <= i < |a| && 0 <= j < |b| && a[i] == b[j]
    ensures ToRomaji(kataToHira, kakasi, a).value[i] == ToRomaji(kataToHira, kakasi, b).value[j]
  {
  }

  // ---------------------------------------------------------------------------
  // romaji, as the docstring describes it
  // ---------------------------------------------------------------------------

  /** The entry before entry `k`, or `"-"` for the first. */
  function Before(romaji: seq<string>, k: nat): string
    requires k <= |romaji|
  {
    if k == 0 then "-" else romaji[k - 1]
  }

  /** What the entries for characters `0..i` hold under the intended rule. */
  predicate IntendedBuilt(kakasi: string -> seq<string>, hira: string, i: nat, romaji: seq<string>)
    requires i <= |hira|
  {
    |romaji| == i
    && (forall k :: 0 <= k < i && hira[k] != Kana.LongMark ==> |kakasi([hira[k]])| > 0 && romaji[k] == kakasi([hira[k]])[0])
    && (forall k :: 0 <= k < i && hira[k] == Kana.LongMark ==> romaji[k] == VowelEnd(Before(romaji, k)))
  }

  /** What the intended loop returns: `IndexError` exactly when pykakasi gives nothing for some
      character other than ー, and otherwise one entry per character. */
  predicate IntendedSpec(kakasi: string -> seq<string>, hira: string, r: Result<seq<string>>) {
    (r.Ok? <==> forall k :: 0 <= k < |hira| && hira[k] != Kana.LongMark ==> |kakasi([hira[k]])| > 0)
    && (r.Err? ==> r.error == IndexError)
    && (r.Ok? ==> IntendedBuilt(kakasi, hira, |hira|, r.value))
  }

  /** One more character keeps the description. */
  lemma IntendedStep(kakasi: string -> seq<string>, hira: string, i: nat, romaji: seq<string>, e: string)
    requires i < |hira| && IntendedBuilt(kakasi, hira, i, romaji)
    requires hira[i] == Kana.LongMark ==> e == VowelEnd(if |romaji| > 0 then romaji[|romaji| - 1] else "-")
    requires hira[i] != Kana.LongMark ==> |kakasi([hira[i]])| > 0 && e == kakasi([hira[i]])[0]
    ensures IntendedBuilt(kakasi, hira, i + 1, romaji + [e])
  {
    var r := romaji + [e];
    assert r[i] == e;
    forall k | 0 <= k < i + 1 && hira[k] != Kana.LongMark
      ensures |kakasi([hira[k]])| > 0 && r[k] == kakasi([hira[k]])[0]
    {
      if k < i { assert r[k] == romaji[k]; }
    }
    forall k | 0 <= k < i + 1 && hira[k] == Kana.LongMark
      ensures r[k] == VowelEnd(Before(r, k))
    {
      if k < i {
        assert r[k] == romaji[k] && Before(r, k) == Before(romaji, k);
      } else {
        assert Before(r, i) == if |romaji| > 0 then romaji[|romaji| - 1] else "-";
      }
    }
    assert |r| == i + 1;
  }

  /** The loop testing against ー, from any described state, ends as `IntendedSpec` says. */
  lemma {:induction false} IntendedLoopSpec(kakasi: string -> seq<string>, hira: string, i: nat, romaji: seq<string>)
    requires i <= |hira| && IntendedBuilt(kakasi, hira, i, romaji)
    requires forall k :: 0 <= k < i && hira[k] != Kana.LongMark ==> |kakasi([hira[k]])| > 0
    ensures IntendedSpec(kakasi, hira, RomajiLoop([Kana.LongMark], kakasi, hira, i, romaji))
    decreases |hira| - i
  {
    if i < |hira| {
      if hira[i] == Kana.LongMark {
        var e := VowelEnd(if |romaji| > 0 then romaji[|romaji| - 1] else "-");
        IntendedStep(kakasi, hira, i, romaji, e);
        IntendedLoopSpec(kakasi, hira, i + 1, romaji + [e]);
      } else if |kakasi([hira[i]])| > 0 {
        var e := kakasi([hira[i]])[0];
        IntendedStep(kakasi, hira, i, romaji, e);
        IntendedLoopSpec(kakasi, hira, i + 1, romaji + [e]);
      } else {
        assert RomajiLoop([Kana.LongMark], kakasi, hira, i, romaji) == Err(IndexError);
      }
    }
  }

  /** `to_romaji` with the long-vowel test comparing against ー, as the docstring describes. */
  function ToRomajiIntended(kataToHira: char -> char, kakasi: string -> seq<string>, kata: string): (r: Result<seq<string>>)
    ensures IntendedSpec(kakasi, Kata2Hira(kataToHira, kata), r)
    ensures r.Ok? ==> |r.value| == |kata|
  {
    var hira := Kata2Hira(kataToHira, kata);
    IntendedLoopSpec(kakasi, hira, 0, []);
    RomajiLoop([Kana.LongMark], kakasi, hira, 0, [])
  }

  /** On a reading without ー the two tests make no difference. */
  lemma IntendedAgreesWithoutMark(kataToHira: char -> char, kakasi: string -> seq<string>, kata: string)
    requires forall i :: 0 <= i < |kata| ==> kataToHira(kata[i]) != Kana.LongMark
    ensures ToRomajiIntended(kataToHira, kakasi, kata) == ToRomaji(kataToHira, kakasi, kata)
  {
    var hira := Kata2Hira(kataToHira, kata);
    var r := ToRomajiIntended(kataToHira, kakasi, kata);
    if r.Ok? {
      assert r.value == ToRomaji(kataToHira, kakasi, kata).value;
    }
  }

  /** カー with a pykakasi that reads カ as "ka" and returns anything else as itself: as written
      the ー entry is pykakasi's "ー", where the intended rule repeats the vowel "a". */
  lemma LongVowelFinding()
    ensures var kataToHira := (c: char) => c;
            var kakasi := (s: string) => if s == "カ" then ["ka"] else [s];
            ToRomaji(kataToHira, kakasi, "カー") == Ok(["ka", "ー"])
            && ToRomajiIntended(kataToHira, kakasi, "カー") == Ok(["ka", "a"])
  {
    var kataToHira := (c: char) => c;
    var kakasi := (s: string) => if s == "カ" then ["ka"] else [s];
    var kata := "カー";
    assert kata[0] == 'カ' && kata[1] == Kana.LongMark;
    assert kakasi([kata[0]]) == ["ka"] && kakasi([kata[1]]) == ["ー"];
    var w := ToRomaji(kataToHira, kakasi, kata);
    assert w.Ok? && |w.value| == 2;
    assert w.value[0] == "ka" && w.value[1] == "ー";
    assert w.value == ["ka", "ー"];
    var hira := Kata2Hira(kataToHira, kata);
    assert hira[0] == 'カ' && hira[1] == Kana.LongMark;
    var r := ToRomajiIntended(kataToHira, kakasi, kata);
    assert r.Ok? && |r.value| == 2;
    assert r.value[0] == "ka";
    assert VowelEnd("ka") == "a";
    assert r.value[1] == "a";
    assert r.value == ["ka", "a"];
  }
}
