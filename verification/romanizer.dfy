/** `JapaneseRomanizer` of the NLP package: the kana-only test (a regular expression over one
    character class) and the kanji lookup of a kana lemma. Jamdict's `lookup` is the parameter
    `lookup`: `None` when it raises, otherwise the entries it found, each with its kanji forms. */
module Romanizer {
  import opened Prelude

  /** The class `[ぁ-んゔゕゖァ-ヴー]`: hiragana ぁ to ん, ゔ, ゕ, ゖ, katakana ァ to ヴ, and ー. */
  predicate KanaChar(c: char) {
    ('\U{3041}' <= c <= '\U{3093}') || c == '\U{3094}' || c == '\U{3095}' || c == '\U{3096}'
    || ('\U{30A1}' <= c <= '\U{30F4}') || c == '\U{30FC}'
  }

  predicate AllKana(s: string) {
    forall i :: 0 <= i < |s| ==> KanaChar(s[i])
  }

  /** How many characters of the class `text` starts with. */
  function KanaRun(text: string): (n: nat)
    ensures n <= |text|
    ensures AllKana(text[..n])
    ensures n < |text| ==> !KanaChar(text[n])
  {
    if |text| == 0 || !KanaChar(text[0]) then 0
    else
      var m := KanaRun(text[1..]);
      assert text[..1 + m] == [text[0]] + text[1..][..m];
      1 + m
  }

  /** `is_kana_only(text)`: `re.match(r"^[...]+$", text)`. The greedy run cannot end on a
      character of the class, so the match succeeds exactly when the run is non-empty and ends
      at the end of the text or just before a final newline, where Python's `$` also matches. */
  function IsKanaOnly(text: string): (r: bool)
    ensures r <==> (|text| >= 1 && AllKana(text))
                   || (|text| >= 2 && text[|text| - 1] == '\n' && AllKana(text[..|text| - 1]))
  {
    var n := KanaRun(text);
    assert n == |text| ==> text[..n] == text;
    assert !KanaChar('\n');
    n >= 1 && (n == |text| || (n == |text| - 1 && text[n] == '\n'))
  }

  /** The `+` quantifier: the empty string is not kana-only. */
  lemma EmptyNotKanaOnly()
    ensures !IsKanaOnly("")
  {
  }

  /** A kana string followed by one newline still counts as kana-only; two newlines do not. */
  lemma TrailingNewline(s: string)
    requires |s| >= 1 && AllKana(s)
    ensures IsKanaOnly(s + "\n")
    ensures !IsKanaOnly(s + "\n\n")
  {
    assert (s + "\n")[..|s|] == s;
    assert !KanaChar('\n');
    assert (s + "\n\n")[|s|] == '\n';
  }

  /** Kana-only strings without a trailing newline are closed under concatenation. */
  lemma KanaOnlyConcat(a: string, b: string)
    requires IsKanaOnly(a) && IsKanaOnly(b) && a[|a| - 1] != '\n'
    ensures IsKanaOnly(a + b)
  {
    assert !KanaChar('\n');
    assert AllKana(a);
    if b[|b| - 1] == '\n' {
      assert (a + b)[..|a + b| - 1] == a + b[..|b| - 1];
    }
  }

  /** One Jamdict entry: its kanji forms in order. */
  datatype Entry = Entry(kanjiForms: seq<string>)

  /** `kana_to_kanji(lemma_kana)`: the first kanji form of the first entry, and the input
      unchanged when the lookup raises, finds nothing, or its first entry has no kanji form. */
  function KanaToKanji(lookup: string -> Option<seq<Entry>>, lemmaKana: string): (r: string)
    ensures r != lemmaKana ==>
              lookup(lemmaKana).Some? && |lookup(lemmaKana).value| > 0
              && |lookup(lemmaKana).value[0].kanjiForms| > 0
              && r == lookup(lemmaKana).value[0].kanjiForms[0]
    ensures lookup(lemmaKana).None? ==> r == lemmaKana
    ensures (lookup(lemmaKana).Some? && |lookup(lemmaKana).value| > 0
             && |lookup(lemmaKana).value[0].kanjiForms| > 0) ==> r == lookup(lemmaKana).value[0].kanjiForms[0]
  {
    match lookup(lemmaKana)
    case None => lemmaKana
    case Some(entries) =>
      if |entries| > 0 && |entries[0].kanjiForms| > 0 then entries[0].kanjiForms[0] else lemmaKana
  }
}
