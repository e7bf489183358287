/** The Spanish text normaliser: `normalize_spanish_text` (lower-case, delete everything but word
    characters, whitespace and the Spanish letters, single spaces, strip), the accent remover
    `remove_spanish_accents`, and their composition `normalize_spanish_text_strict`.
    The deletion keeps the same kind of characters as the German normaliser, with the seven
    Spanish letters added to the word class, so its normal form is the German one. */
module SpanishNormalizer {
  import opened Strings
  import GermanNormalizer

  /** `á é í ó ú ñ ü`, which the deletion keeps even if `\w` did not. */
  predicate SpanishLetter(c: char) {
    c == '\U{E1}' || c == '\U{E9}' || c == '\U{ED}' || c == '\U{F3}' || c == '\U{FA}'
    || c == '\U{F1}' || c == '\U{FC}'
  }

  /** The word class of `[^\w\sáéíóúñü]`: `\w` plus the Spanish letters. */
  function SpanishWord(isWord: char -> bool): char -> bool
  {
    c => isWord(c) || SpanishLetter(c)
  }

  /** A lower-case string is normalised by the lower-case word characters alone. */
  function LowerWord(w: char -> bool): char -> bool
  {
    c => w(c) && LowerChar(c) == c
  }

  /** Whitespace is untouched by `lower()`. */
  lemma SpaceIsLower(c: char)
    requires IsSpace(c)
    ensures LowerChar(c) == c
  {
  }

  /** The normal form of lower-case text is lower-case. */
  lemma NormalFormOfLower(w: char -> bool, s: string)
    requires IsLower(s)
    ensures IsLower(GermanNormalizer.NormalForm(w, s))
  {
    var lw := LowerWord(w);
    forall i | 0 <= i < |s|
      ensures GermanNormalizer.KeepClass(w)(s[i]) == GermanNormalizer.KeepClass(lw)(s[i])
    {
    }
    FilterCongruent(GermanNormalizer.KeepClass(w), GermanNormalizer.KeepClass(lw), s);
    GermanNormalizer.NormalFormIsNormal(lw, s);
    var n := GermanNormalizer.NormalForm(w, s);
    assert n == GermanNormalizer.NormalForm(lw, s);
    forall i | 0 <= i < |n| ensures LowerChar(n[i]) == n[i] {
      assert n[i] == ' ' || lw(n[i]);
    }
  }

  /** `normalize_spanish_text(text)` as written. Its result is the normal form of the
      lower-cased text: Spanish word characters separated by single spaces, nothing at the ends,
      and all of it lower-case. */
  function NormalizeSpanishText(isWord: char -> bool, text: string): (r: string)
    ensures r == GermanNormalizer.NormalForm(SpanishWord(isWord), Lower(text))
    ensures GermanNormalizer.IsNormal(SpanishWord(isWord), r)
    ensures IsLower(r)
  {
    var lowered := Lower(text);
    var kept := Filter(GermanNormalizer.KeepClass(SpanishWord(isWord)), lowered);
    CollapseStrip(kept);
    GermanNormalizer.NormalFormIsNormal(SpanishWord(isWord), lowered);
    LowerIsLower(text);
    NormalFormOfLower(SpanishWord(isWord), lowered);
    Strip(CollapseWs(kept))
  }

  /** Normalising twice is normalising once. */
  lemma NormalizeSpanishIdempotent(isWord: char -> bool, text: string)
    ensures NormalizeSpanishText(isWord, NormalizeSpanishText(isWord, text))
         == NormalizeSpanishText(isWord, text)
  {
    var n := NormalizeSpanishText(isWord, text);
    LowerOfLower(n);
    GermanNormalizer.NormalizeIdempotent(SpanishWord(isWord), Lower(text));
  }

  /** Empty and whitespace-only text normalises to the empty string. */
  lemma BlankNormalizesEmpty(isWord: char -> bool, text: string)
    requires AllSpace(text)
    ensures NormalizeSpanishText(isWord, text) == ""
  {
    var lowered := Lower(text);
    assert lowered == text by {
      forall i | 0 <= i < |text| ensures lowered[i] == text[i] {
        SpaceIsLower(text[i]);
      }
    }
    var keep := GermanNormalizer.KeepClass(SpanishWord(isWord));
    assert All(keep, text);
    FilterKeepsAll(keep, text);
    SplitWsAllSpace(text);
  }

  /** Inverted marks go, the accented letter stays, capitals are lowered: `"¡Sí!"` gives `"sí"`
      whenever `\w` does not hold for `¡` and `!` (it does not in Python). */
  lemma InvertedMarksRemoved(isWord: char -> bool)
    requires !isWord('\U{A1}') && !isWord('!') && isWord('s')
    ensures NormalizeSpanishText(isWord, "\U{A1}S\U{ED}!") == "s\U{ED}"
  {
    assert Lower("\U{A1}S\U{ED}!") == "\U{A1}s\U{ED}!";
    var keep := GermanNormalizer.KeepClass(SpanishWord(isWord));
    assert Filter(keep, "\U{A1}s\U{ED}!") == "s\U{ED}" by {
      var w := SpanishWord(isWord);
      assert !SpanishLetter('!') && !SpanishLetter('\U{A1}') && SpanishLetter('\U{ED}');
      assert !IsSpace('!') && !IsSpace('\U{A1}');
      assert !w('!') && !w('\U{A1}') && w('\U{ED}');
      assert !keep('!') && !keep('\U{A1}') && keep('s') && keep('\U{ED}');
      assert Filter(keep, "!") == "" by { assert "!"[1..] == ""; }
      assert Filter(keep, "\U{ED}!") == "\U{ED}" by { assert "\U{ED}!"[1..] == "!"; }
      assert Filter(keep, "s\U{ED}!") == "s\U{ED}" by { assert "s\U{ED}!"[1..] == "\U{ED}!"; }
      assert "\U{A1}s\U{ED}!"[1..] == "s\U{ED}!";
    }
    SplitWsWord("s\U{ED}");
    assert Join(" ", ["s\U{ED}"]) == "s\U{ED}";
  }

  // ---------------------------------------------------------------------------
  // accent removal
  // ---------------------------------------------------------------------------

  /** `s.replace(a, b)` for single characters. */
  function ReplaceChar(s: string, a: char, b: char): (r: string)
    ensures |r| == |s|
    ensures forall i :: 0 <= i < |s| ==> r[i] == (if s[i] == a then b else s[i])
  {
    seq(|s|, i requires 0 <= i < |s| => if s[i] == a then b else s[i])
  }

  /** The accent-free base of a character: the fourteen Spanish accented letters, lower- and
      upper-case, lose their mark; every other character stays. */
  function AccentBase(c: char): char
  {
    match c
    case '\U{E1}' => 'a' case '\U{E9}' => 'e' case '\U{ED}' => 'i' case '\U{F3}' => 'o'
    case '\U{FA}' => 'u' case '\U{F1}' => 'n' case '\U{FC}' => 'u'
    case '\U{C1}' => 'A' case '\U{C9}' => 'E' case '\U{CD}' => 'I' case '\U{D3}' => 'O'
    case '\U{DA}' => 'U' case '\U{D1}' => 'N' case '\U{DC}' => 'U'
    case _ => c
  }

  /** The lower-case half of the replace loop, in the table's order. */
  function RemoveLowerAccents(text: string): (r: string)
    ensures |r| == |text|
    ensures forall i :: 0 <= i < |text| && !('\U{C0}' <= text[i] <= '\U{DE}') ==> r[i] == AccentBase(text[i])
    ensures forall i :: 0 <= i < |text| && '\U{C0}' <= text[i] <= '\U{DE}' ==> r[i] == text[i]
  {
    var s1 := ReplaceChar(text, '\U{E1}', 'a');
    var s2 := ReplaceChar(s1, '\U{E9}', 'e');
    var s3 := ReplaceChar(s2, '\U{ED}', 'i');
    var s4 := ReplaceChar(s3, '\U{F3}', 'o');
    var s5 := ReplaceChar(s4, '\U{FA}', 'u');
    var s6 := ReplaceChar(s5, '\U{F1}', 'n');
    ReplaceChar(s6, '\U{FC}', 'u')
  }

  /** The upper-case half of the replace loop, in the table's order. */
  function RemoveUpperAccents(text: string): (r: string)
    ensures |r| == |text|
    ensures forall i :: 0 <= i < |text| && '\U{C0}' <= text[i] <= '\U{DE}' ==> r[i] == AccentBase(text[i])
    ensures forall i :: 0 <= i < |text| && !('\U{C0}' <= text[i] <= '\U{DE}') ==> r[i] == text[i]
  {
    var s1 := ReplaceChar(text, '\U{C1}', 'A');
    var s2 := ReplaceChar(s1, '\U{C9}', 'E');
    var s3 := ReplaceChar(s2, '\U{CD}', 'I');
    var s4 := ReplaceChar(s3, '\U{D3}', 'O');
    var s5 := ReplaceChar(s4, '\U{DA}', 'U');
    var s6 := ReplaceChar(s5, '\U{D1}', 'N');
    ReplaceChar(s6, '\U{DC}', 'U')
  }

  /** `remove_spanish_accents(text)`: the fourteen `replace` calls of the loop, in table order.
      The length stays and each character becomes its base, since no replacement produces a
      character that a later one replaces. */
  function RemoveSpanishAccents(text: string): (r: string)
    ensures |r| == |text|
    ensures forall i :: 0 <= i < |text| ==> r[i] == AccentBase(text[i])
  {
    var lower := RemoveLowerAccents(text);
    var r := RemoveUpperAccents(lower);
    assert forall i :: 0 <= i < |text| ==> ('\U{C0}' <= lower[i] <= '\U{DE}' <==> '\U{C0}' <= text[i] <= '\U{DE}');
    r
  }

  /** A base is its own base. */
  lemma AccentBaseIdempotent(c: char)
    ensures AccentBase(AccentBase(c)) == AccentBase(c)
  {
  }

  /** Taking the base keeps case. */
  lemma AccentBaseLower(c: char)
    ensures AccentBase(LowerChar(c)) == LowerChar(AccentBase(c))
  {
  }

  /** Removing accents twice is removing them once. */
  lemma RemoveAccentsIdempotent(text: string)
    ensures RemoveSpanishAccents(RemoveSpanishAccents(text)) == RemoveSpanishAccents(text)
  {
    var r := RemoveSpanishAccents(text);
    forall i | 0 <= i < |text| ensures RemoveSpanishAccents(r)[i] == r[i] {
      AccentBaseIdempotent(text[i]);
    }
  }

  /** Removing accents keeps case: it commutes with `lower()`. */
  lemma RemoveAccentsKeepsCase(text: string)
    ensures RemoveSpanishAccents(Lower(text)) == Lower(RemoveSpanishAccents(text))
  {
    forall i | 0 <= i < |text|
      ensures RemoveSpanishAccents(Lower(text))[i] == Lower(RemoveSpanishAccents(text))[i]
    {
      AccentBaseLower(text[i]);
    }
  }

  /** Only the fourteen letters change, and each of them does. */
  lemma AccentBaseChanges(c: char)
    ensures AccentBase(c) != c <==> SpanishLetter(c) || c in "\U{C1}\U{C9}\U{CD}\U{D3}\U{DA}\U{D1}\U{DC}"
  {
  }

  /** The base of a lower-case character is a lower-case character without a Spanish accent. */
  lemma LowerBase(c: char)
    requires LowerChar(c) == c
    ensures !SpanishLetter(AccentBase(c)) && LowerChar(AccentBase(c)) == AccentBase(c)
  {
  }

  /** `normalize_spanish_text_strict(text)`: the normal form with the accents then removed,
      character by character. Nothing accented and nothing upper-case is left, and removing
      accents again changes nothing. */
  function NormalizeSpanishTextStrict(isWord: char -> bool, text: string): (r: string)
    ensures |r| == |NormalizeSpanishText(isWord, text)|
    ensures forall i :: 0 <= i < |r| ==> r[i] == AccentBase(NormalizeSpanishText(isWord, text)[i])
    ensures forall i :: 0 <= i < |r| ==> !SpanishLetter(r[i]) && LowerChar(r[i]) == r[i]
    ensures RemoveSpanishAccents(r) == r
  {
    var n := NormalizeSpanishText(isWord, text);
    var r := RemoveSpanishAccents(n);
    forall i | 0 <= i < |r| ensures !SpanishLetter(r[i]) && LowerChar(r[i]) == r[i] {
      LowerBase(n[i]);
    }
    RemoveAccentsIdempotent(n);
    r
  }
}
