/** The German text normaliser (`normalize_text` and its alias `_normalise`):
    punctuation is deleted, every whitespace run becomes one space, and the ends are stripped.
    Regex `\w` is the parameter `isWord`; every property below holds for any such class. */
module GermanNormalizer {
  import opened Strings

  /** The characters `re.sub(r"[^\w\s]", "", t)` keeps. */
  function KeepClass(isWord: char -> bool): char -> bool
  {
    c => isWord(c) || IsSpace(c)
  }

  /** A normalised string: word characters separated by single spaces, nothing at the ends. */
  predicate IsNormal(isWord: char -> bool, s: string)
  {
    (|s| == 0 || (s[0] != ' ' && s[|s| - 1] != ' '))
    && (forall i :: 0 <= i < |s| ==> s[i] == ' ' || (isWord(s[i]) && !IsSpace(s[i])))
    && (forall i :: 0 <= i < |s| - 1 ==> s[i] == ' ' ==> s[i + 1] != ' ')
  }

  /** The normal form of `text`: the words (whitespace-separated runs) of its kept characters,
      joined by single spaces. This is what `normalize_text` computes; see `NormalizeText`. */
  function NormalForm(isWord: char -> bool, text: string): string
  {
    Join(" ", SplitWs(Filter(KeepClass(isWord), text)))
  }

  /** The pieces `split()` cuts out of `s` are slices of `s`, so they inherit its character class. */
  lemma {:induction false} SplitFromClass(p: char -> bool, s: string, i: nat)
    requires i <= |s|
    requires forall k :: 0 <= k < |s| ==> p(s[k]) || IsSpace(s[k])
    ensures forall n, k :: 0 <= n < |SplitFrom(s, i)| && 0 <= k < |SplitFrom(s, i)[n]| ==>
              p(SplitFrom(s, i)[n][k])
    decreases |s| - i
  {
    var j := SkipSpace(s, i);
    if j < |s| {
      var w := SkipWord(s, j);
      SplitFromClass(p, s, w);
      var rest := SplitFrom(s, w);
      assert SplitFrom(s, i) == [s[j..w]] + rest;
      forall n, k | 0 <= n < |SplitFrom(s, i)| && 0 <= k < |SplitFrom(s, i)[n]|
        ensures p(SplitFrom(s, i)[n][k])
      {
        if n == 0 {
          assert SplitFrom(s, i)[n][k] == s[j + k];
        } else {
          assert SplitFrom(s, i)[n] == rest[n - 1];
        }
      }
    }
  }

  /** A single-space join of non-empty, whitespace-free words of class `isWord` is normal. */
  lemma {:induction false} JoinIsNormal(isWord: char -> bool, ws: seq<string>)
    requires WordList(ws)
    requires forall n, k :: 0 <= n < |ws| && 0 <= k < |ws[n]| ==> isWord(ws[n][k])
    ensures IsNormal(isWord, Join(" ", ws))
    decreases |ws|
  {
    if |ws| == 1 {
      assert Join(" ", ws) == ws[0];
    } else if |ws| > 1 {
      JoinIsNormal(isWord, ws[1..]);
      var w := ws[0];
      var r := Join(" ", ws[1..]);
      var j := w + " " + r;
      assert Join(" ", ws) == j;
      JoinWordsEnds(ws[1..]);
      forall i | 0 <= i < |j| ensures j[i] == ' ' || (isWord(j[i]) && !IsSpace(j[i])) {
        if i < |w| {
          assert j[i] == ws[0][i];
        } else if i > |w| {
          assert j[i] == r[i - |w| - 1];
        }
      }
      forall i | 0 <= i < |j| - 1 ensures j[i] == ' ' ==> j[i + 1] != ' ' {
        if i < |w| - 1 {
          assert j[i] == w[i];
        } else if i == |w| - 1 {
          assert j[i + 1] == ' ' && j[i] == w[|w| - 1];
        } else if i == |w| {
          assert j[i + 1] == r[0];
        } else {
          assert j[i] == r[i - |w| - 1] && j[i + 1] == r[i - |w|];
        }
      }
    }
  }

  /** Normalised text consists of word characters separated by single spaces, with nothing at the ends. */
  lemma NormalFormIsNormal(isWord: char -> bool, text: string)
    ensures IsNormal(isWord, NormalForm(isWord, text))
  {
    var kept := Filter(KeepClass(isWord), text);
    var ws := SplitWs(kept);
    SplitWsWords(kept);
    assert forall k :: 0 <= k < |kept| ==> isWord(kept[k]) || IsSpace(kept[k]) by {
      assert All(KeepClass(isWord), kept);
    }
    SplitFromClass(isWord, kept, 0);
    JoinIsNormal(isWord, ws);
  }

  /** Normal text is kept whole by the punctuation filter. */
  lemma NormalIsKept(isWord: char -> bool, s: string)
    requires IsNormal(isWord, s)
    ensures Filter(KeepClass(isWord), s) == s
  {
    assert forall i :: 0 <= i < |s| ==> KeepClass(isWord)(s[i]);
    FilterKeepsAll(KeepClass(isWord), s);
  }

  /** Normal text comes back unchanged from `split()` followed by a single-space join. */
  lemma NormalSplitJoin(isWord: char -> bool, text: string)
    ensures SplitWs(NormalForm(isWord, text)) == SplitWs(Filter(KeepClass(isWord), text))
  {
    var ws := SplitWs(Filter(KeepClass(isWord), text));
    SplitWsWords(Filter(KeepClass(isWord), text));
    SplitWsJoin(ws);
  }

  /** Normalising twice changes nothing. */
  lemma NormalizeIdempotent(isWord: char -> bool, text: string)
    ensures NormalForm(isWord, NormalForm(isWord, text)) == NormalForm(isWord, text)
  {
    var n := NormalForm(isWord, text);
    NormalFormIsNormal(isWord, text);
    NormalIsKept(isWord, n);
    NormalSplitJoin(isWord, text);
  }

  /** Stripping before normalising makes no difference. */
  lemma NormalizeStrip(isWord: char -> bool, y: string)
    ensures NormalForm(isWord, Strip(y)) == NormalForm(isWord, y)
  {
    var a, b := StripParts(y);
    KeptFramed(isWord, a, Strip(y), b);
    SplitWsFramed(a, Filter(KeepClass(isWord), Strip(y)), b);
  }

  /** Whitespace framing survives the punctuation filter. */
  lemma KeptFramed(isWord: char -> bool, a: string, m: string, b: string)
    requires AllSpace(a) && AllSpace(b)
    ensures Filter(KeepClass(isWord), a + m + b) == a + Filter(KeepClass(isWord), m) + b
  {
    var keep := KeepClass(isWord);
    assert forall i :: 0 <= i < |a| ==> keep(a[i]);
    assert forall i :: 0 <= i < |b| ==> keep(b[i]);
    FilterKeepsAll(keep, a);
    FilterKeepsAll(keep, b);
    assert a + m + b == a + (m + b);
    FilterAppend(keep, a, m + b);
    FilterAppend(keep, m, b);
  }

  /** `split()` of the kept text of `a + " " + b` is that of `a` followed by that of `b`. */
  lemma KeptSplitAround(isWord: char -> bool, a: string, b: string)
    ensures var keep := KeepClass(isWord);
            SplitWs(Filter(keep, a + " " + b)) == SplitWs(Filter(keep, a)) + SplitWs(Filter(keep, b))
  {
    var keep := KeepClass(isWord);
    var fa, fb := Filter(keep, a), Filter(keep, b);
    assert Filter(keep, a + " " + b) == fa + (" " + fb) by {
      FilterAppend(keep, a, " " + b);
      FilterAppend(keep, " ", b);
      assert IsSpace(" "[0]);
      FilterKeepsAll(keep, " ");
      assert a + " " + b == a + (" " + b);
    }
    assert SplitWs(" " + fb) == SplitWs(fb) by {
      SplitWsAppend(" ", fb);
      SplitWsAllSpace(" ");
      assert [] + SplitWs(fb) == SplitWs(fb);
    }
    SplitWsAppend(fa, " " + fb);
  }

  /** The aligner's running value: normalising the running normal form, a space and the next word
      is normalising the two texts joined by a space. */
  lemma NormalizeIncremental(isWord: char -> bool, a: string, b: string)
    ensures NormalForm(isWord, Strip(NormalForm(isWord, a) + " " + b))
         == NormalForm(isWord, a + " " + b)
  {
    var n := NormalForm(isWord, a);
    NormalizeStrip(isWord, n + " " + b);
    KeptSplitAround(isWord, n, b);
    KeptSplitAround(isWord, a, b);
    NormalFormIsNormal(isWord, a);
    NormalIsKept(isWord, n);
    NormalSplitJoin(isWord, a);
  }

  /** `normalize_text(text)` as written: delete everything that is neither a word character nor
      whitespace, turn each whitespace run into one space, strip. It computes the normal form. */
  function NormalizeText(isWord: char -> bool, text: string): (r: string)
    ensures r == NormalForm(isWord, text)
    ensures IsNormal(isWord, r)
  {
    var kept := Filter(KeepClass(isWord), text);
    CollapseStrip(kept);
    NormalFormIsNormal(isWord, text);
    Strip(CollapseWs(kept))
  }

  /** `normalize_text` is idempotent. */
  lemma NormalizeTextIdempotent(isWord: char -> bool, text: string)
    ensures NormalizeText(isWord, NormalizeText(isWord, text)) == NormalizeText(isWord, text)
  {
    NormalizeIdempotent(isWord, text);
  }
}
