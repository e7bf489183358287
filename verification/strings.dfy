/** Python `str` operations the modelled code relies on, written over `seq<char>`.
    Whitespace is Python's `str.isspace` (the set the regex class `\s` matches);
    `str.split()`, `strip()`, `join`, `split(sep)`, `find`, slicing and `lower()` follow. */
module Strings {
  import opened Prelude

  /** Python's `str.isspace` for one character. */
  predicate IsSpace(c: char) {
    c == ' ' || ('\t' <= c <= '\r') || ('\U{1C}' <= c <= '\U{1F}') || c == '\U{85}' || c == '\U{A0}'
    || c == '\U{1680}' || ('\U{2000}' <= c <= '\U{200A}') || c == '\U{2028}' || c == '\U{2029}'
    || c == '\U{202F}' || c == '\U{205F}' || c == '\U{3000}'
  }

  predicate NoSpace(s: string) {
    forall i :: 0 <= i < |s| ==> !IsSpace(s[i])
  }

  predicate AllSpace(s: string) {
    forall i :: 0 <= i < |s| ==> IsSpace(s[i])
  }

  predicate HasNonSpace(s: string) {
    exists i :: 0 <= i < |s| && !IsSpace(s[i])
  }

  /** Every character of `s` satisfies `p`. */
  predicate All(p: char -> bool, s: string) {
    forall i :: 0 <= i < |s| ==> p(s[i])
  }

  // ---------------------------------------------------------------------------
  // strip(), measured by indices
  // ---------------------------------------------------------------------------

  /** The first index at or after `i` that holds no whitespace (or `|s|`). */
  function SkipSpace(s: string, i: nat): (r: nat)
    requires i <= |s|
    ensures i <= r <= |s|
    ensures r == |s| || !IsSpace(s[r])
    ensures forall k :: i <= k < r ==> IsSpace(s[k])
    decreases |s| - i
  {
    if i == |s| || !IsSpace(s[i]) then i else SkipSpace(s, i + 1)
  }

  /** The first index at or after `i` that holds whitespace (or `|s|`). */
  function SkipWord(s: string, i: nat): (r: nat)
    requires i <= |s|
    ensures i <= r <= |s|
    ensures r == |s| || IsSpace(s[r])
    ensures forall k :: i <= k < r ==> !IsSpace(s[k])
    decreases |s| - i
  {
    if i == |s| || IsSpace(s[i]) then i else SkipWord(s, i + 1)
  }

  /** The index just past the last non-whitespace character before `j` (or 0). */
  function TrimEnd(s: string, j: nat): (r: nat)
    requires j <= |s|
    ensures r <= j
    ensures r == 0 || !IsSpace(s[r - 1])
    ensures forall k :: r <= k < j ==> IsSpace(s[k])
    decreases j
  {
    if j == 0 || !IsSpace(s[j - 1]) then j else TrimEnd(s, j - 1)
  }

  /** `s.strip()`. */
  function Strip(s: string): (r: string)
    ensures |r| <= |s|
    ensures |r| == 0 || (!IsSpace(r[0]) && !IsSpace(r[|r| - 1]))
  {
    var lo := SkipSpace(s, 0);
    var hi := TrimEnd(s, |s|);
    if lo < hi then s[lo..hi] else []
  }

  /** The whitespace run starting at `i` ends exactly at `j`. */
  lemma {:induction false} SkipSpaceExact(s: string, i: nat, j: nat)
    requires i <= j <= |s|
    requires forall k :: i <= k < j ==> IsSpace(s[k])
    requires j == |s| || !IsSpace(s[j])
    ensures SkipSpace(s, i) == j
    decreases j - i
  {
    if i < j {
      SkipSpaceExact(s, i + 1, j);
    }
  }

  lemma {:induction false} SkipWordExact(s: string, i: nat, j: nat)
    requires i <= j <= |s|
    requires forall k :: i <= k < j ==> !IsSpace(s[k])
    requires j == |s| || IsSpace(s[j])
    ensures SkipWord(s, i) == j
    decreases j - i
  {
    if i < j {
      SkipWordExact(s, i + 1, j);
    }
  }

  lemma {:induction false} TrimEndExact(s: string, i: nat, j: nat)
    requires i <= j <= |s|
    requires forall k :: i <= k < j ==> IsSpace(s[k])
    requires i == 0 || !IsSpace(s[i - 1])
    ensures TrimEnd(s, j) == i
    decreases j - i
  {
    if i < j {
      TrimEndExact(s, i, j - 1);
    }
  }

  /** `strip()` keeps exactly the middle of a string framed by whitespace. */
  lemma StripFramed(a: string, m: string, b: string)
    requires AllSpace(a) && AllSpace(b)
    requires |m| == 0 || (!IsSpace(m[0]) && !IsSpace(m[|m| - 1]))
    ensures Strip(a + m + b) == m
  {
    var s := a + m + b;
    if |m| == 0 {
      assert s == a + b;
      SkipSpaceExact(s, 0, |s|);
    } else {
      SkipSpaceExact(s, 0, |a|);
      TrimEndExact(s, |a| + |m|, |s|);
      assert s[|a|..|a| + |m|] == m;
    }
  }

  /** Every string is its `strip()` framed by whitespace. */
  lemma StripParts(s: string) returns (a: string, b: string)
    ensures AllSpace(a) && AllSpace(b)
    ensures s == a + Strip(s) + b
  {
    var lo := SkipSpace(s, 0);
    var hi := TrimEnd(s, |s|);
    if lo < hi {
      a, b := s[..lo], s[hi..];
      assert Strip(s) == s[lo..hi];
      ThreeParts(s, lo, hi);
    } else {
      a, b := s, [];
      assert Strip(s) == [];
      BlankParts(s, lo, hi);
      assert s == a + [] + b;
    }
  }

  lemma ThreeParts<T>(s: seq<T>, lo: nat, hi: nat)
    requires lo <= hi <= |s|
    ensures s == s[..lo] + s[lo..hi] + s[hi..]
  { }

  /** When the leading and trailing whitespace runs meet, the string is all whitespace. */
  lemma BlankParts(s: string, lo: nat, hi: nat)
    requires lo == SkipSpace(s, 0) && hi == TrimEnd(s, |s|) && hi <= lo
    ensures AllSpace(s)
  {
    forall k | 0 <= k < |s| ensures IsSpace(s[k]) {
      assert k < lo || hi <= k;
    }
  }

  /** No whitespace at either end: what `strip()` leaves. */
  predicate Trimmed(s: string) {
    |s| == 0 || (!IsSpace(s[0]) && !IsSpace(s[|s| - 1]))
  }

  /** A string is its own `strip()` exactly when it has no whitespace at either end. */
  lemma TrimmedIsStripped(s: string)
    ensures Trimmed(s) <==> Strip(s) == s
  {
    if Trimmed(s) {
      StripFramed([], s, []);
      assert [] + s + [] == s;
    }
  }

  /** A string without whitespace is its own `strip()`. */
  lemma StripNoSpace(s: string)
    ensures NoSpace(s) ==> Strip(s) == s
  {
    if NoSpace(s) {
      StripFramed([], s, []);
      assert [] + s + [] == s;
    }
  }

  lemma StripIdempotent(s: string)
    ensures Strip(Strip(s)) == Strip(s)
  {
    var r := Strip(s);
    StripFramed([], r, []);
    assert [] + r + [] == r;
  }

  // ---------------------------------------------------------------------------
  // "".join and sep.join
  // ---------------------------------------------------------------------------

  /** `"".join(parts)`. */
  function Concat(parts: seq<string>): string
  {
    if |parts| == 0 then [] else parts[0] + Concat(parts[1..])
  }

  lemma {:induction false} ConcatAppend(a: seq<string>, b: seq<string>)
    ensures Concat(a + b) == Concat(a) + Concat(b)
    decreases |a|
  {
    if |a| == 0 {
      assert a + b == b;
    } else {
      assert (a + b)[1..] == a[1..] + b;
      ConcatAppend(a[1..], b);
    }
  }

  /** `sep.join(parts)`. */
  function Join(sep: string, parts: seq<string>): string
  {
    if |parts| == 0 then []
    else if |parts| == 1 then parts[0]
    else parts[0] + sep + Join(sep, parts[1..])
  }

  lemma {:induction false} JoinSnoc(sep: string, parts: seq<string>, x: string)
    requires |parts| >= 1
    ensures Join(sep, parts + [x]) == Join(sep, parts) + sep + x
    decreases |parts|
  {
    if |parts| == 1 {
      assert (parts + [x])[1..] == [x];
    } else {
      assert (parts + [x])[1..] == parts[1..] + [x];
      JoinSnoc(sep, parts[1..], x);
    }
  }

  lemma {:induction false} JoinAppend(sep: string, a: seq<string>, b: seq<string>)
    requires |a| >= 1 && |b| >= 1
    ensures Join(sep, a + b) == Join(sep, a) + sep + Join(sep, b)
    decreases |a|
  {
    if |a| == 1 {
      assert (a + b)[1..] == b;
    } else {
      assert (a + b)[1..] == a[1..] + b;
      JoinAppend(sep, a[1..], b);
    }
  }

  /** `sep.join(parts)` of non-empty parts starts with the first part and ends with the last
      one. */
  lemma {:induction false} JoinEnds(sep: string, parts: seq<string>)
    requires |parts| > 0 && forall k :: 0 <= k < |parts| ==> |parts[k]| > 0
    ensures |Join(sep, parts)| > 0
    ensures Join(sep, parts)[0] == parts[0][0]
    ensures Join(sep, parts)[|Join(sep, parts)| - 1] == parts[|parts| - 1][|parts[|parts| - 1]| - 1]
    decreases |parts|
  {
    if |parts| > 1 {
      JoinEnds(sep, parts[1..]);
    }
  }

  /** The concatenation of a list of lists. */
  function Flatten<T>(groups: seq<seq<T>>): (r: seq<T>)
    decreases |groups|
  {
    if |groups| == 0 then [] else groups[0] + Flatten(groups[1..])
  }

  /** Appending a group appends its elements. */
  lemma {:induction false} FlattenSnoc<T>(groups: seq<seq<T>>, g: seq<T>)
    ensures Flatten(groups + [g]) == Flatten(groups) + g
    decreases |groups|
  {
    if |groups| == 0 {
      assert Flatten([g]) == g + Flatten([]);
    } else {
      assert (groups + [g])[1..] == groups[1..] + [g];
      FlattenSnoc(groups[1..], g);
    }
  }

  /** Joining each group and then the results with one separator joins the flattened list:
      the separator cannot tell the two levels apart, as long as no group is empty. */
  lemma {:induction false} JoinJoin(sep: string, groups: seq<seq<string>>)
    requires forall k :: 0 <= k < |groups| ==> |groups[k]| != 0
    ensures Join(sep, seq(|groups|, k requires 0 <= k < |groups| => Join(sep, groups[k]))) == Join(sep, Flatten(groups))
    decreases |groups|
  {
    var joined := seq(|groups|, k requires 0 <= k < |groups| => Join(sep, groups[k]));
    if |groups| == 1 {
      assert Flatten(groups) == groups[0] + Flatten(groups[1..]);
      assert groups[0] + [] == groups[0];
    } else if |groups| > 1 {
      var rest := groups[1..];
      var joinedRest := seq(|rest|, k requires 0 <= k < |rest| => Join(sep, rest[k]));
      assert joined[1..] == joinedRest;
      JoinJoin(sep, rest);
      assert |Flatten(rest)| != 0 by {
        assert Flatten(rest) == rest[0] + Flatten(rest[1..]);
      }
      JoinAppend(sep, groups[0], Flatten(rest));
    }
  }

  // ---------------------------------------------------------------------------
  // str.split() with no argument
  // ---------------------------------------------------------------------------

  /** Non-empty, whitespace-free pieces: the shape of what `split()` produces. */
  predicate WordList(ws: seq<string>) {
    forall k :: 0 <= k < |ws| ==> |ws[k]| != 0 && NoSpace(ws[k])
  }

  /** The whitespace-separated runs of `s` that start at or after index `i`. */
  function SplitFrom(s: string, i: nat): seq<string>
    requires i <= |s|
    decreases |s| - i
  {
    var j := SkipSpace(s, i);
    if j == |s| then []
    else
      var k := SkipWord(s, j);
      [s[j..k]] + SplitFrom(s, k)
  }

  /** `s.split()`: the maximal runs of non-whitespace characters, in order. */
  function SplitWs(s: string): seq<string>
  {
    SplitFrom(s, 0)
  }

  lemma {:induction false} SplitFromWords(s: string, i: nat)
    requires i <= |s|
    ensures WordList(SplitFrom(s, i))
    decreases |s| - i
  {
    var j := SkipSpace(s, i);
    if j < |s| {
      var k := SkipWord(s, j);
      SplitFromWords(s, k);
      var r := SplitFrom(s, k);
      assert SplitFrom(s, i) == [s[j..k]] + r;
      forall n | 0 <= n < |[s[j..k]] + r|
        ensures |([s[j..k]] + r)[n]| != 0 && NoSpace(([s[j..k]] + r)[n])
      {
        if n > 0 {
          assert ([s[j..k]] + r)[n] == r[n - 1];
        }
      }
    }
  }

  lemma SplitWsWords(s: string)
    ensures WordList(SplitWs(s))
  {
    SplitFromWords(s, 0);
  }

  /** Leading whitespace does not change what is split off. */
  lemma SplitFromSkip(s: string, i: nat)
    requires i <= |s|
    ensures SplitFrom(s, SkipSpace(s, i)) == SplitFrom(s, i)
  {
    var j := SkipSpace(s, i);
    SkipSpaceExact(s, j, j);
  }

  /** A split position `i` inside `x` is untouched by what follows `x`,
      when `x` and `y` meet at whitespace. */
  lemma {:induction false} SkipSpaceAppend(x: string, y: string, i: nat)
    requires i <= |x|
    ensures SkipSpace(x, i) < |x| ==> SkipSpace(x + y, i) == SkipSpace(x, i)
    ensures SkipSpace(x, i) == |x| ==> SkipSpace(x + y, i) == |x| + SkipSpace(y, 0)
    decreases |x| - i
  {
    var s := x + y;
    var j := SkipSpace(x, i);
    if j < |x| {
      SkipSpaceExact(s, i, j);
    } else {
      var m := SkipSpace(y, 0);
      assert forall k :: i <= k < |x| + m ==> IsSpace(s[k]) by {
        forall k | i <= k < |x| + m ensures IsSpace(s[k]) {
          if k >= |x| { assert s[k] == y[k - |x|]; }
        }
      }
      assert |x| + m == |s| || s[|x| + m] == y[m];
      SkipSpaceExact(s, i, |x| + m);
    }
  }

  /** `y` sits in `s` at offset `off` and runs to the end of `s`. */
  predicate Suffix(s: string, y: string, off: nat) {
    |s| == off + |y| && forall k :: off <= k < |s| ==> s[k] == y[k - off]
  }

  /** The whitespace run at `j` in `y` is the run at `off + j` in `s`, shifted. */
  lemma SkipSpaceShift(s: string, y: string, off: nat, j: nat)
    requires Suffix(s, y, off) && j <= |y|
    ensures SkipSpace(s, off + j) == off + SkipSpace(y, j)
  {
    var a := SkipSpace(y, j);
    assert forall k :: off + j <= k < off + a ==> s[k] == y[k - off];
    assert a == |y| || s[off + a] == y[a];
    SkipSpaceExact(s, off + j, off + a);
  }

  /** The word at `a` in `y` is the word at `off + a` in `s`, shifted. */
  lemma SkipWordShift(s: string, y: string, off: nat, a: nat)
    requires Suffix(s, y, off) && a <= |y|
    ensures SkipWord(s, off + a) == off + SkipWord(y, a)
    ensures s[off + a..off + SkipWord(y, a)] == y[a..SkipWord(y, a)]
  {
    var b := SkipWord(y, a);
    assert forall k :: off + a <= k < off + b ==> s[k] == y[k - off];
    assert b == |y| || s[off + b] == y[b];
    SkipWordExact(s, off + a, off + b);
  }

  /** One step of `split()`: the word at the next non-whitespace position, then the rest. */
  lemma SplitFromStep(s: string, i: nat, j: nat, k: nat)
    requires i <= |s| && j == SkipSpace(s, i) && j < |s| && k == SkipWord(s, j)
    ensures SplitFrom(s, i) == [s[j..k]] + SplitFrom(s, k)
  {
  }

  /** Split positions inside a suffix are only shifted by its offset. */
  lemma {:induction false} SplitFromSuffix(s: string, y: string, off: nat, j: nat)
    requires Suffix(s, y, off) && j <= |y|
    ensures SplitFrom(s, off + j) == SplitFrom(y, j)
    decreases |y| - j
  {
    var a := SkipSpace(y, j);
    if a < |y| {
      var b := SkipWord(y, a);
      SplitFromSuffix(s, y, off, b);
      SkipSpaceShift(s, y, off, j);
      SkipWordShift(s, y, off, a);
      SuffixWordStep(s, y, off, j, a, b);
    } else {
      SkipSpaceShift(s, y, off, j);
      SplitFromDone(s, off + j);
      SplitFromDone(y, j);
    }
  }

  /** One word of `split()` at matching positions of two strings, given the rest. */
  lemma {:induction false} SuffixWordStep(s: string, y: string, off: nat, j: nat, a: nat, b: nat)
    requires |s| == off + |y| && j <= |y|
    requires a == SkipSpace(y, j) && a < |y| && b == SkipWord(y, a)
    requires SkipSpace(s, off + j) == off + a && SkipWord(s, off + a) == off + b
    requires s[off + a..off + b] == y[a..b]
    requires SplitFrom(s, off + b) == SplitFrom(y, b)
    ensures SplitFrom(s, off + j) == SplitFrom(y, j)
  {
    assert SplitFrom(s, off + j) == [s[off + a..off + b]] + SplitFrom(s, off + b) by {
      SplitFromStep(s, off + j, off + a, off + b);
    }
    assert SplitFrom(y, j) == [y[a..b]] + SplitFrom(y, b) by {
      SplitFromStep(y, j, a, b);
    }
  }

  /** Nothing is split off a whitespace-only remainder. */
  lemma SplitFromDone(s: string, i: nat)
    requires i <= |s| && SkipSpace(s, i) == |s|
    ensures SplitFrom(s, i) == []
  {
  }

  /** `y` is the suffix of `x + y` at offset `|x|`. */
  lemma AppendSuffix(x: string, y: string)
    ensures Suffix(x + y, y, |x|)
  {
    forall k | |x| <= k < |x + y| ensures (x + y)[k] == y[k - |x|] { }
  }

  /** Split positions inside `y` are only shifted by a prefix `x`. */
  lemma {:induction false} SplitFromShift(x: string, y: string, j: nat)
    requires j <= |y|
    ensures SplitFrom(x + y, |x| + j) == SplitFrom(y, j)
  {
    assert Suffix(x + y, y, |x|) by { AppendSuffix(x, y); }
    SplitFromSuffix(x + y, y, |x|, j);
  }

  /** `split()` distributes over a concatenation whose seam is whitespace. */
  lemma {:induction false} SplitFromAppend(x: string, y: string, i: nat)
    requires i <= |x|
    requires |x| == 0 || |y| == 0 || IsSpace(x[|x| - 1]) || IsSpace(y[0])
    ensures SplitFrom(x + y, i) == SplitFrom(x, i) + SplitFrom(y, 0)
    decreases |x| - i
  {
    var j := SkipSpace(x, i);
    if j == |x| {
      SplitFromAppendBlank(x, y, i);
    } else if SkipWord(x, j) == |x| {
      SplitFromAppendLast(x, y, i);
    } else {
      var s := x + y;
      var k := SkipWord(x, j);
      SkipSpaceAppend(x, y, i);
      assert forall n :: j <= n < k ==> s[n] == x[n];
      assert s[k] == x[k];
      SkipWordExact(s, j, k);
      assert s[j..k] == x[j..k];
      SplitFromAppend(x, y, k);
      assert SplitFrom(s, i) == [x[j..k]] + (SplitFrom(x, k) + SplitFrom(y, 0));
      assert SplitFrom(x, i) == [x[j..k]] + SplitFrom(x, k);
      ConsAppend(x[j..k], SplitFrom(x, k), SplitFrom(y, 0));
    }
  }

  lemma SplitFromAppendBlank(x: string, y: string, i: nat)
    requires i <= |x| && SkipSpace(x, i) == |x|
    ensures SplitFrom(x + y, i) == SplitFrom(x, i) + SplitFrom(y, 0)
  {
    var s := x + y;
    SkipSpaceAppend(x, y, i);
    var m := SkipSpace(y, 0);
    SplitFromSkip(y, 0);
    SplitFromSkip(s, i);
    SplitFromShift(x, y, m);
    assert SplitFrom(x, i) == [];
    assert SplitFrom(x, i) + SplitFrom(y, 0) == SplitFrom(y, 0);
  }

  lemma SplitFromAppendLast(x: string, y: string, i: nat)
    requires i <= |x|
    requires |x| == 0 || |y| == 0 || IsSpace(x[|x| - 1]) || IsSpace(y[0])
    requires SkipSpace(x, i) < |x| && SkipWord(x, SkipSpace(x, i)) == |x|
    ensures SplitFrom(x + y, i) == SplitFrom(x, i) + SplitFrom(y, 0)
  {
    var s := x + y;
    var j := SkipSpace(x, i);
    var k := |x|;
    SkipSpaceAppend(x, y, i);
    assert forall n :: j <= n < k ==> s[n] == x[n];
    assert !IsSpace(x[|x| - 1]);
    assert |y| == 0 || s[|x|] == y[0];
    SkipWordExact(s, j, |x|);
    assert s[j..k] == x[j..k];
    SplitFromShift(x, y, 0);
    assert SplitFrom(x, |x|) == [];
    assert SplitFrom(x, i) == [x[j..k]] + [];
    assert SplitFrom(s, i) == [s[j..k]] + SplitFrom(s, |x| + 0);
    assert [x[j..k]] + [] == [x[j..k]];
  }

  /** A slice is its shorter slice followed by its last element. */
  lemma SliceSnoc<T>(xs: seq<T>, i: nat, j: nat)
    requires i < j <= |xs|
    ensures xs[i..j] == xs[i..j - 1] + [xs[j - 1]]
  {
  }

  lemma ConsAppend<T>(w: T, a: seq<T>, b: seq<T>)
    ensures [w] + (a + b) == ([w] + a) + b
  {
  }

  lemma SplitWsAppend(x: string, y: string)
    requires |x| == 0 || |y| == 0 || IsSpace(x[|x| - 1]) || IsSpace(y[0])
    ensures SplitWs(x + y) == SplitWs(x) + SplitWs(y)
  {
    SplitFromAppend(x, y, 0);
  }

  lemma {:induction false} SplitWsAllSpace(s: string)
    requires AllSpace(s)
    ensures SplitWs(s) == []
  {
    SkipSpaceExact(s, 0, |s|);
  }

  /** `split()` gives no piece exactly when the string is all whitespace. */
  lemma SplitWsEmpty(s: string)
    ensures |SplitWs(s)| == 0 <==> AllSpace(s)
  {
    if AllSpace(s) {
      SplitWsAllSpace(s);
    } else {
      var j := SkipSpace(s, 0);
      assert j < |s|;
    }
  }

  lemma SplitWsWord(w: string)
    requires |w| != 0 && NoSpace(w)
    ensures SplitWs(w) == [w]
  {
    SkipSpaceExact(w, 0, 0);
    SkipWordExact(w, 0, |w|);
    assert w[0..|w|] == w;
    assert SplitFrom(w, |w|) == [];
    assert SplitFrom(w, 0) == [w] + [];
  }

  /** Splitting a single-space join of whitespace-free, non-empty pieces gives the pieces back. */
  lemma {:induction false} SplitWsJoin(ws: seq<string>)
    requires WordList(ws)
    ensures SplitWs(Join(" ", ws)) == ws
    decreases |ws|
  {
    if |ws| == 0 {
      SkipSpaceExact([], 0, 0);
    } else if |ws| == 1 {
      SplitWsWord(ws[0]);
    } else {
      var rest := Join(" ", ws[1..]);
      assert Join(" ", ws) == ws[0] + (" " + rest);
      SplitWsAppend(ws[0], " " + rest);
      SplitWsWord(ws[0]);
      SplitWsAppend(" ", rest);
      SplitWsAllSpace(" ");
      SplitWsJoin(ws[1..]);
      assert ws == [ws[0]] + ws[1..];
    }
  }

  /** Whitespace framing a string does not change its `split()`. */
  lemma SplitWsFramed(a: string, m: string, b: string)
    requires AllSpace(a) && AllSpace(b)
    ensures SplitWs(a + m + b) == SplitWs(m)
  {
    assert a + m + b == a + (m + b);
    SplitWsAppend(a, m + b);
    SplitWsAppend(m, b);
    SplitWsAllSpace(a);
    SplitWsAllSpace(b);
    assert SplitWs(m) + [] == SplitWs(m);
  }

  /** Whitespace around a string does not change its `split()`. */
  lemma SplitWsStrip(s: string)
    ensures SplitWs(Strip(s)) == SplitWs(s)
  {
    var a, b := StripParts(s);
    var m := Strip(s);
    assert s == a + (m + b);
    SplitWsAppend(a, m + b);
    SplitWsAppend(m, b);
    SplitWsAllSpace(a);
    SplitWsAllSpace(b);
    assert a + m + b == a + (m + b);
    assert SplitWs(m) + [] == SplitWs(m);
  }

  // ---------------------------------------------------------------------------
  // re.sub(r"\s+", " ", s) followed by strip()
  // ---------------------------------------------------------------------------

  /** `re.sub(r"\s+", " ", s[i..])`: every maximal run of whitespace becomes one space. */
  function CollapseFrom(s: string, i: nat): string
    requires i <= |s|
    decreases |s| - i
  {
    if i == |s| then []
    else if IsSpace(s[i]) then " " + CollapseFrom(s, SkipSpace(s, i))
    else
      var k := SkipWord(s, i);
      s[i..k] + CollapseFrom(s, k)
  }

  /** `re.sub(r"\s+", " ", s)`. */
  function CollapseWs(s: string): string
  {
    CollapseFrom(s, 0)
  }

  /** From a word start, the collapsed text is the single-space join of the words,
      plus one space when the string ends in whitespace after some word. */
  lemma {:induction false} CollapseShape(s: string, i: nat)
    requires i <= |s|
    requires i == |s| || !IsSpace(s[i])
    ensures CollapseFrom(s, i) == Join(" ", SplitFrom(s, i))
                                 + (if |SplitFrom(s, i)| != 0 && IsSpace(s[|s| - 1]) then " " else "")
    decreases |s| - i
  {
    if i < |s| {
      SkipSpaceExact(s, i, i);
      var k := SkipWord(s, i);
      var piece := s[i..k];
      assert CollapseFrom(s, i) == piece + CollapseFrom(s, k);
      assert SplitFrom(s, i) == [piece] + SplitFrom(s, k);
      if k == |s| {
        SkipSpaceExact(s, k, k);
        assert SplitFrom(s, i) == [piece];
        assert !IsSpace(s[|s| - 1]);
        assert CollapseFrom(s, i) == piece + "";
      } else {
        var m := SkipSpace(s, k);
        SplitFromSkip(s, k);
        CollapseShape(s, m);
        CollapseAfterWord(s, i, k, m, piece);
      }
    }
  }

  /** The step of `CollapseShape` past a word followed by whitespace. */
  lemma CollapseAfterWord(s: string, i: nat, k: nat, m: nat, piece: string)
    requires i < k < |s| && IsSpace(s[k]) && m == SkipSpace(s, k) && m <= |s| && (m == |s| || !IsSpace(s[m]))
    requires CollapseFrom(s, i) == piece + CollapseFrom(s, k)
    requires SplitFrom(s, i) == [piece] + SplitFrom(s, m)
    requires CollapseFrom(s, m) == Join(" ", SplitFrom(s, m))
                                   + (if |SplitFrom(s, m)| != 0 && IsSpace(s[|s| - 1]) then " " else "")
    ensures CollapseFrom(s, i) == Join(" ", SplitFrom(s, i))
                                  + (if |SplitFrom(s, i)| != 0 && IsSpace(s[|s| - 1]) then " " else "")
  {
    assert CollapseFrom(s, k) == " " + CollapseFrom(s, m);
    var rest := SplitFrom(s, m);
    if |rest| == 0 {
      SplitFromNonEmpty(s, m);
      TrailingSpace(s, k, m);
    } else {
      JoinAppend(" ", [piece], rest);
    }
  }

  /** Whitespace that runs to the end of the string leaves the string ending in whitespace. */
  lemma TrailingSpace(s: string, k: nat, m: nat)
    requires k < |s| && IsSpace(s[k]) && m == SkipSpace(s, k) && m == |s|
    ensures IsSpace(s[|s| - 1])
  {
  }

  lemma SplitFromNonEmpty(s: string, m: nat)
    requires m <= |s| && (m == |s| || !IsSpace(s[m]))
    ensures m < |s| ==> |SplitFrom(s, m)| != 0
  {
    if m < |s| {
      SkipSpaceExact(s, m, m);
    }
  }

  /** Joins of `split()` pieces start and end with a non-space character. */
  lemma {:induction false} JoinWordsEnds(ws: seq<string>)
    requires WordList(ws)
    ensures var j := Join(" ", ws);
            |j| == 0 || (!IsSpace(j[0]) && !IsSpace(j[|j| - 1]))
    ensures |ws| != 0 ==> |Join(" ", ws)| != 0
    decreases |ws|
  {
    if |ws| > 1 {
      JoinWordsEnds(ws[1..]);
      var r := Join(" ", ws[1..]);
      assert Join(" ", ws) == ws[0] + " " + r;
    }
  }

  /** `re.sub(r"\s+", " ", s).strip()` equals `" ".join(s.split())`. */
  lemma CollapseStrip(s: string)
    ensures Strip(CollapseWs(s)) == Join(" ", SplitWs(s))
  {
    var m := SkipSpace(s, 0);
    SplitFromSkip(s, 0);
    CollapseShape(s, m);
    var ws := SplitFrom(s, m);
    SplitFromWords(s, m);
    JoinWordsEnds(ws);
    var tail: string := if |ws| != 0 && IsSpace(s[|s| - 1]) then " " else "";
    var body := Join(" ", ws);
    var lead: string := if m == 0 then [] else " ";
    assert CollapseWs(s) == lead + CollapseFrom(s, m) by {
      if m != 0 {
        assert IsSpace(s[0]);
      }
    }
    StripFramedSpaces(lead, body, tail);
  }

  /** `strip()` of a string framed by at most one space on each side. */
  lemma StripFramedSpaces(lead: string, body: string, tail: string)
    requires lead == [] || lead == " "
    requires tail == [] || tail == " "
    requires |body| == 0 || (!IsSpace(body[0]) && !IsSpace(body[|body| - 1]))
    ensures Strip(lead + (body + tail)) == body
  {
    assert lead + (body + tail) == lead + body + tail;
    StripFramed(lead, body, tail);
  }

  // ---------------------------------------------------------------------------
  // character filters, lower(), strip(chars)
  // ---------------------------------------------------------------------------

  /** The characters of `s` that satisfy `p`, in order (a regex deletion of the complement). */
  function Filter(p: char -> bool, s: string): (r: string)
    ensures |r| <= |s|
    ensures All(p, r)
  {
    if |s| == 0 then [] else if p(s[0]) then [s[0]] + Filter(p, s[1..]) else Filter(p, s[1..])
  }

  lemma {:induction false} FilterAppend(p: char -> bool, a: string, b: string)
    ensures Filter(p, a + b) == Filter(p, a) + Filter(p, b)
    decreases |a|
  {
    if |a| == 0 {
      assert a + b == b;
    } else {
      assert (a + b)[1..] == a[1..] + b;
      FilterAppend(p, a[1..], b);
    }
  }

  lemma {:induction false} FilterKeepsAll(p: char -> bool, s: string)
    requires All(p, s)
    ensures Filter(p, s) == s
    decreases |s|
  {
    if |s| != 0 {
      FilterKeepsAll(p, s[1..]);
    }
  }

  /** Two classes that agree on the characters of `s` filter it alike. */
  lemma {:induction false} FilterCongruent(p: char -> bool, q: char -> bool, s: string)
    requires forall i :: 0 <= i < |s| ==> p(s[i]) == q(s[i])
    ensures Filter(p, s) == Filter(q, s)
    decreases |s|
  {
    if |s| != 0 {
      FilterCongruent(p, q, s[1..]);
    }
  }

  /** Filtering keeps only characters of the input, so it keeps any property they all have. */
  lemma {:induction false} FilterPreserves(p: char -> bool, q: char -> bool, s: string)
    requires All(q, s)
    ensures All(q, Filter(p, s))
    decreases |s|
  {
    if |s| != 0 {
      FilterPreserves(p, q, s[1..]);
    }
  }

  /** `strip()` returns a slice of its input. */
  lemma StripPreserves(q: char -> bool, s: string)
    requires All(q, s)
    ensures All(q, Strip(s))
  {
    var a, b := StripParts(s);
    forall k | 0 <= k < |Strip(s)| ensures q(Strip(s)[k]) {
      assert Strip(s)[k] == s[|a| + k];
    }
  }

  lemma {:induction false} SplitFromPreserves(q: char -> bool, s: string, i: nat)
    requires i <= |s| && All(q, s)
    ensures forall k :: 0 <= k < |SplitFrom(s, i)| ==> All(q, SplitFrom(s, i)[k])
    decreases |s| - i
  {
    var j := SkipSpace(s, i);
    if j < |s| {
      var k := SkipWord(s, j);
      SplitFromPreserves(q, s, k);
      var w := s[j..k];
      assert All(q, w) by {
        forall n | 0 <= n < |w| ensures q(w[n]) { assert w[n] == s[j + n]; }
      }
      var rest := SplitFrom(s, k);
      assert SplitFrom(s, i) == [w] + rest;
      forall n | 0 <= n < |[w] + rest| ensures All(q, ([w] + rest)[n]) {
        if n > 0 { assert ([w] + rest)[n] == rest[n - 1]; }
      }
    }
  }

  /** The words `split()` returns are made of characters of the input. */
  lemma SplitWsPreserves(q: char -> bool, s: string)
    requires All(q, s)
    ensures forall k :: 0 <= k < |SplitWs(s)| ==> All(q, SplitWs(s)[k])
  {
    SplitFromPreserves(q, s, 0);
  }

  predicate NotSpace(c: char) {
    !IsSpace(c)
  }

  /** The characters of `s` other than whitespace: what survives any re-spacing of `s`. */
  function Glyphs(s: string): string
  {
    Filter(NotSpace, s)
  }

  lemma {:induction false} GlyphsAllSpace(s: string)
    requires AllSpace(s)
    ensures Glyphs(s) == []
    decreases |s|
  {
    if |s| != 0 {
      GlyphsAllSpace(s[1..]);
    }
  }

  /** `strip()` removes no character other than whitespace. */
  lemma GlyphsStrip(s: string)
    ensures Glyphs(Strip(s)) == Glyphs(s)
  {
    var a, b := StripParts(s);
    GlyphsAllSpace(a);
    GlyphsAllSpace(b);
    FilterAppend(NotSpace, a + Strip(s), b);
    FilterAppend(NotSpace, a, Strip(s));
  }

  lemma GlyphsAppend(a: string, b: string)
    ensures Glyphs(a + b) == Glyphs(a) + Glyphs(b)
  {
    FilterAppend(NotSpace, a, b);
  }

  /** Python's `str.lower` on one character, for ASCII and the Latin-1 capitals. */
  function LowerChar(c: char): char
  {
    if 'A' <= c <= 'Z' || ('\U{C0}' <= c <= '\U{DE}' && c != '\U{D7}') then (c as int + 32) as char else c
  }

  lemma LowerCharIdempotent(c: char)
    ensures LowerChar(LowerChar(c)) == LowerChar(c)
  {
  }

  /** `s.lower()`. */
  function Lower(s: string): (r: string)
    ensures |r| == |s|
    ensures forall i :: 0 <= i < |s| ==> r[i] == LowerChar(s[i])
  {
    if |s| == 0 then [] else [LowerChar(s[0])] + Lower(s[1..])
  }

  /** Lower-casing twice is lower-casing once. */
  lemma LowerIdempotent(s: string)
    ensures Lower(Lower(s)) == Lower(s)
  {
    forall i | 0 <= i < |s| ensures Lower(Lower(s))[i] == Lower(s)[i] {
      LowerCharIdempotent(s[i]);
    }
  }

  /** A string `lower()` leaves alone. */
  predicate IsLower(s: string) {
    forall i :: 0 <= i < |s| ==> LowerChar(s[i]) == s[i]
  }

  lemma LowerIsLower(s: string)
    ensures IsLower(Lower(s))
  {
    forall i | 0 <= i < |s| ensures LowerChar(Lower(s)[i]) == Lower(s)[i] {
      LowerCharIdempotent(s[i]);
    }
  }

  lemma LowerOfLower(s: string)
    requires IsLower(s)
    ensures Lower(s) == s
  {
  }

  /** Python's `str.upper` on one character, for ASCII and the Latin-1 small letters that have
      a Latin-1 capital; every other character, 'ß' and 'ÿ' included, is left as it is. */
  function UpperChar(c: char): char
  {
    if 'a' <= c <= 'z' || ('\U{E0}' <= c <= '\U{FE}' && c != '\U{F7}') then (c as int - 32) as char else c
  }

  /** `s.upper()`. */
  function Upper(s: string): (r: string)
    ensures |r| == |s|
    ensures forall i :: 0 <= i < |s| ==> r[i] == UpperChar(s[i])
  {
    if |s| == 0 then [] else [UpperChar(s[0])] + Upper(s[1..])
  }

  /** `s.strip(chars)`: drop leading and trailing characters that belong to `chars`. */
  function StripChars(s: string, chars: set<char>): (r: string)
    ensures |r| <= |s|
    ensures |r| == 0 || (r[0] !in chars && r[|r| - 1] !in chars)
    decreases |s|
  {
    if |s| == 0 then []
    else if s[0] in chars then StripChars(s[1..], chars)
    else if s[|s| - 1] in chars then StripChars(s[..|s| - 1], chars)
    else s
  }

  // ---------------------------------------------------------------------------
  // prefixes, substrings, find, slicing, split(sep)
  // ---------------------------------------------------------------------------

  predicate StartsWith(s: string, prefix: string) {
    |prefix| <= |s| && s[..|prefix|] == prefix
  }

  predicate EndsWith(s: string, suffix: string) {
    |suffix| <= |s| && s[|s| - |suffix|..] == suffix
  }

  /** Python's `sub in s`. */
  predicate Contains(s: string, sub: string)
    decreases |s|
  {
    StartsWith(s, sub) || (|s| > 0 && Contains(s[1..], sub))
  }

  /** `s.find(c)`: the first index of `c` in `s`, or -1. */
  function Find(s: string, c: char): (r: int)
    ensures -1 <= r < |s|
    ensures r == -1 <==> c !in s
    ensures r >= 0 ==> s[r] == c && c !in s[..r]
  {
    if |s| == 0 then -1
    else if s[0] == c then 0
    else
      var k := Find(s[1..], c);
      assert s[1..][..(if k >= 0 then k else 0)] == s[1..1 + (if k >= 0 then k else 0)];
      if k == -1 then -1 else 1 + k
  }

  /** How Python clamps a slice bound `i` for a sequence of length `n`. */
  function SliceBound(n: nat, i: int): (r: nat)
    ensures r <= n
  {
    if i < 0 then (if i + n < 0 then 0 else i + n) else if i > n then n else i
  }

  /** Python's `s[a:b]` for any integers `a`, `b` (negative bounds count from the end). */
  function PySlice(s: string, a: int, b: int): (r: string)
    ensures |r| <= |s|
    ensures 0 <= a <= b <= |s| ==> r == s[a..b]
  {
    var lo := SliceBound(|s|, a);
    var hi := SliceBound(|s|, b);
    if lo >= hi then [] else s[lo..hi]
  }

  /** `s.split(sep)` for a one-character separator. */
  function SplitOn(s: string, sep: char): (r: seq<string>)
    ensures |r| >= 1
    ensures forall k :: 0 <= k < |r| ==> sep !in r[k]
    decreases |s|
  {
    if |s| == 0 then [[]]
    else
      var rest := SplitOn(s[1..], sep);
      if s[0] == sep then [[]] + rest else [[s[0]] + rest[0]] + rest[1..]
  }

  /** Joining the pieces of `split(sep)` with `sep` restores the string. */
  lemma {:induction false} SplitOnJoin(s: string, sep: char)
    ensures Join([sep], SplitOn(s, sep)) == s
    decreases |s|
  {
    if |s| != 0 {
      var rest := SplitOn(s[1..], sep);
      SplitOnJoin(s[1..], sep);
      if s[0] == sep {
        assert SplitOn(s, sep) == [[]] + rest;
        assert Join([sep], [[]] + rest) == [] + [sep] + Join([sep], rest) by {
          assert ([[]] + rest)[1..] == rest;
        }
        assert s == [s[0]] + s[1..];
      } else {
        var r := [[s[0]] + rest[0]] + rest[1..];
        if |rest| == 1 {
          assert Join([sep], r) == [s[0]] + rest[0];
        } else {
          assert r[1..] == rest[1..];
          assert Join([sep], r) == [s[0]] + rest[0] + [sep] + Join([sep], rest[1..]);
          assert Join([sep], rest) == rest[0] + [sep] + Join([sep], rest[1..]);
        }
        assert s == [s[0]] + s[1..];
      }
    }
  }

  /** A first field without the separator splits off unchanged. */
  lemma {:induction false} SplitOnPrefix(a: string, sep: char, tail: string)
    requires sep !in a
    ensures SplitOn(a + [sep] + tail, sep) == [a] + SplitOn(tail, sep)
    decreases |a|
  {
    if |a| == 0 {
      assert a + [sep] + tail == [sep] + tail;
      assert ([sep] + tail)[1..] == tail;
    } else {
      assert (a + [sep] + tail)[1..] == a[1..] + [sep] + tail;
      SplitOnPrefix(a[1..], sep, tail);
      assert [a[0]] + a[1..] == a;
    }
  }

  /** Splitting two strings joined by the separator splits each of them. */
  lemma {:induction false} SplitOnAppend(a: string, sep: char, b: string)
    ensures SplitOn(a + [sep] + b, sep) == SplitOn(a, sep) + SplitOn(b, sep)
    decreases |a|
  {
    if |a| == 0 {
      assert a + [sep] + b == [sep] + b;
      assert ([sep] + b)[1..] == b;
    } else {
      var s, x := a + [sep] + b, a[1..];
      assert s[0] == a[0] && s[1..] == x + [sep] + b;
      SplitOnAppend(x, sep, b);
      var rx, rb := SplitOn(x, sep), SplitOn(b, sep);
      if a[0] == sep {
        assert SplitOn(s, sep) == [[]] + (rx + rb);
      } else {
        assert SplitOn(s, sep) == [[a[0]] + (rx + rb)[0]] + (rx + rb)[1..];
        assert (rx + rb)[0] == rx[0] && (rx + rb)[1..] == rx[1..] + rb;
      }
    }
  }

  /** Fields without the separator, joined by it, split back into the same fields. */
  lemma {:induction false} SplitOnJoined(parts: seq<string>, sep: char)
    requires |parts| > 0 && forall k :: 0 <= k < |parts| ==> sep !in parts[k]
    ensures SplitOn(Join([sep], parts), sep) == parts
    decreases |parts|
  {
    if |parts| == 1 {
      SplitOnNone(parts[0], sep);
    } else {
      SplitOnJoined(parts[1..], sep);
      SplitOnPrefix(parts[0], sep, Join([sep], parts[1..]));
      assert [parts[0]] + parts[1..] == parts;
    }
  }

  /** A string without the separator is one field. */
  lemma {:induction false} SplitOnNone(a: string, sep: char)
    requires sep !in a
    ensures SplitOn(a, sep) == [a]
    decreases |a|
  {
    if |a| != 0 {
      SplitOnNone(a[1..], sep);
      assert [a[0]] + a[1..] == a;
    }
  }

  // ---------------------------------------------------------------------------
  // list comprehensions
  // ---------------------------------------------------------------------------

  /** `[x for x in xs if p(x)]`. */
  function Keep<T>(p: T -> bool, xs: seq<T>): (r: seq<T>)
    ensures |r| <= |xs|
    ensures forall i :: 0 <= i < |r| ==> r[i] in xs && p(r[i])
    ensures forall i :: 0 <= i < |xs| && p(xs[i]) ==> xs[i] in r
    ensures |r| == 0 <==> forall i :: 0 <= i < |xs| ==> !p(xs[i])
  {
    if |xs| == 0 then []
    else
      var rest := Keep(p, xs[1..]);
      assert forall i :: 1 <= i < |xs| ==> xs[i] == xs[1..][i - 1];
      if p(xs[0]) then [xs[0]] + rest else rest
  }

  /** The first kept element is the first element that satisfies `p`. */
  lemma {:induction false} KeepFirst<T>(p: T -> bool, xs: seq<T>, k: nat)
    requires k < |xs| && p(xs[k]) && forall j :: 0 <= j < k ==> !p(xs[j])
    ensures |Keep(p, xs)| != 0 && Keep(p, xs)[0] == xs[k]
    decreases k
  {
    if k > 0 {
      assert forall j :: 0 <= j < k - 1 ==> xs[1..][j] == xs[j + 1];
      KeepFirst(p, xs[1..], k - 1);
    }
  }

  /** The first element that satisfies `p`: what a `for` loop with an early `return` finds. */
  function First<T>(p: T -> bool, xs: seq<T>): (r: Option<T>)
    ensures r.None? <==> forall i :: 0 <= i < |xs| ==> !p(xs[i])
    ensures r.Some? ==> exists i :: 0 <= i < |xs| && xs[i] == r.value && p(xs[i])
                                    && forall j :: 0 <= j < i ==> !p(xs[j])
  {
    if |xs| == 0 then None
    else if p(xs[0]) then Some(xs[0])
    else
      var rest := First(p, xs[1..]);
      assert forall i :: 1 <= i < |xs| ==> xs[i] == xs[1..][i - 1];
      rest
  }

  /** The element `First` finds is the one at the first index where `p` holds. */
  lemma {:induction false} FirstAt<T>(p: T -> bool, xs: seq<T>, k: nat)
    requires k < |xs| && p(xs[k]) && forall j :: 0 <= j < k ==> !p(xs[j])
    ensures First(p, xs) == Some(xs[k])
    decreases k
  {
    if k > 0 {
      assert forall j :: 0 <= j < k - 1 ==> xs[1..][j] == xs[j + 1];
      FirstAt(p, xs[1..], k - 1);
    }
  }

  /** `zip(a, b)`: pairs up to the shorter length. */
  function Zip<A, B>(a: seq<A>, b: seq<B>): (r: seq<(A, B)>)
    ensures |r| == if |a| <= |b| then |a| else |b|
    ensures forall i :: 0 <= i < |r| ==> r[i] == (a[i], b[i])
  {
    seq(if |a| <= |b| then |a| else |b|, i requires 0 <= i < |a| && i < |b| => (a[i], b[i]))
  }

  // ---------------------------------------------------------------------------
  // decimal numbers
  // ---------------------------------------------------------------------------

  predicate IsDigit(c: char) {
    '0' <= c <= '9'
  }

  predicate IsDigits(s: string) {
    |s| >= 1 && forall i :: 0 <= i < |s| ==> IsDigit(s[i])
  }

  function DigitValue(c: char): nat
    requires IsDigit(c)
  {
    c as int - '0' as int
  }

  /** The decimal value of a digit string. */
  function DigitsValue(s: string): nat
    requires forall i :: 0 <= i < |s| ==> IsDigit(s[i])
    decreases |s|
  {
    if |s| == 0 then 0 else 10 * DigitsValue(s[..|s| - 1]) + DigitValue(s[|s| - 1])
  }

  /** `str(n)` for a natural number. */
  function NatToString(n: nat): (r: string)
    ensures IsDigits(r)
    ensures DigitsValue(r) == n
    decreases n
  {
    if n < 10 then [('0' as int + n) as char]
    else
      var p := NatToString(n / 10);
      var r := p + [('0' as int + n % 10) as char];
      assert r[..|r| - 1] == p;
      r
  }

  /** Python's `int(s)` for ASCII input: optional surrounding whitespace, an optional sign, digits. */
  function ParseInt(s: string): (r: Option<int>)
    ensures r.Some? ==> HasNonSpace(s)
  {
    var t := Strip(s);
    if |t| == 0 then None
    else
      var neg := t[0] == '-';
      var body := if t[0] == '-' || t[0] == '+' then t[1..] else t;
      if !IsDigits(body) then None
      else
        assert !IsSpace(t[0]);
        StripNonEmpty(s);
        Some(if neg then -(DigitsValue(body) as int) else DigitsValue(body))
  }

  lemma StripNonEmpty(s: string)
    requires Strip(s) != []
    ensures HasNonSpace(s)
  {
    var a, b := StripParts(s);
    assert s[|a|] == Strip(s)[0];
  }

  /** A string that strips to nothing is all whitespace. */
  lemma StripEmpty(s: string)
    requires Strip(s) == []
    ensures AllSpace(s) && !HasNonSpace(s)
  {
    var a, b := StripParts(s);
    assert s == a + b;
    assert forall i :: 0 <= i < |s| ==> s[i] == if i < |a| then a[i] else b[i - |a|];
  }

}
