/** The script that turns a word-by-word SRT subtitle file into timed words: the file is cut into
    cues at blank lines, a cue's second line carries its start and end time, and every word of
    its text lines gets those two times. Times are kept as whole milliseconds. */
module Srt {
  import opened Prelude
  import opened Strings

  // ---------------------------------------------------------------------------
  // srt_time_to_seconds
  // ---------------------------------------------------------------------------

  /** Milliseconds in a day: `%H` stops at 23. */
  const DayMillis: nat := 86_400_000

  /** `\d{2}:\d{2}:\d{2},\d{3}`, the shape the timing line's pattern asks of each time. */
  predicate IsStampText(t: string) {
    |t| == 12 && t[2] == ':' && t[5] == ':' && t[8] == ','
    && IsDigit(t[0]) && IsDigit(t[1]) && IsDigit(t[3]) && IsDigit(t[4])
    && IsDigit(t[6]) && IsDigit(t[7]) && IsDigit(t[9]) && IsDigit(t[10]) && IsDigit(t[11])
  }

  /** The two-digit field at `i`. */
  function Two(t: string, i: nat): nat
    requires i + 1 < |t| && IsDigit(t[i]) && IsDigit(t[i + 1])
  {
    10 * DigitValue(t[i]) + DigitValue(t[i + 1])
  }

  /** `%f` on three digits: they are padded with zeros to microseconds, so they count
      milliseconds. */
  function Fraction(t: string): nat
    requires IsStampText(t)
  {
    100 * DigitValue(t[9]) + 10 * DigitValue(t[10]) + DigitValue(t[11])
  }

  /** `datetime.strptime(t, "%H:%M:%S,%f")` turned into milliseconds. The format's hour accepts
      00 to 23, its minute 00 to 59 and its second 00 to 61, and anything else does not match;
      `datetime` then refuses the seconds 60 and 61. Both failures are ValueError. */
  function SrtTimeToMillis(t: string): (r: Result<nat>)
    requires IsStampText(t)
    ensures r.Ok? <==> Two(t, 0) < 24 && Two(t, 3) < 60 && Two(t, 6) < 60
    ensures r.Err? ==> r.error.ValueError?
    ensures r.Ok? ==> r.value < DayMillis && r.value % 1000 == Fraction(t)
    ensures r.Ok? ==> r.value / 1000 == (Two(t, 0) * 60 + Two(t, 3)) * 60 + Two(t, 6)
  {
    var h, m, s := Two(t, 0), Two(t, 3), Two(t, 6);
    if h >= 24 || m >= 60 || s >= 62 then Err(ValueError("time data does not match format '%H:%M:%S,%f'"))
    else if s >= 60 then Err(ValueError("second must be in 0..59"))
    else
      var total: nat := ((h * 60 + m) * 60 + s) * 1000 + Fraction(t);
      Ok(total)
  }

  /** The decimal digit for `n`. */
  function Digit(n: nat): (c: char)
    requires n < 10
    ensures IsDigit(c) && DigitValue(c) == n
  {
    ('0' as int + n) as char
  }

  /** Reference rendering of a time of day as `HH:MM:SS,mmm`. */
  function FormatStamp(total: nat): (t: string)
    requires total < DayMillis
  {
    var ms := total % 1000;
    var secs := total / 1000;
    var mins := secs / 60;
    var h := mins / 60;
    [Digit(h / 10), Digit(h % 10), ':', Digit(mins % 60 / 10), Digit(mins % 60 % 10), ':',
     Digit(secs % 60 / 10), Digit(secs % 60 % 10), ',', Digit(ms / 100), Digit(ms / 10 % 10), Digit(ms % 10)]
  }

  /** A time of day split into hours, minutes, seconds and milliseconds, and put back. */
  lemma DayParts(total: nat)
    requires total < DayMillis
    ensures total / 1000 / 60 / 60 < 24
    ensures ((total / 1000 / 60 / 60 * 60 + total / 1000 / 60 % 60) * 60 + total / 1000 % 60) * 1000 + total % 1000 == total
  {
    var secs := total / 1000;
    var mins := secs / 60;
    assert mins == mins / 60 * 60 + mins % 60;
    assert secs == mins * 60 + secs % 60;
  }

  /** The fields of a rendered time read back as the parts they were written from. */
  lemma StampFields(total: nat)
    requires total < DayMillis
    ensures IsStampText(FormatStamp(total))
    ensures Two(FormatStamp(total), 0) == total / 1000 / 60 / 60
    ensures Two(FormatStamp(total), 3) == total / 1000 / 60 % 60
    ensures Two(FormatStamp(total), 6) == total / 1000 % 60
    ensures Fraction(FormatStamp(total)) == total % 1000
  {
    DayParts(total);
  }

  /** Every time of day written as `HH:MM:SS,mmm` reads back as itself. */
  lemma StampRoundTrip(total: nat)
    requires total < DayMillis
    ensures IsStampText(FormatStamp(total))
    ensures SrtTimeToMillis(FormatStamp(total)) == Ok(total)
  {
    StampFields(total);
    DayParts(total);
  }

  // ---------------------------------------------------------------------------
  // the timing line
  // ---------------------------------------------------------------------------

  /** `re.match(r'(\d{2}:\d{2}:\d{2},\d{3})\s*-->\s*(\d{2}:\d{2}:\d{2},\d{3})', line)`: the two
      times, when the line starts with that shape; anything may follow it. */
  function ParseTimeLine(line: string): (r: Option<(string, string)>)
    ensures r.Some? ==> IsStampText(r.value.0) && IsStampText(r.value.1)
    ensures r.Some? ==> StartsWith(line, r.value.0)
  {
    if |line| < 12 || !IsStampText(line[..12]) then None
    else
      var i := SkipSpace(line, 12);
      if i + 3 > |line| || line[i..i + 3] != "-->" then None
      else
        var j := SkipSpace(line, i + 3);
        if j + 12 > |line| || !IsStampText(line[j..j + 12]) then None
        else Some((line[..12], line[j..j + 12]))
  }

  /** Two times around an arrow, with any whitespace on either side and anything after, are
      read back as those two times. */
  lemma TimeLineRoundTrip(a: string, gap1: string, gap2: string, b: string, tail: string)
    requires IsStampText(a) && IsStampText(b) && AllSpace(gap1) && AllSpace(gap2)
    ensures ParseTimeLine(a + gap1 + "-->" + gap2 + b + tail) == Some((a, b))
  {
    var line := a + gap1 + "-->" + gap2 + b + tail;
    var i := 12 + |gap1|;
    var j := i + 3 + |gap2|;
    assert line[..12] == a;
    SkipSpaceExact(line, 12, i);
    assert line[i..i + 3] == "-->";
    SkipSpaceExact(line, i + 3, j);
    assert line[j..j + 12] == b;
  }

  // ---------------------------------------------------------------------------
  // cutting the file into cues: re.split(r'\n\s*\n', content.strip())
  // ---------------------------------------------------------------------------

  /** `s[p..e]` is a match of `\n\s*\n`: a newline, whitespace, and a newline. */
  predicate IsSepMatch(s: string, p: nat, e: nat) {
    p + 2 <= e <= |s| && s[p] == '\n' && s[e - 1] == '\n' && forall k :: p < k < e - 1 ==> IsSpace(s[k])
  }

  /** The last newline in `s[lo..hi]`. */
  function LastNewline(s: string, lo: nat, hi: nat): (r: Option<nat>)
    requires lo <= hi <= |s|
    ensures r.Some? ==> lo <= r.value < hi && s[r.value] == '\n'
    ensures r.Some? ==> forall k :: r.value < k < hi ==> s[k] != '\n'
    ensures r.None? ==> forall k :: lo <= k < hi ==> s[k] != '\n'
    decreases hi
  {
    if hi == lo then None
    else if s[hi - 1] == '\n' then Some(hi - 1)
    else LastNewline(s, lo, hi - 1)
  }

  /** Where the separator match that starts at `p` ends, if one does: `\s*` first takes the
      whole run of whitespace after the newline and then gives characters back until a newline
      follows, so the match ends just past the run's last newline. */
  function SepEnd(s: string, p: nat): (r: Option<nat>)
    requires p < |s|
    ensures r.Some? ==> p + 2 <= r.value <= |s|
  {
    if s[p] != '\n' then None
    else
      match LastNewline(s, p + 1, SkipSpace(s, p + 1))
      case None => None
      case Some(l) => Some(l + 1)
  }

  /** The match `SepEnd` finds is a match of the pattern, and the longest one from `p`; when it
      finds none, the pattern does not match at `p`. */
  lemma SepEndIsLongestMatch(s: string, p: nat)
    requires p < |s|
    ensures SepEnd(s, p).Some? ==> IsSepMatch(s, p, SepEnd(s, p).value)
    ensures SepEnd(s, p).Some? ==> forall e :: SepEnd(s, p).value < e ==> !IsSepMatch(s, p, e)
    ensures SepEnd(s, p).None? ==> forall e :: !IsSepMatch(s, p, e)
  {
    if s[p] == '\n' {
      var q := SkipSpace(s, p + 1);
      forall e: nat | IsSepMatch(s, p, e)
        ensures e - 1 < q && LastNewline(s, p + 1, q).Some? && e <= LastNewline(s, p + 1, q).value + 1
      {
        assert forall k :: p < k <= e - 1 ==> IsSpace(s[k]);
      }
    }
  }

  /** The first separator match at or after `i`: where it starts and ends. */
  function FirstSep(s: string, i: nat): (r: Option<(nat, nat)>)
    requires i <= |s|
    ensures r.Some? ==> i <= r.value.0 < |s| && SepEnd(s, r.value.0) == Some(r.value.1)
    ensures r.Some? ==> forall p :: i <= p < r.value.0 ==> SepEnd(s, p).None?
    ensures r.None? ==> forall p :: i <= p < |s| ==> SepEnd(s, p).None?
    decreases |s| - i
  {
    if i == |s| then None
    else match SepEnd(s, i)
      case Some(e) => Some((i, e))
      case None => FirstSep(s, i + 1)
  }

  /** `re.split(r'\n\s*\n', s)`: the text between successive separator matches, each found
      leftmost first and searched for again after the end of the previous one. */
  function SplitBlocks(s: string): (r: seq<string>)
    ensures |r| >= 1
    decreases |s|
  {
    match FirstSep(s, 0)
    case None => [s]
    case Some((p, e)) => [s[..p]] + SplitBlocks(s[e..])
  }

  /** No separator match lies inside `b`. */
  ghost predicate NoSep(b: string) {
    forall p, e :: !IsSepMatch(b, p, e)
  }

  /** A block the separator cannot cut: not empty, without whitespace at either end, without
      a blank line inside. */
  ghost predicate IsBlock(b: string) {
    |b| > 0 && Trimmed(b) && NoSep(b)
  }

  /** The first separator match is the one that starts at `p` and ends at `e` when none starts
      between `i` and `p`. */
  lemma FirstSepAt(s: string, i: nat, p: nat, e: nat)
    requires i <= p < |s| && SepEnd(s, p) == Some(e)
    requires forall q :: i <= q < p ==> SepEnd(s, q).None?
    ensures FirstSep(s, i) == Some((p, e))
  {
    var r := FirstSep(s, i);
    assert r.Some?;
    assert r.value.0 == p;
  }

  /** A separator match that starts inside the block `b` of `b + "\n\n" + rest` stays inside
      it: the block's last character is not whitespace. */
  lemma MatchInFirst(b: string, rest: string, q: nat, e: nat)
    requires |b| > 0 && Trimmed(b) && q < |b|
    requires IsSepMatch(b + "\n\n" + rest, q, e)
    ensures IsSepMatch(b, q, e)
  {
    var s := b + "\n\n" + rest;
    assert s[|b| - 1] == b[|b| - 1] && !IsSpace(s[|b| - 1]);
    assert q < |b| - 1;
    assert e <= |b|;
    assert forall k :: 0 <= k < |b| ==> s[k] == b[k];
  }

  /** In `b + "\n\n" + rest`, no separator match starts inside the block `b`. */
  lemma NoSepInsideFirst(b: string, rest: string, q: nat)
    requires IsBlock(b) && q < |b|
    ensures SepEnd(b + "\n\n" + rest, q).None?
  {
    var s := b + "\n\n" + rest;
    forall e: nat | IsSepMatch(s, q, e)
      ensures IsSepMatch(b, q, e)
    {
      MatchInFirst(b, rest, q, e);
    }
    SepEndIsLongestMatch(s, q);
  }

  /** The separator between two blocks is exactly the two newlines. */
  lemma SepBetween(b: string, rest: string)
    requires |b| > 0 && |rest| > 0 && !IsSpace(rest[0])
    ensures SepEnd(b + "\n\n" + rest, |b|) == Some(|b| + 2)
  {
    var s := b + "\n\n" + rest;
    SepEndIsLongestMatch(s, |b|);
    assert s[|b| + 2] == rest[0];
    assert IsSepMatch(s, |b|, |b| + 2);
  }

  /** Blocks joined by a blank line are cut back into the same blocks. */
  lemma {:induction false} SplitBlocksJoin(blocks: seq<string>)
    requires |blocks| > 0 && forall k :: 0 <= k < |blocks| ==> IsBlock(blocks[k])
    ensures SplitBlocks(Join("\n\n", blocks)) == blocks
    decreases |blocks|
  {
    var s := Join("\n\n", blocks);
    var b := blocks[0];
    if |blocks| == 1 {
      forall q | 0 <= q < |s|
        ensures SepEnd(s, q).None?
      {
        SepEndIsLongestMatch(s, q);
      }
    } else {
      var rest := Join("\n\n", blocks[1..]);
      JoinEnds("\n\n", blocks[1..]);
      assert s == b + "\n\n" + rest;
      forall q | 0 <= q < |b|
        ensures SepEnd(s, q).None?
      {
        NoSepInsideFirst(b, rest, q);
      }
      SepBetween(b, rest);
      FirstSepAt(s, 0, |b|, |b| + 2);
      assert s[..|b|] == b && s[|b| + 2..] == rest;
      SplitBlocksJoin(blocks[1..]);
      assert blocks == [b] + blocks[1..];
    }
  }

  // ---------------------------------------------------------------------------
  // str.splitlines()
  // ---------------------------------------------------------------------------

  /** The characters `str.splitlines` breaks lines at. */
  predicate IsLineBreak(c: char) {
    c == '\n' || c == '\r' || c == '\U{0B}' || c == '\U{0C}' || ('\U{1C}' <= c <= '\U{1E}')
    || c == '\U{85}' || c == '\U{2028}' || c == '\U{2029}'
  }

  predicate NoBreak(s: string) {
    forall i :: 0 <= i < |s| ==> !IsLineBreak(s[i])
  }

  /** The first line break at or after `i`, or `|s|`. */
  function LineEnd(s: string, i: nat): (r: nat)
    requires i <= |s|
    ensures i <= r <= |s| && (r == |s| || IsLineBreak(s[r]))
    ensures forall k :: i <= k < r ==> !IsLineBreak(s[k])
    decreases |s| - i
  {
    if i == |s| || IsLineBreak(s[i]) then i else LineEnd(s, i + 1)
  }

  /** `s.splitlines()`: the text between line breaks, `\r\n` counting as one break; a break at
      the very end opens no further line. */
  function SplitLines(s: string): (r: seq<string>)
    ensures forall k :: 0 <= k < |r| ==> NoBreak(r[k])
    decreases |s|
  {
    if |s| == 0 then []
    else
      var i := LineEnd(s, 0);
      if i == |s| then [s]
      else
        var next := if s[i] == '\r' && i + 1 < |s| && s[i + 1] == '\n' then i + 2 else i + 1;
        [s[..i]] + SplitLines(s[next..])
  }

  /** `sep.join(parts)` is empty only when its last part is. */
  lemma {:induction false} JoinLastNonEmpty(sep: string, parts: seq<string>)
    requires |parts| > 0 && |parts[|parts| - 1]| > 0
    ensures |Join(sep, parts)| > 0
    decreases |parts|
  {
    if |parts| > 1 {
      JoinLastNonEmpty(sep, parts[1..]);
    }
  }

  /** Lines joined with newlines are split back into the same lines, as long as the last one is
      not empty. */
  lemma {:induction false} SplitLinesJoin(lines: seq<string>)
    requires |lines| > 0 && |lines[|lines| - 1]| > 0
    requires forall k :: 0 <= k < |lines| ==> NoBreak(lines[k])
    ensures SplitLines(Join("\n", lines)) == lines
    decreases |lines|
  {
    var s := Join("\n", lines);
    var l := lines[0];
    if |lines| == 1 {
      assert LineEnd(s, 0) == |s|;
    } else {
      var rest := Join("\n", lines[1..]);
      JoinLastNonEmpty("\n", lines[1..]);
      assert s == l + "\n" + rest;
      assert LineEnd(s, 0) == |l| by {
        assert forall k :: 0 <= k < |l| ==> s[k] == l[k];
        assert s[|l|] == '\n';
      }
      assert s[..|l|] == l && s[|l| + 1..] == rest;
      SplitLinesJoin(lines[1..]);
      assert lines == [l] + lines[1..];
    }
  }

  // ---------------------------------------------------------------------------
  // parse_srt
  // ---------------------------------------------------------------------------

  /** The characters each word loses at both ends: `.,!?:;"“”()[]`. */
  const Punct: set<char> := {'.', ',', '!', '?', ':', ';', '"', '\U{201C}', '\U{201D}', '(', ')', '[', ']'}

  /** A word as the parser emits it: not empty, without whitespace, and neither starting nor
      ending with the stripped punctuation. */
  predicate CleanWord(w: string) {
    |w| > 0 && NoSpace(w) && w[0] !in Punct && w[|w| - 1] !in Punct
  }

  /** Stripping characters off the ends cannot bring in whitespace. */
  lemma {:induction false} StripCharsNoSpace(w: string, chars: set<char>)
    requires NoSpace(w)
    ensures NoSpace(StripChars(w, chars))
    decreases |w|
  {
    if |w| > 0 {
      if w[0] in chars {
        StripCharsNoSpace(w[1..], chars);
      } else if w[|w| - 1] in chars {
        StripCharsNoSpace(w[..|w| - 1], chars);
      }
    }
  }

  /** `w.strip('.,!?:;"“”()[]')` for each word, keeping the ones left non-empty. */
  function CleanWords(ws: seq<string>): (r: seq<string>)
    requires forall k :: 0 <= k < |ws| ==> NoSpace(ws[k])
    ensures |r| <= |ws|
    ensures forall k :: 0 <= k < |r| ==> CleanWord(r[k]) && NoSpace(r[k])
    decreases |ws|
  {
    if |ws| == 0 then []
    else
      var c := StripChars(ws[0], Punct);
      StripCharsNoSpace(ws[0], Punct);
      (if |c| > 0 then [c] else []) + CleanWords(ws[1..])
  }

  /** Words that are already clean pass unchanged. */
  lemma {:induction false} CleanWordsOfClean(ws: seq<string>)
    requires forall k :: 0 <= k < |ws| ==> CleanWord(ws[k]) && NoSpace(ws[k])
    ensures CleanWords(ws) == ws
    decreases |ws|
  {
    if |ws| > 0 {
      CleanWordsOfClean(ws[1..]);
      assert StripChars(ws[0], Punct) == ws[0];
      assert ws == [ws[0]] + ws[1..];
    }
  }

  /** Cleaning twice is cleaning once. */
  lemma CleanWordsIdempotent(ws: seq<string>)
    requires forall k :: 0 <= k < |ws| ==> NoSpace(ws[k])
    ensures CleanWords(CleanWords(ws)) == CleanWords(ws)
  {
    CleanWordsOfClean(CleanWords(ws));
  }

  /** A word with its time span, in milliseconds. */
  datatype TimedWord = TimedWord(word: string, start: nat, end: nat)

  /** Every word with the same start and end. */
  function Stamped(words: seq<string>, start: nat, end: nat): seq<TimedWord> {
    seq(|words|, i requires 0 <= i < |words| => TimedWord(words[i], start, end))
  }

  /** `line.strip() for line in lines`. */
  function StripEach(lines: seq<string>): seq<string> {
    seq(|lines|, i requires 0 <= i < |lines| => Strip(lines[i]))
  }

  /** The words of a cue's text lines: `" ".join(...)` of the stripped lines, then `split()`. */
  function TextWords(lines: seq<string>): seq<string> {
    SplitWs(Join(" ", StripEach(lines)))
  }

  /** Each string's `split()`. */
  function PerWords(ys: seq<string>): seq<seq<string>> {
    seq(|ys|, k requires 0 <= k < |ys| => SplitWs(ys[k]))
  }

  /** A space between two strings separates their words. */
  lemma SplitWsSpaced(x: string, j: string)
    ensures SplitWs(x + (" " + j)) == SplitWs(x) + SplitWs(j)
  {
    SplitWsAppend(x, " " + j);
    SplitWsAppend(" ", j);
    SplitWsAllSpace(" ");
  }

  /** `" ".join(ys).split()` is every string's words, one string after the other. */
  lemma {:induction false} SplitWsJoinSpaces(ys: seq<string>)
    ensures SplitWs(Join(" ", ys)) == Flatten(PerWords(ys))
    decreases |ys|
  {
    if |ys| == 0 {
      SplitWsAllSpace([]);
    } else if |ys| == 1 {
      assert Flatten(PerWords(ys)) == SplitWs(ys[0]) + Flatten(PerWords(ys)[1..]);
      assert SplitWs(ys[0]) + [] == SplitWs(ys[0]);
    } else {
      var j := Join(" ", ys[1..]);
      assert Join(" ", ys) == ys[0] + (" " + j);
      SplitWsJoinSpaces(ys[1..]);
      SplitWsSpaced(ys[0], j);
      assert PerWords(ys)[1..] == PerWords(ys[1..]);
      assert Flatten(PerWords(ys)) == SplitWs(ys[0]) + Flatten(PerWords(ys)[1..]);
    }
  }

  /** Joining the stripped lines with spaces loses no line boundary a word could cross: the
      words are each line's words, one line after the other. */
  lemma TextWordsPerLine(lines: seq<string>)
    ensures TextWords(lines) == Flatten(PerWords(lines))
  {
    SplitWsJoinSpaces(StripEach(lines));
    forall k | 0 <= k < |lines|
      ensures PerWords(StripEach(lines))[k] == PerWords(lines)[k]
    {
      SplitWsStrip(lines[k]);
    }
    assert PerWords(StripEach(lines)) == PerWords(lines);
  }

  /** One block of `parse_srt`. Fewer than two lines, or a second line that is not a timing
      line, give no words; a time `strptime` refuses raises ValueError; otherwise every word of
      the remaining lines, cleaned, gets the cue's start and end. */
  function CueWords(block: string): (r: Result<seq<TimedWord>>)
    ensures r.Err? ==> r.error.ValueError?
    ensures r.Ok? ==> forall k :: 0 <= k < |r.value| ==> CleanWord(r.value[k].word)
    ensures r.Ok? ==> forall k :: 0 <= k < |r.value| ==> r.value[k].start == r.value[0].start && r.value[k].end == r.value[0].end
  {
    var lines := SplitLines(Strip(block));
    if |lines| < 2 then Ok([])
    else
      match ParseTimeLine(lines[1])
      case None => Ok([])
      case Some((a, b)) =>
        match SrtTimeToMillis(a)
        case Err(e) => Err(e)
        case Ok(start) =>
          match SrtTimeToMillis(b)
          case Err(e) => Err(e)
          case Ok(end) =>
            var ws := TextWords(lines[2..]);
            SplitWsWords(Join(" ", StripEach(lines[2..])));
            Ok(Stamped(CleanWords(ws), start, end))
  }

  /** The lists `f` gives for `xs`, one after the other; the first element for which `f` raises
      ends the loop. */
  function Gather<A, B>(f: A -> Result<seq<B>>, xs: seq<A>): (r: Result<seq<B>>)
    ensures r.Ok? <==> forall k :: 0 <= k < |xs| ==> f(xs[k]).Ok?
    ensures r.Ok? ==> r.value == Flatten(seq(|xs|, k requires 0 <= k < |xs| && f(xs[k]).Ok? => f(xs[k]).value))
    ensures r.Err? ==> exists k :: 0 <= k < |xs| && f(xs[k]) == Err(r.error)
                                  && forall j :: 0 <= j < k ==> f(xs[j]).Ok?
    decreases |xs|
  {
    if |xs| == 0 then Ok([])
    else
      assert forall k :: 1 <= k < |xs| ==> xs[k] == xs[1..][k - 1];
      match f(xs[0])
      case Err(e) => Err(e)
      case Ok(first) =>
        match Gather(f, xs[1..])
        case Err(e) =>
          assert exists k :: 1 <= k < |xs| && f(xs[k]) == Err(e) && forall j :: 0 <= j < k ==> f(xs[j]).Ok?
            by {
              var k' :| 0 <= k' < |xs| - 1 && f(xs[1..][k']) == Err(e) && forall j :: 0 <= j < k' ==> f(xs[1..][j]).Ok?;
              assert forall j :: 1 <= j < k' + 1 ==> xs[j] == xs[1..][j - 1];
            }
          Err(e)
        case Ok(rest) =>
          var groups := seq(|xs|, k requires 0 <= k < |xs| && f(xs[k]).Ok? => f(xs[k]).value);
          assert groups[1..] == seq(|xs| - 1, k requires 0 <= k < |xs| - 1 && f(xs[1..][k]).Ok? => f(xs[1..][k]).value);
          Ok(first + rest)
  }

  /** What every group satisfies, their concatenation satisfies. */
  lemma {:induction false} FlattenAll<T>(p: T -> bool, groups: seq<seq<T>>)
    requires forall k, j :: 0 <= k < |groups| && 0 <= j < |groups[k]| ==> p(groups[k][j])
    ensures forall i :: 0 <= i < |Flatten(groups)| ==> p(Flatten(groups)[i])
    decreases |groups|
  {
    if |groups| > 0 {
      FlattenAll(p, groups[1..]);
      assert Flatten(groups) == groups[0] + Flatten(groups[1..]);
    }
  }

  /** When every list `f` gives satisfies `p`, so does what `Gather` gives. */
  lemma GatherAll<A, B>(f: A -> Result<seq<B>>, xs: seq<A>, p: B -> bool)
    requires forall x :: f(x).Ok? ==> forall j :: 0 <= j < |f(x).value| ==> p(f(x).value[j])
    ensures Gather(f, xs).Ok? ==> forall i :: 0 <= i < |Gather(f, xs).value| ==> p(Gather(f, xs).value[i])
  {
    if Gather(f, xs).Ok? {
      var groups := seq(|xs|, k requires 0 <= k < |xs| && f(xs[k]).Ok? => f(xs[k]).value);
      FlattenAll(p, groups);
    }
  }

  /** `parse_srt` on the file's text: the stripped text cut into blocks at blank lines, and the
      words of every block in order. */
  function ParseSrt(content: string): Result<seq<TimedWord>> {
    Gather(CueWords, SplitBlocks(Strip(content)))
  }

  /** Every word `parse_srt` emits is clean. */
  lemma ParseSrtClean(content: string)
    ensures ParseSrt(content).Ok? ==> forall k :: 0 <= k < |ParseSrt(content).value| ==> CleanWord(ParseSrt(content).value[k].word)
  {
    var clean := (w: TimedWord) => CleanWord(w.word);
    assert forall b :: CueWords(b).Ok? ==> forall j :: 0 <= j < |CueWords(b).value| ==> clean(CueWords(b).value[j]);
    GatherAll(CueWords, SplitBlocks(Strip(content)), clean);
  }

  // ---------------------------------------------------------------------------
  // writing cues: the partner of the parser
  // ---------------------------------------------------------------------------

  /** A cue: its span in milliseconds and its words. */
  datatype Cue = Cue(start: nat, end: nat, words: seq<string>)

  /** A cue a file can carry and the parser gives back unchanged. */
  predicate ValidCue(c: Cue) {
    c.start < DayMillis && c.end < DayMillis && forall k :: 0 <= k < |c.words| ==> CleanWord(c.words[k])
  }

  function TimingLine(c: Cue): string
    requires c.start < DayMillis && c.end < DayMillis
  {
    FormatStamp(c.start) + " --> " + FormatStamp(c.end)
  }

  /** The lines of a written cue: its number, its timing line, and its words on one line when it
      has any. */
  function CueLines(n: nat, c: Cue): seq<string>
    requires ValidCue(c)
  {
    [NatToString(n), TimingLine(c)] + (if |c.words| == 0 then [] else [Join(" ", c.words)])
  }

  /** Reference writer of one cue. */
  function RenderCue(n: nat, c: Cue): string
    requires ValidCue(c)
  {
    Join("\n", CueLines(n, c))
  }

  /** Reference writer of a file: the cues, numbered from 1, separated by blank lines. */
  function RenderSrt(cues: seq<Cue>): string
    requires forall k :: 0 <= k < |cues| ==> ValidCue(cues[k])
  {
    Join("\n\n", seq(|cues|, k requires 0 <= k < |cues| => RenderCue(k + 1, cues[k])))
  }

  /** The words a cue stands for. */
  function CueTimedWords(c: Cue): seq<TimedWord> {
    Stamped(c.words, c.start, c.end)
  }

  lemma BreakIsSpace(c: char)
    ensures IsLineBreak(c) ==> IsSpace(c)
  {
  }

  /** Words joined with single spaces hold no line break. */
  lemma {:induction false} JoinWordsNoBreak(ws: seq<string>)
    requires forall k :: 0 <= k < |ws| ==> NoSpace(ws[k])
    ensures NoBreak(Join(" ", ws))
    decreases |ws|
  {
    if |ws| == 1 {
      forall i | 0 <= i < |ws[0]| ensures !IsLineBreak(ws[0][i]) {
        BreakIsSpace(ws[0][i]);
      }
    } else if |ws| > 1 {
      JoinWordsNoBreak(ws[1..]);
      JoinWordsNoBreak([ws[0]]);
      assert Join(" ", ws) == Join(" ", [ws[0]]) + " " + Join(" ", ws[1..]);
    }
  }

  /** Every newline is followed by a character that is not whitespace. */
  predicate TextAfterNewlines(s: string) {
    forall p :: 0 <= p < |s| && s[p] == '\n' ==> p + 1 < |s| && !IsSpace(s[p + 1])
  }

  /** Such a string holds no separator match. */
  lemma NoSepOfText(s: string)
    requires TextAfterNewlines(s)
    ensures NoSep(s)
  {
    forall p: nat, e: nat
      ensures !IsSepMatch(s, p, e)
    {
      if p < |s| && s[p] == '\n' {
        assert p + 1 < |s| && !IsSpace(s[p + 1]);
      }
    }
  }

  /** A line without newlines, a newline, and text that keeps the property. */
  lemma TextAfterNewlinesCons(x: string, y: string)
    requires NoBreak(x) && TextAfterNewlines(y) && |y| > 0 && !IsSpace(y[0])
    ensures TextAfterNewlines(x + "\n" + y)
  {
    var s := x + "\n" + y;
    forall p | 0 <= p < |x|
      ensures s[p] != '\n'
    {
      assert s[p] == x[p];
    }
    forall p | |x| < p < |s|
      ensures s[p] == y[p - |x| - 1]
    {
    }
  }

  lemma NoBreakAppend(x: string, y: string)
    requires NoBreak(x) && NoBreak(y)
    ensures NoBreak(x + y)
  {
    forall i | 0 <= i < |x + y| ensures !IsLineBreak((x + y)[i]) {
      if i >= |x| {
        assert (x + y)[i] == y[i - |x|];
      }
    }
  }

  /** Digits are not line breaks. */
  lemma DigitsNoBreak(s: string)
    requires forall i :: 0 <= i < |s| ==> IsDigit(s[i])
    ensures NoBreak(s)
  {
  }

  /** A written time holds no line break. */
  lemma StampNoBreak(total: nat)
    requires total < DayMillis
    ensures NoBreak(FormatStamp(total)) && IsStampText(FormatStamp(total))
  {
    StampFields(total);
  }

  /** `sep.join` of two and of three parts. */
  lemma JoinSmall(sep: string, x: string, y: string, z: string)
    ensures Join(sep, [x, y]) == x + sep + y
    ensures Join(sep, [x, y, z]) == x + sep + (y + sep + z)
  {
    assert [x, y][1..] == [y];
    assert Join(sep, [y]) == y;
    assert [x, y, z][1..] == [y, z];
    assert [y, z][1..] == [z];
    assert Join(sep, [z]) == z;
  }

  /** A written cue as text: number, newline, timing line, and the words after a newline. */
  lemma RenderCueShape(n: nat, c: Cue)
    requires ValidCue(c)
    ensures |c.words| == 0 ==> RenderCue(n, c) == NatToString(n) + "\n" + TimingLine(c)
    ensures |c.words| != 0 ==> RenderCue(n, c) == NatToString(n) + "\n" + (TimingLine(c) + "\n" + Join(" ", c.words))
  {
    var idx, tl := NatToString(n), TimingLine(c);
    if |c.words| == 0 {
      assert CueLines(n, c) == [idx, tl];
      JoinSmall("\n", idx, tl, "");
    } else {
      var text := Join(" ", c.words);
      assert CueLines(n, c) == [idx, tl, text];
      JoinSmall("\n", idx, tl, text);
    }
  }

  /** Without newlines there is nothing to check. */
  lemma NoBreakText(s: string)
    requires NoBreak(s)
    ensures TextAfterNewlines(s)
  {
    assert forall p :: 0 <= p < |s| ==> !IsLineBreak(s[p]);
  }

  /** The number and timing line hold no line break and start and end with digits. */
  lemma HeadLines(n: nat, c: Cue)
    requires ValidCue(c)
    ensures NoBreak(NatToString(n)) && NoBreak(TimingLine(c))
    ensures |TimingLine(c)| == 29 && IsDigit(TimingLine(c)[0]) && IsDigit(TimingLine(c)[28])
  {
    DigitsNoBreak(NatToString(n));
    var a, b := FormatStamp(c.start), FormatStamp(c.end);
    StampNoBreak(c.start);
    StampNoBreak(c.end);
    NoBreakAppend(a, " --> ");
    NoBreakAppend(a + " --> ", b);
    assert TimingLine(c)[0] == a[0];
    assert TimingLine(c)[28] == b[11];
  }

  /** A written cue is a block the file's splitter keeps whole. */
  lemma RenderedCueIsBlock(n: nat, c: Cue)
    requires ValidCue(c)
    ensures IsBlock(RenderCue(n, c))
  {
    var idx, tl := NatToString(n), TimingLine(c);
    HeadLines(n, c);
    var b := RenderCue(n, c);
    RenderCueShape(n, c);
    assert !IsSpace(tl[0]);
    if |c.words| == 0 {
      NoBreakText(tl);
      TextAfterNewlinesCons(idx, tl);
    } else {
      var text := Join(" ", c.words);
      JoinWordsNoBreak(c.words);
      JoinWordsEnds(c.words);
      NoBreakText(text);
      TextAfterNewlinesCons(tl, text);
      TextAfterNewlinesCons(idx, tl + "\n" + text);
    }
    NoSepOfText(b);
  }

  /** A written cue is read back line by line. */
  lemma CueSplitsIntoLines(n: nat, c: Cue)
    requires ValidCue(c)
    ensures SplitLines(Strip(RenderCue(n, c))) == CueLines(n, c)
  {
    RenderedCueIsBlock(n, c);
    TrimmedIsStripped(RenderCue(n, c));
    HeadLines(n, c);
    var lines := CueLines(n, c);
    if |c.words| != 0 {
      JoinWordsNoBreak(c.words);
      JoinWordsEnds(c.words);
    }
    SplitLinesJoin(lines);
  }

  /** A written timing line is read back as the cue's span. */
  lemma CueTimes(c: Cue)
    requires ValidCue(c)
    ensures ParseTimeLine(TimingLine(c)) == Some((FormatStamp(c.start), FormatStamp(c.end)))
    ensures IsStampText(FormatStamp(c.start)) && SrtTimeToMillis(FormatStamp(c.start)) == Ok(c.start)
    ensures IsStampText(FormatStamp(c.end)) && SrtTimeToMillis(FormatStamp(c.end)) == Ok(c.end)
  {
    var a, b := FormatStamp(c.start), FormatStamp(c.end);
    StampRoundTrip(c.start);
    StampRoundTrip(c.end);
    assert TimingLine(c) == a + " " + "-->" + " " + b + "";
    TimeLineRoundTrip(a, " ", " ", b, "");
  }

  /** The text lines of a written cue give back its words. */
  lemma CueText(n: nat, c: Cue)
    requires ValidCue(c)
    ensures TextWords(CueLines(n, c)[2..]) == c.words
    ensures CleanWords(c.words) == c.words
  {
    var lines := CueLines(n, c);
    if |c.words| == 0 {
      assert lines[2..] == [];
      SplitWsAllSpace([]);
    } else {
      var text := Join(" ", c.words);
      assert lines[2..] == [text];
      assert Join(" ", StripEach([text])) == Strip(text);
      SplitWsStrip(text);
      SplitWsJoin(c.words);
    }
    CleanWordsOfClean(c.words);
  }

  /** The parser reads a written cue back as its words, each with the cue's span. */
  lemma CueRoundTrip(n: nat, c: Cue)
    requires ValidCue(c)
    ensures CueWords(RenderCue(n, c)) == Ok(CueTimedWords(c))
  {
    CueSplitsIntoLines(n, c);
    CueTimes(c);
    CueText(n, c);
  }

  /** The written cues of a file. */
  function CueBlocks(cues: seq<Cue>): (r: seq<string>)
    requires forall k :: 0 <= k < |cues| ==> ValidCue(cues[k])
    ensures |r| == |cues| && forall k :: 0 <= k < |cues| ==> r[k] == RenderCue(k + 1, cues[k])
  {
    seq(|cues|, k requires 0 <= k < |cues| => RenderCue(k + 1, cues[k]))
  }

  /** A written file is its own `strip()` and is cut back into its cues. */
  lemma SrtSplitsIntoCues(cues: seq<Cue>)
    requires |cues| > 0 && forall k :: 0 <= k < |cues| ==> ValidCue(cues[k])
    ensures SplitBlocks(Strip(RenderSrt(cues))) == CueBlocks(cues)
  {
    var blocks := CueBlocks(cues);
    forall k | 0 <= k < |blocks|
      ensures IsBlock(blocks[k])
    {
      RenderedCueIsBlock(k + 1, cues[k]);
    }
    JoinEnds("\n\n", blocks);
    TrimmedIsStripped(RenderSrt(cues));
    SplitBlocksJoin(blocks);
  }

  /** When `f` gives `ys[k]` for every `xs[k]`, `Gather` gives their concatenation. */
  lemma GatherOk<A, B>(f: A -> Result<seq<B>>, xs: seq<A>, ys: seq<seq<B>>)
    requires |xs| == |ys| && forall k :: 0 <= k < |xs| ==> f(xs[k]) == Ok(ys[k])
    ensures Gather(f, xs) == Ok(Flatten(ys))
  {
    var got := seq(|xs|, k requires 0 <= k < |xs| && f(xs[k]).Ok? => f(xs[k]).value);
    assert got == ys;
  }

  /** Cue `k` of a written file reads back as the words of cue `k`. */
  lemma CueBlockWords(cues: seq<Cue>, k: nat)
    requires forall k :: 0 <= k < |cues| ==> ValidCue(cues[k])
    requires k < |cues|
    ensures CueWords(CueBlocks(cues)[k]) == Ok(CueTimedWords(cues[k]))
  {
    var b := RenderCue(k + 1, cues[k]);
    assert CueBlocks(cues)[k] == b;
    CueRoundTrip(k + 1, cues[k]);
  }

  /** An empty file has no words. */
  lemma EmptySrt()
    ensures ParseSrt([]) == Ok([])
  {
    TrimmedIsStripped([]);
    assert SplitBlocks([]) == [[]];
    assert CueWords([]) == Ok([]);
    GatherOk(CueWords, [[]], [[]]);
  }

  /** `parse_srt` reads a written file back as the words of its cues, in order, each with its
      cue's span. */
  lemma SrtRoundTrip(cues: seq<Cue>)
    requires forall k :: 0 <= k < |cues| ==> ValidCue(cues[k])
    ensures ParseSrt(RenderSrt(cues)) == Ok(Flatten(seq(|cues|, k requires 0 <= k < |cues| => CueTimedWords(cues[k]))))
  {
    var want := seq(|cues|, k requires 0 <= k < |cues| => CueTimedWords(cues[k]));
    if |cues| == 0 {
      EmptySrt();
    } else {
      SrtSplitsIntoCues(cues);
      var blocks := CueBlocks(cues);
      forall k | 0 <= k < |blocks|
        ensures CueWords(blocks[k]) == Ok(want[k])
      {
        CueBlockWords(cues, k);
      }
      GatherOk(CueWords, blocks, want);
    }
  }
}
