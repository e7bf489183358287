/** The helpers that prepare a raw, time-stamped transcript (one `[time] text` caption per line)
    for the language model: the seconds and end times read from the stamps, the fallback grouping
    used when the model's grouping cannot be parsed, and the merging of each group of lines into
    one line. The model's answers are a parameter. */
module RawTranscript {
  import opened Prelude
  import opened Strings

  // ---------------------------------------------------------------------------
  // lines and brackets
  // ---------------------------------------------------------------------------

  /** `[l.strip() for l in ls if l.strip()]`. */
  function NonBlank(ls: seq<string>): (r: seq<string>)
    ensures |r| <= |ls|
    ensures forall k :: 0 <= k < |r| ==> |r[k]| > 0 && Trimmed(r[k])
    decreases |ls|
  {
    if |ls| == 0 then []
    else
      var rest := NonBlank(ls[1..]);
      if |Strip(ls[0])| > 0 then [Strip(ls[0])] + rest else rest
  }

  /** The lines the grouping works on: the stripped, non-blank lines of the stripped transcript. */
  function TranscriptLines(transcript: string): seq<string> {
    NonBlank(SplitOn(Strip(transcript), '\n'))
  }

  /** `line[line.find('[') + 1:line.find(']')]`, with Python's slice rules when a bracket is
      missing or the two come in the other order. */
  function StartTime(line: string): string {
    PySlice(line, Find(line, '[') + 1, Find(line, ']'))
  }

  /** `line[line.find(']') + 1:].strip()`: the whole line, stripped, when it has no `]`. */
  function LineText(line: string): string {
    Strip(PySlice(line, Find(line, ']') + 1, |line|))
  }

  /** A caption line as the transcript writes it. */
  function CaptionLine(time: string, text: string): string {
    "[" + time + "] " + text
  }

  /** A caption whose time holds no `]` and no newline, and whose text is non-empty, stripped and
      on one line. */
  predicate WellFormed(time: string, text: string) {
    ']' !in time && '\n' !in time && |text| > 0 && Trimmed(text) && '\n' !in text
  }

  /** `find` returns the first index holding the character. */
  lemma {:induction false} FindAt(s: string, c: char, j: nat)
    requires j < |s| && s[j] == c && c !in s[..j]
    ensures Find(s, c) == j
    decreases j
  {
    if j > 0 {
      assert s[0] == s[..j][0];
      assert s[1..][..j - 1] == s[1..j];
      assert s[1..j] == s[..j][1..];
      FindAt(s[1..], c, j - 1);
    }
  }

  /** The first `[` of a caption line opens it and its first `]` closes the time. */
  lemma CaptionBrackets(time: string, text: string)
    requires ']' !in time
    ensures Find(CaptionLine(time, text), '[') == 0
    ensures Find(CaptionLine(time, text), ']') == |time| + 1
  {
    var line := CaptionLine(time, text);
    var j := |time| + 1;
    assert line[j] == ']' && line[..j] == "[" + time;
    FindAt(line, ']', j);
  }

  lemma SpaceThenText(text: string)
    requires Trimmed(text)
    ensures Strip(" " + text) == text
  {
    StripFramed(" ", text, "");
    assert " " + text + "" == " " + text;
  }

  /** The time between the brackets and the text after them are read back from a well-formed
      caption line. */
  lemma CaptionParts(time: string, text: string)
    requires WellFormed(time, text)
    ensures StartTime(CaptionLine(time, text)) == time
    ensures LineText(CaptionLine(time, text)) == text
  {
    var line := CaptionLine(time, text);
    CaptionBrackets(time, text);
    assert line[1..|time| + 1] == time;
    assert PySlice(line, |time| + 2, |line|) == " " + text;
    SpaceThenText(text);
  }

  /** A well-formed caption line is one non-empty line and its own `strip()`. */
  lemma CaptionShape(time: string, text: string)
    requires WellFormed(time, text)
    ensures |CaptionLine(time, text)| > 0 && Trimmed(CaptionLine(time, text))
    ensures '\n' !in CaptionLine(time, text)
  {
    var line := CaptionLine(time, text);
    assert line[|line| - 1] == text[|text| - 1];
  }

  /** Well-formed captions, one per line, are the lines the grouping works on. */
  lemma {:induction false} CaptionsAreLines(lines: seq<string>)
    requires forall k :: 0 <= k < |lines| ==> |lines[k]| > 0 && Trimmed(lines[k]) && '\n' !in lines[k]
    ensures TranscriptLines(Join("\n", lines)) == lines
  {
    SplitJoinedLines(lines);
    if |lines| == 0 {
      assert NonBlank([[]]) == [];
    } else {
      NonBlankKeeps(lines);
    }
  }

  lemma {:induction false} NonBlankKeeps(ls: seq<string>)
    requires forall k :: 0 <= k < |ls| ==> |ls[k]| > 0 && Trimmed(ls[k])
    ensures NonBlank(ls) == ls
    decreases |ls|
  {
    if |ls| > 0 {
      TrimmedIsStripped(ls[0]);
      NonBlankKeeps(ls[1..]);
      assert [ls[0]] + ls[1..] == ls;
    }
  }

  // ---------------------------------------------------------------------------
  // seconds and end times
  // ---------------------------------------------------------------------------

  /** What `int()` raises on text that is not a decimal integer. */
  const BadInt := ValueError("invalid literal for int() with base 10")

  /** How many `:`-separated fields the conversion reads: three as hours, minutes and seconds,
      two as minutes and seconds, otherwise only the first, as seconds. */
  function FieldsRead(n: nat): nat {
    if n == 3 then 3 else if n == 2 then 2 else 1
  }

  /** `int()` of each `:`-separated field of a caption's time, `None` where it raises. */
  function Fields(time: string): (v: seq<Option<int>>)
    ensures |v| == |SplitOn(time, ':')|
  {
    Each(ParseInt, SplitOn(time, ':'))
  }

  /** `f` applied to each element. */
  function Each<A, B>(f: A -> B, xs: seq<A>): (r: seq<B>)
    ensures |r| == |xs| && forall k :: 0 <= k < |xs| ==> r[k] == f(xs[k])
  {
    seq(|xs|, k requires 0 <= k < |xs| => f(xs[k]))
  }

  /** The seconds that fields already read by `int()` stand for. */
  function ClockOf(v: seq<Option<int>>): (r: Result<int>)
    requires |v| >= 1
    ensures r.Ok? <==> forall k :: 0 <= k < FieldsRead(|v|) ==> v[k].Some?
    ensures r.Err? ==> r.error == BadInt
  {
    if |v| == 3 then
      if v[0].Some? && v[1].Some? && v[2].Some? then Ok(v[0].value * 3600 + v[1].value * 60 + v[2].value) else Err(BadInt)
    else if |v| == 2 then
      if v[0].Some? && v[1].Some? then Ok(v[0].value * 60 + v[1].value) else Err(BadInt)
    else if v[0].Some? then Ok(v[0].value) else Err(BadInt)
  }

  /** The seconds a caption's time stands for: ValueError when a field it reads is not an
      integer. */
  function ClockSeconds(time: string): (r: Result<int>)
    ensures var v := Fields(time);
            r.Ok? <==> forall k :: 0 <= k < FieldsRead(|v|) ==> v[k].Some?
    ensures r.Err? ==> r.error == BadInt
  {
    ClockOf(Fields(time))
  }

  /** A caption the seconds loop reads: a non-empty line with both brackets gives its time and
      text; any other line is passed over. */
  function Stamped(line: string): (r: Option<(string, string)>)
    ensures r.Some? <==> '[' in line && ']' in line
  {
    if |line| > 0 && '[' in line && ']' in line then Some((StartTime(line), LineText(line))) else None
  }

  /** `[f(x) for x in xs if f(x) is not None]`. */
  function Pick<A, B>(f: A -> Option<B>, xs: seq<A>): (r: seq<B>)
    ensures |r| <= |xs|
    decreases |xs|
  {
    if |xs| == 0 then []
    else
      var rest := Pick(f, xs[1..]);
      match f(xs[0])
      case Some(y) => [y] + rest
      case None => rest
  }

  /** When `f` gives a value for every element, `Pick` keeps them all. */
  lemma {:induction false} PickAll<A, B>(f: A -> Option<B>, xs: seq<A>, ys: seq<B>)
    requires |xs| == |ys| && forall k :: 0 <= k < |xs| ==> f(xs[k]) == Some(ys[k])
    ensures Pick(f, xs) == ys
    decreases |xs|
  {
    if |xs| > 0 {
      PickAll(f, xs[1..], ys[1..]);
      assert [ys[0]] + ys[1..] == ys;
    }
  }

  /** The captions of `lines`, in order. */
  function Captions(lines: seq<string>): (r: seq<(string, string)>)
    ensures |r| <= |lines|
  {
    Pick(Stamped, lines)
  }

  /** The seconds and text of each caption; the first time `int()` rejects raises ValueError. */
  function ReadSeconds(captions: seq<(string, string)>): (r: Result<seq<(int, string)>>)
    ensures r.Ok? <==> forall k :: 0 <= k < |captions| ==> ClockSeconds(captions[k].0).Ok?
    ensures r.Err? ==> r.error == BadInt
    ensures r.Ok? ==> |r.value| == |captions|
    ensures r.Ok? ==> forall k :: 0 <= k < |captions| ==>
              r.value[k] == (ClockSeconds(captions[k].0).value, captions[k].1)
    decreases |captions|
  {
    if |captions| == 0 then Ok([])
    else
      assert forall k :: 1 <= k < |captions| ==> captions[k] == captions[1..][k - 1];
      match ClockSeconds(captions[0].0)
      case Err(e) => Err(e)
      case Ok(s) =>
        match ReadSeconds(captions[1..])
        case Err(e) => Err(e)
        case Ok(rest) => Ok([(s, captions[0].1)] + rest)
  }

  /** A caption with its start, its text and its end, all in seconds. */
  datatype Stamp = Stamp(timestamp: int, text: string, endTime: int)

  /** Each caption ends where the next one starts; the last lasts five seconds. */
  function WithEnds(raw: seq<(int, string)>): (r: seq<Stamp>)
    ensures |r| == |raw|
    ensures forall i :: 0 <= i < |r| ==> r[i].timestamp == raw[i].0 && r[i].text == raw[i].1
    ensures forall i :: 0 <= i < |r| - 1 ==> r[i].endTime == raw[i + 1].0
    ensures |r| > 0 ==> r[|r| - 1].endTime == r[|r| - 1].timestamp + 5
  {
    seq(|raw|, i requires 0 <= i < |raw| => Stamp(raw[i].0, raw[i].1, if i + 1 < |raw| then raw[i + 1].0 else raw[i].0 + 5))
  }

  /** A caption ends where the next one starts. */
  lemma EndMeetsStart(raw: seq<(int, string)>, i: nat)
    requires i + 1 < |raw|
    ensures WithEnds(raw)[i].endTime == WithEnds(raw)[i + 1].timestamp
  {
  }

  /** The caption data the transcript prompt is built from. */
  function TimestampData(transcript: string): (r: Result<seq<Stamp>>)
    ensures r.Err? ==> r.error == BadInt
  {
    match ReadSeconds(Captions(SplitOn(Strip(transcript), '\n')))
    case Ok(raw) => Ok(WithEnds(raw))
    case Err(e) => Err(e)
  }

  /** The time the captions cover, caption by caption. */
  function Covered(r: seq<Stamp>): int
    decreases |r|
  {
    if |r| == 0 then 0 else (r[0].endTime - r[0].timestamp) + Covered(r[1..])
  }

  /** The captions cover, without gaps or overlaps, the stretch from the first start to five
      seconds past the last start. */
  lemma {:induction false} CoveredSpan(raw: seq<(int, string)>)
    requires |raw| > 0
    ensures Covered(WithEnds(raw)) == raw[|raw| - 1].0 + 5 - raw[0].0
    decreases |raw|
  {
    var r := WithEnds(raw);
    if |raw| > 1 {
      CoveredSpan(raw[1..]);
      assert WithEnds(raw)[1..] == WithEnds(raw[1..]);
    }
  }

  // ---------------------------------------------------------------------------
  // writing times
  // ---------------------------------------------------------------------------

  /** Two decimal digits. */
  function Pad2(d: nat): (r: string)
    requires d < 100
    ensures IsDigits(r) && DigitsValue(r) == d
  {
    var r := [('0' as int + d / 10) as char, ('0' as int + d % 10) as char];
    assert r[..1] == [r[0]] && [r[0]][..0] == [];
    assert DigitsValue([r[0]]) == d / 10;
    r
  }

  /** `int()` reads back a string of digits. */
  lemma ParseDigits(s: string)
    requires IsDigits(s)
    ensures ParseInt(s) == Some(DigitsValue(s) as int)
  {
    StripNoSpace(s);
  }

  /** A string of digits holds no `:`. */
  lemma DigitsNoColon(s: string)
    requires IsDigits(s)
    ensures ':' !in s
  {
    forall k | 0 <= k < |s|
      ensures s[k] != ':'
    {
      assert IsDigit(s[k]);
    }
  }

  /** `H:MM:SS`. */
  function Clock(n: nat): string {
    NatToString(n / 3600) + ":" + Pad2(n / 60 % 60) + ":" + Pad2(n % 60)
  }

  /** Hours, minutes and seconds add back up to the seconds. */
  lemma ClockArith(n: nat)
    ensures (n / 3600) * 3600 + (n / 60 % 60) * 60 + n % 60 == n
  {
    var q := n / 60;
    assert n == q * 60 + n % 60;
    assert q == (q / 60) * 60 + q % 60;
    assert n / 3600 == q / 60;
  }

  /** Three digit strings joined by `:` split back into themselves. */
  lemma SplitDigitFields(h: string, m: string, s: string)
    requires IsDigits(h) && IsDigits(m) && IsDigits(s)
    ensures SplitOn(h + ":" + m + ":" + s, ':') == [h, m, s]
  {
    DigitsNoColon(h);
    DigitsNoColon(m);
    DigitsNoColon(s);
    SplitOnPrefix(h, ':', m + ":" + s);
    SplitOnPrefix(m, ':', s);
    SplitOnNone(s, ':');
    assert h + ":" + m + ":" + s == h + [':'] + (m + [':'] + s);
  }

  /** Three fields that `int()` reads give those values. */
  lemma ThreeFields(t: string, h: string, m: string, s: string, a: int, b: int, c: int)
    requires SplitOn(t, ':') == [h, m, s]
    requires ParseInt(h) == Some(a) && ParseInt(m) == Some(b) && ParseInt(s) == Some(c)
    ensures Fields(t) == [Some(a), Some(b), Some(c)]
  {
    EachThree(ParseInt, [h, m, s], Some(a), Some(b), Some(c));
  }

  /** `f` applied to three elements. */
  lemma EachThree<A, B>(f: A -> B, xs: seq<A>, a: B, b: B, c: B)
    requires |xs| == 3 && f(xs[0]) == a && f(xs[1]) == b && f(xs[2]) == c
    ensures Each(f, xs) == [a, b, c]
  {
  }

  /** The three fields of `H:MM:SS`. */
  lemma ClockFields(n: nat)
    ensures Fields(Clock(n)) == [Some((n / 3600) as int), Some((n / 60 % 60) as int), Some((n % 60) as int)]
  {
    var h, m, s := NatToString(n / 3600), Pad2(n / 60 % 60), Pad2(n % 60);
    SplitDigitFields(h, m, s);
    ParseDigits(h);
    ParseDigits(m);
    ParseDigits(s);
    ThreeFields(Clock(n), h, m, s, n / 3600, n / 60 % 60, n % 60);
  }

  /** A time written as hours, minutes and seconds is read back as its seconds. */
  lemma ClockRoundTrip(n: nat)
    ensures ClockSeconds(Clock(n)) == Ok(n as int)
  {
    var h, m, s := n / 3600, n / 60 % 60, n % 60;
    var t := Clock(n);
    ClockFields(n);
    assert ClockSeconds(t) == ClockOf(Fields(t));
    ClockOfThree(h, m, s);
    assert ClockSeconds(t) == Ok(h * 3600 + m * 60 + s);
    ClockArith(n);
    assert h * 3600 + m * 60 + s == n;
  }

  lemma ClockOfThree(h: int, m: int, s: int)
    ensures ClockOf([Some(h), Some(m), Some(s)]) == Ok(h * 3600 + m * 60 + s)
  {
  }

  lemma ClockOfTwo(m: int, s: int)
    ensures ClockOf([Some(m), Some(s)]) == Ok(m * 60 + s)
  {
  }

  /** A time written as minutes and seconds is read back as its seconds. */
  lemma MinutesRoundTrip(m: nat, s: nat)
    requires s < 60
    ensures ClockSeconds(NatToString(m) + ":" + Pad2(s)) == Ok((m * 60 + s) as int)
  {
    var t := NatToString(m) + ":" + Pad2(s);
    MinutesFields(m, s);
    assert ClockSeconds(t) == ClockOf(Fields(t));
    ClockOfTwo(m, s);
    assert ClockSeconds(t) == Ok(m * 60 + s);
  }

  /** The two fields of `M:SS`. */
  lemma MinutesFields(m: nat, s: nat)
    requires s < 60
    ensures Fields(NatToString(m) + ":" + Pad2(s)) == [Some(m as int), Some(s as int)]
  {
    var a, b := NatToString(m), Pad2(s);
    DigitsNoColon(a);
    DigitsNoColon(b);
    SplitOnPrefix(a, ':', b);
    SplitOnNone(b, ':');
    ParseDigits(a);
    ParseDigits(b);
  }

  /** Captions written one per line. */
  function CaptionLines(entries: seq<(string, string)>): (r: seq<string>)
    ensures |r| == |entries|
    ensures forall k :: 0 <= k < |r| ==> r[k] == CaptionLine(entries[k].0, entries[k].1)
  {
    seq(|entries|, k requires 0 <= k < |entries| => CaptionLine(entries[k].0, entries[k].1))
  }

  /** Captions stamped with their seconds written as `H:MM:SS`. */
  function ClockCaptions(entries: seq<(nat, string)>): (r: seq<(string, string)>)
    ensures |r| == |entries|
    ensures forall k :: 0 <= k < |r| ==> r[k] == (Clock(entries[k].0), entries[k].1)
  {
    seq(|entries|, k requires 0 <= k < |entries| => (Clock(entries[k].0), entries[k].1))
  }

  /** The seconds and texts of the captions. */
  function Seconds(entries: seq<(nat, string)>): (r: seq<(int, string)>)
    ensures |r| == |entries|
    ensures forall k :: 0 <= k < |r| ==> r[k] == (entries[k].0 as int, entries[k].1)
  {
    seq(|entries|, k requires 0 <= k < |entries| => (entries[k].0 as int, entries[k].1))
  }

  /** The captions of well-formed caption lines are their times and texts. */
  lemma CaptionsOfLines(entries: seq<(string, string)>)
    requires forall k :: 0 <= k < |entries| ==> WellFormed(entries[k].0, entries[k].1)
    ensures Captions(CaptionLines(entries)) == entries
  {
    var lines := CaptionLines(entries);
    forall k | 0 <= k < |entries|
      ensures Stamped(lines[k]) == Some(entries[k])
    {
      CaptionStamped(entries[k].0, entries[k].1);
    }
    PickAll(Stamped, lines, entries);
  }

  /** The seconds loop reads a well-formed caption line as its time and text. */
  lemma CaptionStamped(time: string, text: string)
    requires WellFormed(time, text)
    ensures Stamped(CaptionLine(time, text)) == Some((time, text))
  {
    var line := CaptionLine(time, text);
    CaptionParts(time, text);
    assert line[0] == '[' && line[|time| + 1] == ']';
  }

  /** One-line, non-empty, stripped lines joined by newlines split back into those lines. */
  lemma SplitJoinedLines(lines: seq<string>)
    requires forall k :: 0 <= k < |lines| ==> |lines[k]| > 0 && Trimmed(lines[k]) && '\n' !in lines[k]
    ensures SplitOn(Strip(Join("\n", lines)), '\n') == if |lines| == 0 then [[]] else lines
  {
    if |lines| > 0 {
      JoinEnds("\n", lines);
      TrimmedIsStripped(Join("\n", lines));
      SplitOnJoined(lines, '\n');
    }
  }

  /** The seconds loop reads written `H:MM:SS` times back as the seconds they were written from. */
  lemma ReadWritten(entries: seq<(nat, string)>)
    ensures ReadSeconds(ClockCaptions(entries))
            == Ok(Seconds(entries))
  {
    var written := ClockCaptions(entries);
    var want := Seconds(entries);
    forall k | 0 <= k < |entries|
      ensures ClockSeconds(written[k].0) == Ok(want[k].0) && written[k].1 == want[k].1
    {
      ClockRoundTrip(entries[k].0);
    }
    var r := ReadSeconds(written);
    assert r.Ok?;
    assert r.value == want;
  }

  /** A transcript written with `H:MM:SS` stamps yields its captions' seconds and texts, each
      ending where the next starts. */
  lemma TimestampRoundTrip(entries: seq<(nat, string)>)
    requires forall k :: 0 <= k < |entries| ==> WellFormed(Clock(entries[k].0), entries[k].1)
    ensures TimestampData(Join("\n", CaptionLines(ClockCaptions(entries))))
            == Ok(WithEnds(Seconds(entries)))
  {
    var written := ClockCaptions(entries);
    var lines := CaptionLines(written);
    forall k | 0 <= k < |lines|
      ensures |lines[k]| > 0 && Trimmed(lines[k]) && '\n' !in lines[k]
    {
      CaptionShape(written[k].0, written[k].1);
    }
    var t := Join("\n", lines);
    var want := Seconds(entries);
    SplitJoinedLines(lines);
    CaptionsOfLines(written);
    if |lines| == 0 {
      assert Captions([[]]) == [] == written;
    }
    assert Captions(SplitOn(Strip(t), '\n')) == written;
    ReadWritten(entries);
    assert ReadSeconds(written) == Ok(want);
    assert TimestampData(t) == Ok(WithEnds(want));
  }

  // ---------------------------------------------------------------------------
  // grouping lines into sentences
  // ---------------------------------------------------------------------------

  /** `xs[i]` on a list of length `n`: a negative index counts from the end, and one outside
      `-n .. n - 1` raises IndexError. */
  function PyIndex(n: nat, i: int): (r: Option<nat>)
    ensures r.Some? <==> -(n as int) <= i < n
    ensures r.Some? ==> r.value == i % n
  {
    if 0 <= i < n then Some(i) else if -(n as int) <= i < 0 then Some(n + i) else None
  }

  /** `max(g)`. */
  function MaxOf(g: seq<int>): (m: int)
    requires |g| > 0
    ensures forall k :: 0 <= k < |g| ==> g[k] <= m
    ensures exists k :: 0 <= k < |g| && g[k] == m
    decreases |g|
  {
    if |g| == 1 then g[0]
    else
      var m := MaxOf(g[1..]);
      assert forall k :: 1 <= k < |g| ==> g[k] == g[1..][k - 1];
      if g[0] >= m then g[0] else m
  }

  /** `not range_group or max(range_group) >= len(lines)`: the group is passed over. */
  predicate Skipped(g: seq<int>, n: nat) {
    |g| == 0 || MaxOf(g) >= n
  }

  /** Every index of the group names one of `n` lines. */
  predicate Indexes(g: seq<int>, n: nat) {
    forall k :: 0 <= k < |g| ==> PyIndex(n, g[k]).Some?
  }

  /** `combined_text += " " + text if combined_text else text`, over `texts`. */
  function Accumulate(acc: string, texts: seq<string>): string
    decreases |texts|
  {
    if |texts| == 0 then acc
    else Accumulate(if |acc| > 0 then acc + " " + texts[0] else texts[0], texts[1..])
  }

  /** The texts of the group's lines. */
  function GroupTexts(lines: seq<string>, g: seq<int>): (r: seq<string>)
    requires Indexes(g, |lines|)
    ensures |r| == |g|
  {
    seq(|g|, k requires 0 <= k < |g| => LineText(lines[PyIndex(|lines|, g[k]).value]))
  }

  /** The line a group makes: the first line's time, then the group's texts. */
  function GroupLine(lines: seq<string>, g: seq<int>): string
    requires |g| > 0 && Indexes(g, |lines|)
  {
    "[" + StartTime(lines[PyIndex(|lines|, g[0]).value]) + "] " + Strip(Accumulate([], GroupTexts(lines, g)))
  }

  /** The groups the loop does not pass over, in order. */
  function KeptGroups(n: nat, ranges: seq<seq<int>>): (r: seq<seq<int>>)
    ensures |r| <= |ranges|
    ensures forall k :: 0 <= k < |r| ==> !Skipped(r[k], n)
    decreases |ranges|
  {
    if |ranges| == 0 then []
    else (if Skipped(ranges[0], n) then [] else [ranges[0]]) + KeptGroups(n, ranges[1..])
  }

  /** The loop of `combine_transcript_lines` over `n` lines, with `make` building a kept group's
      line: one line per group it does not pass over; a kept group with an index below `-n`
      raises IndexError. */
  function CombineWith(n: nat, ranges: seq<seq<int>>, make: seq<int> --> string): (r: Result<seq<string>>)
    requires forall g :: |g| > 0 && Indexes(g, n) ==> make.requires(g)
    ensures r.Ok? <==> forall k :: 0 <= k < |ranges| && !Skipped(ranges[k], n) ==> Indexes(ranges[k], n)
    ensures r.Err? ==> r.error == IndexError
    ensures r.Ok? ==> |r.value| == |KeptGroups(n, ranges)|
    decreases |ranges|
  {
    if |ranges| == 0 then Ok([])
    else
      assert forall k :: 1 <= k < |ranges| ==> ranges[k] == ranges[1..][k - 1];
      var g := ranges[0];
      if Skipped(g, n) then CombineWith(n, ranges[1..], make)
      else if !Indexes(g, n) then Err(IndexError)
      else
        match CombineWith(n, ranges[1..], make)
        case Err(e) => Err(e)
        case Ok(rest) => Ok([make(g)] + rest)
  }

  /** The lines made are those of the kept groups, in order. */
  lemma {:induction false} CombineWithLines(n: nat, ranges: seq<seq<int>>, make: seq<int> --> string)
    requires forall g :: |g| > 0 && Indexes(g, n) ==> make.requires(g)
    requires CombineWith(n, ranges, make).Ok?
    ensures var kept := KeptGroups(n, ranges);
            forall k :: 0 <= k < |kept| ==>
              Indexes(kept[k], n) && CombineWith(n, ranges, make).value[k] == make(kept[k])
    decreases |ranges|
  {
    if |ranges| > 0 {
      var g, rest := ranges[0], ranges[1..];
      var r := CombineWith(n, ranges, make);
      if Skipped(g, n) {
        assert r == CombineWith(n, rest, make);
        assert KeptGroups(n, ranges) == KeptGroups(n, rest);
        CombineWithLines(n, rest, make);
      } else {
        var tail := CombineWith(n, rest, make);
        assert Indexes(g, n) && tail.Ok? && r.value == [make(g)] + tail.value;
        assert KeptGroups(n, ranges) == [g] + KeptGroups(n, rest);
        CombineWithLines(n, rest, make);
      }
    }
  }

  /** `GroupLine` over the transcript's lines, as a function of the group. */
  function LineMaker(lines: seq<string>): (make: seq<int> --> string)
    ensures forall g :: |g| > 0 && Indexes(g, |lines|) ==> make.requires(g) && make(g) == GroupLine(lines, g)
  {
    g requires |g| > 0 && Indexes(g, |lines|) => GroupLine(lines, g)
  }

  /** The loop over the transcript's lines. */
  function CombineGroups(lines: seq<string>, ranges: seq<seq<int>>): Result<seq<string>> {
    CombineWith(|lines|, ranges, LineMaker(lines))
  }

  /** `combine_transcript_lines`. */
  function CombineTranscriptLines(transcript: string, ranges: seq<seq<int>>): Result<string> {
    match CombineGroups(TranscriptLines(transcript), ranges)
    case Ok(out) => Ok(Join("\n", out))
    case Err(e) => Err(e)
  }

  /** Once the text is non-empty, each further text follows a single space. */
  lemma {:induction false} AccumulateStarted(acc: string, texts: seq<string>)
    requires |acc| > 0
    ensures Accumulate(acc, texts) == Join(" ", [acc] + texts)
    decreases |texts|
  {
    if |texts| > 0 {
      var next := acc + " " + texts[0];
      AccumulateStarted(next, texts[1..]);
      assert ([acc] + texts)[1..] == texts;
      if |texts| == 1 {
        assert Join(" ", [next] + texts[1..]) == next;
        assert Join(" ", texts) == texts[0];
      } else {
        assert ([next] + texts[1..])[1..] == texts[1..];
        assert Join(" ", texts) == texts[0] + " " + Join(" ", texts[1..]);
      }
    }
  }

  /** A group's text is its texts joined by single spaces, once the empty texts in front of the
      first non-empty one are dropped; the empty ones after it still add a space each. */
  lemma {:induction false} GroupTextJoined(texts: seq<string>, d: nat)
    requires d <= |texts| && forall k :: 0 <= k < d ==> |texts[k]| == 0
    requires d == |texts| || |texts[d]| > 0
    ensures Accumulate([], texts) == Join(" ", texts[d..])
    decreases d
  {
    if d > 0 {
      assert texts[1..][d - 1..] == texts[d..];
      GroupTextJoined(texts[1..], d - 1);
    } else if |texts| > 0 {
      AccumulateStarted(texts[0], texts[1..]);
      assert [texts[0]] + texts[1..] == texts;
    }
  }

  /** The groups of a grouping whose first `p` groups are kept and the rest passed over. */
  lemma {:induction false} KeptPrefix(n: nat, ranges: seq<seq<int>>, p: nat)
    requires p <= |ranges|
    requires forall k :: 0 <= k < p ==> !Skipped(ranges[k], n)
    requires forall k :: p <= k < |ranges| ==> Skipped(ranges[k], n)
    ensures KeptGroups(n, ranges) == ranges[..p]
    decreases |ranges|
  {
    if |ranges| > 0 {
      if p > 0 {
        KeptPrefix(n, ranges[1..], p - 1);
        assert [ranges[0]] + ranges[1..][..p - 1] == ranges[..p];
      } else {
        KeptPrefix(n, ranges[1..], 0);
      }
    }
  }

  /** After three answers that cannot be parsed, every line of the stripped transcript, blank or
      not, is a group of its own. */
  function FallbackRanges(transcript: string): (r: seq<seq<int>>)
    ensures |r| == |SplitOn(Strip(transcript), '\n')|
    ensures forall i :: 0 <= i < |r| ==> r[i] == [i]
  {
    seq(|SplitOn(Strip(transcript), '\n')|, i => [i])
  }

  /** Model calls one to three of `detect_sentence_ranges`: `answers(a)` is the grouping parsed from
      answer `a`, or `None` when it was not JSON. The first grouping parsed is returned, else the
      fallback. */
  function DetectSentenceRanges(transcript: string, answers: nat -> Option<seq<seq<int>>>): (r: seq<seq<int>>)
    ensures forall a :: 0 <= a < 3 && answers(a).Some? && (forall b :: 0 <= b < a ==> answers(b).None?) ==> r == answers(a).value
    ensures (forall a :: 0 <= a < 3 ==> answers(a).None?) ==> r == FallbackRanges(transcript)
  {
    if answers(0).Some? then answers(0).value
    else if answers(1).Some? then answers(1).value
    else if answers(2).Some? then answers(2).value
    else FallbackRanges(transcript)
  }

  /** Each line rewritten as `[time] text`. */
  function Normalized(lines: seq<string>): (r: seq<string>)
    ensures |r| == |lines|
    ensures forall k :: 0 <= k < |r| ==> r[k] == "[" + StartTime(lines[k]) + "] " + LineText(lines[k])
  {
    seq(|lines|, k requires 0 <= k < |lines| => "[" + StartTime(lines[k]) + "] " + LineText(lines[k]))
  }

  /** The line a single-line group makes: that line's time and text. */
  lemma SingleGroupLine(lines: seq<string>, k: nat)
    requires k < |lines|
    ensures Indexes([k], |lines|)
    ensures GroupLine(lines, [k]) == Normalized(lines)[k]
  {
    var texts := GroupTexts(lines, [k]);
    assert texts == [LineText(lines[k])];
    assert Accumulate([], texts) == LineText(lines[k]);
    StripIdempotent(PySlice(lines[k], Find(lines[k], ']') + 1, |lines[k]|));
  }

  /** With the fallback grouping every non-blank line becomes a line of its own, in order, made
      of its time and its text. */
  lemma FallbackKeepsEveryLine(transcript: string)
    ensures var lines := TranscriptLines(transcript);
            CombineGroups(lines, FallbackRanges(transcript)) == Ok(Normalized(lines))
  {
    var lines := TranscriptLines(transcript);
    SingletonGroups(lines, FallbackRanges(transcript));
  }

  /** Groups `[0], [1], …` over at least as many lines as there are: each line is its own line. */
  lemma SingletonGroups(lines: seq<string>, ranges: seq<seq<int>>)
    requires |lines| <= |ranges| && forall i :: 0 <= i < |ranges| ==> ranges[i] == [i]
    ensures CombineGroups(lines, ranges) == Ok(Normalized(lines))
  {
    var n := |lines|;
    var make := LineMaker(lines);
    SingletonsKept(n, ranges);
    var r := CombineWith(n, ranges, make);
    CombineWithLines(n, ranges, make);
    forall k | 0 <= k < n
      ensures r.value[k] == Normalized(lines)[k]
    {
      assert KeptGroups(n, ranges)[k] == [k];
      SingleGroupLine(lines, k);
    }
    assert r.value == Normalized(lines);
  }

  /** Of the groups `[0], [1], …`, those naming one of `n` lines are kept, and the rest are
      passed over. */
  lemma SingletonsKept(n: nat, ranges: seq<seq<int>>)
    requires n <= |ranges| && forall i :: 0 <= i < |ranges| ==> ranges[i] == [i]
    ensures KeptGroups(n, ranges) == ranges[..n]
    ensures forall k :: 0 <= k < |ranges| && !Skipped(ranges[k], n) ==> Indexes(ranges[k], n)
  {
    forall k | 0 <= k < |ranges|
      ensures Skipped(ranges[k], n) <==> k >= n
    {
      assert MaxOf(ranges[k]) == k;
    }
    KeptPrefix(n, ranges, n);
  }

  /** A transcript of well-formed caption lines comes back unchanged from the fallback grouping. */
  lemma FallbackKeepsCaptions(entries: seq<(string, string)>)
    requires forall k :: 0 <= k < |entries| ==> WellFormed(entries[k].0, entries[k].1)
    ensures var t := Join("\n", CaptionLines(entries));
            CombineTranscriptLines(t, FallbackRanges(t)) == Ok(t)
  {
    var lines := CaptionLines(entries);
    var t := Join("\n", lines);
    forall k | 0 <= k < |lines|
      ensures |lines[k]| > 0 && Trimmed(lines[k]) && '\n' !in lines[k]
      ensures "[" + StartTime(lines[k]) + "] " + LineText(lines[k]) == lines[k]
    {
      CaptionShape(entries[k].0, entries[k].1);
      CaptionParts(entries[k].0, entries[k].1);
    }
    CaptionsAreLines(lines);
    FallbackKeepsEveryLine(t);
    assert Normalized(lines) == lines;
  }
}
