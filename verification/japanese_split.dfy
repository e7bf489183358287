/** The Japanese splitter: `segment_text` cuts the text after each run of sentence-ending marks,
    and `split_long_sentence` cuts every piece into chunks of at most `max_len` characters, choosing
    the rightmost safe cut point in the window. Janome's tokenisation is the parameter `tokenize`,
    which yields the token surfaces of a text. */
module JapaneseSplitter {
  import opened Prelude
  import opened Strings

  /** The characters `re.split(r'([。！？♪]+)', ...)` cuts after. */
  predicate IsSentenceEnd(c: char) {
    c == '。' || c == '！' || c == '？' || c == '♪'
  }

  /** A character after which `split_long_sentence` may always cut: a sentence end, a pause mark
      or a closing bracket. */
  predicate IsBreakAfter(c: char) {
    IsSentenceEnd(c) || c == '、' || c == '：' || c == '；'
    || c == '）' || c == '」' || c == '』' || c == '】' || c == '〕' || c == '》' || c == '〉'
  }

  /** The end offsets of consecutive tokens: the running sums of the surface lengths from `pos`. */
  function TokenEnds(surfaces: seq<string>, pos: nat): (r: seq<nat>)
    ensures |r| == |surfaces|
    decreases |surfaces|
  {
    if |surfaces| == 0 then [] else [pos + |surfaces[0]|] + TokenEnds(surfaces[1..], pos + |surfaces[0]|)
  }

  /** Whether a chunk that starts at `cs` may end at `c`: after a break character, or at a token
      end at least 70% of `maxLen` into the window (`c - cs >= max_len * 0.7`, as integers). */
  predicate SafeCut(text: string, ends: seq<nat>, maxLen: nat, cs: nat, c: nat)
    requires 0 < c <= |text|
  {
    IsBreakAfter(text[c - 1]) || (c in ends && 10 * (c - cs) >= 7 * maxLen)
  }

  /** The backward search for a cut point, from `c` down to `cs + 2`. */
  function ScanBack(text: string, ends: seq<nat>, maxLen: nat, cs: nat, c: nat): (r: Option<nat>)
    requires c <= |text|
    ensures r.Some? ==> cs + 2 <= r.value <= c && SafeCut(text, ends, maxLen, cs, r.value)
    ensures r.Some? ==> forall d :: r.value < d <= c ==> !SafeCut(text, ends, maxLen, cs, d)
    ensures r.None? ==> forall d :: cs + 2 <= d <= c ==> !SafeCut(text, ends, maxLen, cs, d)
    decreases c
  {
    if c < cs + 2 then None
    else if SafeCut(text, ends, maxLen, cs, c) then Some(c)
    else ScanBack(text, ends, maxLen, cs, c - 1)
  }

  /** Where the chunk starting at `cs` ends when the rest is longer than `maxLen`: the rightmost
      safe cut in `[cs + 2, cs + maxLen]`, else `cs + maxLen`. */
  function BestSplit(text: string, ends: seq<nat>, maxLen: nat, cs: nat): (r: nat)
    requires 1 <= maxLen && cs + maxLen < |text|
    ensures cs < r <= cs + maxLen
    ensures r == cs + maxLen || SafeCut(text, ends, maxLen, cs, r)
    ensures forall d :: r < d <= cs + maxLen ==> !SafeCut(text, ends, maxLen, cs, d)
    ensures (forall d :: cs + 2 <= d <= cs + maxLen ==> !SafeCut(text, ends, maxLen, cs, d)) ==> r == cs + maxLen
  {
    match ScanBack(text, ends, maxLen, cs, cs + maxLen)
    case Some(c) => c
    case None => cs + maxLen
  }

  /** The chunking loop of `split_long_sentence` from cursor `cs`. */
  function ChunksFrom(text: string, ends: seq<nat>, maxLen: nat, cs: nat): (r: seq<string>)
    requires 1 <= maxLen && cs <= |text|
    ensures forall k :: 0 <= k < |r| ==> 0 < |r[k]| <= maxLen && Trimmed(r[k])
    ensures NoSpace(text[cs..]) ==> Concat(r) == text[cs..]
    decreases |text| - cs
  {
    if cs == |text| then []
    else if cs + maxLen >= |text| then LastChunk(text, maxLen, cs)
    else
      var best := BestSplit(text, ends, maxLen, cs);
      var rest := ChunksFrom(text, ends, maxLen, SkipSpace(text, best));
      CutChunk(text, maxLen, cs, best, rest)
  }

  /** The last chunk: everything from the cursor on, stripped, when not empty. */
  function LastChunk(text: string, maxLen: nat, cs: nat): (r: seq<string>)
    requires cs < |text| <= cs + maxLen
    ensures forall k :: 0 <= k < |r| ==> 0 < |r[k]| <= maxLen && Trimmed(r[k])
    ensures NoSpace(text[cs..]) ==> Concat(r) == text[cs..]
  {
    var chunk := Strip(text[cs..]);
    StripNoSpace(text[cs..]);
    if |chunk| != 0 then [chunk] else []
  }

  /** A chunk cut at `best`, stripped and kept when not empty, before the chunks `rest` that
      follow from the next non-whitespace position. */
  function CutChunk(text: string, maxLen: nat, cs: nat, best: nat, rest: seq<string>): (r: seq<string>)
    requires cs < best <= cs + maxLen && best < |text|
    requires forall k :: 0 <= k < |rest| ==> 0 < |rest[k]| <= maxLen && Trimmed(rest[k])
    requires NoSpace(text[SkipSpace(text, best)..]) ==> Concat(rest) == text[SkipSpace(text, best)..]
    ensures forall k :: 0 <= k < |r| ==> 0 < |r[k]| <= maxLen && Trimmed(r[k])
    ensures NoSpace(text[cs..]) ==> Concat(r) == text[cs..]
  {
    var chunk := Strip(text[cs..best]);
    ChunksStep(text, cs, best, chunk, rest);
    if |chunk| != 0 then
      ChunkCons(chunk, rest, maxLen);
      [chunk] + rest
    else rest
  }

  lemma ChunkCons(chunk: string, rest: seq<string>, maxLen: nat)
    requires 0 < |chunk| <= maxLen && Trimmed(chunk)
    requires forall k :: 0 <= k < |rest| ==> 0 < |rest[k]| <= maxLen && Trimmed(rest[k])
    ensures forall k :: 0 <= k < |[chunk] + rest| ==> 0 < |([chunk] + rest)[k]| <= maxLen && Trimmed(([chunk] + rest)[k])
  {
    forall k | 0 <= k < |[chunk] + rest|
      ensures 0 < |([chunk] + rest)[k]| <= maxLen && Trimmed(([chunk] + rest)[k])
    {
      if k > 0 { assert ([chunk] + rest)[k] == rest[k - 1]; }
    }
  }

  lemma ChunksStep(text: string, cs: nat, best: nat, chunk: string, rest: seq<string>)
    requires cs < best < |text| && chunk == Strip(text[cs..best])
    requires NoSpace(text[SkipSpace(text, best)..]) ==> Concat(rest) == text[SkipSpace(text, best)..]
    ensures NoSpace(text[cs..]) ==> |chunk| != 0 && Concat([chunk] + rest) == text[cs..]
  {
    if NoSpace(text[cs..]) {
      assert text[cs..] == text[cs..best] + text[best..];
      assert NoSpace(text[cs..best]);
      StripNoSpace(text[cs..best]);
      assert !IsSpace(text[best]) by { assert text[best] == text[cs..][best - cs]; }
      assert SkipSpace(text, best) == best;
      assert NoSpace(text[best..]);
      assert Concat([chunk] + rest) == chunk + Concat(rest);
    }
  }

  /** `split_long_sentence(text, max_len)`; Janome's token surfaces for `text` are `surfaces`.
      Source termination needs `max_len >= 1`. */
  function SplitLongSentence(text: string, surfaces: seq<string>, maxLen: nat): (r: seq<string>)
    requires 1 <= maxLen
    ensures forall k :: 0 <= k < |r| ==> |r[k]| <= maxLen && Trimmed(r[k])
    ensures |text| <= maxLen ==> r == [Strip(text)]
    ensures NoSpace(text) ==> Concat(r) == text
  {
    if |text| <= maxLen then
      StripNoSpace(text);
      assert Concat([Strip(text)]) == Strip(text) + Concat([]);
      [Strip(text)]
    else
      assert text[0..] == text;
      ChunksFrom(text, TokenEnds(surfaces, 0), maxLen, 0)
  }

  /** One pass of the chunking loop as written, for any `max_len >= 0`, when the rest from `cs`
      is longer than `max_len`: the cut, and the cursor the next pass starts from after skipping
      whitespace. With `max_len == 0` the backward scan has an empty range and the fallback cut
      `min(current_start + max_len, len(text))` is the cursor itself. */
  function LoopStepAsWritten(text: string, ends: seq<nat>, maxLen: nat, cs: nat): (r: (nat, nat))
    requires cs + maxLen < |text|
    ensures cs <= r.0 <= cs + maxLen && r.0 <= r.1 <= |text|
    ensures forall k :: r.0 <= k < r.1 ==> IsSpace(text[k])
    ensures r.1 < |text| ==> !IsSpace(text[r.1])
  {
    var best := match ScanBack(text, ends, maxLen, cs, cs + maxLen)
                case Some(c) => c
                case None => cs + maxLen;
    (best, SkipSpace(text, best))
  }

  /** With `max_len == 0` a pass at a non-space character cuts an empty chunk and resumes at the
      same cursor, so the loop repeats the same pass forever. */
  lemma ZeroMaxLenStalls(text: string, ends: seq<nat>, cs: nat)
    requires cs < |text| && !IsSpace(text[cs])
    ensures LoopStepAsWritten(text, ends, 0, cs) == (cs, cs)
    ensures Strip(text[cs..cs]) == []
  {
    assert ScanBack(text, ends, 0, cs, cs) == None;
  }

  /** With `max_len >= 1` every pass moves the cursor forward and cuts where `BestSplit` says,
      which is what makes `ChunksFrom` a terminating loop. */
  lemma LoopStepAdvances(text: string, ends: seq<nat>, maxLen: nat, cs: nat)
    requires 1 <= maxLen && cs + maxLen < |text|
    ensures LoopStepAsWritten(text, ends, maxLen, cs).0 == BestSplit(text, ends, maxLen, cs)
    ensures cs < LoopStepAsWritten(text, ends, maxLen, cs).1
  {
  }

  // ---------------------------------------------------------------------------
  // segment_text
  // ---------------------------------------------------------------------------

  /** No sentence-ending mark in `s`. */
  predicate NoEnd(s: string) {
    forall i :: 0 <= i < |s| ==> !IsSentenceEnd(s[i])
  }

  /** A non-empty run of sentence-ending marks. */
  predicate EndRun(s: string) {
    |s| != 0 && forall i :: 0 <= i < |s| ==> IsSentenceEnd(s[i])
  }

  /** The first index at or after `i` holding a sentence-ending mark, or `|s|`. */
  function NextEnd(s: string, i: nat): (r: nat)
    requires i <= |s|
    ensures i <= r <= |s| && (r < |s| ==> IsSentenceEnd(s[r]))
    ensures forall k :: i <= k < r ==> !IsSentenceEnd(s[k])
    decreases |s| - i
  {
    if i == |s| || IsSentenceEnd(s[i]) then i else NextEnd(s, i + 1)
  }

  /** The first index at or after `i` not holding a sentence-ending mark, or `|s|`. */
  function PastEnds(s: string, i: nat): (r: nat)
    requires i <= |s|
    ensures i <= r <= |s| && (r < |s| ==> !IsSentenceEnd(s[r]))
    ensures forall k :: i <= k < r ==> IsSentenceEnd(s[k])
    decreases |s| - i
  {
    if i == |s| || !IsSentenceEnd(s[i]) then i else PastEnds(s, i + 1)
  }

  /** `re.split(r'([。！？♪]+)', s[i:])`: text pieces at even positions, the captured runs of
      sentence-ending marks at odd positions, always an odd number of pieces. */
  function ReSplitFrom(s: string, i: nat): (r: seq<string>)
    requires i <= |s|
    ensures |r| % 2 == 1
    ensures forall k :: 0 <= k < |r| && k % 2 == 0 ==> NoEnd(r[k])
    ensures forall k :: 0 <= k < |r| && k % 2 == 1 ==> EndRun(r[k])
    decreases |s| - i
  {
    var j := NextEnd(s, i);
    if j == |s| then [s[i..]]
    else
      var k := PastEnds(s, j);
      var rest := ReSplitFrom(s, k);
      ReSplitCons(s[i..j], s[j..k], rest);
      [s[i..j], s[j..k]] + rest
  }

  /** A text piece and a run of marks in front of alternating pieces keep the alternation. */
  lemma ReSplitCons(a: string, b: string, rest: seq<string>)
    requires NoEnd(a) && EndRun(b) && |rest| % 2 == 1
    requires forall k :: 0 <= k < |rest| && k % 2 == 0 ==> NoEnd(rest[k])
    requires forall k :: 0 <= k < |rest| && k % 2 == 1 ==> EndRun(rest[k])
    ensures |[a, b] + rest| % 2 == 1
    ensures forall k :: 0 <= k < |[a, b] + rest| && k % 2 == 0 ==> NoEnd(([a, b] + rest)[k])
    ensures forall k :: 0 <= k < |[a, b] + rest| && k % 2 == 1 ==> EndRun(([a, b] + rest)[k])
  {
    var r := [a, b] + rest;
    forall k | 2 <= k < |r| ensures r[k] == rest[k - 2] && (k % 2 == (k - 2) % 2) { }
  }

  /** The pieces of `re.split` put back together give the text. */
  lemma {:induction false} ReSplitConcat(s: string, i: nat)
    requires i <= |s|
    ensures Concat(ReSplitFrom(s, i)) == s[i..]
    decreases |s| - i
  {
    var j := NextEnd(s, i);
    if j == |s| {
      assert Concat([s[i..]]) == s[i..] + Concat([]);
    } else {
      var k := PastEnds(s, j);
      ReSplitConcat(s, k);
      PairConcat(s, i, j, k, ReSplitFrom(s, k));
    }
  }

  /** Two adjacent slices followed by pieces spelling the rest spell the text from `i`. */
  lemma PairConcat(s: string, i: nat, j: nat, k: nat, rest: seq<string>)
    requires i <= j <= k <= |s| && Concat(rest) == s[k..]
    ensures Concat([s[i..j], s[j..k]] + rest) == s[i..]
  {
    ConcatAppend([s[i..j], s[j..k]], rest);
    assert Concat([s[i..j], s[j..k]]) == s[i..k] by {
      assert [s[i..j], s[j..k]][1..] == [s[j..k]];
      assert Concat([s[j..k]]) == s[j..k] + Concat([]);
      assert s[i..k] == s[i..j] + s[j..k];
    }
    assert s[i..] == s[i..k] + s[k..];
  }

  /** The recombination loop: each text piece with the run of marks after it, stripped, kept
      when non-empty. */
  function CombinePairs(pieces: seq<string>, i: nat): (r: seq<string>)
    requires i <= |pieces|
    ensures forall k :: 0 <= k < |r| ==> |r[k]| != 0 && Trimmed(r[k])
    decreases |pieces| - i
  {
    if i + 1 >= |pieces| then []
    else
      var full := Strip(pieces[i] + pieces[i + 1]);
      (if |full| != 0 then [full] else []) + CombinePairs(pieces, i + 2)
  }

  /** The sentences `segment_text` goes on to split: the recombined pairs, the trailing piece when
      it is not blank, and the stripped text when there are none. */
  function CombinedSentences(text: string): (r: seq<string>)
    ensures |r| != 0
    ensures forall k :: 0 <= k < |r| ==> Trimmed(r[k])
  {
    Combine(text, ReSplitFrom(text, 0))
  }

  /** The recombination of the pieces `re.split` cut out of `text`. */
  function Combine(text: string, pieces: seq<string>): (r: seq<string>)
    requires |pieces| % 2 == 1
    ensures |r| != 0
    ensures forall k :: 0 <= k < |r| ==> Trimmed(r[k])
  {
    Recombine(text, CombinePairs(pieces, 0), pieces[|pieces| - 1])
  }

  /** The recombined pairs, then the trailing piece stripped when it is not blank; the stripped
      text when that leaves nothing. */
  function Recombine(text: string, pairs: seq<string>, trailing: string): (r: seq<string>)
    requires forall k :: 0 <= k < |pairs| ==> Trimmed(pairs[k])
    ensures |r| != 0
    ensures forall k :: 0 <= k < |r| ==> Trimmed(r[k])
  {
    var last := Strip(trailing);
    var combined := if |last| != 0 then pairs + [last] else pairs;
    if |combined| == 0 then [Strip(text)] else combined
  }

  /** Every combined sentence passed through `split_long_sentence`, the results flattened.
      `tokenize` gives Janome's token surfaces for a sentence. */
  function SplitAll(sentences: seq<string>, tokenize: string -> seq<string>, maxLen: nat): (r: seq<string>)
    requires 1 <= maxLen
    ensures forall k :: 0 <= k < |r| ==> |r[k]| <= maxLen && Trimmed(r[k])
    ensures (forall k :: 0 <= k < |sentences| ==> NoSpace(sentences[k])) ==> Concat(r) == Concat(sentences)
    decreases |sentences|
  {
    if |sentences| == 0 then []
    else
      var head := SplitLongSentence(sentences[0], tokenize(sentences[0]), maxLen);
      var rest := SplitAll(sentences[1..], tokenize, maxLen);
      ConcatAppend(head, rest);
      head + rest
  }

  /** The final filter of `segment_text`: drop the blank pieces. */
  function DropBlank(xs: seq<string>): (r: seq<string>)
    ensures forall k :: 0 <= k < |r| ==> HasNonSpace(r[k])
    ensures forall k :: 0 <= k < |r| ==> r[k] in xs
    ensures (forall k :: 0 <= k < |xs| ==> NoSpace(xs[k])) ==> Concat(r) == Concat(xs)
    decreases |xs|
  {
    if |xs| == 0 then []
    else
      var rest := DropBlank(xs[1..]);
      if Strip(xs[0]) != [] then
        StripNonEmpty(xs[0]);
        [xs[0]] + rest
      else
        StripNoSpace(xs[0]);
        rest
  }

  /** Dropping the blank pieces keeps every piece with something other than whitespace. */
  lemma {:induction false} DropBlankKeeps(xs: seq<string>)
    ensures forall k :: 0 <= k < |xs| && HasNonSpace(xs[k]) ==> xs[k] in DropBlank(xs)
    decreases |xs|
  {
    if |xs| != 0 {
      DropBlankKeeps(xs[1..]);
      forall k | 0 <= k < |xs| && HasNonSpace(xs[k]) ensures xs[k] in DropBlank(xs) {
        if k == 0 {
          if Strip(xs[0]) == [] { StripEmpty(xs[0]); }
        } else {
          assert xs[k] == xs[1..][k - 1];
        }
      }
    }
  }

  /** `segment_text(text, max_len)` of the Japanese segmenter (default `max_len` 15). */
  function SegmentText(text: string, tokenize: string -> seq<string>, maxLen: nat): (r: seq<string>)
    requires 1 <= maxLen
    ensures forall k :: 0 <= k < |r| ==> 0 < |r[k]| <= maxLen && HasNonSpace(r[k]) && Trimmed(r[k])
  {
    var pieces := SplitAll(CombinedSentences(text), tokenize, maxLen);
    var r := DropBlank(pieces);
    assert forall k :: 0 <= k < |r| ==> r[k] in pieces;
    r
  }

  /** Dropping the blank pieces loses no character other than whitespace. */
  lemma {:induction false} DropBlankGlyphs(xs: seq<string>)
    ensures Glyphs(Concat(DropBlank(xs))) == Glyphs(Concat(xs))
    decreases |xs|
  {
    if |xs| != 0 {
      DropBlankGlyphs(xs[1..]);
      var rest := DropBlank(xs[1..]);
      GlyphsAppend(xs[0], Concat(xs[1..]));
      if Strip(xs[0]) != [] {
        assert ([xs[0]] + rest)[1..] == rest;
        GlyphsAppend(xs[0], Concat(rest));
      } else {
        StripEmpty(xs[0]);
        GlyphsAllSpace(xs[0]);
      }
    }
  }

  /** The chunking loop loses no character other than whitespace: the chunks from `cs` hold the
      glyphs of the text from `cs` on. */
  lemma {:induction false} ChunksGlyphs(text: string, ends: seq<nat>, maxLen: nat, cs: nat)
    requires 1 <= maxLen && cs <= |text|
    ensures Glyphs(Concat(ChunksFrom(text, ends, maxLen, cs))) == Glyphs(text[cs..])
    decreases |text| - cs
  {
    if cs == |text| {
    } else if cs + maxLen >= |text| {
      var chunk := Strip(text[cs..]);
      GlyphsStrip(text[cs..]);
      if |chunk| != 0 {
        assert ChunksFrom(text, ends, maxLen, cs) == [chunk];
        assert Concat([chunk]) == chunk + Concat([]);
        assert Concat([chunk]) == chunk;
      } else {
        assert ChunksFrom(text, ends, maxLen, cs) == [];
        assert Glyphs(chunk) == [];
      }
    } else {
      var best := BestSplit(text, ends, maxLen, cs);
      var next := SkipSpace(text, best);
      ChunksGlyphs(text, ends, maxLen, next);
      CutGlyphs(text, cs, best, ChunksFrom(text, ends, maxLen, next));
    }
  }

  /** One cut of the chunking loop: the chunk and the chunks after the skipped whitespace hold
      the glyphs of the text from `cs` on. */
  lemma CutGlyphs(text: string, cs: nat, best: nat, rest: seq<string>)
    requires cs < best < |text|
    requires Glyphs(Concat(rest)) == Glyphs(text[SkipSpace(text, best)..])
    ensures var chunk := Strip(text[cs..best]);
      Glyphs(Concat(if |chunk| != 0 then [chunk] + rest else rest)) == Glyphs(text[cs..])
  {
    var chunk := Strip(text[cs..best]);
    var next := SkipSpace(text, best);
    assert text[cs..] == text[cs..best] + text[best..];
    assert text[best..] == text[best..next] + text[next..];
    GlyphsAppend(text[cs..best], text[best..]);
    GlyphsAppend(text[best..next], text[next..]);
    GlyphsAllSpace(text[best..next]);
    EmptyGlyphs(text[best..next], Glyphs(text[next..]));
    GlyphsStrip(text[cs..best]);
    if |chunk| != 0 {
      assert ([chunk] + rest)[1..] == rest;
      GlyphsAppend(chunk, Concat(rest));
    } else {
      EmptyGlyphs(chunk, Glyphs(text[next..]));
    }
  }

  /** `split_long_sentence` loses no character other than whitespace. */
  lemma SplitLongGlyphs(text: string, surfaces: seq<string>, maxLen: nat)
    requires 1 <= maxLen
    ensures Glyphs(Concat(SplitLongSentence(text, surfaces, maxLen))) == Glyphs(text)
  {
    if |text| <= maxLen {
      GlyphsStrip(text);
      assert Concat([Strip(text)]) == Strip(text) + Concat([]);
      assert SplitLongSentence(text, surfaces, maxLen) == [Strip(text)];
      assert Concat([Strip(text)]) == Strip(text);
    } else {
      assert text[0..] == text;
      ChunksGlyphs(text, TokenEnds(surfaces, 0), maxLen, 0);
    }
  }

  /** Splitting every sentence loses no character other than whitespace. */
  lemma {:induction false} SplitAllGlyphs(sentences: seq<string>, tokenize: string -> seq<string>, maxLen: nat)
    requires 1 <= maxLen
    ensures Glyphs(Concat(SplitAll(sentences, tokenize, maxLen))) == Glyphs(Concat(sentences))
    decreases |sentences|
  {
    if |sentences| != 0 {
      var head := SplitLongSentence(sentences[0], tokenize(sentences[0]), maxLen);
      var rest := SplitAll(sentences[1..], tokenize, maxLen);
      SplitLongGlyphs(sentences[0], tokenize(sentences[0]), maxLen);
      SplitAllGlyphs(sentences[1..], tokenize, maxLen);
      ConcatAppend(head, rest);
      GlyphsAppend(Concat(head), Concat(rest));
      GlyphsAppend(sentences[0], Concat(sentences[1..]));
    }
  }

  /** The recombination loop loses no character other than whitespace, the trailing piece aside. */
  lemma {:induction false} CombinePairsGlyphs(pieces: seq<string>, i: nat)
    requires i <= |pieces| && |pieces| % 2 == 1 && i % 2 == 0
    ensures Glyphs(Concat(CombinePairs(pieces, i))) + Glyphs(pieces[|pieces| - 1]) == Glyphs(Concat(pieces[i..]))
    decreases |pieces| - i
  {
    if i + 1 >= |pieces| {
      ConcatLast(pieces, i);
    } else {
      var pair := pieces[i] + pieces[i + 1];
      CombinePairsGlyphs(pieces, i + 2);
      CombineGlyphStep(pieces, i);
      ConcatTwo(pieces, i);
      GlyphsAppend(pair, Concat(pieces[i + 2..]));
      AppendAssoc(Glyphs(pair), Glyphs(Concat(CombinePairs(pieces, i + 2))), Glyphs(pieces[|pieces| - 1]));
    }
  }

  /** One round of the recombination loop keeps the glyphs of its pair. */
  lemma CombineGlyphStep(pieces: seq<string>, i: nat)
    requires i + 1 < |pieces|
    ensures Glyphs(Concat(CombinePairs(pieces, i)))
      == Glyphs(pieces[i] + pieces[i + 1]) + Glyphs(Concat(CombinePairs(pieces, i + 2)))
  {
    var pair := pieces[i] + pieces[i + 1];
    var full := Strip(pair);
    var rest := CombinePairs(pieces, i + 2);
    GlyphsStrip(pair);
    if |full| != 0 {
      assert CombinePairs(pieces, i) == [full] + rest;
      assert ([full] + rest)[1..] == rest;
      GlyphsAppend(full, Concat(rest));
    } else {
      assert CombinePairs(pieces, i) == [] + rest;
      assert [] + rest == rest;
      assert Glyphs(full) == [];
    }
  }

  /** The combined sentences lose no character of the text other than whitespace. */
  lemma CombinedGlyphs(text: string)
    ensures Glyphs(Concat(CombinedSentences(text))) == Glyphs(text)
  {
    var pieces := ReSplitFrom(text, 0);
    ReSplitConcat(text, 0);
    assert text[0..] == text;
    CombinePairsGlyphs(pieces, 0);
    assert pieces[0..] == pieces;
    RecombineGlyphs(text, CombinePairs(pieces, 0), pieces[|pieces| - 1]);
  }

  lemma RecombineGlyphs(text: string, pairs: seq<string>, trailing: string)
    requires forall k :: 0 <= k < |pairs| ==> Trimmed(pairs[k])
    requires Glyphs(Concat(pairs)) + Glyphs(trailing) == Glyphs(text)
    ensures Glyphs(Concat(Recombine(text, pairs, trailing))) == Glyphs(text)
  {
    var last := Strip(trailing);
    GlyphsStrip(trailing);
    if |last| != 0 {
      GlyphsSnoc(pairs, last);
    } else {
      EmptyGlyphs(trailing, Glyphs(Concat(pairs)));
      if |pairs| == 0 {
        GlyphsStrip(text);
        GlyphsSnoc([], Strip(text));
        assert [] + [Strip(text)] == [Strip(text)];
        EmptyGlyphs(Concat([]), Glyphs(Strip(text)));
      }
    }
  }

  lemma GlyphsSnoc(xs: seq<string>, x: string)
    ensures Glyphs(Concat(xs + [x])) == Glyphs(Concat(xs)) + Glyphs(x)
  {
    ConcatAppend(xs, [x]);
    assert Concat([x]) == x + Concat([]);
    assert Concat([x]) == x;
    GlyphsAppend(Concat(xs), x);
  }

  lemma EmptyGlyphs(s: string, g: string)
    requires Glyphs(s) == []
    ensures g + Glyphs(s) == g && Glyphs(s) + g == g
  { }

  /** `segment_text` loses no character other than whitespace: the segments hold the glyphs of
      the text, in order. */
  lemma SegmentTextKeepsGlyphs(text: string, tokenize: string -> seq<string>, maxLen: nat)
    requires 1 <= maxLen
    ensures Glyphs(Concat(SegmentText(text, tokenize, maxLen))) == Glyphs(text)
  {
    var combined := CombinedSentences(text);
    CombinedGlyphs(text);
    SplitAllGlyphs(combined, tokenize, maxLen);
    DropBlankGlyphs(SplitAll(combined, tokenize, maxLen));
  }

  /** The parts of a whitespace-free concatenation are whitespace-free. */
  lemma {:induction false} ConcatNoSpace(xs: seq<string>)
    requires NoSpace(Concat(xs))
    ensures forall k :: 0 <= k < |xs| ==> NoSpace(xs[k])
    decreases |xs|
  {
    if |xs| != 0 {
      var c := Concat(xs);
      assert c == xs[0] + Concat(xs[1..]);
      assert forall i :: 0 <= i < |xs[0]| ==> xs[0][i] == c[i];
      assert forall i :: 0 <= i < |Concat(xs[1..])| ==> Concat(xs[1..])[i] == c[|xs[0]| + i];
      ConcatNoSpace(xs[1..]);
      forall k | 0 <= k < |xs| ensures NoSpace(xs[k]) {
        if k > 0 { assert xs[k] == xs[1..][k - 1]; }
      }
    }
  }

  /** Two whitespace-free strings make a whitespace-free string. */
  lemma NoSpaceAppend(a: string, b: string)
    requires NoSpace(a) && NoSpace(b)
    ensures NoSpace(a + b)
  {
    assert forall k :: 0 <= k < |a| ==> (a + b)[k] == a[k];
    assert forall k :: |a| <= k < |a + b| ==> (a + b)[k] == b[k - |a|];
  }

  /** One round of the recombination loop on a whitespace-free pair. */
  lemma CombineStep(pieces: seq<string>, i: nat)
    requires i + 1 < |pieces| && NoSpace(pieces[i] + pieces[i + 1])
    ensures Concat(CombinePairs(pieces, i)) == pieces[i] + pieces[i + 1] + Concat(CombinePairs(pieces, i + 2))
  {
    var pair := pieces[i] + pieces[i + 1];
    StripNoSpace(pair);
    var rest := CombinePairs(pieces, i + 2);
    ConcatAppend(if |pair| != 0 then [pair] else [], rest);
    assert Concat([pair]) == pair + Concat([]);
  }

  /** `Concat` of a sequence starting with two strings. */
  lemma ConcatTwo(xs: seq<string>, i: nat)
    requires i + 1 < |xs|
    ensures Concat(xs[i..]) == xs[i] + xs[i + 1] + Concat(xs[i + 2..])
  {
    assert xs[i..] == [xs[i], xs[i + 1]] + xs[i + 2..];
    ConcatAppend([xs[i], xs[i + 1]], xs[i + 2..]);
    assert Concat([xs[i], xs[i + 1]]) == xs[i] + (xs[i + 1] + Concat([]));
  }

  /** One round of the recombination loop, given the rounds after it. */
  lemma CombinePairsStep(pieces: seq<string>, i: nat)
    requires i + 1 < |pieces| && NoSpace(pieces[i]) && NoSpace(pieces[i + 1])
    requires Concat(CombinePairs(pieces, i + 2)) + pieces[|pieces| - 1] == Concat(pieces[i + 2..])
    ensures Concat(CombinePairs(pieces, i)) + pieces[|pieces| - 1] == Concat(pieces[i..])
  {
    NoSpaceAppend(pieces[i], pieces[i + 1]);
    CombineStep(pieces, i);
    ConcatTwo(pieces, i);
    AppendAssoc(pieces[i] + pieces[i + 1], Concat(CombinePairs(pieces, i + 2)), pieces[|pieces| - 1]);
  }

  lemma AppendAssoc(a: string, b: string, c: string)
    ensures (a + b) + c == a + (b + c)
  { }

  /** `Concat` of a one-element suffix, after which the recombination loop stops. */
  lemma ConcatLast(pieces: seq<string>, i: nat)
    requires i < |pieces| <= i + 1
    ensures CombinePairs(pieces, i) == []
    ensures Concat(pieces[i..]) == pieces[|pieces| - 1]
  {
    assert pieces[i..] == [pieces[|pieces| - 1]];
    assert Concat(pieces[i..]) == pieces[|pieces| - 1] + Concat([]);
  }

  /** Without whitespace the recombination loop loses nothing but the trailing piece. */
  lemma {:induction false} CombinePairsConcat(pieces: seq<string>, i: nat)
    requires i <= |pieces| && |pieces| % 2 == 1 && i % 2 == 0
    requires forall k :: 0 <= k < |pieces| ==> NoSpace(pieces[k])
    ensures Concat(CombinePairs(pieces, i)) + pieces[|pieces| - 1] == Concat(pieces[i..])
    decreases |pieces| - i
  {
    if i + 1 >= |pieces| {
      ConcatLast(pieces, i);
    } else {
      CombinePairsConcat(pieces, i + 2);
      CombinePairsStep(pieces, i);
    }
  }

  /** Without whitespace the combined sentences put back together give the text. */
  lemma CombinedConcat(text: string)
    requires NoSpace(text)
    ensures Concat(CombinedSentences(text)) == text
  {
    var pieces := ReSplitFrom(text, 0);
    ReSplitConcat(text, 0);
    assert text[0..] == text;
    CombineConcat(text, pieces);
  }

  lemma CombineConcat(text: string, pieces: seq<string>)
    requires NoSpace(text) && |pieces| % 2 == 1 && Concat(pieces) == text
    ensures Concat(Combine(text, pieces)) == text
  {
    ConcatNoSpace(pieces);
    CombinePairsConcat(pieces, 0);
    assert pieces[0..] == pieces;
    RecombineConcat(text, CombinePairs(pieces, 0), pieces[|pieces| - 1]);
  }

  lemma RecombineConcat(text: string, pairs: seq<string>, trailing: string)
    requires forall k :: 0 <= k < |pairs| ==> Trimmed(pairs[k])
    requires NoSpace(text) && NoSpace(trailing) && Concat(pairs) + trailing == text
    ensures Concat(Recombine(text, pairs, trailing)) == text
  {
    StripNoSpace(trailing);
    if |trailing| != 0 {
      ConcatAppend(pairs, [trailing]);
      assert Concat([trailing]) == trailing + Concat([]);
    } else if |pairs| == 0 {
      StripNoSpace(text);
      assert Concat([Strip(text)]) == Strip(text) + Concat([]);
    } else {
      assert Concat(pairs) + trailing == Concat(pairs);
    }
  }

  /** `segment_text` loses no character of a text without whitespace: the segments put back
      together give the text. */
  lemma SegmentTextLossless(text: string, tokenize: string -> seq<string>, maxLen: nat)
    requires 1 <= maxLen && NoSpace(text)
    ensures Concat(SegmentText(text, tokenize, maxLen)) == text
  {
    var combined := CombinedSentences(text);
    CombinedConcat(text);
    ConcatNoSpace(combined);
    var pieces := SplitAll(combined, tokenize, maxLen);
    ConcatNoSpace(pieces);
  }

  /** A text of at most `maxLen` characters with no sentence-ending mark and something other than
      whitespace in it is one segment, stripped. */
  lemma SegmentTextShort(text: string, tokenize: string -> seq<string>, maxLen: nat)
    requires 1 <= maxLen && |text| <= maxLen && NoEnd(text) && Strip(text) != []
    ensures SegmentText(text, tokenize, maxLen) == [Strip(text)]
  {
    var pieces := ReSplitFrom(text, 0);
    assert NextEnd(text, 0) == |text|;
    assert text[0..] == text;
    assert pieces == [text];
    StripIdempotent(text);
    var sl := SplitLongSentence(Strip(text), tokenize(Strip(text)), maxLen);
    assert sl == [Strip(text)];
    assert SplitAll([Strip(text)], tokenize, maxLen) == sl + SplitAll([], tokenize, maxLen);
  }
}
