/** The German splitter: spaCy's sentences (each a list of `text_with_ws` token strings) are cut
    into chunks by `split_long_sentence`, which accumulates tokens and, whenever the buffer grows
    past `max_len`, flushes it after the last token ending in a comma, semicolon or colon, or
    else before the token that overflowed. */
module GermanSplitter {
  import opened Prelude
  import opened Strings

  predicate IsClauseMark(c: char) {
    c == ',' || c == ';' || c == ':'
  }

  /** `tok.strip() and tok.strip()[-1] in ",;:"`, read off the last non-whitespace character. */
  predicate IsPunctToken(tok: string) {
    var e := TrimEnd(tok, |tok|);
    e > 0 && IsClauseMark(tok[e - 1])
  }

  /** The test on the stripped token is the test on its last non-whitespace character. */
  lemma PunctTokenStrip(tok: string)
    ensures IsPunctToken(tok) <==> (|Strip(tok)| != 0 && IsClauseMark(Strip(tok)[|Strip(tok)| - 1]))
  {
    var lo := SkipSpace(tok, 0);
    var hi := TrimEnd(tok, |tok|);
    if hi > 0 {
      assert !IsSpace(tok[hi - 1]);
      assert Strip(tok) == tok[lo..hi];
    }
  }

  /** The position of the last clause-mark token in the buffer (`last_punct_pos`). */
  function LastPunct(cur: seq<string>): (r: Option<nat>)
    ensures r.Some? ==> r.value < |cur| && IsPunctToken(cur[r.value])
    ensures r.Some? ==> forall j :: r.value < j < |cur| ==> !IsPunctToken(cur[j])
    ensures r.None? ==> forall j :: 0 <= j < |cur| ==> !IsPunctToken(cur[j])
    decreases |cur|
  {
    if |cur| == 0 then None
    else if IsPunctToken(cur[|cur| - 1]) then Some(|cur| - 1)
    else
      var init := cur[..|cur| - 1];
      assert forall j :: 0 <= j < |init| ==> init[j] == cur[j];
      LastPunct(init)
  }

  /** The loop's incremental update of `last_punct_pos` when a token is appended, and the
      recomputation after a flush, both give the last clause-mark position of the buffer. */
  lemma LastPunctSnoc(cur: seq<string>, tok: string)
    ensures LastPunct(cur + [tok]) == if IsPunctToken(tok) then Some(|cur|) else LastPunct(cur)
  {
    assert (cur + [tok])[..|cur|] == cur;
  }

  /** Where an overflowing buffer is cut: `split_at` as written, or after the last clause mark
      even when that is the overflowing token itself. */
  datatype CutRule = AsWritten | AfterPunct

  /** `split_at` for a buffer whose last token made it overflow. */
  function SplitAt(rule: CutRule, cur: seq<string>): (k: nat)
    requires |cur| >= 1
    ensures k <= |cur|
    ensures rule == AsWritten ==> k < |cur|
  {
    match LastPunct(cur)
    case Some(p) => if rule == AfterPunct || p != |cur| - 1 then p + 1 else |cur| - 1
    case None => |cur| - 1
  }

  /** The comment's rule: with a clause mark in the buffer the flushed part ends with the last
      one; without, the overflowing token starts the next buffer. */
  lemma AfterPunctCut(cur: seq<string>)
    requires |cur| >= 1
    ensures var k := SplitAt(AfterPunct, cur);
            (LastPunct(cur).Some? ==> 1 <= k && IsPunctToken(cur[k - 1])
                                      && forall j :: k <= j < |cur| ==> !IsPunctToken(cur[j]))
            && (LastPunct(cur).None? ==> k == |cur| - 1)
  {
    match LastPunct(cur)
    case Some(p) =>
      assert SplitAt(AfterPunct, cur) == p + 1;
    case None =>
  }

  /** The two rules differ only when the overflowing token is itself the last clause mark. */
  lemma CutRulesAgree(cur: seq<string>)
    requires |cur| >= 1
    ensures SplitAt(AsWritten, cur) != SplitAt(AfterPunct, cur)
        <==> LastPunct(cur) == Some(|cur| - 1)
  { }

  /** The flushed buffers of the token loop from token `i` with buffer `current`; the last one
      is the final `flush()`. Nothing is lost or reordered: they put back together give the
      buffer and the remaining tokens. */
  function Slices(rule: CutRule, tokens: seq<string>, maxLen: int, i: nat, current: seq<string>): (r: seq<seq<string>>)
    requires i <= |tokens|
    ensures |r| >= 1
    ensures Flatten(r) == current + tokens[i..]
    decreases |tokens| - i
  {
    if i == |tokens| then
      assert Flatten([current]) == current + Flatten([]);
      [current]
    else
      var cur := current + [tokens[i]];
      assert tokens[i..] == [tokens[i]] + tokens[i + 1..];
      if |Concat(cur)| > maxLen then
        var k := SplitAt(rule, cur);
        var rest := Slices(rule, tokens, maxLen, i + 1, cur[k..]);
        assert cur[..k] + cur[k..] == cur;
        [cur[..k]] + rest
      else
        Slices(rule, tokens, maxLen, i + 1, cur)
  }

  /** What `flush` appends for each buffer: the stripped joined tokens, when not empty. */
  function Chunks(slices: seq<seq<string>>): (r: seq<string>)
    ensures forall k :: 0 <= k < |r| ==> |r[k]| != 0 && Trimmed(r[k])
    decreases |slices|
  {
    if |slices| == 0 then []
    else
      var c := Strip(Concat(slices[0]));
      var rest := Chunks(slices[1..]);
      if |c| != 0 then [c] + rest else rest
  }

  /** The chunks hold the characters of the buffers other than whitespace, in order. */
  lemma {:induction false} ChunksKeepGlyphs(slices: seq<seq<string>>)
    ensures Glyphs(Concat(Chunks(slices))) == Glyphs(Concat(Flatten(slices)))
    decreases |slices|
  {
    if |slices| != 0 {
      ChunksKeepGlyphs(slices[1..]);
      ChunksStep(slices, Strip(Concat(slices[0])), Chunks(slices[1..]));
    }
  }

  lemma ChunksStep(slices: seq<seq<string>>, c: string, rest: seq<string>)
    requires |slices| >= 1 && c == Strip(Concat(slices[0]))
    requires Glyphs(Concat(rest)) == Glyphs(Concat(Flatten(slices[1..])))
    ensures Glyphs(Concat(if |c| != 0 then [c] + rest else rest)) == Glyphs(Concat(Flatten(slices)))
  {
    ConcatAppend(slices[0], Flatten(slices[1..]));
    GlyphsAppend(Concat(slices[0]), Concat(Flatten(slices[1..])));
    GlyphsStrip(Concat(slices[0]));
    if |c| != 0 {
      assert Concat([c] + rest) == c + Concat(rest);
      GlyphsAppend(c, Concat(rest));
    } else {
      assert Glyphs(c) == [];
    }
  }

  /** `split_long_sentence` for one sentence given as its `text_with_ws` tokens; the sentence
      text is their stripped concatenation. */
  function SplitLongSentence(rule: CutRule, tokens: seq<string>, maxLen: int): (r: seq<string>)
    ensures forall k :: 0 <= k < |r| ==> Trimmed(r[k])
    ensures |Strip(Concat(tokens))| <= maxLen ==> r == [Strip(Concat(tokens))]
    ensures |Strip(Concat(tokens))| > maxLen ==> r == Chunks(Slices(rule, tokens, maxLen, 0, []))
  {
    var text := Strip(Concat(tokens));
    if |text| <= maxLen then [text]
    else Chunks(Slices(rule, tokens, maxLen, 0, []))
  }

  /** No character other than whitespace is lost, added or moved by the splitting. */
  lemma SplitKeepsGlyphs(rule: CutRule, tokens: seq<string>, maxLen: int)
    ensures Glyphs(Concat(SplitLongSentence(rule, tokens, maxLen))) == Glyphs(Concat(tokens))
  {
    var text := Strip(Concat(tokens));
    GlyphsStrip(Concat(tokens));
    if |text| <= maxLen {
      assert Concat([text]) == text + Concat([]);
      assert Concat(SplitLongSentence(rule, tokens, maxLen)) == text;
    } else {
      var slices := Slices(rule, tokens, maxLen, 0, []);
      ChunksKeepGlyphs(slices);
      assert [] + tokens[0..] == tokens;
    }
  }

  /** `segment_text` of the German segmenter (default `max_len` 60), for spaCy's sentences
      given as token lists. */
  function SegmentText(rule: CutRule, sentences: seq<seq<string>>, maxLen: int): (r: seq<string>)
    ensures forall k :: 0 <= k < |r| ==> Trimmed(r[k])
    ensures Glyphs(Concat(r)) == Glyphs(Concat(Flatten(sentences)))
    decreases |sentences|
  {
    if |sentences| == 0 then []
    else
      var head := SplitLongSentence(rule, sentences[0], maxLen);
      var rest := SegmentText(rule, sentences[1..], maxLen);
      SplitKeepsGlyphs(rule, sentences[0], maxLen);
      ConcatAppend(head, rest);
      GlyphsAppend(Concat(head), Concat(rest));
      ConcatAppend(sentences[0], Flatten(sentences[1..]));
      GlyphsAppend(Concat(sentences[0]), Concat(Flatten(sentences[1..])));
      head + rest
  }

  // ---------------------------------------------------------------------------
  // Worked inputs
  // ---------------------------------------------------------------------------

  /** Stripping the example strings. */
  lemma StripExample1()
    ensures Strip("a b,") == "a b,"
  {
    StripFramed([], "a b,", []);
    assert [] + "a b," + [] == "a b,";
  }

  lemma StripExample2()
    ensures Strip("a ") == "a"
  {
    StripFramed([], "a", " ");
    assert [] + "a" + " " == "a ";
  }

  lemma StripExample3()
    ensures Strip("b,") == "b," && Strip("abc") == "abc" && Strip([]) == []
  {
    StripNoSpace("b,");
    StripNoSpace("abc");
  }

  lemma PunctExampleTokens()
    ensures Concat(["a "]) == "a " && Concat(["b,"]) == "b,"
    ensures Concat(["a ", "b,"]) == "a b,"
    ensures LastPunct(["a ", "b,"]) == Some(1)
  {
    assert TrimEnd("b,", 2) == 2;
    assert ["a ", "b,"][1..] == ["b,"];
  }

  lemma PunctExampleSplitAt(rule: CutRule)
    ensures SplitAt(rule, ["a ", "b,"]) == if rule == AsWritten then 1 else 2
  {
    PunctExampleTokens();
  }

  lemma PunctSlicesFirst(rule: CutRule)
    ensures Slices(rule, ["a ", "b,"], 2, 0, []) == Slices(rule, ["a ", "b,"], 2, 1, ["a "])
  {
    PunctExampleTokens();
    assert [] + [["a ", "b,"][0]] == ["a "];
  }

  lemma PunctSlicesSecond(rule: CutRule, k: nat)
    requires k == SplitAt(rule, ["a ", "b,"])
    ensures Slices(rule, ["a ", "b,"], 2, 1, ["a "]) == [["a ", "b,"][..k], ["a ", "b,"][k..]]
  {
    var toks := ["a ", "b,"];
    PunctExampleTokens();
    assert ["a "] + [toks[1]] == toks;
    assert [toks[..k]] + [toks[k..]] == [toks[..k], toks[k..]];
  }

  lemma PunctExampleSlices(rule: CutRule)
    ensures Slices(rule, ["a ", "b,"], 2, 0, []) ==
            if rule == AsWritten then [["a "], ["b,"]] else [["a ", "b,"], []]
  {
    var toks := ["a ", "b,"];
    var k := SplitAt(rule, toks);
    PunctExampleSplitAt(rule);
    PunctSlicesFirst(rule);
    PunctSlicesSecond(rule, k);
    if rule == AsWritten {
      assert toks[..k] == ["a "] && toks[k..] == ["b,"];
    } else {
      assert toks[..k] == toks && toks[k..] == [];
    }
  }

  /** As written, when the overflowing token is the clause mark it is left for the next chunk,
      against the comment at the cut: `"a b,"` with `max_len` 2 becomes `"a"`, `"b,"`. */
  lemma OverflowPunctKeptBack()
    ensures SplitLongSentence(AsWritten, ["a ", "b,"], 2) == ["a", "b,"]
  {
    PunctExampleTokens();
    PunctExampleSlices(AsWritten);
    StripExample1();
    StripExample2();
    StripExample3();
  }

  /** The comment's rule flushes after the mark and keeps `"a b,"` together. */
  lemma OverflowPunctFlushed()
    ensures SplitLongSentence(AfterPunct, ["a ", "b,"], 2) == ["a b,"]
  {
    PunctExampleTokens();
    PunctExampleSlices(AfterPunct);
    StripExample1();
    StripExample3();
    assert Concat([]) == [];
  }

  lemma LoneTokenSlices(rule: CutRule)
    ensures Slices(rule, ["abc"], 1, 0, []) == [[], ["abc"]]
  {
    assert Concat(["abc"]) == "abc";
    assert TrimEnd("abc", 3) == 3;
    assert LastPunct(["abc"]) == None;
    assert [] + ["abc"] == ["abc"];
    assert ["abc"][..0] == [] && ["abc"][0..] == ["abc"];
  }

  /** A single token longer than `max_len` is flushed as nothing (`flush(0)`) and stays in the
      buffer, so it comes out whole as one chunk longer than `max_len`. */
  lemma LoneLongToken(rule: CutRule)
    ensures SplitLongSentence(rule, ["abc"], 1) == ["abc"]
  {
    LoneTokenSlices(rule);
    StripExample3();
    assert Concat(["abc"]) == "abc";
    assert Concat([]) == [];
  }

  lemma RecheckSlicesTail(rule: CutRule)
    ensures Slices(rule, ["a,", "b", "cccc", "d"], 4, 3, ["b", "cccc"]) == [["b", "cccc"], ["d"]]
  {
    var toks := ["a,", "b", "cccc", "d"];
    RecheckPunct();
    assert Concat(["b", "cccc", "d"]) == "bccccd";
    assert ["b", "cccc"] + [toks[3]] == ["b", "cccc", "d"];
    assert ["b", "cccc", "d"][..2] == ["b", "cccc"] && ["b", "cccc", "d"][2..] == ["d"];
  }

  lemma RecheckSlicesMiddle(rule: CutRule)
    ensures Slices(rule, ["a,", "b", "cccc", "d"], 4, 2, ["a,", "b"])
         == [["a,"]] + Slices(rule, ["a,", "b", "cccc", "d"], 4, 3, ["b", "cccc"])
  {
    var toks := ["a,", "b", "cccc", "d"];
    RecheckPunct();
    assert Concat(["a,", "b", "cccc"]) == "a,bcccc";
    assert ["a,", "b"] + [toks[2]] == ["a,", "b", "cccc"];
    assert ["a,", "b", "cccc"][..1] == ["a,"] && ["a,", "b", "cccc"][1..] == ["b", "cccc"];
  }

  lemma RecheckSlicesHead(rule: CutRule)
    ensures Slices(rule, ["a,", "b", "cccc", "d"], 4, 0, []) == Slices(rule, ["a,", "b", "cccc", "d"], 4, 2, ["a,", "b"])
  {
    var toks := ["a,", "b", "cccc", "d"];
    assert Concat(["a,"]) == "a," && Concat(["a,", "b"]) == "a,b";
    assert [] + [toks[0]] == ["a,"] && ["a,"] + [toks[1]] == ["a,", "b"];
  }

  lemma RecheckSlices(rule: CutRule)
    ensures Slices(rule, ["a,", "b", "cccc", "d"], 4, 0, []) == [["a,"], ["b", "cccc"], ["d"]]
  {
    RecheckSlicesHead(rule);
    RecheckSlicesMiddle(rule);
    RecheckSlicesTail(rule);
  }

  /** One step of `Chunks` for a buffer whose stripped text is known. */
  lemma ChunksCons(x: seq<string>, rest: seq<seq<string>>, c: string)
    requires Strip(Concat(x)) == c && |c| != 0
    ensures Chunks([x] + rest) == [c] + Chunks(rest)
  {
    assert ([x] + rest)[1..] == rest;
  }

  lemma RecheckStrips()
    ensures Strip(Concat(["a,"])) == "a," && Strip(Concat(["d"])) == "d"
  {
    assert Concat(["a,"]) == "a," && Concat(["d"]) == "d";
    StripNoSpace("a,");
    StripNoSpace("d");
  }

  lemma RecheckStripMiddle()
    ensures Strip(Concat(["b", "cccc"])) == "bcccc"
  {
    assert Concat(["b", "cccc"]) == "bcccc";
    StripNoSpace("bcccc");
  }

  lemma RecheckChunks()
    ensures Chunks([["a,"], ["b", "cccc"], ["d"]]) == ["a,", "bcccc", "d"]
  {
    RecheckStrips();
    RecheckStripMiddle();
    ChunksCons(["d"], [], "d");
    ChunksCons(["b", "cccc"], [["d"]], "bcccc");
    ChunksCons(["a,"], [["b", "cccc"], ["d"]], "a,");
  }

  lemma RecheckPunct()
    ensures LastPunct(["a,", "b", "cccc"]) == Some(0)
    ensures LastPunct(["b", "cccc", "d"]) == None
  {
    RecheckPunctFirst();
    RecheckPunctSecond();
  }

  lemma RecheckPunctFirst()
    ensures LastPunct(["a,", "b", "cccc"]) == Some(0)
  {
    assert TrimEnd("a,", 2) == 2 && TrimEnd("b", 1) == 1 && TrimEnd("cccc", 4) == 4;
    assert ["a,", "b", "cccc"][..2] == ["a,", "b"] && ["a,", "b"][..1] == ["a,"];
  }

  lemma RecheckPunctSecond()
    ensures LastPunct(["b", "cccc", "d"]) == None
  {
    assert TrimEnd("b", 1) == 1 && TrimEnd("cccc", 4) == 4 && TrimEnd("d", 1) == 1;
    assert ["b", "cccc", "d"][..2] == ["b", "cccc"] && ["b", "cccc"][..1] == ["b"] && ["b"][..0] == [];
  }

  /** After a cut at a clause mark the rest of the buffer is not measured again until the next
      token, so a chunk without a clause mark can be longer than `max_len`: `"bcccc"` with
      `max_len` 4. */
  lemma BufferNotRechecked(rule: CutRule)
    ensures SplitLongSentence(rule, ["a,", "b", "cccc", "d"], 4) == ["a,", "bcccc", "d"]
  {
    RecheckText();
    RecheckSlices(rule);
    RecheckChunks();
  }

  lemma RecheckText()
    ensures Strip(Concat(["a,", "b", "cccc", "d"])) == "a,bccccd"
  {
    var toks := ["a,", "b", "cccc", "d"];
    assert toks[1..] == ["b", "cccc", "d"] && toks[1..][1..] == ["cccc", "d"] && toks[1..][1..][1..] == ["d"];
    assert Concat(["d"]) == "d";
    assert Concat(["cccc", "d"]) == "ccccd";
    assert Concat(["b", "cccc", "d"]) == "bccccd";
    assert Concat(toks) == "a,bccccd";
    StripNoSpace("a,bccccd");
  }
}
