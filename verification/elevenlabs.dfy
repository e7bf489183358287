/** The ElevenLabs transcription step's pure part: the API's word list (spacing entries
    included) is grouped into sentences by punctuation and speaker, long sentences are cut after
    commas, and each piece becomes a numbered segment. The API call itself is not modelled. */
module ElevenLabs {
  import opened Prelude
  import opened Strings
  import opened Transcript

  /** A word of the API response: every field may be missing. `kind` is "word", "spacing" or
      another event type. `None` stands for a missing key; an explicit JSON null is read the
      same way. */
  datatype ApiWord = ApiWord(text: Option<string>, start: Option<real>, end: Option<real>,
                             kind: Option<string>, speaker: Option<string>)

  /** `w.get('text', '')`. */
  function TextOf(w: ApiWord): string {
    w.text.GetOr("")
  }

  /** `w.get('speaker_id', 'speaker_0')`. */
  function SpeakerOf(w: ApiWord): string {
    w.speaker.GetOr("speaker_0")
  }

  predicate Spacing(w: ApiWord) {
    w.kind == Some("spacing")
  }

  /** `_is_sentence_ending(text)`: a final ! ? 。 ！ ？, or a final full stop unless the whole
      text is exactly an ellipsis. */
  predicate IsSentenceEnding(t: string) {
    EndsWith(t, "!") || EndsWith(t, "?") || EndsWith(t, "。") || EndsWith(t, "！") || EndsWith(t, "？")
    || (EndsWith(t, ".") && t != "...")
  }

  /** Only a bare ellipsis is exempt: one that closes a word still ends the sentence. */
  lemma EllipsisCases()
    ensures !IsSentenceEnding("...")
    ensures IsSentenceEnding("so...")
    ensures !IsSentenceEnding("Hallo,")
  {
    assert EndsWith("so...", ".");
    assert !EndsWith("Hallo,", ".") && !EndsWith("Hallo,", "!") && !EndsWith("Hallo,", "?");
  }

  /** A word that closes its sentence: a content word whose stripped text is a sentence ending. */
  predicate Ends(w: ApiWord) {
    !Spacing(w) && IsSentenceEnding(Strip(TextOf(w)))
  }

  /** The summed length of the texts: `len(''.join(w.get('text', '') ...))`. */
  function TextLength(ws: seq<ApiWord>): nat {
    if |ws| == 0 then 0 else |TextOf(ws[0])| + TextLength(ws[1..])
  }

  /** `char_threshold`: 15 characters for Japanese, 80 otherwise. */
  function Threshold(language: string): nat {
    if language == "ja" then 15 else 80
  }

  // ---------------------------------------------------------------------------
  // _should_split_segment
  // ---------------------------------------------------------------------------

  /** `re.compile(r'[,、]$').search(t)`: a comma at the very end, or just before one final
      newline, since `$` also matches there. */
  predicate CommaEnding(t: string) {
    (|t| >= 1 && t[|t| - 1] in {',', '、'})
    || (|t| >= 2 && t[|t| - 2] in {',', '、'} && t[|t| - 1] == '\n')
  }

  /** `_should_split_segment(current_words, word_text, language, total)`: always after a sentence
      ending; after a comma when the segment is long enough, measured by `total` when given and
      by the accumulated words otherwise; never after anything else. */
  function ShouldSplitSegment(current: seq<ApiWord>, wordText: string, language: string, total: Option<int>): (r: bool)
    ensures IsSentenceEnding(wordText) ==> r
    ensures r && !IsSentenceEnding(wordText) ==> CommaEnding(wordText)
    ensures !IsSentenceEnding(wordText) && CommaEnding(wordText) && total.Some? ==> (r <==> total.value >= Threshold(language))
    ensures !IsSentenceEnding(wordText) && CommaEnding(wordText) && total.None? ==> (r <==> TextLength(current) >= Threshold(language))
  {
    if IsSentenceEnding(wordText) then true
    else if CommaEnding(wordText) then
      match total
      case Some(n) => n >= Threshold(language)
      case None => TextLength(current) >= Threshold(language)
    else false
  }

  /** The regular expression accepts a comma before a trailing newline, which the comma splitter's
      `endswith` test on the stripped text also accepts, but the unstripped text fails `endswith`. */
  lemma NewlineComma()
    ensures ShouldSplitSegment([], ",\n", "ja", Some(20))
    ensures !EndsWith(",\n", ",")
  {
  }

  // ---------------------------------------------------------------------------
  // _group_into_sentences
  // ---------------------------------------------------------------------------

  /** All content words of a group share one speaker. */
  predicate OneSpeaker(g: seq<ApiWord>) {
    forall i, j :: 0 <= i < |g| && 0 <= j < |g| && !Spacing(g[i]) && !Spacing(g[j]) ==> SpeakerOf(g[i]) == SpeakerOf(g[j])
  }

  /** A sentence ending may only close a group. */
  predicate EndsOnlyLast(ends: ApiWord -> bool, g: seq<ApiWord>) {
    forall i :: 0 <= i < |g| - 1 ==> !ends(g[i])
  }

  predicate GoodGroup(ends: ApiWord -> bool, g: seq<ApiWord>) {
    |g| != 0 && OneSpeaker(g) && EndsOnlyLast(ends, g)
  }

  /** The next group opens with a content word of a speaker other than one of `g`'s. */
  predicate SpeakerChange(g: seq<ApiWord>, h: seq<ApiWord>) {
    |h| != 0 && !Spacing(h[0]) && exists i :: 0 <= i < |g| && !Spacing(g[i]) && SpeakerOf(g[i]) != SpeakerOf(h[0])
  }

  /** Why a group was closed before the next one: its last word ends a sentence, or the speaker
      changed. */
  predicate Justified(ends: ApiWord -> bool, g: seq<ApiWord>, h: seq<ApiWord>) {
    (|g| != 0 && ends(g[|g| - 1])) || SpeakerChange(g, h)
  }

  /** The loop's state: the closed groups, the open one and its speaker. */
  datatype GroupState = GroupState(groups: seq<seq<ApiWord>>, current: seq<ApiWord>, speaker: Option<string>)

  /** The speaker handling for a word, before it is added: a content word sets the speaker, and
      one of another speaker first closes a non-empty open group. */
  function Admit(st: GroupState, w: ApiWord): GroupState {
    if Spacing(w) then st
    else if st.speaker.None? || st.speaker.value == SpeakerOf(w) then st.(speaker := Some(SpeakerOf(w)))
    else if |st.current| != 0 then GroupState(st.groups + [st.current], [], Some(SpeakerOf(w)))
    else st.(speaker := Some(SpeakerOf(w)))
  }

  /** One iteration: the word joins the open group, and a sentence ending closes it. */
  function Step(ends: ApiWord -> bool, st: GroupState, w: ApiWord): GroupState {
    var a := Admit(st, w);
    if ends(w) then GroupState(a.groups + [a.current + [w]], [], None)
    else a.(current := a.current + [w])
  }

  /** What the open group and its speaker satisfy between iterations. */
  predicate OpenOk(ends: ApiWord -> bool, current: seq<ApiWord>, speaker: Option<string>) {
    (forall j :: 0 <= j < |current| ==> !ends(current[j]))
    && (forall j :: 0 <= j < |current| && !Spacing(current[j]) ==> speaker == Some(SpeakerOf(current[j])))
    && (speaker.Some? ==> exists j :: 0 <= j < |current| && !Spacing(current[j]))
  }

  /** Every closed group is good, and each was closed for a reason the next group shows. */
  predicate ClosedOk(ends: ApiWord -> bool, groups: seq<seq<ApiWord>>) {
    (forall k :: 0 <= k < |groups| ==> GoodGroup(ends, groups[k]))
    && (forall k :: 0 <= k < |groups| - 1 ==> Justified(ends, groups[k], groups[k + 1]))
  }

  /** The last closed group, if it did not end a sentence, was closed by a change of speaker that
      the open group begins with. */
  predicate PendingOk(ends: ApiWord -> bool, groups: seq<seq<ApiWord>>, current: seq<ApiWord>)
    requires forall k :: 0 <= k < |groups| ==> |groups[k]| != 0
  {
    |groups| != 0 && !ends(groups[|groups| - 1][|groups[|groups| - 1]| - 1]) ==> SpeakerChange(groups[|groups| - 1], current)
  }

  predicate Inv(ends: ApiWord -> bool, st: GroupState) {
    ClosedOk(ends, st.groups) && OpenOk(ends, st.current, st.speaker) && PendingOk(ends, st.groups, st.current)
  }

  /** The open group closed at a change of speaker is good, and the new word justifies it. */
  lemma CloseAtSpeaker(ends: ApiWord -> bool, st: GroupState, w: ApiWord)
    requires Inv(ends, st) && !Spacing(w) && st.speaker.Some? && st.speaker.value != SpeakerOf(w) && |st.current| != 0
    ensures ClosedOk(ends, st.groups + [st.current])
    ensures SpeakerChange(st.current, [w])
  {
    var g := st.current;
    var gs := st.groups + [g];
    assert GoodGroup(ends, g);
    forall k | 0 <= k < |gs| - 1
      ensures Justified(ends, gs[k], gs[k + 1])
    {
      if k == |gs| - 2 {
        assert PendingOk(ends, st.groups, g);
      }
    }
  }

  lemma AdmitKeeps(ends: ApiWord -> bool, st: GroupState, w: ApiWord)
    requires Inv(ends, st)
    ensures var a := Admit(st, w);
            ClosedOk(ends, a.groups) && Flatten(a.groups) + a.current == Flatten(st.groups) + st.current
            && (forall j :: 0 <= j < |a.current| ==> !ends(a.current[j]))
            && (!Spacing(w) ==> a.speaker == Some(SpeakerOf(w)))
            && (forall j :: 0 <= j < |a.current| && !Spacing(a.current[j]) ==> a.speaker == Some(SpeakerOf(a.current[j])))
            && (a.speaker.Some? && Spacing(w) ==> exists j :: 0 <= j < |a.current| && !Spacing(a.current[j]))
            && (|a.current| == 0 && |a.groups| != 0 && !ends(a.groups[|a.groups| - 1][|a.groups[|a.groups| - 1]| - 1]) ==>
                  SpeakerChange(a.groups[|a.groups| - 1], [w]))
            && (|a.current| != 0 ==> PendingOk(ends, a.groups, a.current))
  {
    if !Spacing(w) && st.speaker.Some? && st.speaker.value != SpeakerOf(w) && |st.current| != 0 {
      CloseAtSpeaker(ends, st, w);
      FlattenSnoc(st.groups, st.current);
    }
  }

  /** One iteration keeps the invariant and appends the word to the words seen. */
  lemma StepKeeps(ends: ApiWord -> bool, st: GroupState, w: ApiWord)
    requires Inv(ends, st)
    ensures Inv(ends, Step(ends, st, w))
    ensures Flatten(Step(ends, st, w).groups) + Step(ends, st, w).current == Flatten(st.groups) + st.current + [w]
  {
    StepInv(ends, st, w);
    AdmitKeeps(ends, st, w);
    var a := Admit(st, w);
    if ends(w) {
      FlattenSnoc(a.groups, a.current + [w]);
    }
  }

  lemma StepInv(ends: ApiWord -> bool, st: GroupState, w: ApiWord)
    requires Inv(ends, st)
    ensures Inv(ends, Step(ends, st, w))
  {
    AdmitKeeps(ends, st, w);
    var a := Admit(st, w);
    var c := a.current + [w];
    if ends(w) {
      CloseAtEnding(ends, st, a, w);
      assert Step(ends, st, w) == GroupState(a.groups + [c], [], None);
      assert (a.groups + [c])[|a.groups|] == c;
    } else {
      KeepOpen(ends, st, a, w);
      assert Step(ends, st, w) == GroupState(a.groups, c, a.speaker);
    }
  }

  /** A sentence ending closes the open group with the word in it. */
  lemma CloseAtEnding(ends: ApiWord -> bool, st: GroupState, a: GroupState, w: ApiWord)
    requires a == Admit(st, w) && ends(w)
    requires ClosedOk(ends, a.groups)
    requires forall j :: 0 <= j < |a.current| ==> !ends(a.current[j])
    requires !Spacing(w) ==> a.speaker == Some(SpeakerOf(w))
    requires forall j :: 0 <= j < |a.current| && !Spacing(a.current[j]) ==> a.speaker == Some(SpeakerOf(a.current[j]))
    requires |a.current| == 0 && |a.groups| != 0 && !ends(a.groups[|a.groups| - 1][|a.groups[|a.groups| - 1]| - 1]) ==>
               SpeakerChange(a.groups[|a.groups| - 1], [w])
    requires |a.current| != 0 ==> PendingOk(ends, a.groups, a.current)
    ensures ClosedOk(ends, a.groups + [a.current + [w]])
    ensures Flatten(a.groups + [a.current + [w]]) == Flatten(a.groups) + a.current + [w]
  {
    var c := a.current + [w];
    FlattenSnoc(a.groups, c);
    var gs := a.groups + [c];
    assert GoodGroup(ends, c);
    if |a.current| != 0 {
      assert c[0] == a.current[0];
    }
    forall k | 0 <= k < |gs| - 1
      ensures Justified(ends, gs[k], gs[k + 1])
    {
      if k == |gs| - 2 {
        assert PendingOk(ends, a.groups, c);
      }
    }
  }

  /** Any other word joins the open group. */
  lemma KeepOpen(ends: ApiWord -> bool, st: GroupState, a: GroupState, w: ApiWord)
    requires a == Admit(st, w) && !ends(w)
    requires forall j :: 0 <= j < |a.current| ==> !ends(a.current[j])
    requires !Spacing(w) ==> a.speaker == Some(SpeakerOf(w))
    requires forall j :: 0 <= j < |a.current| && !Spacing(a.current[j]) ==> a.speaker == Some(SpeakerOf(a.current[j]))
    requires a.speaker.Some? && Spacing(w) ==> exists j :: 0 <= j < |a.current| && !Spacing(a.current[j])
    requires forall k :: 0 <= k < |a.groups| ==> |a.groups[k]| != 0
    requires |a.current| == 0 && |a.groups| != 0 && !ends(a.groups[|a.groups| - 1][|a.groups[|a.groups| - 1]| - 1]) ==>
               SpeakerChange(a.groups[|a.groups| - 1], [w])
    requires |a.current| != 0 ==> PendingOk(ends, a.groups, a.current)
    ensures OpenOk(ends, a.current + [w], a.speaker)
    ensures PendingOk(ends, a.groups, a.current + [w])
  {
    var c := a.current + [w];
    if |a.current| != 0 {
      assert c[0] == a.current[0];
    }
    if a.speaker.Some? {
      if !Spacing(w) {
        assert !Spacing(c[|c| - 1]);
      } else {
        var j :| 0 <= j < |a.current| && !Spacing(a.current[j]);
        assert c[j] == a.current[j];
      }
    }
  }

  /** The grouping loop for a given sentence-ending test. The groups put back together give the
      word list; none is empty; each has one speaker among its content words; a sentence ending
      closes its group; and every group but the last was closed by a sentence ending or a change
      of speaker. */
  method GroupWith(ends: ApiWord -> bool, words: seq<ApiWord>) returns (groups: seq<seq<ApiWord>>)
    ensures Flatten(groups) == words
    ensures forall k :: 0 <= k < |groups| ==> GoodGroup(ends, groups[k])
    ensures forall k :: 0 <= k < |groups| - 1 ==> Justified(ends, groups[k], groups[k + 1])
  {
    var st := GroupState([], [], None);
    for i := 0 to |words|
      invariant Inv(ends, st)
      invariant Flatten(st.groups) + st.current == words[..i]
    {
      StepKeeps(ends, st, words[i]);
      assert words[..i + 1] == words[..i] + [words[i]];
      st := Step(ends, st, words[i]);
    }
    assert words[..|words|] == words;
    groups := st.groups;
    if |st.current| != 0 {
      FinalClose(ends, st);
      groups := groups + [st.current];
    }
  }

  /** `_group_into_sentences(words)`. */
  method GroupIntoSentences(words: seq<ApiWord>) returns (groups: seq<seq<ApiWord>>)
    ensures Flatten(groups) == words
    ensures forall k :: 0 <= k < |groups| ==> GoodGroup(Ends, groups[k])
    ensures forall k :: 0 <= k < |groups| - 1 ==> Justified(Ends, groups[k], groups[k + 1])
  {
    groups := GroupWith(Ends, words);
  }

  /** The open group left at the end is good and closes the list. */
  lemma FinalClose(ends: ApiWord -> bool, st: GroupState)
    requires Inv(ends, st) && |st.current| != 0
    ensures ClosedOk(ends, st.groups + [st.current])
    ensures Flatten(st.groups + [st.current]) == Flatten(st.groups) + st.current
  {
    FlattenSnoc(st.groups, st.current);
    var gs := st.groups + [st.current];
    assert GoodGroup(ends, st.current);
    forall k | 0 <= k < |gs| - 1
      ensures Justified(ends, gs[k], gs[k + 1])
    {
      if k == |gs| - 2 {
        assert PendingOk(ends, st.groups, st.current);
      }
    }
  }

  // ---------------------------------------------------------------------------
  // _split_long_sentence_at_commas
  // ---------------------------------------------------------------------------

  /** A word after which a long sentence is cut: its stripped text ends with a comma. */
  predicate CommaWord(w: ApiWord) {
    EndsWith(Strip(TextOf(w)), ",") || EndsWith(Strip(TextOf(w)), "、")
  }

  /** `pieces` cut `ws` after every word `cut` accepts and nowhere else: put back together they
      give `ws`, none is empty, such a word can only close a piece, and every piece but the last is
      closed by one. */
  predicate CutAfter(cut: ApiWord -> bool, ws: seq<ApiWord>, pieces: seq<seq<ApiWord>>) {
    Flatten(pieces) == ws
    && (forall k :: 0 <= k < |pieces| ==> |pieces[k]| != 0)
    && (forall k, j :: 0 <= k < |pieces| && 0 <= j < |pieces[k]| - 1 ==> !cut(pieces[k][j]))
    && (forall k :: 0 <= k < |pieces| - 1 ==> cut(pieces[k][|pieces[k]| - 1]))
  }

  /** The loop of `_split_long_sentence_at_commas` over a sentence, for a given cutting test and
      written as a recursion on the first word: it joins the first piece of the rest unless it is
      itself a cutting word. */
  function CutsWith(cut: ApiWord -> bool, ws: seq<ApiWord>): (r: seq<seq<ApiWord>>)
    ensures CutAfter(cut, ws, r)
    ensures |r| == 0 <==> |ws| == 0
    decreases |ws|
  {
    if |ws| == 0 then []
    else
      var rest := CutsWith(cut, ws[1..]);
      if cut(ws[0]) || |rest| == 0 then
        CutsCons(cut, ws, rest);
        [[ws[0]]] + rest
      else
        CutsJoin(cut, ws, rest);
        [[ws[0]] + rest[0]] + rest[1..]
  }

  lemma CutsCons(cut: ApiWord -> bool, ws: seq<ApiWord>, rest: seq<seq<ApiWord>>)
    requires |ws| != 0 && CutAfter(cut, ws[1..], rest) && (|rest| == 0 <==> |ws| == 1)
    requires cut(ws[0]) || |rest| == 0
    ensures CutAfter(cut, ws, [[ws[0]]] + rest)
  {
    var r := [[ws[0]]] + rest;
    assert r[1..] == rest;
    assert ws == [ws[0]] + ws[1..];
    assert forall k :: 1 <= k < |r| ==> r[k] == rest[k - 1];
  }

  lemma CutsJoin(cut: ApiWord -> bool, ws: seq<ApiWord>, rest: seq<seq<ApiWord>>)
    requires |ws| != 0 && CutAfter(cut, ws[1..], rest) && |rest| != 0 && !cut(ws[0])
    ensures CutAfter(cut, ws, [[ws[0]] + rest[0]] + rest[1..])
  {
    var r := [[ws[0]] + rest[0]] + rest[1..];
    assert Flatten(rest) == rest[0] + Flatten(rest[1..]);
    assert r[1..] == rest[1..];
    assert ws == [ws[0]] + ws[1..];
    assert forall k :: 1 <= k < |r| ==> r[k] == rest[k];
    assert forall j :: 1 <= j < |r[0]| ==> r[0][j] == rest[0][j - 1];
  }

  /** The cut is unique: any partition with those properties is the one the loop makes. */
  lemma {:induction false} CutsUnique(cut: ApiWord -> bool, ws: seq<ApiWord>, pieces: seq<seq<ApiWord>>)
    requires CutAfter(cut, ws, pieces)
    ensures pieces == CutsWith(cut, ws)
    decreases |ws|
  {
    if |pieces| == 0 {
      assert ws == [];
    } else {
      var p := pieces[0];
      assert ws == p + Flatten(pieces[1..]);
      assert ws[0] == p[0];
      if |p| == 1 {
        assert ws[1..] == Flatten(pieces[1..]);
        CutTail(cut, ws, pieces);
        CutsUnique(cut, ws[1..], pieces[1..]);
        assert pieces == [p] + pieces[1..];
      } else {
        var q := [p[1..]] + pieces[1..];
        assert ws[1..] == p[1..] + Flatten(pieces[1..]);
        CutShift(cut, ws, pieces);
        CutsUnique(cut, ws[1..], q);
        assert !cut(ws[0]);
        assert p == [ws[0]] + q[0];
        assert pieces == [p] + q[1..];
      }
    }
  }

  /** Dropping a first piece of one word leaves a partition of the rest. */
  lemma CutTail(cut: ApiWord -> bool, ws: seq<ApiWord>, pieces: seq<seq<ApiWord>>)
    requires CutAfter(cut, ws, pieces) && |pieces| != 0 && |pieces[0]| == 1
    requires ws[1..] == Flatten(pieces[1..])
    ensures CutAfter(cut, ws[1..], pieces[1..])
    ensures |pieces| > 1 ==> cut(ws[0])
  {
    var rest := pieces[1..];
    assert forall k :: 0 <= k < |rest| ==> rest[k] == pieces[k + 1];
    if |pieces| > 1 {
      assert cut(pieces[0][0]);
      assert ws[0] == pieces[0][0] by {
        assert ws == pieces[0] + Flatten(pieces[1..]);
      }
    }
  }

  /** Dropping the first word of a longer first piece leaves a partition of the rest. */
  lemma CutShift(cut: ApiWord -> bool, ws: seq<ApiWord>, pieces: seq<seq<ApiWord>>)
    requires CutAfter(cut, ws, pieces) && |pieces| != 0 && |pieces[0]| > 1
    requires ws[1..] == pieces[0][1..] + Flatten(pieces[1..])
    ensures CutAfter(cut, ws[1..], [pieces[0][1..]] + pieces[1..])
  {
    var q := [pieces[0][1..]] + pieces[1..];
    assert q[1..] == pieces[1..];
    assert forall k :: 1 <= k < |q| ==> q[k] == pieces[k];
    assert forall j :: 0 <= j < |q[0]| ==> q[0][j] == pieces[0][j + 1];
  }

  /** The comma partition of a sentence. */
  function CommaCuts(ws: seq<ApiWord>): (r: seq<seq<ApiWord>>)
    ensures CutAfter(CommaWord, ws, r)
    ensures |r| == 0 <==> |ws| == 0
  {
    CutsWith(CommaWord, ws)
  }

  /** Any cut after exactly the comma words is the comma partition. */
  lemma CommaPartitionUnique(ws: seq<ApiWord>, pieces: seq<seq<ApiWord>>)
    requires CutAfter(CommaWord, ws, pieces)
    ensures pieces == CommaCuts(ws)
  {
    CutsUnique(CommaWord, ws, pieces);
  }

  /** `_split_long_sentence_at_commas(sentence_words, language)`: nothing for no words; the
      sentence whole while its text is shorter than the language's threshold; otherwise its comma
      partition. */
  function SplitLongSentenceAtCommas(ws: seq<ApiWord>, language: string): (r: seq<seq<ApiWord>>)
    ensures Flatten(r) == ws
    ensures |r| == 0 <==> |ws| == 0
    ensures forall k :: 0 <= k < |r| ==> |r[k]| != 0
    ensures |ws| != 0 && TextLength(ws) < Threshold(language) ==> r == [ws]
    ensures TextLength(ws) >= Threshold(language) ==> CutAfter(CommaWord, ws, r)
  {
    if |ws| == 0 then []
    else if TextLength(ws) < Threshold(language) then
      assert Flatten([ws]) == ws + Flatten([]);
      [ws]
    else
      CommaCuts(ws)
  }

  // ---------------------------------------------------------------------------
  // _create_segment and transform_elevenlabs_to_transcript
  // ---------------------------------------------------------------------------

  /** A content word as the transcript stores it, with 0.0 for a missing time. */
  function ToWord(w: ApiWord): Word {
    Word(TextOf(w), w.start.GetOr(0.0), w.end.GetOr(0.0))
  }

  /** The transcript words of a word list: its non-spacing words, in order. */
  function ContentWords(ws: seq<ApiWord>): (r: seq<Word>)
    ensures |r| <= |ws|
    decreases |ws|
  {
    if |ws| == 0 then []
    else (if Spacing(ws[0]) then [] else [ToWord(ws[0])]) + ContentWords(ws[1..])
  }

  /** The content words of two lists in a row are those of the first, then those of the second. */
  lemma {:induction false} ContentAppend(a: seq<ApiWord>, b: seq<ApiWord>)
    ensures ContentWords(a + b) == ContentWords(a) + ContentWords(b)
    decreases |a|
  {
    if |a| == 0 {
      assert a + b == b;
    } else {
      assert (a + b)[1..] == a[1..] + b;
      ContentAppend(a[1..], b);
    }
  }

  /** Exactly the non-spacing words survive, each with its text and times. */
  lemma {:induction false} ContentWordsKeep(ws: seq<ApiWord>)
    ensures (forall i :: 0 <= i < |ws| ==> Spacing(ws[i])) <==> ContentWords(ws) == []
    ensures (forall i :: 0 <= i < |ws| ==> !Spacing(ws[i])) ==> ContentWords(ws) == seq(|ws|, i requires 0 <= i < |ws| => ToWord(ws[i]))
    decreases |ws|
  {
    if |ws| != 0 {
      ContentWordsKeep(ws[1..]);
      assert forall i :: 1 <= i < |ws| ==> ws[i] == ws[1..][i - 1];
      if forall i :: 0 <= i < |ws| ==> !Spacing(ws[i]) {
        var rest := seq(|ws| - 1, i requires 0 <= i < |ws| - 1 => ToWord(ws[1..][i]));
        assert seq(|ws|, i requires 0 <= i < |ws| => ToWord(ws[i])) == [ToWord(ws[0])] + rest;
      }
    }
  }

  /** The texts of a word list, spacing entries included. */
  function ApiTexts(ws: seq<ApiWord>): (r: seq<string>)
    ensures |r| == |ws|
    ensures forall i :: 0 <= i < |ws| ==> r[i] == TextOf(ws[i])
  {
    seq(|ws|, i requires 0 <= i < |ws| => TextOf(ws[i]))
  }

  /** `_create_segment(words, segment_id)`: none for no words; otherwise a segment with the given
      id whose text is all the texts joined and stripped, whose start is the first word's and end
      the last word's, and whose words are the content words. */
  function CreateSegment(ws: seq<ApiWord>, id: nat): (r: Option<Segment>)
    ensures r.None? <==> |ws| == 0
    ensures r.Some? ==> r.value.id == id && r.value.words == ContentWords(ws)
    ensures r.Some? ==> r.value.start == ws[0].start.GetOr(0.0) && r.value.end == ws[|ws| - 1].end.GetOr(0.0)
    ensures r.Some? ==> Trimmed(r.value.text)
  {
    if |ws| == 0 then None
    else Some(Segment(id, Strip(Concat(ApiTexts(ws))), ws[0].start.GetOr(0.0), ws[|ws| - 1].end.GetOr(0.0), ContentWords(ws)))
  }

  /** A segment's text is all the texts, spacing included, with only surrounding whitespace
      removed: nothing in the middle is lost, added or reordered. */
  lemma CreateSegmentText(ws: seq<ApiWord>, id: nat)
    requires |ws| != 0
    ensures exists a, b :: Concat(ApiTexts(ws)) == a + CreateSegment(ws, id).value.text + b && AllSpace(a) && AllSpace(b)
  {
    var all := Concat(ApiTexts(ws));
    var a, b := StripParts(all);
    assert all == a + Strip(all) + b;
  }

  /** The words of a segment list, in order. */
  function SegmentWords(segments: seq<Segment>): seq<Word>
    decreases |segments|
  {
    if |segments| == 0 then [] else SegmentWords(segments[..|segments| - 1]) + segments[|segments| - 1].words
  }

  /** `groups` is a grouping of `words` into sentences as `_group_into_sentences` promises. */
  predicate SentencesOf(words: seq<ApiWord>, groups: seq<seq<ApiWord>>) {
    && Flatten(groups) == words
    && (forall k :: 0 <= k < |groups| ==> GoodGroup(Ends, groups[k]))
    && (forall k :: 0 <= k < |groups| - 1 ==> Justified(Ends, groups[k], groups[k + 1]))
  }

  /** The pieces the sentences are cut into: each sentence's comma pieces, sentence by sentence. */
  function Pieces(groups: seq<seq<ApiWord>>, language: string): seq<seq<ApiWord>>
    decreases |groups|
  {
    if |groups| == 0 then []
    else Pieces(groups[..|groups| - 1], language) + SplitLongSentenceAtCommas(groups[|groups| - 1], language)
  }

  /** `segments` are the segments `_create_segment` makes of `pieces`, numbered from `base`. */
  predicate SegmentsOf(segments: seq<Segment>, pieces: seq<seq<ApiWord>>, base: nat) {
    && |segments| == |pieces|
    && forall k :: 0 <= k < |pieces| ==> CreateSegment(pieces[k], base + k) == Some(segments[k])
  }

  /** `transform_elevenlabs_to_transcript(response, language)`: no words give no segments;
      otherwise the sentences are grouped, each is cut at commas when long, and every piece
      becomes a segment numbered by its position. The segments' words are exactly the response's
      content words, in order. */
  method Transform(words: seq<ApiWord>, language: string) returns (segments: seq<Segment>)
    ensures |segments| == 0 <==> |words| == 0
    ensures forall k :: 0 <= k < |segments| ==> segments[k].id == k
    ensures SegmentWords(segments) == ContentWords(words)
    ensures exists groups :: SentencesOf(words, groups) && SegmentsOf(segments, Pieces(groups, language), 0)
  {
    segments := [];
    if |words| == 0 {
      assert SentencesOf(words, []);
      return;
    }
    var groups := GroupIntoSentences(words);
    assert SentencesOf(words, groups);
    assert |groups| != 0;
    forall k | 0 <= k < |groups| ensures |groups[k]| != 0 {
      assert GoodGroup(Ends, groups[k]);
    }
    segments := SegmentSentences(groups, language);
  }

  /** The loop over sentences: every sentence's pieces become segments, numbered on. */
  method SegmentSentences(groups: seq<seq<ApiWord>>, language: string) returns (segments: seq<Segment>)
    requires forall k :: 0 <= k < |groups| ==> |groups[k]| != 0
    ensures forall k :: 0 <= k < |segments| ==> segments[k].id == k
    ensures SegmentWords(segments) == ContentWords(Flatten(groups))
    ensures SegmentsOf(segments, Pieces(groups, language), 0)
    ensures |groups| != 0 ==> |segments| != 0
  {
    segments := [];
    for i := 0 to |groups|
      invariant SegmentWords(segments) == ContentWords(Flatten(groups[..i]))
      invariant SegmentsOf(segments, Pieces(groups[..i], language), 0)
      invariant i > 0 ==> |segments| > 0
    {
      SegmentIds(segments, Pieces(groups[..i], language));
      var before := segments;
      segments := AddSentence(segments, groups[i], language);
      AppendGroup(groups, i);
      PiecesSnoc(groups, i, language);
      SegmentsJoin(before, segments, Pieces(groups[..i], language), SplitLongSentenceAtCommas(groups[i], language));
    }
    assert groups[..|groups|] == groups;
    SegmentIds(segments, Pieces(groups, language));
  }

  /** Segments made of pieces from 0 on are numbered by their position. */
  lemma SegmentIds(segments: seq<Segment>, pieces: seq<seq<ApiWord>>)
    requires SegmentsOf(segments, pieces, 0)
    ensures forall k :: 0 <= k < |segments| ==> segments[k].id == k
  {
    forall k | 0 <= k < |segments| ensures segments[k].id == k {
      assert CreateSegment(pieces[k], k) == Some(segments[k]);
    }
  }

  /** The body of the loop over sentences: the sentence's pieces become segments numbered on from
      the ones before, and they add the sentence's content words. */
  method AddSentence(segments: seq<Segment>, sentence: seq<ApiWord>, language: string) returns (r: seq<Segment>)
    requires forall k :: 0 <= k < |segments| ==> segments[k].id == k
    ensures forall k :: 0 <= k < |r| ==> r[k].id == k
    ensures SegmentWords(r) == SegmentWords(segments) + ContentWords(sentence)
    ensures |r| >= |segments| && (|sentence| != 0 ==> |r| > |segments|)
    ensures r[..|segments|] == segments
    ensures SegmentsOf(r[|segments|..], SplitLongSentenceAtCommas(sentence, language), |segments|)
  {
    var subs := SplitLongSentenceAtCommas(sentence, language);
    r := segments;
    for j := 0 to |subs|
      invariant forall k :: 0 <= k < |r| ==> r[k].id == k
      invariant SegmentWords(r) == SegmentWords(segments) + ContentWords(Flatten(subs[..j]))
      invariant |r| == |segments| + j
      invariant r[..|segments|] == segments
      invariant SegmentsOf(r[|segments|..], subs[..j], |segments|)
    {
      var seg := CreateSegment(subs[j], |r|);
      AppendPiece(r, seg.value, SegmentWords(segments), subs, j);
      PieceSnoc(r, seg.value, subs, j, |segments|);
      r := r + [seg.value];
    }
    assert subs[..|subs|] == subs;
  }

  /** One more piece's segment extends the segments made so far. */
  lemma PieceSnoc(r: seq<Segment>, s: Segment, subs: seq<seq<ApiWord>>, j: nat, base: nat)
    requires j < |subs| && base <= |r| && |r| == base + j
    requires SegmentsOf(r[base..], subs[..j], base)
    requires CreateSegment(subs[j], |r|) == Some(s)
    ensures (r + [s])[..base] == r[..base]
    ensures SegmentsOf((r + [s])[base..], subs[..j + 1], base)
  {
    assert (r + [s])[base..] == r[base..] + [s];
    forall k | 0 <= k < j + 1
      ensures CreateSegment(subs[..j + 1][k], base + k) == Some((r + [s])[base..][k])
    {
      if k < j {
        assert subs[..j + 1][k] == subs[..j][k];
      }
    }
  }

  /** The pieces of one more sentence follow those of the sentences before. */
  lemma PiecesSnoc(groups: seq<seq<ApiWord>>, i: nat, language: string)
    requires i < |groups|
    ensures Pieces(groups[..i + 1], language) == Pieces(groups[..i], language) + SplitLongSentenceAtCommas(groups[i], language)
  {
    assert groups[..i + 1][..i] == groups[..i];
  }

  /** Segments numbered from 0, extended by segments numbered on from them, are the segments of
      both piece lists. */
  lemma SegmentsJoin(a: seq<Segment>, b: seq<Segment>, p: seq<seq<ApiWord>>, q: seq<seq<ApiWord>>)
    requires SegmentsOf(a, p, 0) && |a| <= |b| && b[..|a|] == a && SegmentsOf(b[|a|..], q, |a|)
    ensures SegmentsOf(b, p + q, 0)
  {
    forall k | 0 <= k < |p + q| ensures CreateSegment((p + q)[k], k) == Some(b[k]) {
      if k < |p| {
        assert (p + q)[k] == p[k] && b[k] == b[..|a|][k];
      } else {
        assert (p + q)[k] == q[k - |p|] && b[k] == b[|a|..][k - |a|];
      }
    }
  }

  /** One more piece adds its segment's words. */
  lemma AppendPiece(segments: seq<Segment>, s: Segment, done: seq<Word>, subs: seq<seq<ApiWord>>, j: nat)
    requires j < |subs| && s.words == ContentWords(subs[j])
    requires SegmentWords(segments) == done + ContentWords(Flatten(subs[..j]))
    ensures SegmentWords(segments + [s]) == done + ContentWords(Flatten(subs[..j + 1]))
  {
    SegmentWordsSnoc(segments, s);
    var a := Flatten(subs[..j]);
    assert Flatten(subs[..j + 1]) == a + subs[j] by {
      assert subs[..j + 1] == subs[..j] + [subs[j]];
      FlattenSnoc(subs[..j], subs[j]);
    }
    ContentAppend(a, subs[j]);
    assert done + ContentWords(a + subs[j]) == (done + ContentWords(a)) + s.words;
  }

  /** One more sentence adds its content words. */
  lemma AppendGroup(groups: seq<seq<ApiWord>>, i: nat)
    requires i < |groups|
    ensures ContentWords(Flatten(groups[..i + 1])) == ContentWords(Flatten(groups[..i])) + ContentWords(groups[i])
  {
    assert groups[..i + 1] == groups[..i] + [groups[i]];
    FlattenSnoc(groups[..i], groups[i]);
    ContentAppend(Flatten(groups[..i]), groups[i]);
  }

  lemma SegmentWordsSnoc(segments: seq<Segment>, s: Segment)
    ensures SegmentWords(segments + [s]) == SegmentWords(segments) + s.words
  {
    assert (segments + [s])[..|segments|] == segments;
  }
}
