/**
 * The older revision of the voice parser (src/app/components/speech.tsx). It
 * splits the transcript into lower-case words, starts capturing at the last word
 * equal to "visualize", appends the words that arrive afterwards and, after two
 * seconds without change, logs the text from the last "visualize" onward and
 * clears everything. It dispatches no handler.
 */
module LegacyCapture {
  import opened Wrappers
  import opened Text

  const VisualizeWord: string := "visualize"

  /** No whitespace character (in JavaScript's sense) occurs in `w`. */
  predicate NoSpace(w: string)
  {
    forall i :: 0 <= i < |w| ==> !IsJsSpace(w[i])
  }

  /** Lower-casing leaves `s` as it is. */
  predicate IsLowered(s: string)
  {
    forall i :: 0 <= i < |s| ==> LowerChar(s[i]) == s[i]
  }

  lemma LowerIsLowered(s: string)
    ensures IsLowered(Lower(s))
  {
    forall i | 0 <= i < |s|
      ensures LowerChar(Lower(s)[i]) == Lower(s)[i]
    {
      assert Lower(s)[i] == LowerChar(s[i]);
    }
  }

  /** Lower-casing an ASCII letter never makes or unmakes whitespace. */
  lemma LowerKeepsSpaces(c: char)
    ensures IsJsSpace(LowerChar(c)) <==> IsJsSpace(c)
  {
    if 'A' <= c <= 'Z' {
      assert 'a' <= LowerChar(c) <= 'z';
    }
  }

  /** The index of the first whitespace character of `s`, or `|s|` when there is none. */
  function FirstSpace(s: string): (k: nat)
    ensures k <= |s|
    ensures NoSpace(s[..k])
    ensures k < |s| ==> IsJsSpace(s[k])
  {
    if s == [] || IsJsSpace(s[0]) then 0
    else
      var k := 1 + FirstSpace(s[1..]);
      assert s[..k] == [s[0]] + s[1..][..k - 1];
      k
  }

  /** The rest of `s` after its first piece: the whitespace run that ends that piece is dropped. */
  function AfterFirstPiece(s: string): (rest: string)
    requires FirstSpace(s) < |s|
    ensures |rest| < |s| && rest == s[|s| - |rest|..]
    ensures rest == [] || !IsJsSpace(rest[0])
  {
    var k := FirstSpace(s);
    var rest := TrimStart(Js, s[k..]);
    TrimStartIsSuffix(Js, s[k..]);
    assert s[k..][0] == s[k];
    rest
  }

  /**
   * `s.split(/\s+/)`: the pieces between maximal runs of whitespace. A leading or
   * trailing run yields an empty first or last piece; the empty string yields [""].
   */
  function SplitOnSpaces(s: string): (words: seq<string>)
    ensures |words| >= 1
    decreases |s|
  {
    var k := FirstSpace(s);
    if k == |s| then [s] else [s[..k]] + SplitOnSpaces(AfterFirstPiece(s))
  }

  /** Every piece is free of whitespace; lower-case input gives lower-case pieces. */
  lemma {:induction false} SplitPieces(s: string)
    ensures forall k :: 0 <= k < |SplitOnSpaces(s)| ==> NoSpace(SplitOnSpaces(s)[k])
    ensures IsLowered(s) ==> forall k :: 0 <= k < |SplitOnSpaces(s)| ==> IsLowered(SplitOnSpaces(s)[k])
    decreases |s|
  {
    var k := FirstSpace(s);
    if k < |s| {
      var rest := AfterFirstPiece(s);
      SplitPieces(rest);
      assert IsLowered(s) ==> IsLowered(rest) && IsLowered(s[..k]);
      assert SplitOnSpaces(s) == [s[..k]] + SplitOnSpaces(rest);
    }
  }

  /** Without whitespace at either end, no piece is empty. */
  lemma {:induction false} SplitPiecesNonEmpty(s: string)
    requires s != [] && !IsJsSpace(s[0]) && !IsJsSpace(s[|s| - 1])
    ensures forall k :: 0 <= k < |SplitOnSpaces(s)| ==> SplitOnSpaces(s)[k] != []
    decreases |s|
  {
    var k := FirstSpace(s);
    if k < |s| {
      var rest := AfterFirstPiece(s);
      assert rest != [] && rest[|rest| - 1] == s[|s| - 1];
      SplitPiecesNonEmpty(rest);
      assert SplitOnSpaces(s) == [s[..k]] + SplitOnSpaces(rest);
    }
  }

  /** `words.join(" ")`. */
  function JoinWords(words: seq<string>): string
  {
    if words == [] then ""
    else if |words| == 1 then words[0]
    else words[0] + " " + JoinWords(words[1..])
  }

  /** `transcript.trim().toLowerCase().split(/\s+/)`. */
  function Words(transcript: string): (words: seq<string>)
    ensures |words| >= 1
  {
    SplitOnSpaces(Lower(Trim(Js, transcript)))
  }

  /** `s` with every maximal run of whitespace replaced by a single space. */
  function CollapseRuns(s: string): string
    decreases |s|
  {
    if s == [] then []
    else if IsJsSpace(s[0]) then " " + CollapseRuns(TrimStart(Js, s[1..]))
    else [s[0]] + CollapseRuns(s[1..])
  }

  /** A whitespace-free prefix passes through unchanged. */
  lemma {:induction false} CollapseKeepsWord(p: string, t: string)
    requires NoSpace(p)
    ensures CollapseRuns(p + t) == p + CollapseRuns(t)
    decreases |p|
  {
    if p == [] {
      assert p + t == t;
    } else {
      assert (p + t)[1..] == p[1..] + t;
      CollapseKeepsWord(p[1..], t);
    }
  }

  /** Splitting on whitespace runs and rejoining with single spaces collapses each run to one space. */
  lemma {:induction false} SplitCollapse(s: string)
    ensures JoinWords(SplitOnSpaces(s)) == CollapseRuns(s)
    decreases |s|
  {
    var k := FirstSpace(s);
    if k == |s| {
      assert s[..k] == s;
      CollapseKeepsWord(s, []);
      assert s + [] == s;
    } else {
      var rest := AfterFirstPiece(s);
      SplitCollapse(rest);
      JoinCons(s[..k], SplitOnSpaces(rest));
      assert s == s[..k] + s[k..];
      CollapseAtSpace(s[..k], s[k..]);
    }
  }

  lemma JoinCons(w: string, later: seq<string>)
    requires |later| >= 1
    ensures JoinWords([w] + later) == w + " " + JoinWords(later)
  {
    assert ([w] + later)[1..] == later;
  }

  /** Collapsing a word followed by whitespace: the word, one space, then the text past the run. */
  lemma CollapseAtSpace(word: string, t: string)
    requires NoSpace(word) && t != [] && IsJsSpace(t[0])
    ensures CollapseRuns(word + t) == word + " " + CollapseRuns(TrimStart(Js, t))
  {
    CollapseKeepsWord(word, t);
    CollapseRun(t);
  }

  /** A whitespace run at the front collapses to one space. */
  lemma CollapseRun(t: string)
    requires t != [] && IsJsSpace(t[0])
    ensures CollapseRuns(t) == " " + CollapseRuns(TrimStart(Js, t))
  {
    assert TrimStart(Js, t) == TrimStart(Js, t[1..]);
  }

  /**
   * The words are the trimmed, lower-cased transcript cut at its whitespace runs:
   * joined with single spaces they give that text back with each run collapsed.
   */
  lemma WordsOfTranscript(transcript: string)
    ensures JoinWords(Words(transcript)) == CollapseRuns(Lower(Trim(Js, transcript)))
  {
    SplitCollapse(Lower(Trim(Js, transcript)));
  }

  /**
   * The normalised transcript is a list of lower-case, whitespace-free words; it is
   * [""] for a blank transcript and has no empty word otherwise.
   */
  lemma WordsAreNormalised(transcript: string)
    ensures forall k :: 0 <= k < |Words(transcript)| ==> NoSpace(Words(transcript)[k])
    ensures forall k :: 0 <= k < |Words(transcript)| ==> IsLowered(Words(transcript)[k])
    ensures Trim(Js, transcript) == [] ==> Words(transcript) == [""]
    ensures Trim(Js, transcript) != [] ==> forall k :: 0 <= k < |Words(transcript)| ==> Words(transcript)[k] != []
  {
    var trimmed := Trim(Js, transcript);
    var lowered := Lower(trimmed);
    LowerIsLowered(trimmed);
    SplitPieces(lowered);
    if trimmed != [] {
      LowerKeepsSpaces(trimmed[0]);
      LowerKeepsSpaces(trimmed[|trimmed| - 1]);
      SplitPiecesNonEmpty(lowered);
    } else {
      assert lowered == [];
      assert FirstSpace(lowered) == 0;
    }
  }

  /** Splitting the single-space join of whitespace-free, non-empty words gives the words back. */
  lemma {:induction false} SplitJoin(words: seq<string>)
    requires |words| >= 1
    requires forall k :: 0 <= k < |words| ==> words[k] != [] && NoSpace(words[k])
    ensures SplitOnSpaces(JoinWords(words)) == words
    decreases |words|
  {
    if |words| == 1 {
      FirstSpaceOfWord(words[0], "");
    } else {
      var w, rest := words[0], JoinWords(words[1..]);
      var s := w + (" " + rest);
      assert JoinWords(words) == s;
      JoinStartsWithWord(words[1..]);
      FirstSpaceOfWord(w, " " + rest);
      assert s[..|w|] == w && s[|w|..] == " " + rest;
      assert TrimStart(Js, " " + rest) == rest by {
        assert (" " + rest)[1..] == rest;
      }
      assert AfterFirstPiece(s) == rest;
      SplitJoin(words[1..]);
    }
  }

  /** The join of non-empty, whitespace-free words begins with a non-space character. */
  lemma {:induction false} JoinStartsWithWord(words: seq<string>)
    requires |words| >= 1
    requires forall k :: 0 <= k < |words| ==> words[k] != [] && NoSpace(words[k])
    ensures JoinWords(words) != [] && !IsJsSpace(JoinWords(words)[0])
  {
    if |words| > 1 {
      assert JoinWords(words)[0] == words[0][0];
    }
  }

  /** A whitespace-free word followed by whitespace (or by nothing) ends at its own length. */
  lemma FirstSpaceOfWord(w: string, tail: string)
    requires NoSpace(w)
    requires tail == [] || IsJsSpace(tail[0])
    ensures FirstSpace(w + tail) == |w|
    decreases |w|
  {
    if w != [] {
      assert (w + tail)[1..] == w[1..] + tail;
      FirstSpaceOfWord(w[1..], tail);
    }
  }

  /** `words.lastIndexOf(w)` on an array: the last index holding exactly `w`, or -1. */
  function LastIndexOfWord(words: seq<string>, w: string): (r: int)
    ensures r == -1 <==> w !in words
    ensures r != -1 ==> 0 <= r < |words| && words[r] == w
    ensures forall j :: r < j < |words| ==> words[j] != w
  {
    if words == [] then -1
    else if words[|words| - 1] == w then |words| - 1
    else LastIndexOfWord(words[..|words| - 1], w)
  }

  /**
   * The filtered text after a capturing run: `setFilteredTranscript(transcript)`
   * followed by the functional update that appends the new words, both applied by
   * React in order, so the new words are appended to the raw transcript.
   */
  function CapturedText(transcript: string, newWords: seq<string>): (r: string)
    ensures newWords == [] ==> r == transcript
  {
    if |newWords| > 0 then Trim(Js, transcript + " " + JoinWords(newWords)) else transcript
  }

  /**
   * With new words, the text is the transcript and one space, with leading
   * whitespace trimmed, followed by the new words joined by single spaces:
   * the trailing trim removes nothing, because the last word ends the text.
   */
  lemma CapturedTextAppends(transcript: string, newWords: seq<string>)
    requires |newWords| > 0
    requires forall k :: 0 <= k < |newWords| ==> newWords[k] != [] && NoSpace(newWords[k])
    ensures CapturedText(transcript, newWords) == TrimStart(Js, transcript + " ") + JoinWords(newWords)
  {
    var joined := JoinWords(newWords);
    JoinStartsWithWord(newWords);
    JoinEndsWithWord(newWords);
    TrimStartAppend(Js, transcript + " ", joined);
    var front := TrimStart(Js, transcript + " ") + joined;
    assert front[|front| - 1] == joined[|joined| - 1];
    assert TrimEnd(Js, front) == front;
  }

  /** The join of non-empty, whitespace-free words ends with a non-space character. */
  lemma {:induction false} JoinEndsWithWord(words: seq<string>)
    requires |words| >= 1
    requires forall k :: 0 <= k < |words| ==> words[k] != [] && NoSpace(words[k])
    ensures JoinWords(words) != [] && !IsJsSpace(JoinWords(words)[|JoinWords(words)| - 1])
    decreases |words|
  {
    if |words| == 1 {
      assert words[0][|words[0]| - 1] == words[0][|words[0]| - 1];
    } else {
      JoinEndsWithWord(words[1..]);
      var rest := JoinWords(words[1..]);
      assert JoinWords(words) == words[0] + " " + rest;
      assert JoinWords(words)[|JoinWords(words)| - 1] == rest[|rest| - 1];
    }
  }

  /**
   * The logged text: `filtered` from its last case-insensitive "visualize" onward,
   * or all of `filtered` when it has none.
   */
  function FinalTranscript(filtered: string): (r: string)
    ensures |r| <= |filtered| && r == filtered[|filtered| - |r|..]
    ensures !Contains(Lower(filtered), VisualizeWord) ==> r == filtered
    ensures Contains(Lower(filtered), VisualizeWord) ==>
      OccursAt(Lower(r), VisualizeWord, 0)
      && forall j :: 0 < j ==> !OccursAt(Lower(r), VisualizeWord, j)
  {
    var lastVisualizeIndex := LastIndexOf(Lower(filtered), VisualizeWord);
    if lastVisualizeIndex != -1 then
      assert Lower(filtered[lastVisualizeIndex..]) == Lower(filtered)[lastVisualizeIndex..];
      SuffixFromLastOccurrence(Lower(filtered), VisualizeWord, lastVisualizeIndex);
      filtered[lastVisualizeIndex..]
    else filtered
  }

  datatype Effect = Logged(text: string) | ResetTranscript | StartListening

  /**
   * The pending inactivity timer: the generation of the run that scheduled it, and
   * the word count and filtered text its closure captured.
   */
  datatype Timer = Timer(token: nat, wordCount: nat, text: string)

  class Dictaphone {
    var filteredTranscript: string
    var isTranscribing: bool
    var lastTranscriptLength: nat
    var pendingReset: bool
    var generation: nat
    var timer: Option<Timer>
    var effects: seq<Effect>

    ghost predicate Valid()
      reads this
    {
      (!isTranscribing ==> filteredTranscript == "" && lastTranscriptLength == 0)
      && !pendingReset
      && (timer.Some? ==> timer.value.token == generation)
    }

    ghost function CaptureState(): (string, bool, nat)
      reads this
    {
      (filteredTranscript, isTranscribing, lastTranscriptLength)
    }

    /** Mounting: the start-listening effect runs once when recognition is supported. */
    constructor (browserSupportsSpeechRecognition: bool)
      ensures Valid() && !isTranscribing && timer.None? && generation == 0
      ensures effects == if browserSupportsSpeechRecognition then [StartListening] else []
    {
      filteredTranscript := "";
      isTranscribing := false;
      lastTranscriptLength := 0;
      pendingReset := false;
      generation := 0;
      timer := None;
      effects := if browserSupportsSpeechRecognition then [StartListening] else [];
    }

    /**
     * One run of the transcript effect (lines 33-94). The previous run's timer is
     * cleared first. The timer this run schedules holds this run's word count and
     * the filtered text as it was before the run.
     */
    method Step(transcript: string, listening: bool) returns (scheduled: Option<nat>)
      requires Valid()
      modifies this
      ensures Valid()
      ensures generation == old(generation) + 1 && effects == old(effects)
      ensures scheduled.Some? <==> timer.Some?
      ensures timer.Some? ==> scheduled.value == generation
      ensures !listening || transcript == "" ==> CaptureState() == old(CaptureState()) && timer.None?
      ensures listening && transcript != "" ==>
        timer == Some(Timer(generation, |Words(transcript)|, old(filteredTranscript)))
      ensures listening && transcript != "" && !old(isTranscribing) && VisualizeWord !in Words(transcript) ==>
        CaptureState() == old(CaptureState())
      ensures listening && transcript != "" && !old(isTranscribing) && VisualizeWord in Words(transcript) ==>
        isTranscribing
        && lastTranscriptLength == |Words(transcript)|
        && filteredTranscript ==
             JoinWords(Words(transcript)[LastIndexOfWord(Words(transcript), VisualizeWord)..])
      ensures listening && transcript != "" && old(isTranscribing) ==>
        isTranscribing
        && lastTranscriptLength == |Words(transcript)|
        && filteredTranscript ==
             CapturedText(transcript, Drop(Words(transcript), old(lastTranscriptLength)))
    {
      generation := generation + 1;
      timer := None;
      scheduled := None;
      if !listening || transcript == "" {
        return;
      }

      var currentWords := Words(transcript);
      var previousText := filteredTranscript;
      if !isTranscribing {
        var visualizeIndex := LastIndexOfWord(currentWords, VisualizeWord);
        if visualizeIndex != -1 {
          filteredTranscript := JoinWords(currentWords[visualizeIndex..]);
          isTranscribing := true;
          lastTranscriptLength := |currentWords|;
        }
      } else {
        var newWords := Drop(currentWords, lastTranscriptLength);
        filteredTranscript := CapturedText(transcript, newWords);
        lastTranscriptLength := |currentWords|;
      }

      timer := Some(Timer(generation, |currentWords|, previousText));
      scheduled := Some(generation);
    }

    /**
     * The inactivity callback. A cleared timer does nothing. The live one finalises
     * when its captured text is non-empty and its word count still equals the
     * counter: it logs the final text, clears all state and resets the transcript.
     */
    method TimerFired(token: nat)
      requires Valid()
      modifies this
      ensures Valid()
      ensures old(timer).None? || old(timer).value.token != token ==> unchanged(this)
      ensures old(timer).Some? && old(timer).value.token == token ==>
        timer.None? && generation == old(generation)
      ensures old(timer).Some? && old(timer).value.token == token
              && !(old(timer).value.text != "" && old(timer).value.wordCount == old(lastTranscriptLength)) ==>
        CaptureState() == old(CaptureState()) && effects == old(effects)
      ensures old(timer).Some? && old(timer).value.token == token
              && old(timer).value.text != "" && old(timer).value.wordCount == old(lastTranscriptLength) ==>
        filteredTranscript == "" && !isTranscribing && lastTranscriptLength == 0 && !pendingReset
        && effects == old(effects) + [Logged(FinalTranscript(old(timer).value.text)), ResetTranscript]
    {
      if timer.None? || timer.value.token != token {
        return;
      }
      var t := timer.value;
      timer := None;
      if t.wordCount == lastTranscriptLength && t.text != "" {
        var finalTranscript := FinalTranscript(t.text);
        effects := effects + [Logged(finalTranscript)];
        filteredTranscript := "";
        isTranscribing := false;
        pendingReset := false;
        lastTranscriptLength := 0;
        effects := effects + [ResetTranscript];
      }
    }
  }
}
