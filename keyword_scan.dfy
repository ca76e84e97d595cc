/**
 * The pure part of the voice-command parser (frontend/src/app/components/speech.tsx):
 * the case-insensitive scan for the rightmost "reset", "visualize" and "modify",
 * the choice of the latest command, and the pending argument sliced from the transcript.
 */
module KeywordScan {
  import opened Wrappers
  import opened Text

  /** The two commands that capture an argument; "reset" acts at once and is never captured. */
  datatype Command = Visualize | Modify

  const ResetWord: string := "reset"

  function Keyword(c: Command): (w: string)
    ensures IsLowerWord(w)
  {
    match c
    case Visualize => "visualize"
    case Modify => "modify"
  }

  /** The rightmost position of each keyword in the lower-cased transcript, -1 when absent. */
  datatype Scan = Scan(resetPos: int, visualizePos: int, modifyPos: int)

  /** The keyword occurs somewhere in the transcript, ignoring ASCII case. */
  ghost predicate Mentions(transcript: string, word: string)
  {
    Contains(Lower(transcript), word)
  }

  function ScanTranscript(transcript: string): (sc: Scan)
    ensures IsLastIndex(Lower(transcript), ResetWord, sc.resetPos)
    ensures IsLastIndex(Lower(transcript), Keyword(Visualize), sc.visualizePos)
    ensures IsLastIndex(Lower(transcript), Keyword(Modify), sc.modifyPos)
  {
    var lower := Lower(transcript);
    Scan(LastIndexOf(lower, ResetWord), LastIndexOf(lower, Keyword(Visualize)), LastIndexOf(lower, Keyword(Modify)))
  }

  /** Where a captured command's argument begins. */
  datatype Anchor = Anchor(command: Command, start: nat)

  /**
   * `start` is an occurrence of the command's keyword in the transcript and no
   * "visualize" or "modify" begins to its right.
   */
  ghost predicate IsLatestCommand(transcript: string, a: Anchor)
  {
    OccursAt(Lower(transcript), Keyword(a.command), a.start)
    && forall j :: a.start < j ==>
         !OccursAt(Lower(transcript), Keyword(Visualize), j) && !OccursAt(Lower(transcript), Keyword(Modify), j)
  }

  function Max(a: int, b: int): int
  {
    if a >= b then a else b
  }

  /**
   * The command an idle tracker starts capturing: `Math.max` of the two positions
   * gives the start, and `visualizePos > modifyPos` picks the command.
   */
  function LatestCommand(transcript: string): (r: Option<Anchor>)
    ensures r.None? <==> !Mentions(transcript, Keyword(Visualize)) && !Mentions(transcript, Keyword(Modify))
    ensures r.Some? ==> IsLatestCommand(transcript, r.value)
  {
    var sc := ScanTranscript(transcript);
    var lastCommandPos := Max(sc.visualizePos, sc.modifyPos);
    if lastCommandPos == -1 then None
    else Some(Anchor(if sc.visualizePos > sc.modifyPos then Visualize else Modify, lastCommandPos))
  }

  /** "visualize" and "modify" begin with different letters, so they never start at the same index. */
  lemma KeywordsNeverCoincide(transcript: string, i: int)
    ensures !(OccursAt(Lower(transcript), Keyword(Visualize), i) && OccursAt(Lower(transcript), Keyword(Modify), i))
  {
    var lower := Lower(transcript);
    if OccursAt(lower, Keyword(Visualize), i) && i + 6 <= |lower| {
      assert lower[i..i + 9][0] == 'v';
      assert lower[i..i + 6][0] == 'v';
    }
  }

  /**
   * The supersession rule applied while capturing: move to "visualize" when it is
   * strictly to the right of "modify", to "modify" when it is strictly to the right
   * of "visualize", and otherwise keep the current anchor.
   */
  function Supersede(sc: Scan, current: Anchor): Anchor
    requires sc.visualizePos >= -1 && sc.modifyPos >= -1
  {
    if sc.visualizePos > sc.modifyPos && sc.visualizePos != -1 then Anchor(Visualize, sc.visualizePos)
    else if sc.modifyPos > sc.visualizePos && sc.modifyPos != -1 then Anchor(Modify, sc.modifyPos)
    else current
  }

  /** Whenever some keyword is present, supersession lands on the latest command, whatever the current anchor. */
  lemma SupersedeIsLatest(transcript: string, current: Anchor)
    requires LatestCommand(transcript).Some?
    ensures ScanTranscript(transcript).visualizePos >= -1 && ScanTranscript(transcript).modifyPos >= -1
    ensures Supersede(ScanTranscript(transcript), current) == LatestCommand(transcript).value
  {
    var sc := ScanTranscript(transcript);
    assert sc.visualizePos >= -1 && sc.modifyPos >= -1;
    if sc.visualizePos == sc.modifyPos {
      KeywordsNeverCoincide(transcript, sc.visualizePos);
    }
  }

  /** The argument being captured: the transcript from the command's start, trimmed. */
  function PendingArgument(transcript: string, start: nat): string
  {
    Trim(Js, Drop(transcript, start))
  }

  /** `text` begins with the lower-case `word`, in any letter case. */
  predicate BeginsWith(text: string, word: string)
  {
    |text| >= |word| && Lower(text[..|word|]) == word
  }

  /**
   * A pending argument taken at an occurrence of a keyword begins with that keyword
   * (in the transcript's own letter case): trimming removes nothing from its front
   * and cannot reach into it from the back.
   */
  lemma PendingStartsWithKeyword(transcript: string, word: string, start: nat)
    requires IsLowerWord(word)
    requires OccursAt(Lower(transcript), word, start)
    ensures BeginsWith(PendingArgument(transcript, start), word)
  {
    var s := transcript[start..];
    assert LowerChar(s[0]) == word[0];
    assert !IsJsSpace(s[0]);
    var front := TrimStart(Js, s);
    assert front == s;
    var p := TrimEnd(Js, s);
    TrimEndIsPrefix(Js, s);
    assert LowerChar(s[|word| - 1]) == word[|word| - 1];
    assert !IsJsSpace(s[|word| - 1]);
    assert |p| >= |word|;
    forall k | 0 <= k < |word|
      ensures LowerChar(p[k]) == word[k]
    {
      assert p[k] == s[k] == transcript[start + k];
      assert Lower(transcript)[start..start + |word|][k] == word[k];
    }
  }
}
