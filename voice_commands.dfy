/**
 * The voice-command tracker of frontend/src/app/components/speech.tsx as a state
 * machine. `Step` is one run of the transcript effect, `TimerFired` is the
 * 2-second finalise callback and `LoadingChanged` is the loading-gate effect.
 * Calls on the outside world (the three shader handlers, the speech engine's
 * `resetTranscript`, `startListening` and `stopListening`) are appended to `effects`.
 */
module VoiceCommands {
  import opened Wrappers
  import opened Text
  import opened KeywordScan

  /** A call the parser makes on its collaborators. */
  datatype Effect =
    | GenerateShader(prompt: string)
    | ModifyShader(prompt: string)
    | ResetShader
    | ResetTranscript
    | StartListening
    | StopListening

  /**
   * The one pending finalise timer. `token` is the generation of the effect run
   * that scheduled it; `text` and `command` are the `filteredTranscript` and
   * `activeCommand` its closure captured, that is, their values before that run.
   */
  datatype Timer = Timer(token: nat, text: string, command: Option<Command>)

  /** The handler a finalised command goes to. */
  function Dispatch(command: Command, text: string): Effect
  {
    match command
    case Visualize => GenerateShader(text)
    case Modify => ModifyShader(text)
  }

  class Dictaphone {
    const supported: bool
    var isTranscribing: bool
    var filteredTranscript: string
    var activeCommand: Option<Command>
    var commandStartIndex: Option<nat>
    /** Bumped by every effect run: a timer whose token is older has been cleared. */
    var generation: nat
    var timer: Option<Timer>
    var effects: seq<Effect>
    /** The transcript in which `commandStartIndex` was last located. */
    ghost var anchorTranscript: string

    ghost predicate Valid()
      reads this
    {
      (isTranscribing <==> activeCommand.Some?)
      && (isTranscribing <==> commandStartIndex.Some?)
      && (!isTranscribing ==> filteredTranscript == "")
      && (isTranscribing ==>
            OccursAt(Lower(anchorTranscript), Keyword(activeCommand.value), commandStartIndex.value))
      && (timer.Some? ==>
            timer.value.token == generation && (timer.value.text != "" ==> timer.value.command.Some?))
    }

    /** No command is being captured. */
    ghost predicate Idle()
      reads this
    {
      !isTranscribing && filteredTranscript == "" && activeCommand.None? && commandStartIndex.None?
    }

    ghost function CaptureState(): (bool, string, Option<Command>, Option<nat>)
      reads this
    {
      (isTranscribing, filteredTranscript, activeCommand, commandStartIndex)
    }

    constructor (browserSupportsSpeechRecognition: bool)
      ensures Valid() && Idle()
      ensures supported == browserSupportsSpeechRecognition
      ensures timer.None? && effects == [] && generation == 0
    {
      supported := browserSupportsSpeechRecognition;
      isTranscribing := false;
      filteredTranscript := "";
      activeCommand := None;
      commandStartIndex := None;
      generation := 0;
      timer := None;
      effects := [];
      anchorTranscript := "";
    }

    /**
     * One run of the transcript effect. The previous run's timer is cleared first.
     * Reset wins over everything; otherwise an idle tracker starts capturing at the
     * latest keyword, a capturing tracker moves to the latest keyword, and the
     * pending argument is re-sliced only if the tracker was already capturing
     * before this run. The timer it schedules finalises with the state as it was
     * before the run, the values its closure sees.
     */
    method Step(transcript: string, listening: bool, loading: bool) returns (scheduled: Option<nat>)
      requires Valid()
      modifies this
      ensures Valid()
      ensures generation == old(generation) + 1
      ensures scheduled.Some? <==> timer.Some?
      ensures timer.Some? ==> scheduled.value == generation
      ensures !listening || transcript == "" || loading ==>
        CaptureState() == old(CaptureState()) && effects == old(effects) && timer.None?
      ensures listening && transcript != "" && !loading && Mentions(transcript, ResetWord) ==>
        Idle() && effects == old(effects) + [ResetShader, ResetTranscript] && timer.None?
      ensures listening && transcript != "" && !loading && !Mentions(transcript, ResetWord) ==>
        effects == old(effects)
        && timer == Some(Timer(generation, old(filteredTranscript), old(activeCommand)))
        && (LatestCommand(transcript).Some? ==>
              isTranscribing
              && activeCommand == Some(LatestCommand(transcript).value.command)
              && commandStartIndex == Some(LatestCommand(transcript).value.start))
        && (LatestCommand(transcript).None? ==>
              isTranscribing == old(isTranscribing)
              && activeCommand == old(activeCommand)
              && commandStartIndex == old(commandStartIndex))
        && filteredTranscript ==
             (if old(isTranscribing) then PendingArgument(transcript, commandStartIndex.value) else "")
      ensures listening && transcript != "" && !loading && !Mentions(transcript, ResetWord)
              && old(isTranscribing) && old(anchorTranscript) <= transcript ==>
        LatestCommand(transcript).Some?
        && BeginsWith(filteredTranscript, Keyword(activeCommand.value))
    {
      generation := generation + 1;
      timer := None;
      scheduled := None;
      if !listening || transcript == "" || loading {
        return;
      }

      var sc := ScanTranscript(transcript);
      if sc.resetPos != -1 {
        Reset();
        return;
      }

      Track(transcript, sc);
      scheduled := Some(generation);
    }

    /** Lines 116-126: the reset word clears the shader, the capture and the transcript. */
    method Reset()
      requires Valid()
      modifies this
      ensures Valid() && Idle()
      ensures effects == old(effects) + [ResetShader, ResetTranscript]
      ensures generation == old(generation) && timer == old(timer)
    {
      effects := effects + [ResetShader];
      ClearCapture();
      effects := effects + [ResetTranscript];
    }

    /** The four state updates that return the tracker to idle. */
    method ClearCapture()
      requires Valid()
      modifies this
      ensures Valid() && Idle()
      ensures generation == old(generation) && timer == old(timer) && effects == old(effects)
    {
      isTranscribing := false;
      filteredTranscript := "";
      activeCommand := None;
      commandStartIndex := None;
    }

    /**
     * Lines 128-163 of the effect: start or supersede a capture at the latest
     * keyword and, if the tracker was capturing before, re-slice the pending argument.
     */
    method Track(transcript: string, sc: Scan)
      requires Valid() && timer.None?
      requires sc == ScanTranscript(transcript)
      modifies this
      ensures Valid()
      ensures generation == old(generation) && effects == old(effects)
      ensures timer == Some(Timer(generation, old(filteredTranscript), old(activeCommand)))
      ensures LatestCommand(transcript).Some? ==>
        isTranscribing
        && activeCommand == Some(LatestCommand(transcript).value.command)
        && commandStartIndex == Some(LatestCommand(transcript).value.start)
      ensures LatestCommand(transcript).None? ==>
        isTranscribing == old(isTranscribing)
        && activeCommand == old(activeCommand)
        && commandStartIndex == old(commandStartIndex)
      ensures filteredTranscript ==
        (if old(isTranscribing) then PendingArgument(transcript, commandStartIndex.value) else "")
      ensures old(isTranscribing) && old(anchorTranscript) <= transcript ==>
        LatestCommand(transcript).Some?
        && BeginsWith(filteredTranscript, Keyword(activeCommand.value))
    {
      ghost var previousAnchor := anchorTranscript;
      var wasTranscribing := isTranscribing;
      var previousText, previousCommand := filteredTranscript, activeCommand;
      Locate(transcript, sc);
      if wasTranscribing && commandStartIndex.Some? {
        Reslice(transcript);
      }
      if wasTranscribing && previousAnchor <= transcript {
        ContinuedCapture(previousAnchor, transcript, Anchor(old(activeCommand).value, old(commandStartIndex).value));
      }
      timer := Some(Timer(generation, previousText, previousCommand));
    }

    /** Lines 160-163: the argument is the trimmed transcript from the command's start. */
    method Reslice(transcript: string)
      requires Valid() && isTranscribing
      modifies this
      ensures Valid()
      ensures isTranscribing && activeCommand == old(activeCommand) && commandStartIndex == old(commandStartIndex)
      ensures filteredTranscript == PendingArgument(transcript, commandStartIndex.value)
      ensures anchorTranscript == old(anchorTranscript)
      ensures generation == old(generation) && timer == old(timer) && effects == old(effects)
    {
      var partial := Drop(transcript, commandStartIndex.value);
      filteredTranscript := Trim(Js, partial);
    }

    /** Lines 128-156 of the effect: the command and start index an idle or a capturing tracker moves to. */
    method Locate(transcript: string, sc: Scan)
      requires Valid() && timer.None?
      requires sc == ScanTranscript(transcript)
      modifies this
      ensures Valid()
      ensures generation == old(generation) && timer.None? && effects == old(effects)
      ensures filteredTranscript == old(filteredTranscript)
      ensures LatestCommand(transcript).Some? ==>
        isTranscribing && anchorTranscript == transcript
        && activeCommand == Some(LatestCommand(transcript).value.command)
        && commandStartIndex == Some(LatestCommand(transcript).value.start)
      ensures LatestCommand(transcript).None? ==>
        isTranscribing == old(isTranscribing)
        && activeCommand == old(activeCommand)
        && commandStartIndex == old(commandStartIndex)
    {
      var lastCommandPos := Max(sc.visualizePos, sc.modifyPos);
      LatestFromScan(transcript);
      if !isTranscribing && lastCommandPos != -1 {
        var newCommand := if sc.visualizePos > sc.modifyPos then Visualize else Modify;
        StartCapture(transcript, Anchor(newCommand, lastCommandPos));
      } else if isTranscribing && lastCommandPos != -1 {
        SupersedeIsLatest(transcript, Anchor(activeCommand.value, commandStartIndex.value));
        MoveCapture(transcript, sc);
      }
    }

    /** Lines 136-145: an idle tracker starts capturing the command found at `a`. */
    method StartCapture(transcript: string, a: Anchor)
      requires Valid() && !isTranscribing
      requires OccursAt(Lower(transcript), Keyword(a.command), a.start)
      modifies this
      ensures Valid()
      ensures isTranscribing && activeCommand == Some(a.command) && commandStartIndex == Some(a.start)
      ensures anchorTranscript == transcript
      ensures filteredTranscript == old(filteredTranscript)
      ensures generation == old(generation) && timer == old(timer) && effects == old(effects)
    {
      activeCommand := Some(a.command);
      commandStartIndex := Some(a.start);
      isTranscribing := true;
      anchorTranscript := transcript;
    }

    /**
     * Lines 147-156: a capturing tracker moves to whichever command keyword lies
     * strictly further right, and keeps its anchor when neither does.
     */
    method MoveCapture(transcript: string, sc: Scan)
      requires Valid() && isTranscribing
      requires sc.visualizePos >= -1 && sc.modifyPos >= -1
      requires var next := Supersede(sc, Anchor(activeCommand.value, commandStartIndex.value));
        OccursAt(Lower(transcript), Keyword(next.command), next.start)
      modifies this
      ensures Valid() && isTranscribing
      ensures Anchor(activeCommand.value, commandStartIndex.value)
           == Supersede(sc, Anchor(old(activeCommand).value, old(commandStartIndex).value))
      ensures anchorTranscript == transcript
      ensures filteredTranscript == old(filteredTranscript)
      ensures generation == old(generation) && timer == old(timer) && effects == old(effects)
    {
      if sc.visualizePos > sc.modifyPos && sc.visualizePos != -1 {
        activeCommand := Some(Visualize);
        commandStartIndex := Some(sc.visualizePos);
      } else if sc.modifyPos > sc.visualizePos && sc.modifyPos != -1 {
        activeCommand := Some(Modify);
        commandStartIndex := Some(sc.modifyPos);
      }
      anchorTranscript := transcript;
    }

    /**
     * The finalise callback of the run that scheduled timer `token`. A cleared
     * (stale) timer does nothing. The live one dispatches its captured text to the
     * handler of its captured command and clears everything, unless the text is empty.
     */
    method TimerFired(token: nat)
      requires Valid()
      modifies this
      ensures Valid()
      ensures old(timer).None? || old(timer).value.token != token ==> unchanged(this)
      ensures old(timer).Some? && old(timer).value.token == token ==>
        timer.None? && generation == old(generation)
        && (old(timer).value.text == "" ==>
              CaptureState() == old(CaptureState()) && effects == old(effects))
        && (old(timer).value.text != "" ==>
              Idle() && old(timer).value.command.Some?
              && effects == old(effects)
                 + [Dispatch(old(timer).value.command.value, old(timer).value.text), ResetTranscript])
    {
      if timer.None? || timer.value.token != token {
        return;
      }
      var t := timer.value;
      timer := None;
      if t.text != "" {
        match t.command {
          case Some(Visualize) =>
            effects := effects + [GenerateShader(t.text)];
          case Some(Modify) =>
            effects := effects + [ModifyShader(t.text)];
          case None =>
        }
        filteredTranscript := "";
        isTranscribing := false;
        activeCommand := None;
        commandStartIndex := None;
        effects := effects + [ResetTranscript];
      }
    }

    /**
     * The loading-gate effect. The transcript effect depends on the loading flag
     * too, so its cleanup clears the pending timer first. Entering loading stops
     * the engine and clears all capture state; leaving it starts continuous listening.
     */
    method LoadingChanged(loading: bool)
      requires Valid()
      modifies this
      ensures Valid()
      ensures generation == old(generation) + 1 && timer.None?
      ensures !supported ==> CaptureState() == old(CaptureState()) && effects == old(effects)
      ensures supported && loading ==> Idle() && effects == old(effects) + [StopListening, ResetTranscript]
      ensures supported && !loading ==>
        CaptureState() == old(CaptureState()) && effects == old(effects) + [StartListening]
    {
      generation := generation + 1;
      timer := None;
      if !supported {
        return;
      }
      if loading {
        effects := effects + [StopListening];
        isTranscribing := false;
        filteredTranscript := "";
        activeCommand := None;
        commandStartIndex := None;
        effects := effects + [ResetTranscript];
      } else {
        effects := effects + [StartListening];
      }
    }
  }

  /** What `LatestCommand` returns, stated on the scan's positions. */
  lemma LatestFromScan(transcript: string)
    ensures ScanTranscript(transcript).visualizePos >= -1 && ScanTranscript(transcript).modifyPos >= -1
    ensures var sc := ScanTranscript(transcript);
      var last := Max(sc.visualizePos, sc.modifyPos);
      LatestCommand(transcript) ==
        if last == -1 then None else Some(Anchor(if sc.visualizePos > sc.modifyPos then Visualize else Modify, last))
  {
  }

  /**
   * A capture continued on a longer transcript still finds a command, and the
   * argument sliced at that command begins with its keyword.
   */
  lemma ContinuedCapture(previous: string, transcript: string, a: Anchor)
    requires previous <= transcript
    requires OccursAt(Lower(previous), Keyword(a.command), a.start)
    ensures LatestCommand(transcript).Some?
    ensures var latest := LatestCommand(transcript).value;
      BeginsWith(PendingArgument(transcript, latest.start), Keyword(latest.command))
  {
    AnchorSurvivesAppend(previous, transcript, Keyword(a.command), a.start);
    var latest := LatestCommand(transcript).value;
    PendingStartsWithKeyword(transcript, Keyword(latest.command), latest.start);
  }

  /**
   * The speech engine only appends to the transcript, so a keyword occurrence the
   * tracker anchored on is still there, at the same index, in every later transcript.
   */
  lemma AnchorSurvivesAppend(anchor: string, transcript: string, word: string, start: nat)
    requires anchor <= transcript
    requires OccursAt(Lower(anchor), word, start)
    ensures OccursAt(Lower(transcript), word, start)
    ensures Mentions(transcript, word)
  {
    assert Lower(transcript)[start..start + |word|] == Lower(anchor)[start..start + |word|];
    assert OccursAt(Lower(transcript), word, start);
  }
}
