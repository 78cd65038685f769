/** The voice-mode controller of frontend/src/ui/ChatArea.jsx.

    `VoiceController` holds the component state the voice rules read and
    write: `voiceMode`, `status`, `title`, the message list, the id of the
    last patient message handed to speech synthesis, the idle timer (an
    armed flag; its expiry is the event `OnIdleTimeout`) and the speech
    error note. The recogniser and the synthesiser are driven through
    commands, which each method returns in the order it issues them; the
    whole history of issued commands is kept in the ghost log `Issued`.

    Every assignment of the message list runs the "speak the latest patient
    message" effect, so the list is only ever changed through
    `SetMessages`. */
module ChatArea {
  import opened Wrappers
  import opened Text
  import opened Js

  /** One chat message; server ids are numbers, the optimistic doctor
      message has a string id. */
  datatype Message = Message(id: Json, role: string, content: string)

  /** A request to the speech engines of frontend/src/hooks/useSpeech.js. */
  datatype Command =
    | RequestMic     // requestMicPermission()
    | StartCapture   // start() of useSpeech
    | StopCapture    // stop() of useSpeech
    | Speak(text: string)  // speak(text) of useTTS
    | CancelSpeech   // cancel() of useTTS

  /** `[...messages].filter(m => m.role === 'patient').slice(-1)[0]`: the
      last patient message of the list, if there is one. */
  function LastPatient(ms: seq<Message>): (r: Option<Message>)
    ensures r.None? <==> forall i :: 0 <= i < |ms| ==> ms[i].role != "patient"
    ensures r.Some? ==> exists i :: 0 <= i < |ms| && ms[i] == r.value && ms[i].role == "patient" &&
                          forall j :: i < j < |ms| ==> ms[j].role != "patient"
  {
    var k := LastPatientAt(ms);
    if k < 0 then None else Some(ms[k])
  }

  /** The position of the last patient message, or -1 when there is none. */
  function LastPatientAt(ms: seq<Message>): (k: int)
    ensures -1 <= k < |ms|
    ensures k >= 0 ==> ms[k].role == "patient"
    ensures forall j :: k < j < |ms| ==> ms[j].role != "patient"
  {
    if ms == [] then -1
    else if ms[|ms| - 1].role == "patient" then |ms| - 1
    else
      var k := LastPatientAt(ms[..|ms| - 1]);
      assert forall j :: k < j < |ms| - 1 ==> ms[..|ms| - 1][j] == ms[j];
      k
  }

  /** Appending a message that is not from the patient leaves the latest
      patient message where it was. */
  lemma LastPatientAppendOther(ms: seq<Message>, m: Message)
    requires m.role != "patient"
    ensures LastPatient(ms + [m]) == LastPatient(ms)
  {
    assert (ms + [m])[..|ms|] == ms;
  }

  /** Every command that asks the synthesiser to speak directly follows a
      request to stop capturing. */
  ghost predicate StopsBeforeSpeaking(log: seq<Command>) {
    forall i :: 0 <= i < |log| && log[i].Speak? ==> 0 < i && log[i - 1] == StopCapture
  }

  lemma StopsBeforeSpeakingAppend(log: seq<Command>, cmds: seq<Command>)
    requires StopsBeforeSpeaking(log) && StopsBeforeSpeaking(cmds)
    requires cmds != [] ==> !cmds[0].Speak?
    ensures StopsBeforeSpeaking(log + cmds)
  {
    var all := log + cmds;
    forall i | 0 <= i < |all| && all[i].Speak?
      ensures 0 < i && all[i - 1] == StopCapture
    {
      if i >= |log| {
        assert cmds[i - |log|] == all[i];
        assert i - |log| > 0;
        assert all[i - 1] == cmds[i - |log| - 1];
      }
    }
  }

  class VoiceController {
    /** `sttSupported`: the browser has a speech recogniser. */
    const sttSupported: bool
    var voiceMode: bool
    /** The thread's status as the server reports it ('open' or 'closed'). */
    var status: string
    var title: string
    var messages: seq<Message>
    /** `lastSpokenIdRef.current`; `null` until a patient message is spoken. */
    var lastSpokenId: Json
    /** `idleTimerRef.current` holds a timer that has neither fired nor been
        cleared. */
    var idleArmed: bool
    var sttError: string
    /** Every command issued so far, oldest first. */
    ghost var Issued: seq<Command>

    /** The latest patient message of the list has been spoken, and no
        utterance was ever queued without stopping capture first. */
    ghost predicate Valid()
      reads this
    {
      (LastPatient(messages).Some? ==> lastSpokenId == LastPatient(messages).value.id) &&
      StopsBeforeSpeaking(Issued)
    }

    constructor (sttSupported: bool)
      ensures Valid()
      ensures this.sttSupported == sttSupported
      ensures !voiceMode && status == "open" && title == "" && messages == []
      ensures lastSpokenId == JNull && !idleArmed && sttError == "" && Issued == []
    {
      this.sttSupported := sttSupported;
      voiceMode := false;
      status := "open";
      title := "";
      messages := [];
      lastSpokenId := JNull;
      idleArmed := false;
      sttError := "";
      Issued := [];
    }

    /** `resetIdleTimer`: clear the outstanding idle timer, if any, and arm a
        new one. */
    method ResetIdleTimer()
      modifies this`idleArmed
      ensures idleArmed
    {
      if idleArmed {
        idleArmed := false;
      }
      idleArmed := true;
    }

    /** The idle timer's callback, given whether the recogniser is listening
        and the synthesiser speaking: voice mode is switched off only when it
        is on and neither engine is busy. A cleared timer never fires. */
    method OnIdleTimeout(listening: bool, speaking: bool)
      modifies this
      ensures !idleArmed
      ensures voiceMode == (old(voiceMode) && !(old(idleArmed) && !listening && !speaking))
      ensures status == old(status) && title == old(title) && messages == old(messages)
      ensures lastSpokenId == old(lastSpokenId) && sttError == old(sttError) && Issued == old(Issued)
    {
      if idleArmed {
        idleArmed := false;
        if voiceMode && !listening && !speaking {
          voiceMode := false;
        }
      }
    }

    /** `setMessages(ms)` followed by the effect that runs on every change of
        the list: the latest patient message is spoken, after capture is
        stopped, unless it is the one spoken last; the idle timer is then
        reset. */
    method SetMessages(ms: seq<Message>) returns (cmds: seq<Command>)
      requires Valid()
      modifies this
      ensures Valid()
      ensures messages == ms
      ensures var lp := LastPatient(ms);
              if lp.Some? && lp.value.id != old(lastSpokenId)
              then cmds == [StopCapture, Speak(lp.value.content)] && idleArmed
              else cmds == [] && idleArmed == old(idleArmed) && lastSpokenId == old(lastSpokenId)
      ensures voiceMode == old(voiceMode) && status == old(status) && title == old(title)
      ensures sttError == old(sttError)
      ensures Issued == old(Issued) + cmds
    {
      messages := ms;
      cmds := [];
      var lastPatient := LastPatient(ms);
      if lastPatient.Some? && lastPatient.value.id != lastSpokenId {
        cmds := [StopCapture, Speak(lastPatient.value.content)];
        StopsBeforeSpeakingAppend(Issued, cmds);
        Issued := Issued + cmds;
        lastSpokenId := lastPatient.value.id;
        ResetIdleTimer();
      }
    }

    /** Delivering the same list a second time speaks nothing. */
    method Redeliver(ms: seq<Message>) returns (first: seq<Command>, second: seq<Command>)
      requires Valid()
      modifies this
      ensures Valid()
      ensures second == []
      ensures Issued == old(Issued) + first
    {
      first := SetMessages(ms);
      second := SetMessages(ms);
    }

    /** The thread's metadata arrives (`meta` or the fetch): title and
        status are taken over as they are. */
    method OnMeta(newTitle: string, newStatus: string)
      modifies this`title, this`status
      ensures title == newTitle && status == newStatus
    {
      title := newTitle;
      status := newStatus;
    }

    /** `sendText(text)`, up to the request: nothing happens for an empty
        text, a closed thread or a text that is all whitespace; otherwise one
        optimistic doctor message with the trimmed text (and the id
        `'tmp-u-' + now`) is appended, and the trimmed text is what is
        posted. */
    method SendText(text: string, now: int) returns (posted: Option<string>)
      requires Valid()
      modifies this
      ensures Valid()
      ensures text == "" || old(status) == "closed" || Trim(text) == [] ==>
                posted == None && messages == old(messages)
      ensures !(text == "" || old(status) == "closed" || Trim(text) == []) ==>
                posted == Some(Trim(text)) &&
                messages == old(messages) + [Message(JStr("tmp-u-" + IntToString(now)), "doctor", Trim(text))]
      ensures voiceMode == old(voiceMode) && status == old(status) && title == old(title)
      ensures lastSpokenId == old(lastSpokenId) && idleArmed == old(idleArmed)
      ensures sttError == old(sttError) && Issued == old(Issued)
    {
      posted := None;
      if text == "" || status == "closed" {
        return;
      }
      var content := Trim(text);
      if content == [] {
        return;
      }
      var optimistic := Message(JStr("tmp-u-" + IntToString(now)), "doctor", content);
      LastPatientAppendOther(messages, optimistic);
      var cmds := SetMessages(messages + [optimistic]);
      assert cmds == [];
      posted := Some(content);
    }

    /** The server's answer to the post: its list replaces the whole local
        list (running the speak effect), and the idle timer is reset. */
    method OnPostReply(serverList: seq<Message>) returns (cmds: seq<Command>)
      requires Valid()
      modifies this
      ensures Valid()
      ensures messages == serverList && idleArmed
      ensures var lp := LastPatient(serverList);
              if lp.Some? && lp.value.id != old(lastSpokenId)
              then cmds == [StopCapture, Speak(lp.value.content)]
              else cmds == []
      ensures voiceMode == old(voiceMode) && status == old(status) && title == old(title)
      ensures sttError == old(sttError) && Issued == old(Issued) + cmds
    {
      cmds := SetMessages(serverList);
      ResetIdleTimer();
    }

    /** `startVoice`: refused without a recogniser or on a closed thread;
        otherwise the error note is cleared, voice mode goes on, the
        microphone is requested and capture started, and the idle timer is
        reset. */
    method StartVoice() returns (cmds: seq<Command>)
      requires Valid()
      modifies this
      ensures Valid()
      ensures !sttSupported || old(status) == "closed" ==>
                cmds == [] && voiceMode == old(voiceMode) && sttError == old(sttError) &&
                idleArmed == old(idleArmed)
      ensures sttSupported && old(status) != "closed" ==>
                cmds == [RequestMic, StartCapture] && voiceMode && sttError == "" && idleArmed
      ensures status == old(status) && title == old(title) && messages == old(messages)
      ensures lastSpokenId == old(lastSpokenId) && Issued == old(Issued) + cmds
    {
      cmds := [];
      if !sttSupported || status == "closed" {
        return;
      }
      sttError := "";
      voiceMode := true;
      cmds := [RequestMic, StartCapture];
      StopsBeforeSpeakingAppend(Issued, cmds);
      Issued := Issued + cmds;
      ResetIdleTimer();
    }

    /** `endVoice`: voice mode off, capture stopped, speech cancelled. */
    method EndVoice() returns (cmds: seq<Command>)
      requires Valid()
      modifies this
      ensures Valid()
      ensures !voiceMode && cmds == [StopCapture, CancelSpeech]
      ensures status == old(status) && title == old(title) && messages == old(messages)
      ensures lastSpokenId == old(lastSpokenId) && idleArmed == old(idleArmed)
      ensures sttError == old(sttError) && Issued == old(Issued) + cmds
    {
      voiceMode := false;
      cmds := [StopCapture, CancelSpeech];
      StopsBeforeSpeakingAppend(Issued, cmds);
      Issued := Issued + cmds;
    }

    /** The overlay's close button: only voice mode goes off; capture and
        speech are left running. */
    method CloseOverlay()
      modifies this`voiceMode
      ensures !voiceMode
    {
      voiceMode := false;
    }

    /** `endDiagnosis`: unless the user declines the confirmation or the end
        request fails, the thread becomes closed, capture is stopped, speech
        cancelled and voice mode switched off. */
    method EndDiagnosis(confirmed: bool, endSucceeded: bool) returns (cmds: seq<Command>)
      requires Valid()
      modifies this
      ensures Valid()
      ensures !(confirmed && endSucceeded) ==>
                cmds == [] && status == old(status) && voiceMode == old(voiceMode)
      ensures confirmed && endSucceeded ==>
                cmds == [StopCapture, CancelSpeech] && status == "closed" && !voiceMode
      ensures title == old(title) && messages == old(messages) && lastSpokenId == old(lastSpokenId)
      ensures idleArmed == old(idleArmed) && sttError == old(sttError)
      ensures Issued == old(Issued) + cmds
    {
      cmds := [];
      if !confirmed || !endSucceeded {
        return;
      }
      status := "closed";
      cmds := [StopCapture, CancelSpeech];
      StopsBeforeSpeakingAppend(Issued, cmds);
      Issued := Issued + cmds;
      voiceMode := false;
    }

    /** The synthesiser's end event (`onEnd` of useTTS): capture resumes
        only while voice mode is on and the thread is open. */
    method OnSpeechEnd() returns (cmds: seq<Command>)
      requires Valid()
      modifies this
      ensures Valid()
      ensures cmds == (if old(voiceMode) && old(status) == "open" then [RequestMic, StartCapture] else [])
      ensures voiceMode == old(voiceMode) && status == old(status) && title == old(title)
      ensures messages == old(messages) && lastSpokenId == old(lastSpokenId)
      ensures idleArmed == old(idleArmed) && sttError == old(sttError)
      ensures Issued == old(Issued) + cmds
    {
      cmds := [];
      if voiceMode && status == "open" {
        cmds := [RequestMic, StartCapture];
        StopsBeforeSpeakingAppend(Issued, cmds);
        Issued := Issued + cmds;
      }
    }

    /** The recogniser's `onError`: its message, or 'Speech error' when it
        has none. */
    method OnSttError(message: Option<string>)
      modifies this`sttError
      ensures message.Some? && message.value != "" ==> sttError == message.value
      ensures message.None? || message.value == "" ==> sttError == "Speech error"
    {
      if message.Some? && message.value != "" {
        sttError := message.value;
      } else {
        sttError := "Speech error";
      }
    }
  }

  // ------------------------------------------------------------ transcript

  /** The speaker label of a transcript line. */
  function Speaker(role: string): string {
    if role == "doctor" then "Doctor" else "Patient"
  }

  /** One transcript line: the speaker label, `": "`, the content. */
  function Line(m: Message): string {
    Speaker(m.role) + ": " + m.content
  }

  /** A line names the doctor exactly for doctor messages, the patient for
      every other role, and ends with the message's content. */
  lemma LineShape(m: Message)
    ensures "Doctor: " <= Line(m) <==> m.role == "doctor"
    ensures "Patient: " <= Line(m) <==> m.role != "doctor"
    ensures |Line(m)| >= |m.content| && Line(m)[|Line(m)| - |m.content|..] == m.content
  {
    if m.role != "doctor" {
      assert Line(m)[0] == 'P';
    } else {
      assert Line(m)[0] == 'D';
    }
  }

  function Lines(ms: seq<Message>): (r: seq<string>)
    ensures |r| == |ms|
    ensures forall i :: 0 <= i < |ms| ==> r[i] == Line(ms[i])
  {
    seq(|ms|, i requires 0 <= i < |ms| => Line(ms[i]))
  }

  /** The text of the downloaded transcript. */
  function Transcript(ms: seq<Message>): string {
    Join(Lines(ms), "\n\n")
  }

  /** A transcript is the earlier transcript, a blank line and the new
      message's line; a single message's transcript is its line. */
  lemma TranscriptSnoc(ms: seq<Message>, m: Message)
    ensures ms == [] ==> Transcript(ms + [m]) == Line(m)
    ensures ms != [] ==> Transcript(ms + [m]) == Transcript(ms) + "\n\n" + Line(m)
  {
    assert Lines(ms + [m]) == Lines(ms) + [Line(m)];
    if ms != [] {
      JoinSnoc(Lines(ms), Line(m), "\n\n");
    }
  }

  const TranscriptSuffix := "_transcript.txt"

  /** The download's file name: the title, or 'Session' when the title is
      empty, with every run of whitespace replaced by one '_', followed by
      `_transcript.txt`. */
  function TranscriptFileName(title: string): string {
    ReplaceSpaceRuns(if title == "" then "Session" else title, '_') + TranscriptSuffix
  }

  /** The file name has no whitespace and ends with the fixed suffix; an
      untitled session is `Session_transcript.txt`; a title without
      whitespace is kept as it is. */
  lemma TranscriptFileNameShape(title: string)
    ensures NoSpace(TranscriptFileName(title))
    ensures var r := TranscriptFileName(title);
            |r| >= |TranscriptSuffix| && r[|r| - |TranscriptSuffix|..] == TranscriptSuffix
    ensures title == "" ==> TranscriptFileName(title) == "Session" + TranscriptSuffix
    ensures title != "" && NoSpace(title) ==> TranscriptFileName(title) == title + TranscriptSuffix
  {
    var base := if title == "" then "Session" else title;
    var stem := ReplaceSpaceRuns(base, '_');
    ReplaceSpaceRunsNoSpace(base, '_');
    assert NoSpace(TranscriptSuffix) by {
      forall i | 0 <= i < |TranscriptSuffix|
        ensures !IsSpace(TranscriptSuffix[i])
      {
      }
    }
    var r := stem + TranscriptSuffix;
    assert forall i :: 0 <= i < |r| ==> r[i] == if i < |stem| then stem[i] else TranscriptSuffix[i - |stem|];
    assert r[|r| - |TranscriptSuffix|..] == TranscriptSuffix;
    if title == "" {
      assert NoSpace("Session") by {
        forall i | 0 <= i < 7
          ensures !IsSpace("Session"[i])
        {
        }
      }
      ReplaceSpaceRunsIdentity("Session", '_');
    } else if NoSpace(title) {
      ReplaceSpaceRunsIdentity(title, '_');
    }
  }
}
