/** The interview lifecycle of App.tsx: the start guard, the three-second
    countdown, pause and resume, stopping and releasing the audio and network
    handles, the new-interview reset and the transcript that the live session
    appends to. React state and refs become the fields of one object; each
    handler or effect becomes a method. The browser objects are opaque
    references supplied by the caller. */
module Session {
  import opened Strings
  import opened Types
  import ChecklistOutline
  import QuestionOutline

  const CountdownStart: nat := 3

  const EmptyChecklistError := "Sua checklist está vazia. Vá para a aba 'Checklist' para adicionar pontos."
  const ConnectionError := "Ocorreu um erro na conexão. Tente novamente."
  const StartFailedError := "Falha ao iniciar. Verifique as permissões do microfone e a chave de API."

  /** `checklist.reduce((sum, g) => sum + g.items.length, 0)`. */
  function TotalItems(gs: seq<ChecklistGroup>): nat {
    if gs == [] then 0 else TotalItems(gs[..|gs| - 1]) + |gs[|gs| - 1].items|
  }

  /** The total is zero exactly when every group is empty. */
  lemma {:induction false} TotalItemsZeroIff(gs: seq<ChecklistGroup>)
    ensures TotalItems(gs) == 0 <==> forall i :: 0 <= i < |gs| ==> gs[i].items == []
    decreases |gs|
  {
    if gs != [] {
      var init := gs[..|gs| - 1];
      TotalItemsZeroIff(init);
      assert forall i :: 0 <= i < |init| ==> init[i] == gs[i];
    }
  }

  /** Since the parser never returns an empty group, a freshly parsed
      checklist refuses to start only when it has no groups at all. */
  lemma ParsedChecklistStartable(markdown: string, now: nat)
    ensures TotalItems(ChecklistOutline.ParsedChecklist(markdown, now)) == 0
        <==> ChecklistOutline.ParsedChecklist(markdown, now) == []
  {
    var gs := ChecklistOutline.ParsedChecklist(markdown, now);
    TotalItemsZeroIff(gs);
    if gs != [] {
      assert gs[0].items != [];
    }
  }

  /** One run of the countdown effect: while counting down, a positive value
      drops by one (the one-second timer); at zero `beginRecording` moves to
      `processing` and the countdown is cleared. In any other state, or
      without a countdown, nothing happens. */
  function CountdownNext(status: InterviewStatus, countdown: Option<nat>): (r: (InterviewStatus, Option<nat>))
    ensures status == Countdown && countdown.Some? && countdown.value > 0 ==>
              r.0 == Countdown && r.1.Some? && r.1.value == countdown.value - 1
    ensures status == Countdown && countdown == Some(0) ==> r == (Processing, None)
    ensures status != Countdown || countdown.None? ==> r == (status, countdown)
  {
    if status == Countdown && countdown.Some? then
      if countdown.value > 0 then
        var next: nat := countdown.value - 1;
        (status, Some(next))
      else (Processing, None)
    else (status, countdown)
  }

  function CountdownAfter(status: InterviewStatus, countdown: Option<nat>, ticks: nat): (InterviewStatus, Option<nat>)
    decreases ticks
  {
    if ticks == 0 then (status, countdown)
    else
      var next := CountdownNext(status, countdown);
      CountdownAfter(next.0, next.1, ticks - 1)
  }

  /** From `n`, each of the first `n` runs lowers the countdown by one. */
  lemma {:induction false} CountdownRunsDown(n: nat, j: nat)
    requires j <= n
    ensures var r := CountdownAfter(Countdown, Some(n), j);
      r.0 == Countdown && r.1.Some? && r.1.value == n - j
    decreases j
  {
    if j > 0 {
      CountdownRunsDown(n - 1, j - 1);
    }
  }

  /** A countdown started at `n` reaches `processing`, with the countdown
      cleared, on run `n + 1` and stays there. */
  lemma CountdownEndsInProcessing(n: nat, extra: nat)
    ensures CountdownAfter(Countdown, Some(n), n + 1 + extra) == (Processing, None)
  {
    CountdownRunsDown(n, n);
    CountdownAfterSplit(Countdown, Some(n), n, 1 + extra);
    ProcessingStays(extra);
  }

  lemma {:induction false} CountdownAfterSplit(status: InterviewStatus, countdown: Option<nat>, a: nat, b: nat)
    ensures var mid := CountdownAfter(status, countdown, a);
      CountdownAfter(status, countdown, a + b) == CountdownAfter(mid.0, mid.1, b)
    decreases a
  {
    if a > 0 {
      var next := CountdownNext(status, countdown);
      CountdownAfterSplit(next.0, next.1, a - 1, b);
    }
  }

  lemma {:induction false} ProcessingStays(ticks: nat)
    ensures CountdownAfter(Processing, None, ticks) == (Processing, None)
    decreases ticks
  {
    if ticks > 0 {
      ProcessingStays(ticks - 1);
    }
  }

  /** `handlePauseResume`: swaps `recording` and `paused`, leaves every other
      status as it is. */
  function PauseResumeNext(status: InterviewStatus): (r: InterviewStatus)
    ensures status == Recording <==> r == Paused
    ensures status == Paused <==> r == Recording
    ensures status != Recording && status != Paused ==> r == status
  {
    if status == Recording then Paused
    else if status == Paused then Recording
    else status
  }

  /** Pausing and resuming, in either order, returns to the same status. */
  lemma PauseResumeTwice(status: InterviewStatus)
    ensures PauseResumeNext(PauseResumeNext(status)) == status
  {
  }

  /** The transcript as the concatenation of its fragments, oldest first. */
  function Concat(fragments: seq<string>): string {
    if fragments == [] then "" else Concat(fragments[..|fragments| - 1]) + fragments[|fragments| - 1]
  }

  /** The audio context, by reference, and whether it is already closed. */
  datatype AudioContextRef = AudioContextRef(ref: nat, closed: bool)

  /** The release steps `stopInterview` performs, in its order. */
  datatype Release = StopTracks | DisconnectProcessor | DisconnectSource | CloseAudioContext | CloseSession

  /** One guarded release step: `if (ref.current) ref.current.release()`. */
  function ReleaseIf(present: bool, step: Release): seq<Release> {
    if present then [step] else []
  }

  /** The release steps for the handles a stop finds, in `stopInterview`'s
      order. */
  function Releases(stream: Option<nat>, processor: Option<nat>, source: Option<nat>,
                    context: Option<AudioContextRef>, session: Option<nat>, sessionResolves: bool): seq<Release>
  {
    ReleaseIf(stream.Some?, StopTracks)
    + ReleaseIf(processor.Some?, DisconnectProcessor)
    + ReleaseIf(source.Some?, DisconnectSource)
    + ReleaseIf(context.Some? && !context.value.closed, CloseAudioContext)
    + ReleaseIf(session.Some? && sessionResolves, CloseSession)
  }

  /** Each present handle is released once and only once: the audio context
      only if it is not already closed, and the network session only if its
      connection promise resolves (a rejected one is logged and dropped). */
  lemma ReleasesOnce(stream: Option<nat>, processor: Option<nat>, source: Option<nat>,
                     context: Option<AudioContextRef>, session: Option<nat>, sessionResolves: bool)
    ensures var r := Releases(stream, processor, source, context, session, sessionResolves);
      (StopTracks in r <==> stream.Some?)
      && (DisconnectProcessor in r <==> processor.Some?)
      && (DisconnectSource in r <==> source.Some?)
      && (CloseAudioContext in r <==> context.Some? && !context.value.closed)
      && (CloseSession in r <==> session.Some? && sessionResolves)
      && Distinct(r)
  {
    var r1 := ReleaseIf(stream.Some?, StopTracks);
    var r2 := r1 + ReleaseIf(processor.Some?, DisconnectProcessor);
    var r3 := r2 + ReleaseIf(source.Some?, DisconnectSource);
    var r4 := r3 + ReleaseIf(context.Some? && !context.value.closed, CloseAudioContext);
    AppendFresh(r1, processor.Some?, DisconnectProcessor);
    AppendFresh(r2, source.Some?, DisconnectSource);
    AppendFresh(r3, context.Some? && !context.value.closed, CloseAudioContext);
    AppendFresh(r4, session.Some? && sessionResolves, CloseSession);
  }

  predicate Distinct(r: seq<Release>) {
    forall i, j :: 0 <= i < j < |r| ==> r[i] != r[j]
  }

  lemma AppendFresh(a: seq<Release>, present: bool, step: Release)
    requires Distinct(a) && step !in a
    ensures Distinct(a + ReleaseIf(present, step))
  {
  }

  /** Nothing is released when no handle is held. */
  lemma ReleasesNothingWithoutHandles(sessionResolves: bool)
    ensures Releases(None, None, None, None, None, sessionResolves) == []
  {
  }

  class InterviewSession {
    var status: InterviewStatus
    var countdown: Option<nat>
    var error: Option<string>
    var transcription: string
    /** The fragments appended since the transcript was last reset. */
    ghost var fragments: seq<string>
    var identifier: string
    var startTime: string
    var micVolume: real
    var checklist: seq<ChecklistGroup>
    var questions: seq<QuestionGroup>

    var sessionPromise: Option<nat>
    var audioContext: Option<AudioContextRef>
    var scriptProcessor: Option<nat>
    var mediaStreamSource: Option<nat>
    var mediaStream: Option<nat>
    /** The status the live-session callbacks read: the one captured when the
        `beginRecording` that opened the session was created. */
    var callbackStatus: InterviewStatus

    /** The built-in checklist and question outlines. */
    const defaultChecklist: string
    const defaultQuestions: string

    ghost predicate Valid()
      reads this
    {
      transcription == Concat(fragments)
      && (countdown.Some? ==> countdown.value <= CountdownStart)
    }

    predicate HoldsNoHandles()
      reads this
    {
      sessionPromise.None? && audioContext.None? && scriptProcessor.None?
      && mediaStreamSource.None? && mediaStream.None?
    }

    /** The initial state: idle, nothing recorded, the default outlines
        parsed at time `now`. */
    constructor (defaultChecklist: string, defaultQuestions: string, now: nat)
      ensures Valid() && HoldsNoHandles()
      ensures status == Idle && countdown.None? && error.None? && transcription == "" && fragments == []
      ensures identifier == "" && startTime == "" && micVolume == 0.0
      ensures checklist == ChecklistOutline.ParsedChecklist(defaultChecklist, now)
      ensures questions == QuestionOutline.ParsedQuestions(defaultQuestions, now)
      ensures this.defaultChecklist == defaultChecklist && this.defaultQuestions == defaultQuestions
    {
      var parsedChecklist := ChecklistOutline.ParseChecklist(defaultChecklist, now);
      var parsedQuestions := QuestionOutline.ParseQuestions(defaultQuestions, now);
      this.defaultChecklist := defaultChecklist;
      this.defaultQuestions := defaultQuestions;
      status := Idle;
      countdown := None;
      error := None;
      transcription := "";
      fragments := [];
      identifier := "";
      startTime := "";
      micVolume := 0.0;
      checklist := parsedChecklist;
      questions := parsedQuestions;
      sessionPromise := None;
      audioContext := None;
      scriptProcessor := None;
      mediaStreamSource := None;
      mediaStream := None;
      callbackStatus := Idle;
    }

    /** `startInterview`: with no item in the whole checklist it only reports
        the error; otherwise it clears the error and the transcript, records
        the start time and counts down from three. */
    method StartInterview(now: string)
      requires Valid()
      modifies this`error, this`transcription, this`fragments, this`startTime, this`status, this`countdown
      ensures Valid()
      ensures TotalItems(checklist) == 0 ==>
                error == Some(EmptyChecklistError) && status == old(status) && countdown == old(countdown)
                && transcription == old(transcription) && fragments == old(fragments) && startTime == old(startTime)
      ensures TotalItems(checklist) != 0 ==>
                error.None? && transcription == "" && fragments == [] && startTime == now
                && status == Countdown && countdown == Some(CountdownStart)
    {
      if TotalItems(checklist) == 0 {
        error := Some(EmptyChecklistError);
        return;
      }
      error := None;
      transcription := "";
      fragments := [];
      startTime := now;
      status := Countdown;
      countdown := Some(CountdownStart);
    }

    /** The countdown effect. When the countdown reaches zero it calls
        `beginRecording`, whose connection attempt yields `session`. */
    method CountdownTick(session: nat)
      requires Valid()
      modifies this`status, this`countdown, this`sessionPromise, this`callbackStatus
      ensures Valid()
      ensures (status, countdown) == CountdownNext(old(status), old(countdown))
      ensures old(status) == Countdown && old(countdown) == Some(0) ==>
                sessionPromise == Some(session) && callbackStatus == Countdown
      ensures !(old(status) == Countdown && old(countdown) == Some(0)) ==>
                sessionPromise == old(sessionPromise) && callbackStatus == old(callbackStatus)
    {
      if status == Countdown && countdown.Some? {
        if countdown.value > 0 {
          countdown := Some(countdown.value - 1);
        } else {
          BeginRecording(session);
          countdown := None;
        }
      }
    }

    /** `beginRecording` up to the connection attempt: `processing`, and the
        session handle stored; its callbacks keep the status of this moment. */
    method BeginRecording(session: nat)
      modifies this`status, this`sessionPromise, this`callbackStatus
      ensures status == Processing && sessionPromise == Some(session)
      ensures callbackStatus == old(status)
    {
      callbackStatus := status;
      status := Processing;
      sessionPromise := Some(session);
    }

    /** The `onopen` callback: `recording`, with a 16 kHz audio context, the
        microphone stream, its source node and a 4096-sample processor. */
    method OnOpen(context: nat, stream: nat, source: nat, processor: nat)
      modifies this`status, this`audioContext, this`mediaStream, this`mediaStreamSource, this`scriptProcessor
      ensures status == Recording
      ensures audioContext == Some(AudioContextRef(context, false)) && mediaStream == Some(stream)
      ensures mediaStreamSource == Some(source) && scriptProcessor == Some(processor)
    {
      status := Recording;
      audioContext := Some(AudioContextRef(context, false));
      mediaStream := Some(stream);
      mediaStreamSource := Some(source);
      scriptProcessor := Some(processor);
    }

    /** The `catch` of `beginRecording`: the connection could not be made;
        `message` is the text of the thrown `Error`, if it was one. */
    method OnConnectFailed(message: Option<string>)
      modifies this`error, this`status
      ensures status == Error
      ensures error == Some(if message.Some? then "Falha ao iniciar: " + message.value else StartFailedError)
    {
      if message.Some? {
        error := Some("Falha ao iniciar: " + message.value);
      } else {
        error := Some(StartFailedError);
      }
      status := Error;
    }

    /** The `onmessage` callback: an input transcription, when the message
        carries one, is appended to the end of the transcript. */
    method OnMessage(inputTranscription: Option<string>)
      requires Valid()
      modifies this`transcription, this`fragments
      ensures Valid()
      ensures inputTranscription.Some? ==>
                transcription == old(transcription) + inputTranscription.value
                && fragments == old(fragments) + [inputTranscription.value]
      ensures inputTranscription.None? ==> transcription == old(transcription) && fragments == old(fragments)
    {
      if inputTranscription.Some? {
        transcription := transcription + inputTranscription.value;
        fragments := fragments + [inputTranscription.value];
        assert fragments[..|fragments| - 1] == old(fragments);
      }
    }

    /** `stopInterview(newState)`: the new status, the meter at zero, every
        present handle released once, in order, and all five handles
        cleared, so that a second stop releases nothing. */
    method Stop(newState: InterviewStatus, sessionResolves: bool) returns (released: seq<Release>)
      modifies this`status, this`micVolume, this`mediaStream, this`scriptProcessor,
               this`mediaStreamSource, this`audioContext, this`sessionPromise
      ensures status == newState && micVolume == 0.0 && HoldsNoHandles()
      ensures released == Releases(old(mediaStream), old(scriptProcessor), old(mediaStreamSource),
                                   old(audioContext), old(sessionPromise), sessionResolves)
    {
      status := newState;
      micVolume := 0.0;
      released := ReleaseIf(mediaStream.Some?, StopTracks);
      released := released + ReleaseIf(scriptProcessor.Some?, DisconnectProcessor);
      released := released + ReleaseIf(mediaStreamSource.Some?, DisconnectSource);
      released := released + ReleaseIf(audioContext.Some? && !audioContext.value.closed, CloseAudioContext);
      mediaStream := None;
      scriptProcessor := None;
      mediaStreamSource := None;
      audioContext := None;
      if sessionPromise.Some? {
        released := released + ReleaseIf(sessionResolves, CloseSession);
        sessionPromise := None;
      }
    }

    /** The `onerror` callback: reports the connection error and stops in
        `error`. */
    method OnError(sessionResolves: bool) returns (released: seq<Release>)
      modifies this`error, this`status, this`micVolume, this`mediaStream, this`scriptProcessor,
               this`mediaStreamSource, this`audioContext, this`sessionPromise
      ensures error == Some(ConnectionError) && status == Error && micVolume == 0.0 && HoldsNoHandles()
      ensures released == Releases(old(mediaStream), old(scriptProcessor), old(mediaStreamSource),
                                   old(audioContext), old(sessionPromise), sessionResolves)
    {
      error := Some(ConnectionError);
      released := Stop(Error, sessionResolves);
    }

    /** The `onclose` callback: it moves to `stopped` only if the status its
        closure captured was `recording` or `paused`. */
    method OnClose()
      modifies this`status
      ensures status == if callbackStatus == Recording || callbackStatus == Paused then Stopped else old(status)
    {
      if callbackStatus == Recording || callbackStatus == Paused {
        status := Stopped;
      }
    }

    /** `handlePauseResume`. */
    method PauseResume()
      modifies this`status
      ensures status == PauseResumeNext(old(status))
    {
      if status == Recording {
        status := Paused;
      } else if status == Paused {
        status := Recording;
      }
    }

    /** Pausing and then resuming returns to the same status and keeps every
        handle: what the pause button is for. */
    method PauseThenResume()
      modifies this`status
      ensures status == old(status)
    {
      PauseResume();
      PauseResume();
      PauseResumeTwice(old(status));
    }

    /** The cleanup of the effect that lists `status` among its dependencies.
        React runs it after every status change, with the status of the
        render being left: leaving `recording` or `paused` calls
        `stopInterview()`, which stops in `stopped`. */
    method LeaveStatus(left: InterviewStatus, sessionResolves: bool) returns (released: seq<Release>)
      modifies this`status, this`micVolume, this`mediaStream, this`scriptProcessor,
               this`mediaStreamSource, this`audioContext, this`sessionPromise
      ensures left == Recording || left == Paused ==>
                status == Stopped && micVolume == 0.0 && HoldsNoHandles() &&
                released == Releases(old(mediaStream), old(scriptProcessor), old(mediaStreamSource),
                                     old(audioContext), old(sessionPromise), sessionResolves)
      ensures left != Recording && left != Paused ==> unchanged(this) && released == []
    {
      if left == Recording || left == Paused {
        released := Stop(Stopped, sessionResolves);
      } else {
        released := [];
      }
    }

    /** A press of pause or resume as the component runs it: the handler,
        then the effect cleanup for the status it left. That cleanup stops
        in `stopped`, so the cleanup runs once more for the status in
        between and stops again; the second stop finds no handle and
        releases nothing (`ReleasesNothingWithoutHandles`). From `recording`
        or `paused` the interview ends in `stopped` with every handle
        released; from any other status nothing happens. */
    method PauseResumeWithEffect(sessionResolves: bool) returns (released: seq<Release>)
      modifies this`status, this`micVolume, this`mediaStream, this`scriptProcessor,
               this`mediaStreamSource, this`audioContext, this`sessionPromise
      ensures old(status) == Recording || old(status) == Paused ==>
                status == Stopped && micVolume == 0.0 && HoldsNoHandles() &&
                released == Releases(old(mediaStream), old(scriptProcessor), old(mediaStreamSource),
                                     old(audioContext), old(sessionPromise), sessionResolves)
      ensures old(status) != Recording && old(status) != Paused ==> unchanged(this) && released == []
    {
      var left := status;
      PauseResume();
      if status != left {
        var between := status;
        released := LeaveStatus(left, sessionResolves);
        var again := LeaveStatus(between, sessionResolves);
        ReleasesNothingWithoutHandles(sessionResolves);
        released := released + again;
      } else {
        released := [];
      }
    }

    /** The `onerror` callback as the component runs it: `stopInterview('error')`,
        then the effect cleanup for the status it left. An error while
        recording or paused keeps its message but ends in `stopped`, not
        `error`. */
    method OnErrorWithEffect(sessionResolves: bool) returns (released: seq<Release>)
      modifies this`error, this`status, this`micVolume, this`mediaStream, this`scriptProcessor,
               this`mediaStreamSource, this`audioContext, this`sessionPromise
      ensures error == Some(ConnectionError) && micVolume == 0.0 && HoldsNoHandles()
      ensures status == if old(status) == Recording || old(status) == Paused then Stopped else Error
      ensures released == Releases(old(mediaStream), old(scriptProcessor), old(mediaStreamSource),
                                   old(audioContext), old(sessionPromise), sessionResolves)
    {
      var left := status;
      released := OnError(sessionResolves);
      if status != left {
        var again := LeaveStatus(left, sessionResolves);
        ReleasesNothingWithoutHandles(sessionResolves);
        released := released + again;
      }
    }

    /** `handleNewInterview`: stops in `idle`, reloads the default outlines
        (parsed at time `now`) and clears identifier, start time, transcript
        and error. */
    method NewInterview(now: nat, sessionResolves: bool) returns (released: seq<Release>)
      requires Valid()
      modifies this`status, this`micVolume, this`mediaStream, this`scriptProcessor,
               this`mediaStreamSource, this`audioContext, this`sessionPromise,
               this`checklist, this`questions, this`identifier, this`startTime,
               this`transcription, this`fragments, this`error
      ensures Valid() && HoldsNoHandles()
      ensures status == Idle && micVolume == 0.0
      ensures released == Releases(old(mediaStream), old(scriptProcessor), old(mediaStreamSource),
                                   old(audioContext), old(sessionPromise), sessionResolves)
      ensures checklist == ChecklistOutline.ParsedChecklist(defaultChecklist, now)
      ensures questions == QuestionOutline.ParsedQuestions(defaultQuestions, now)
      ensures identifier == "" && startTime == "" && transcription == "" && fragments == [] && error.None?
    {
      ghost var handles := Releases(mediaStream, scriptProcessor, mediaStreamSource, audioContext, sessionPromise, sessionResolves);
      released := Stop(Idle, sessionResolves);
      assert released == handles && HoldsNoHandles() && countdown == old(countdown);
      ResetDocuments(now);
    }

    /** The resets of `handleNewInterview` after the stop. */
    method ResetDocuments(now: nat)
      modifies this`checklist, this`questions, this`identifier, this`startTime,
               this`transcription, this`fragments, this`error
      ensures checklist == ChecklistOutline.ParsedChecklist(defaultChecklist, now)
      ensures questions == QuestionOutline.ParsedQuestions(defaultQuestions, now)
      ensures identifier == "" && startTime == "" && transcription == "" && fragments == [] && error.None?
    {
      var parsedChecklist := ChecklistOutline.ParseChecklist(defaultChecklist, now);
      var parsedQuestions := QuestionOutline.ParseQuestions(defaultQuestions, now);
      checklist := parsedChecklist;
      questions := parsedQuestions;
      identifier := "";
      startTime := "";
      transcription := "";
      fragments := [];
      error := None;
    }
  }

  /** A session that opened after its countdown keeps recording when the
      connection closes on its own: the close callback sees the captured
      `countdown` status, not `recording`. */
  method CloseAfterCountdownKeepsRecording(s: InterviewSession, session: nat, context: nat, stream: nat, source: nat, processor: nat)
    requires s.Valid() && s.status == Countdown && s.countdown == Some(0)
    modifies s
    ensures s.status == Recording
  {
    s.CountdownTick(session);
    s.OnOpen(context, stream, source, processor);
    s.OnClose();
  }
}
