/** What events achieve: the effect of each one in each state, told in flags and history,
    and what a whole conversation leaves on record. */
module Conversation {
  import opened Bytes
  import opened Runtime

  // ---- the effect of each event ------------------------------------------------------------------

  predicate IsStart(e: Event) {
    e == ManualStart || e == WakewordDetected
  }

  function When(b: bool, t: seq<Happening>): seq<Happening> {
    if b then t else []
  }

  /** The start of an upload, once the automaton has moved. */
  lemma ListenOpens(a: App, env: Env)
    requires a.session == UploadingAudio
    ensures var told := a.sessionId != [] && env.queued;
      Listen(a, env)
      == if !told then a
         else if !env.creatable then a.(dumpOpen := false, trace := a.trace + [StartQueued(a.sessionId)])
         else a.(uploadEnabled := true, capturing := true, dumpOpen := true,
                 trace := a.trace + [StartQueued(a.sessionId)])
  {
  }

  /** A start event in Ready: the server is told, the dump file opens, and recording begins.
      Each of these depends on the one before. */
  lemma StartOpensUpload(a: App, e: Event, env: Env)
    requires a.session == Ready && IsStart(e)
    ensures var b, told := a.(session := UploadingAudio), a.sessionId != [] && env.queued;
      Handle(a, e, env)
      == if !told then b
         else if !env.creatable then b.(dumpOpen := false, trace := a.trace + [StartQueued(a.sessionId)])
         else b.(uploadEnabled := true, capturing := true, dumpOpen := true,
                 trace := a.trace + [StartQueued(a.sessionId)])
  {
    hide Listen;
    ListenOpens(a.(session := UploadingAudio), env);
  }

  /** MANUAL_STOP while uploading: recording ends, the dump file is closed, and the server
      is told if it can be. */
  lemma StopEndsUpload(a: App, env: Env)
    requires a.session == UploadingAudio
    ensures Handle(a, ManualStop, env)
         == a.(session := WaitingTts, uploadEnabled := false, capturing := false, dumpOpen := false,
               trace := a.trace + When(a.sessionId != [] && env.queued, [StopQueued(a.sessionId)]))
  {
  }

  /** The interruption, once the automaton has moved. */
  lemma InterruptRestarts(a: App, env: Env)
    requires a.clientStarted == a.running
    ensures Interrupted(a, env)
         == a.(uploadEnabled := false, capturing := false, dumpOpen := false, sessionId := [],
               clientStarted := env.spawned, running := env.spawned,
               trace := a.trace + (When(env.queued, [AbortQueued]) + When(a.running, [ClientStopped]) + [IdCleared]))
  {
    var t, said := a.trace, When(env.queued, [AbortQueued]);
    assert t + [] == t && (t + said) + [] == t + said;
    assert ((t + said) + [ClientStopped]) + [IdCleared] == t + (said + [ClientStopped] + [IdCleared]);
    assert (t + said) + [IdCleared] == t + (said + [] + [IdCleared]);
  }

  /** A start event during playback: the server is told to abort, and the client restarts. */
  lemma StartInterruptsPlayback(a: App, e: Event, env: Env)
    requires Inv(a) && a.session == PlayingTts && IsStart(e)
    ensures Handle(a, e, env)
         == a.(session := Connecting, uploadEnabled := false, capturing := false, dumpOpen := false, sessionId := [],
               clientStarted := env.spawned, running := env.spawned,
               trace := a.trace + (When(env.queued, [AbortQueued]) + When(a.running, [ClientStopped]) + [IdCleared]))
  {
    hide Listening, IdOf, Proper, Interrupted;
    InterruptRestarts(a.(session := Connecting), env);
  }

  /** An error in any state: everything is reset and the client restarts. */
  lemma ErrorReconnects(a: App, env: Env)
    requires Inv(a)
    ensures Handle(a, Error, env)
         == a.(session := Connecting, uploadEnabled := false, capturing := false, ttsDone := false, dumpOpen := false,
               sessionId := [], clientStarted := env.spawned, running := env.spawned,
               trace := a.trace + ([IdCleared] + When(a.running, [ClientStopped])))
  {
    hide Listening, IdOf, Proper;
  }

  /** A start event in Idle: the client connects. */
  lemma StartConnects(a: App, e: Event, env: Env)
    requires Inv(a) && a.session == Idle && IsStart(e)
    ensures var up := a.running || env.spawned;
      Handle(a, e, env)
      == a.(session := Connecting, ttsDone := false, sessionId := [], clientStarted := up, running := up,
            trace := a.trace + [IdCleared])
  {
    hide Listening, IdOf, Proper;
  }

  /** The connection is there: the client says hello. */
  lemma ConnectedGreets(a: App, env: Env)
    requires a.session == Connecting
    ensures Handle(a, WsConnected, env)
         == a.(session := Handshaking, trace := a.trace + When(env.queued, [HelloQueued]))
  {
  }

  /** The server's hello: its id is taken, if it has one, and a handshake is complete. */
  lemma HelloMakesReady(a: App, id: bytes, env: Env)
    requires Inv(a)
    ensures Handle(a, WsText(Hello(id)), env)
         == a.(session := if a.session == Handshaking then Ready else a.session,
               sessionId := if id != [] then id else a.sessionId,
               trace := a.trace + [HelloHandled(id)])
  {
    hide Listening, IdOf, Proper;
  }

  lemma TtsStartSilences(a: App, env: Env)
    ensures Handle(a, WsText(TtsStart), env)
         == a.(session := PlayingTts, uploadEnabled := false, capturing := false, ttsDone := false)
  {
  }

  /** The end of the answer waits for the playback queue to drain. */
  lemma TtsStopEnds(a: App, env: Env)
    ensures Handle(a, WsText(TtsStop), env)
         == if env.drained
            then a.(session := if a.clientStarted && env.linked then Ready else Idle,
                    uploadEnabled := false, capturing := false, ttsDone := false, dumpOpen := false)
            else a.(ttsDone := true)
  {
  }

  lemma PlaybackFinishedEnds(a: App, env: Env)
    ensures Handle(a, PlaybackFinished, env)
         == if a.ttsDone
            then a.(session := if a.clientStarted && env.linked then Ready else Idle,
                    uploadEnabled := false, capturing := false, ttsDone := false, dumpOpen := false)
            else a
  {
  }

  lemma ShutdownStops(a: App, env: Env)
    ensures Handle(a, Shutdown, env) == a.(stopRequested := true)
  {
  }

  /** On entry to the loop the client is connecting, if its thread starts, and the history
      begins. */
  lemma BootConnects(env: Env)
    ensures Boot(env) == App(Connecting, false, false, false, [], env.spawned, env.spawned, false, false, [IdCleared])
  {
    assert [] + [IdCleared] == [IdCleared];
  }

  /** Whether an event is without effect in a state. */
  predicate IsStale(s: SessionState, e: Event) {
    match e
    case ManualStart => s != Idle && s != Ready && s != PlayingTts
    case WakewordDetected => s != Idle && s != Ready && s != PlayingTts
    case ManualStop => s != UploadingAudio
    case WsConnected => s != Connecting
    case WsText(incoming) => incoming == InvalidJson || incoming == OtherIncoming
    case NoEvent => true
    case WsHello => true
    case WsBinary => true
    case CaptureSilenceTimeout => true
    case _ => false
  }

  /** All other events change nothing. */
  lemma StaleEventsChangeNothing(a: App, e: Event, env: Env)
    requires Inv(a) && IsStale(a.session, e)
    ensures Handle(a, e, env) == a
  {
    hide Listening, IdOf, Proper;
  }

  /** And a capture callback queues its frame exactly while upload is enabled. */
  lemma CallbackQueues(a: App, frame: bytes, queued: bool)
    ensures Captured(a, frame, queued)
         == a.(trace := a.trace + When(a.uploadEnabled && frame != [] && queued, [FrameQueued(frame)]))
  {
  }

  /** After SHUTDOWN no event has an effect; only capture callbacks may still queue frames, and
      they do so only if the upload was going on. */
  lemma {:induction false} AfterShutdownOnlyFrames(a: App, steps: seq<Step>)
    requires a.stopRequested
    ensures var b := Run(a, steps);
      && b == a.(trace := b.trace) && a.trace <= b.trace
      && (forall i :: |a.trace| <= i < |b.trace| ==> b.trace[i].FrameQueued?)
      && (!a.uploadEnabled ==> b == a)
    decreases |steps|
  {
    if steps != [] {
      AfterShutdownOnlyFrames(Next(a, steps[0]), steps[1..]);
    }
  }

  // ---- a whole conversation ------------------------------------------------------------------------

  /** Every call succeeds. */
  const WELL: Env := Env(true, true, true, true, true)

  function Captures(frames: seq<bytes>): seq<Step> {
    if frames == [] then [] else [CaptureStep(frames[0], true)] + Captures(frames[1..])
  }

  function Frames(frames: seq<bytes>): seq<Happening> {
    if frames == [] then [] else [FrameQueued(frames[0])] + Frames(frames[1..])
  }

  /** The user presses start, speaks, and presses stop. */
  function Speak(frames: seq<bytes>): seq<Step> {
    [HandleStep(ManualStart, WELL)] + Captures(frames) + [HandleStep(ManualStop, WELL)]
  }

  /** What the server is to get of that. */
  function Spoken(id: bytes, frames: seq<bytes>): seq<Happening> {
    [StartQueued(id)] + Frames(frames) + [StopQueued(id)]
  }

  /** The server answers. */
  function Answer(): seq<Step> {
    [HandleStep(WsText(TtsStart), WELL), HandleStep(WsText(TtsStop), WELL)]
  }

  function Turns(utterances: seq<seq<bytes>>): seq<Step> {
    if utterances == [] then [] else Speak(utterances[0]) + Answer() + Turns(utterances[1..])
  }

  function AllSpoken(id: bytes, utterances: seq<seq<bytes>>): seq<Happening> {
    if utterances == [] then [] else Spoken(id, utterances[0]) + AllSpoken(id, utterances[1..])
  }

  /** The connection is made and the server says hello. */
  function Handshake(id: bytes): seq<Step> {
    [HandleStep(WsConnected, WELL), HandleStep(WsText(Hello(id)), WELL)]
  }

  predicate Audible(frames: seq<bytes>) {
    forall i :: 0 <= i < |frames| ==> frames[i] != []
  }

  lemma {:induction false} RunBoth(a: App, p: seq<Step>, q: seq<Step>)
    ensures Run(a, p + q) == Run(Run(a, p), q)
    decreases |p|
  {
    hide Next;
    if p == [] {
      assert p + q == q;
    } else {
      assert (p + q)[1..] == p[1..] + q;
      RunBoth(Next(a, p[0]), p[1..], q);
    }
  }

  lemma RunOne(a: App, s: Step)
    ensures Run(a, [s]) == Next(a, s)
  {
    hide Next;
    assert [s][1..] == [];
  }

  lemma RunTwo(a: App, s: Step, t: Step)
    ensures Run(a, [s, t]) == Next(Next(a, s), t)
  {
    hide Next, Run;
    RunBoth(a, [s], [t]);
    assert [s] + [t] == [s, t];
    RunOne(a, s);
    RunOne(Next(a, s), t);
  }

  lemma {:induction false} CapturesAreQueued(a: App, frames: seq<bytes>)
    requires a.uploadEnabled && Audible(frames)
    ensures Run(a, Captures(frames)) == a.(trace := a.trace + Frames(frames))
    decreases |frames|
  {
    if frames == [] {
      assert a.trace + [] == a.trace;
    } else {
      var b := a.(trace := a.trace + [FrameQueued(frames[0])]);
      RunBoth(a, [CaptureStep(frames[0], true)], Captures(frames[1..]));
      RunOne(a, CaptureStep(frames[0], true));
      CapturesAreQueued(b, frames[1..]);
      assert a.trace + ([FrameQueued(frames[0])] + Frames(frames[1..])) == b.trace + Frames(frames[1..]);
    }
  }

  /** A state in which the user may speak. */
  predicate Listens(a: App, id: bytes) {
    && a.session == Ready && a.sessionId == id != [] && a.clientStarted && a.running
    && !a.uploadEnabled && !a.capturing && !a.dumpOpen && !a.ttsDone && !a.stopRequested
  }

  /** What the user says is queued between a listen start and a listen stop. */
  lemma SpeechIsQueued(a: App, id: bytes, frames: seq<bytes>)
    requires Listens(a, id) && Audible(frames)
    ensures Run(a, Speak(frames)) == a.(session := WaitingTts, trace := a.trace + Spoken(id, frames))
  {
    hide Handle, Run, Captures, Frames, Audible;
    var up := a.(session := UploadingAudio, uploadEnabled := true, capturing := true, dumpOpen := true,
                 trace := a.trace + [StartQueued(id)]);
    var over := up.(trace := up.trace + Frames(frames));
    RunBoth(a, [HandleStep(ManualStart, WELL)] + Captures(frames), [HandleStep(ManualStop, WELL)]);
    RunBoth(a, [HandleStep(ManualStart, WELL)], Captures(frames));
    RunOne(a, HandleStep(ManualStart, WELL));
    StartOpensUpload(a, ManualStart, WELL);
    CapturesAreQueued(up, frames);
    RunOne(over, HandleStep(ManualStop, WELL));
    StopEndsUpload(over, WELL);
    assert a.trace + [StartQueued(id)] + Frames(frames) + [StopQueued(id)] == a.trace + Spoken(id, frames);
  }

  lemma AnswerMakesReady(a: App)
    requires a.clientStarted && !a.stopRequested
    ensures Run(a, Answer())
         == a.(session := Ready, uploadEnabled := false, capturing := false, ttsDone := false, dumpOpen := false)
  {
    hide Handle;
    RunTwo(a, Answer()[0], Answer()[1]);
    TtsStartSilences(a, WELL);
    TtsStopEnds(a.(session := PlayingTts, uploadEnabled := false, capturing := false, ttsDone := false), WELL);
  }

  lemma {:induction false} TurnsAreQueued(a: App, id: bytes, utterances: seq<seq<bytes>>)
    requires Listens(a, id) && forall i :: 0 <= i < |utterances| ==> Audible(utterances[i])
    ensures Run(a, Turns(utterances)) == a.(trace := a.trace + AllSpoken(id, utterances))
    decreases |utterances|
  {
    hide Speak, Answer, Spoken, Audible;
    if utterances == [] {
      assert a.trace + [] == a.trace;
    } else {
      var u, rest := utterances[0], utterances[1..];
      var b := a.(trace := a.trace + Spoken(id, u));
      RunBoth(a, Speak(u) + Answer(), Turns(rest));
      RunBoth(a, Speak(u), Answer());
      SpeechIsQueued(a, id, u);
      AnswerMakesReady(b.(session := WaitingTts));
      TurnsAreQueued(b, id, rest);
      assert b.trace + AllSpoken(id, rest) == a.trace + AllSpoken(id, utterances);
    }
  }

  lemma HandshakeMakesReady(id: bytes)
    requires id != []
    ensures var a := Run(Boot(WELL), Handshake(id));
      Listens(a, id) && a.trace == [IdCleared, HelloQueued, HelloHandled(id)]
  {
    hide Handle;
    BootIsSafe(WELL);
    BootConnects(WELL);
    var a := Boot(WELL);
    RunTwo(a, Handshake(id)[0], Handshake(id)[1]);
    ConnectedGreets(a, WELL);
    HandleKeeps(a, WsConnected, WELL);
    HelloMakesReady(Handle(a, WsConnected, WELL), id, WELL);
  }

  /** What a run achieves when every call succeeds: each utterance of any number of them goes
      to the queues, whole and in order, between its own listen start and listen stop, with
      the id of the server's hello; and after each answer the user may speak again. */
  lemma ConversationIsQueued(id: bytes, utterances: seq<seq<bytes>>)
    requires id != [] && forall i :: 0 <= i < |utterances| ==> Audible(utterances[i])
    ensures var a := Run(Boot(WELL), Handshake(id) + Turns(utterances));
      && Listens(a, id)
      && a.trace == [IdCleared, HelloQueued, HelloHandled(id)] + AllSpoken(id, utterances)
  {
    hide Run, Boot, Audible, Handshake, Turns;
    HandshakeMakesReady(id);
    RunBoth(Boot(WELL), Handshake(id), Turns(utterances));
    TurnsAreQueued(Run(Boot(WELL), Handshake(id)), id, utterances);
  }

  /** The first utterance, up to the moment at which the server's answer is awaited. */
  lemma UtteranceIsQueued(id: bytes, frames: seq<bytes>)
    requires id != [] && Audible(frames)
    ensures var a := Run(Boot(WELL), Handshake(id) + Speak(frames));
      && a.session == WaitingTts && !a.uploadEnabled && !a.capturing && !a.dumpOpen
      && a.trace == [IdCleared, HelloQueued, HelloHandled(id), StartQueued(id)] + Frames(frames) + [StopQueued(id)]
  {
    hide Run, Boot, Audible, Handshake, Speak, Frames;
    HandshakeMakesReady(id);
    RunBoth(Boot(WELL), Handshake(id), Speak(frames));
    SpeechIsQueued(Run(Boot(WELL), Handshake(id)), id, frames);
    assert [IdCleared, HelloQueued, HelloHandled(id)] + Spoken(id, frames)
        == [IdCleared, HelloQueued, HelloHandled(id), StartQueued(id)] + Frames(frames) + [StopQueued(id)];
  }
}
