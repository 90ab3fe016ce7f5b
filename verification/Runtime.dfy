/** The client runtime: the session automaton of session.c, the event loop of app.c that
    composes with it and overrides it, and the capture thread. */
module Runtime {
  import opened Bytes

  datatype SessionState =
    | Idle | WakeDetecting | Connecting | Handshaking | Ready | UploadingAudio | WaitingTts | PlayingTts | ErrorBackoff

  /** An event of the queue. Text events carry what the protocol parser made of them. */
  datatype Event =
    | NoEvent | ManualStart | ManualStop | WakewordDetected | WsConnected | WsHello | WsText(incoming: Incoming)
    | WsBinary | CaptureSilenceTimeout | PlaybackFinished | Error | Shutdown

  datatype Incoming = InvalidJson | Hello(id: bytes) | TtsStart | TtsStop | OtherIncoming

  datatype Action =
    | NoAction | Connect | SendHello | StartListen | StopListen | Abort | StartPlayback | ReturnToWake

  // ---- session.c -------------------------------------------------------------------------------

  function SessionStep(s: SessionState, e: Event): (SessionState, Action) {
    if e == Error then (ErrorBackoff, ReturnToWake)
    else
      var go := e == ManualStart || e == WakewordDetected;
      match s
      case Idle => if go then (Connecting, Connect) else (s, NoAction)
      case WakeDetecting => if go then (Connecting, Connect) else (s, NoAction)
      case Connecting => if e == WsConnected then (Handshaking, SendHello) else (s, NoAction)
      case Handshaking => if e == WsHello then (Ready, NoAction) else (s, NoAction)
      case Ready => if go then (UploadingAudio, StartListen) else (s, NoAction)
      case UploadingAudio => if e == ManualStop then (WaitingTts, StopListen) else (s, NoAction)
      case PlayingTts => if go then (Connecting, Abort) else (s, NoAction)
      case _ => (s, NoAction)
  }

  /** What the automaton asks for over a run of events. */
  function Asked(s: SessionState, events: seq<Event>): seq<Action>
    decreases |events|
  {
    if events == [] then []
    else
      var (next, action) := SessionStep(s, events[0]);
      When(action != NoAction, action) + Asked(next, events[1..])
  }

  function When(b: bool, action: Action): seq<Action> {
    if b then [action] else []
  }

  // The script of one turn: five cues, and the action that each one calls for.

  predicate IsCue(n: nat, e: Event) {
    match n
    case 0 => e == ManualStart || e == WakewordDetected
    case 1 => e == WsConnected
    case 2 => e == WsHello
    case 3 => e == ManualStart || e == WakewordDetected
    case 4 => e == ManualStop
    case _ => false
  }

  function Reply(n: nat): seq<Action> {
    match n
    case 0 => [Connect]
    case 1 => [SendHello]
    case 3 => [StartListen]
    case 4 => [StopListen]
    case _ => []
  }

  /** The replies to the cues from number n on, in order; what is no cue is ignored, and
      an error ends the script. */
  function Scripted(events: seq<Event>, n: nat): seq<Action>
    decreases |events|
  {
    if events == [] then []
    else if events[0] == Error then Returns(events)
    else if IsCue(n, events[0]) then Reply(n) + Scripted(events[1..], n + 1)
    else Scripted(events[1..], n)
  }

  /** After an error, a call to return for each error. */
  function Returns(events: seq<Event>): seq<Action>
    decreases |events|
  {
    if events == [] then []
    else if events[0] == Error then [ReturnToWake] + Returns(events[1..])
    else Returns(events[1..])
  }

  /** The cue that a state waits for. */
  function Cue(s: SessionState): nat {
    match s
    case Idle => 0
    case WakeDetecting => 0
    case Connecting => 1
    case Handshaking => 2
    case Ready => 3
    case UploadingAudio => 4
    case _ => 5
  }

  lemma {:induction false} AskedIsScripted(s: SessionState, events: seq<Event>)
    requires s != PlayingTts
    ensures Asked(s, events) == if s == ErrorBackoff then Returns(events) else Scripted(events, Cue(s))
    decreases |events|
  {
    if events != [] {
      var (next, action) := SessionStep(s, events[0]);
      AskedIsScripted(next, events[1..]);
      assert [] + Asked(next, events[1..]) == Asked(next, events[1..]);
    }
  }

  /** session.c by itself is one-shot: over any run of events it answers exactly the cues
      of one turn, in order and once each, and after an error only asks to return. Further
      turns come from the states that app.c overrides. */
  lemma SessionAloneIsOneShot(events: seq<Event>)
    ensures Asked(Idle, events) == Scripted(events, 0)
  {
    AskedIsScripted(Idle, events);
  }

  class Session {
    var state: SessionState

    constructor ()
      ensures state == Idle
    {
      state := Idle;
    }

    method HandleEvent(event: Event) returns (action: Action)
      modifies this
      ensures (state, action) == SessionStep(old(state), event)
    {
      if event == Error {
        state := ErrorBackoff;
        return ReturnToWake;
      }
      match state {
        case Idle | WakeDetecting =>
          if event == ManualStart || event == WakewordDetected {
            state := Connecting;
            return Connect;
          }
        case Connecting =>
          if event == WsConnected {
            state := Handshaking;
            return SendHello;
          }
        case Handshaking =>
          if event == WsHello {
            state := Ready;
            return NoAction;
          }
        case Ready =>
          if event == ManualStart || event == WakewordDetected {
            state := UploadingAudio;
            return StartListen;
          }
        case UploadingAudio =>
          if event == WsBinary {
            return NoAction;
          }
          if event == ManualStop {
            state := WaitingTts;
            return StopListen;
          }
        case PlayingTts =>
          if event == ManualStart || event == WakewordDetected {
            state := Connecting;
            return Abort;
          }
        case _ =>
      }
      action := NoAction;
    }
  }

  // ---- the composed machine as a value --------------------------------------------------------

  /** What a run leaves behind: messages accepted by the outgoing queues, and the moments
      that matter to them. */
  datatype Happening =
    | HelloQueued
    | StartQueued(id: bytes)
    | StopQueued(id: bytes)
    | AbortQueued
    | FrameQueued(frame: bytes)
    | ClientStopped
    | IdCleared
    | HelloHandled(id: bytes)

  datatype App = App(
    session: SessionState, uploadEnabled: bool, capturing: bool, ttsDone: bool, sessionId: bytes,
    clientStarted: bool, running: bool, dumpOpen: bool, stopRequested: bool, trace: seq<Happening>)

  /** How calls out of the runtime turn out: whether a text is queued, a dump file opens, a
      network thread starts, the playback queue is empty, and the client is connected. */
  datatype Env = Env(queued: bool, creatable: bool, spawned: bool, drained: bool, linked: bool)

  function Log(a: App, h: Happening): App {
    a.(trace := a.trace + [h])
  }

  /** xiaozhi_client_start; the app notes success. */
  function Started(a: App, env: Env): App {
    if a.running || env.spawned then a.(running := true, clientStarted := true) else a
  }

  /** xiaozhi_client_stop, when the app believes the client started. */
  function Stopped(a: App): App {
    if a.clientStarted then Log(a.(running := false, clientStarted := false), ClientStopped) else a
  }

  function Quiet(a: App): App {
    a.(uploadEnabled := false, capturing := false)
  }

  function ClearId(a: App): App {
    Log(a.(sessionId := []), IdCleared)
  }

  function Listen(a: App, env: Env): App {
    if a.sessionId == [] || !env.queued then a
    else
      var b := Log(a, StartQueued(a.sessionId));
      if !env.creatable then b.(dumpOpen := false)
      else b.(dumpOpen := true, uploadEnabled := true, session := UploadingAudio, capturing := true)
  }

  function StopListening(a: App, env: Env): App {
    var b := Quiet(a).(dumpOpen := false);
    if a.sessionId != [] && env.queued then Log(b, StopQueued(a.sessionId)) else b
  }

  function Interrupted(a: App, env: Env): App {
    var b := Quiet(a).(dumpOpen := false);
    var c := if env.queued then Log(b, AbortQueued) else b;
    Started(ClearId(Stopped(c)), env)
  }

  function Reconnected(a: App, env: Env): App {
    Started(Stopped(ClearId(Quiet(a).(ttsDone := false, dumpOpen := false))).(session := Connecting), env)
  }

  /** app_handle_action. */
  function Act(a: App, action: Action, env: Env): App {
    match action
    case Connect => Started(ClearId(a).(ttsDone := false), env)
    case SendHello => if env.queued then Log(a, HelloQueued) else a
    case StartListen => Listen(a, env)
    case StopListen => StopListening(a, env)
    case Abort => Interrupted(a, env)
    case ReturnToWake => Reconnected(a, env)
    case _ => a
  }

  function ResetToIdle(a: App, env: Env): App {
    Quiet(a).(ttsDone := false, dumpOpen := false, session := if a.clientStarted && env.linked then Ready else Idle)
  }

  function Dispatch(a: App, e: Event, env: Env): App {
    var (s, action) := SessionStep(a.session, e);
    Act(a.(session := s), action, env)
  }

  /** A hello replaces the id, unless it has none. */
  function Greeted(a: App, id: bytes): App {
    var b := Log(a, HelloHandled(id));
    if id != [] then b.(sessionId := id) else b
  }

  function Receive(a: App, incoming: Incoming, env: Env): App {
    match incoming
    case Hello(id) => Dispatch(Greeted(a, id), WsHello, env)
    case TtsStart => Quiet(a).(session := PlayingTts, ttsDone := false)
    case TtsStop =>
      var b := a.(ttsDone := true);
      if env.drained then ResetToIdle(b, env) else b
    case _ => a
  }

  function Handle(a: App, e: Event, env: Env): App {
    match e
    case ManualStart => Dispatch(a, e, env)
    case WakewordDetected => Dispatch(a, e, env)
    case ManualStop => Dispatch(a, e, env)
    case WsConnected => Dispatch(a, e, env)
    case WsText(incoming) => Receive(a, incoming, env)
    case CaptureSilenceTimeout => Dispatch(a, e, env)
    case PlaybackFinished => if a.ttsDone then ResetToIdle(a, env) else a
    case Error => Dispatch(a, e, env)
    case Shutdown => a.(stopRequested := true)
    case _ => a
  }

  /** app_capture_on_pcm: frame is what the encoder returned, empty for nothing. */
  function Captured(a: App, frame: bytes, queued: bool): App {
    if a.uploadEnabled && frame != [] && queued then Log(a, FrameQueued(frame)) else a
  }

  /** What app_init leaves. */
  function Initial(): App {
    App(Idle, false, false, false, [], false, false, false, false, [])
  }

  /** The state on entry to app_run's loop. */
  function Boot(env: Env): App {
    Act(ResetToIdle(Initial(), env).(session := Connecting), Connect, env)
  }

  // ---- what a history promises -----------------------------------------------------------------

  predicate EndsListening(h: Happening) {
    h.StopQueued? || h.AbortQueued? || h.ClientStopped? || h.IdCleared?
  }

  /** A listen start has been queued, and nothing since has ended it. */
  predicate Listening(t: seq<Happening>)
    decreases |t|
  {
    t != [] &&
    var last := t[|t| - 1];
    last.StartQueued? || (!EndsListening(last) && Listening(t[..|t| - 1]))
  }

  /** The id of the last id-bearing hello since ids were last cleared. */
  function IdOf(t: seq<Happening>): bytes
    decreases |t|
  {
    if t == [] then []
    else
      var last := t[|t| - 1];
      if last.IdCleared? then []
      else if last.HelloHandled? && last.id != [] then last.id
      else IdOf(t[..|t| - 1])
  }

  /** Frames only while listening, and listen messages only with the current id. */
  predicate Allowed(t: seq<Happening>, h: Happening) {
    && (h.FrameQueued? ==> Listening(t))
    && (h.StartQueued? ==> h.id == IdOf(t) != [])
    && (h.StopQueued? ==> h.id == IdOf(t) != [])
  }

  predicate Proper(t: seq<Happening>)
    decreases |t|
  {
    t == [] || (Proper(t[..|t| - 1]) && Allowed(t[..|t| - 1], t[|t| - 1]))
  }

  predicate Inv(a: App) {
    && a.uploadEnabled == a.capturing
    && (a.uploadEnabled ==> a.session == UploadingAudio && a.dumpOpen && a.sessionId != [] && Listening(a.trace))
    && a.clientStarted == a.running
    && a.session != ErrorBackoff && a.session != WakeDetecting
    && a.sessionId == IdOf(a.trace) && Proper(a.trace)
  }

  lemma LogIsSeen(t: seq<Happening>, h: Happening)
    ensures var u := t + [h];
      && Listening(u) == (h.StartQueued? || (!EndsListening(h) && Listening(t)))
      && IdOf(u) == (if h.IdCleared? then [] else if h.HelloHandled? && h.id != [] then h.id else IdOf(t))
      && Proper(u) == (Proper(t) && Allowed(t, h))
  {
    assert (t + [h])[..|t|] == t;
  }

  /** Inv without the session state, which the automaton leaves in between. */
  predicate Between(a: App) {
    && a.uploadEnabled == a.capturing
    && (a.uploadEnabled ==> a.dumpOpen && a.sessionId != [] && Listening(a.trace))
    && a.clientStarted == a.running
    && a.sessionId == IdOf(a.trace) && Proper(a.trace)
  }

  lemma LogKeeps(a: App, h: Happening)
    requires Between(a) && Allowed(a.trace, h)
    requires !h.IdCleared? && !(h.HelloHandled? && h.id != []) && (EndsListening(h) ==> !a.uploadEnabled)
    ensures Between(Log(a, h))
  {
    LogIsSeen(a.trace, h);
  }

  lemma ClearKeeps(a: App)
    requires Between(a) && !a.uploadEnabled
    ensures Between(ClearId(a))
  {
    LogIsSeen(a.trace, IdCleared);
  }

  lemma StopKeeps(a: App)
    requires Between(a) && !a.uploadEnabled
    ensures Between(Stopped(a)) && !Stopped(a).uploadEnabled
  {
    if a.clientStarted {
      LogIsSeen(a.trace, ClientStopped);
    }
  }

  /** The automaton has moved on, and the action that it returned is still to be done. */
  predicate Awaits(a: App, action: Action) {
    && Between(a) && a.session != WakeDetecting
    && (a.session == ErrorBackoff ==> action == ReturnToWake)
    && (action == Connect || action == StartListen ==> !a.uploadEnabled)
    && (action == StopListen || action == Abort || action == ReturnToWake || a.session == UploadingAudio
        || !a.uploadEnabled)
  }

  /** The action that the automaton returned repairs the state it went to. */
  lemma ActKeeps(a: App, action: Action, env: Env)
    requires Awaits(a, action)
    ensures Inv(Act(a, action, env))
  {
    hide Listening, IdOf, Proper;
    match action {
      case Connect =>
        ClearKeeps(a);
      case SendHello =>
        LogKeeps(a, HelloQueued);
      case StartListen =>
        LogIsSeen(a.trace, StartQueued(a.sessionId));
      case StopListen =>
        LogIsSeen(a.trace, StopQueued(a.sessionId));
      case Abort =>
        var b := Quiet(a).(dumpOpen := false);
        LogKeeps(b, AbortQueued);
        var c := if env.queued then Log(b, AbortQueued) else b;
        StopKeeps(c);
        ClearKeeps(Stopped(c));
      case ReturnToWake =>
        var b := Quiet(a).(ttsDone := false, dumpOpen := false);
        ClearKeeps(b);
        StopKeeps(ClearId(b));
      case _ =>
    }
  }

  lemma DispatchKeeps(a: App, e: Event, env: Env)
    requires Inv(a)
    ensures var (s, action) := SessionStep(a.session, e); Awaits(a.(session := s), action)
    ensures Inv(Dispatch(a, e, env))
  {
    hide Listening, IdOf, Proper;
    var (s, action) := SessionStep(a.session, e);
    ActKeeps(a.(session := s), action, env);
  }

  lemma ResetKeeps(a: App, env: Env)
    requires Inv(a)
    ensures Inv(ResetToIdle(a, env))
  {
    hide Listening, IdOf, Proper;
  }

  lemma HelloKeeps(a: App, id: bytes)
    requires Inv(a)
    ensures Inv(Greeted(a, id))
  {
    LogIsSeen(a.trace, HelloHandled(id));
  }

  lemma TtsDoneKeeps(a: App)
    requires Inv(a)
    ensures Inv(a.(ttsDone := true))
  {
  }

  lemma ReceiveKeeps(a: App, incoming: Incoming, env: Env)
    requires Inv(a)
    ensures Inv(Receive(a, incoming, env))
  {
    hide Listening, IdOf, Proper, Dispatch, ResetToIdle;
    match incoming {
      case Hello(id) =>
        HelloKeeps(a, id);
        DispatchKeeps(Greeted(a, id), WsHello, env);
      case TtsStop =>
        ResetKeeps(a.(ttsDone := true), env);
      case _ =>
    }
  }

  lemma HandleKeeps(a: App, e: Event, env: Env)
    requires Inv(a)
    ensures Inv(Handle(a, e, env))
  {
    hide Listening, IdOf, Proper, Dispatch, Receive, ResetToIdle;
    match e {
      case WsText(incoming) => ReceiveKeeps(a, incoming, env);
      case PlaybackFinished => ResetKeeps(a, env);
      case _ => DispatchKeeps(a, e, env);
    }
  }

  lemma CaptureKeeps(a: App, frame: bytes, queued: bool)
    requires Inv(a)
    ensures Inv(Captured(a, frame, queued))
  {
    LogIsSeen(a.trace, FrameQueued(frame));
  }

  // ---- runs ------------------------------------------------------------------------------------

  /** Any event at all may be in the queue next: stale ones, reordered ones, and never the
      ones that were dropped when it was full. Capture callbacks come at any time. */
  datatype Step = HandleStep(event: Event, env: Env) | CaptureStep(frame: bytes, queued: bool)

  function Next(a: App, step: Step): App {
    match step
    case HandleStep(e, env) => if a.stopRequested then a else Handle(a, e, env)
    case CaptureStep(frame, queued) => Captured(a, frame, queued)
  }

  function Run(a: App, steps: seq<Step>): App
    decreases |steps|
  {
    if steps == [] then a else Run(Next(a, steps[0]), steps[1..])
  }

  lemma InitialIsSafe()
    ensures Inv(Initial())
  {
  }

  lemma ConnectKeeps(a: App, env: Env)
    requires Inv(a)
    ensures var b := ResetToIdle(a, env).(session := Connecting); Awaits(b, Connect) && Inv(Act(b, Connect, env))
  {
    hide Listening, IdOf, Proper, Act;
    ActKeeps(ResetToIdle(a, env).(session := Connecting), Connect, env);
  }

  lemma BootIsSafe(env: Env)
    ensures Inv(Boot(env))
  {
    ConnectKeeps(Initial(), env);
  }

  lemma RunStep(a: App, steps: seq<Step>)
    requires steps != []
    ensures Run(a, steps) == Run(Next(a, steps[0]), steps[1..])
  {
  }

  lemma RunEnds(a: App)
    ensures Run(a, []) == a
  {
  }

  lemma {:induction false} EveryRunKeeps(a: App, steps: seq<Step>)
    requires Inv(a)
    ensures Inv(Run(a, steps))
    decreases |steps|
  {
    if steps != [] {
      match steps[0] {
        case HandleStep(e, env) => HandleKeeps(a, e, env);
        case CaptureStep(frame, queued) => CaptureKeeps(a, frame, queued);
      }
      EveryRunKeeps(Next(a, steps[0]), steps[1..]);
    }
  }

  /** The composed runtime, after any run. */
  lemma RuntimeIsSafe(env: Env, steps: seq<Step>)
    ensures var a := Run(Boot(env), steps);
      && a.uploadEnabled == a.capturing
      && (a.uploadEnabled ==> a.session == UploadingAudio && a.dumpOpen && a.sessionId != [])
      && a.clientStarted == a.running
      && a.session != ErrorBackoff && a.session != WakeDetecting
  {
    BootIsSafe(env);
    EveryRunKeeps(Boot(env), steps);
  }

  lemma {:induction false} ProperPrefix(t: seq<Happening>, i: nat)
    requires Proper(t) && i < |t|
    ensures Allowed(t[..i], t[i])
    decreases |t|
  {
    if i < |t| - 1 {
      ProperPrefix(t[..|t| - 1], i);
      assert t[..|t| - 1][..i] == t[..i];
    }
  }

  /** Where the listen start is. */
  lemma {:induction false} ListeningSince(t: seq<Happening>) returns (j: nat)
    requires Listening(t)
    ensures j < |t| && t[j].StartQueued?
    ensures forall k :: j < k < |t| ==> !EndsListening(t[k])
    decreases |t|
  {
    if t[|t| - 1].StartQueued? {
      j := |t| - 1;
    } else {
      j := ListeningSince(t[..|t| - 1]);
    }
  }

  /** Where the hello is. */
  lemma {:induction false} IdSince(t: seq<Happening>) returns (j: nat)
    requires IdOf(t) != []
    ensures j < |t| && t[j] == HelloHandled(IdOf(t))
    ensures forall k :: j < k < |t| ==> !t[k].IdCleared? && !(t[k].HelloHandled? && t[k].id != [])
    decreases |t|
  {
    var last := t[|t| - 1];
    if last.HelloHandled? && last.id != [] {
      j := |t| - 1;
    } else {
      j := IdSince(t[..|t| - 1]);
    }
  }

  /** A listen start is queued before position i, and nothing in between ends it. */
  ghost predicate Covered(t: seq<Happening>, i: nat)
    requires i < |t|
  {
    exists j :: 0 <= j < i && t[j].StartQueued? && forall k :: j < k < i ==> !EndsListening(t[k])
  }

  /** The hello with the id of message i has been handled before it, and in between no id is
      cleared or replaced. */
  ghost predicate Current(t: seq<Happening>, i: nat)
    requires i < |t| && (t[i].StartQueued? || t[i].StopQueued?)
  {
    && t[i].id != []
    && exists j :: 0 <= j < i && t[j] == HelloHandled(t[i].id)
                   && forall k :: j < k < i ==> !t[k].IdCleared? && !(t[k].HelloHandled? && t[k].id != [])
  }

  /** Every queued audio frame follows a queued listen start, with no listen stop, abort,
      stop of the client or clearing of the id in between. */
  ghost predicate FramesAreCovered(t: seq<Happening>) {
    forall i :: 0 <= i < |t| && t[i].FrameQueued? ==> Covered(t, i)
  }

  /** Every listen message carries the id of the last id-bearing hello handled since the
      last CONNECT, ABORT or RETURN_TO_WAKE. */
  ghost predicate ListensAreCurrent(t: seq<Happening>) {
    forall i :: 0 <= i < |t| && (t[i].StartQueued? || t[i].StopQueued?) ==> Current(t, i)
  }

  lemma ProperIsCovered(t: seq<Happening>)
    requires Proper(t)
    ensures FramesAreCovered(t)
  {
    hide Proper, Listening, IdOf;
    forall i | 0 <= i < |t| && t[i].FrameQueued?
      ensures Covered(t, i)
    {
      ProperPrefix(t, i);
      var j := ListeningSince(t[..i]);
      assert t[j] == t[..i][j];
      assert forall k :: j < k < i ==> t[k] == t[..i][k];
    }
  }

  lemma ProperIsCurrent(t: seq<Happening>)
    requires Proper(t)
    ensures ListensAreCurrent(t)
  {
    hide Proper, Listening, IdOf;
    forall i | 0 <= i < |t| && (t[i].StartQueued? || t[i].StopQueued?)
      ensures Current(t, i)
    {
      ProperPrefix(t, i);
      var j := IdSince(t[..i]);
      assert t[j] == t[..i][j];
      assert forall k :: j < k < i ==> t[k] == t[..i][k];
    }
  }

  /** What the invariant says of the present, and of the history. */
  lemma InvIsSafe(a: App)
    requires Inv(a)
    ensures a.uploadEnabled == a.capturing && a.clientStarted == a.running
    ensures a.uploadEnabled ==> a.session == UploadingAudio && a.dumpOpen && a.sessionId != []
    ensures a.session != ErrorBackoff && a.session != WakeDetecting
    ensures FramesAreCovered(a.trace) && ListensAreCurrent(a.trace)
  {
    ProperIsCovered(a.trace);
    ProperIsCurrent(a.trace);
  }

  /** Over every run, no audio frame is queued but while the server listens. */
  lemma FramesFollowListenStart(env: Env, steps: seq<Step>)
    ensures FramesAreCovered(Run(Boot(env), steps).trace)
  {
    BootIsSafe(env);
    EveryRunKeeps(Boot(env), steps);
    ProperIsCovered(Run(Boot(env), steps).trace);
  }

  /** Over every run, no listen message is queued but for the current session. */
  lemma ListenCarriesTheCurrentId(env: Env, steps: seq<Step>)
    ensures ListensAreCurrent(Run(Boot(env), steps).trace)
  {
    BootIsSafe(env);
    EveryRunKeeps(Boot(env), steps);
    ProperIsCurrent(Run(Boot(env), steps).trace);
  }

  // ---- app.c -----------------------------------------------------------------------------------

  class Application {
    const session: Session
    var uploadEnabled: bool
    var capturing: bool
    var ttsDone: bool
    var sessionId: bytes
    var clientStarted: bool
    var running: bool
    var dumpOpen: bool
    var stopRequested: bool
    ghost var trace: seq<Happening>

    ghost function Snapshot(): App
      reads this, session
    {
      App(session.state, uploadEnabled, capturing, ttsDone, sessionId, clientStarted, running, dumpOpen, stopRequested,
          trace)
    }

    /** The composed invariant. */
    ghost predicate Valid()
      reads this, session
    {
      Inv(Snapshot())
    }

    /** app_init. */
    constructor ()
      ensures Valid() && fresh(session)
      ensures Snapshot() == Initial()
    {
      session := new Session();
      uploadEnabled, capturing, ttsDone, sessionId := false, false, false, [];
      clientStarted, running, dumpOpen, stopRequested, trace := false, false, false, false, [];
    }

    method ClientStart(spawned: bool) returns (rc: int)
      modifies this`running
      ensures running == (old(running) || spawned) && (rc == 0 <==> running)
    {
      if running {
        return 0;
      }
      running := true;
      if !spawned {
        running := false;
        return -1;
      }
      rc := 0;
    }

    method ClientStop()
      modifies this`running, this`trace
      ensures !running && trace == old(trace) + [ClientStopped]
    {
      running := false;
      trace := trace + [ClientStopped];
    }

    method SetUploading(enabled: bool)
      modifies this`capturing
      ensures capturing == enabled
    {
      capturing := enabled;
    }

    method ClearSessionId()
      modifies this`sessionId, this`trace
      ensures sessionId == [] && trace == old(trace) + [IdCleared]
    {
      sessionId := [];
      trace := trace + [IdCleared];
    }

    /** xiaozhi_client_queue_text; what is queued goes into the history. */
    method QueueText(ghost h: Happening, queued: bool) returns (rc: int)
      modifies this`trace
      ensures rc == (if queued then 0 else -1) && trace == if queued then old(trace) + [h] else old(trace)
    {
      if queued {
        trace := trace + [h];
        return 0;
      }
      rc := -1;
    }

    method StartAndNote(env: Env)
      modifies this`running, this`clientStarted
      ensures Snapshot() == Started(old(Snapshot()), env)
    {
      var rc := ClientStart(env.spawned);
      if rc == 0 {
        clientStarted := true;
      }
    }

    method StopIfStarted()
      modifies this`running, this`clientStarted, this`trace
      ensures Snapshot() == Stopped(old(Snapshot()))
    {
      if clientStarted {
        ClientStop();
        clientStarted := false;
      }
    }

    method StartUpload(env: Env)
      modifies this, session
      ensures Snapshot() == Listen(old(Snapshot()), env)
    {
      if |sessionId| == 0 {
        return;
      }
      var rc := QueueText(StartQueued(sessionId), env.queued);
      if rc != 0 {
        return;
      }
      dumpOpen := env.creatable;
      if !dumpOpen {
        return;
      }
      uploadEnabled := true;
      session.state := UploadingAudio;
      SetUploading(true);
    }

    method StopUpload(env: Env)
      modifies this
      ensures Snapshot() == StopListening(old(Snapshot()), env)
    {
      uploadEnabled := false;
      SetUploading(false);
      dumpOpen := false;
      if |sessionId| != 0 {
        var _ := QueueText(StopQueued(sessionId), env.queued);
      }
    }

    method Interrupt(env: Env)
      modifies this
      ensures Snapshot() == Interrupted(old(Snapshot()), env)
    {
      uploadEnabled := false;
      SetUploading(false);
      dumpOpen := false;
      var _ := QueueText(AbortQueued, env.queued);
      StopIfStarted();
      ClearSessionId();
      StartAndNote(env);
    }

    method Reconnect(env: Env)
      modifies this, session
      ensures Snapshot() == Reconnected(old(Snapshot()), env)
    {
      uploadEnabled := false;
      ttsDone := false;
      SetUploading(false);
      dumpOpen := false;
      ClearSessionId();
      StopIfStarted();
      session.state := Connecting;
      StartAndNote(env);
    }

    /** The action repairs the state that the automaton went to. */
    method HandleAction(action: Action, env: Env)
      requires Awaits(Snapshot(), action)
      modifies this, session
      ensures Valid() && Snapshot() == Act(old(Snapshot()), action, env)
    {
      hide Inv, Awaits, Started, Stopped, Listen, StopListening, Interrupted, Reconnected;
      ActKeeps(Snapshot(), action, env);
      match action {
        case Connect =>
          ClearSessionId();
          ttsDone := false;
          StartAndNote(env);
        case SendHello =>
          var _ := QueueText(HelloQueued, env.queued);
        case StartListen =>
          StartUpload(env);
        case StopListen =>
          StopUpload(env);
        case Abort =>
          Interrupt(env);
        case ReturnToWake =>
          Reconnect(env);
        case _ =>
      }
    }

    /** Silence: nothing is recorded or dumped, nothing is said, and the id is kept. */
    method ResetToIdleState(env: Env)
      requires Valid()
      modifies this, session
      ensures Valid() && Snapshot() == ResetToIdle(old(Snapshot()), env)
      ensures !uploadEnabled && !capturing && !dumpOpen && !ttsDone
      ensures trace == old(trace) && sessionId == old(sessionId) && running == old(running)
      ensures session.state == if running && env.linked then Ready else Idle
    {
      hide Listening, IdOf, Proper;
      ResetKeeps(Snapshot(), env);
      uploadEnabled := false;
      ttsDone := false;
      SetUploading(false);
      dumpOpen := false;
      if clientStarted && env.linked {
        session.state := Ready;
      } else {
        session.state := Idle;
      }
    }

    method HandleSession(event: Event, env: Env)
      requires Valid()
      modifies this, session
      ensures Valid() && Snapshot() == Dispatch(old(Snapshot()), event, env)
    {
      hide Act, SessionStep, Inv, Awaits;
      DispatchKeeps(Snapshot(), event, env);
      var action := session.HandleEvent(event);
      HandleAction(action, env);
    }

    method NoteHello(id: bytes)
      modifies this`trace, this`sessionId
      ensures Snapshot() == Greeted(old(Snapshot()), id)
    {
      trace := trace + [HelloHandled(id)];
      if |id| != 0 {
        sessionId := id;
      }
    }

    method HandleProtocolEvent(incoming: Incoming, env: Env)
      requires Valid()
      modifies this, session
      ensures Valid() && Snapshot() == Receive(old(Snapshot()), incoming, env)
    {
      hide Inv, Dispatch, ResetToIdle, Greeted;
      ReceiveKeeps(Snapshot(), incoming, env);
      match incoming {
        case Hello(id) =>
          HelloKeeps(Snapshot(), id);
          NoteHello(id);
          HandleSession(WsHello, env);
        case TtsStart =>
          uploadEnabled := false;
          SetUploading(false);
          session.state := PlayingTts;
          ttsDone := false;
        case TtsStop =>
          TtsDoneKeeps(Snapshot());
          ttsDone := true;
          if env.drained {
            ResetToIdleState(env);
          }
        case _ =>
      }
    }

    /** One turn of app_run's loop with an event in hand, stale or not. */
    method HandleEvent(event: Event, env: Env)
      requires Valid()
      modifies this, session
      ensures Valid() && Snapshot() == Handle(old(Snapshot()), event, env)
      ensures uploadEnabled == capturing && clientStarted == running
      ensures uploadEnabled ==> session.state == UploadingAudio && dumpOpen && sessionId != []
      ensures session.state != ErrorBackoff && session.state != WakeDetecting
      ensures FramesAreCovered(trace) && ListensAreCurrent(trace)
    {
      hide Inv, Dispatch, Receive, FramesAreCovered, ListensAreCurrent;
      HandleKeeps(Snapshot(), event, env);
      InvIsSafe(Handle(Snapshot(), event, env));
      match event {
        case ManualStart | WakewordDetected | ManualStop | WsConnected | CaptureSilenceTimeout | Error =>
          HandleSession(event, env);
        case WsText(incoming) =>
          HandleProtocolEvent(incoming, env);
        case PlaybackFinished =>
          if ttsDone {
            ResetToIdleState(env);
          }
        case Shutdown =>
          stopRequested := true;
        case _ =>
      }
    }

    /** The capture callback: a frame goes out only while the server listens. */
    method CaptureOnPcm(frame: bytes, queued: bool)
      requires Valid()
      modifies this`trace
      ensures Valid() && Snapshot() == Captured(old(Snapshot()), frame, queued)
      ensures trace != old(trace) ==> trace == old(trace) + [FrameQueued(frame)] && Listening(old(trace)) && dumpOpen
      ensures FramesAreCovered(trace) && ListensAreCurrent(trace)
    {
      hide FramesAreCovered, ListensAreCurrent, IdOf, Proper, Listening;
      CaptureKeeps(Snapshot(), frame, queued);
      InvIsSafe(Captured(Snapshot(), frame, queued));
      if uploadEnabled {
        if |frame| > 0 {
          if queued {
            trace := trace + [FrameQueued(frame)];
          }
        }
      }
    }

    /** What app_run does before its loop. */
    method Enter(env: Env)
      requires Valid() && !clientStarted
      modifies this, session
      ensures Valid()
      ensures Snapshot() == Act(ResetToIdle(old(Snapshot()), env).(session := Connecting), Connect, env)
    {
      hide Act, Inv;
      ConnectKeeps(Snapshot(), env);
      ResetToIdleState(env);
      if !clientStarted {
        session.state := Connecting;
        HandleAction(Connect, env);
      }
    }

    /** app_run under any schedule: any events, and capture callbacks at any time. */
    method AppRun(env: Env, steps: seq<Step>)
      requires Snapshot() == Initial()
      modifies this, session
      ensures Valid() && Snapshot() == Run(Boot(env), steps)
      ensures uploadEnabled == capturing && clientStarted == running
      ensures uploadEnabled ==> session.state == UploadingAudio && dumpOpen && sessionId != []
      ensures session.state != ErrorBackoff && session.state != WakeDetecting
      ensures FramesAreCovered(trace) && ListensAreCurrent(trace)
    {
      hide Inv, Handle, Captured, Act, ResetToIdle, Run, FramesAreCovered, ListensAreCurrent;
      InitialIsSafe();
      Enter(env);
      ghost var start := Snapshot();
      for i := 0 to |steps|
        invariant Valid() && Run(Snapshot(), steps[i..]) == Run(start, steps)
      {
        RunStep(Snapshot(), steps[i..]);
        match steps[i] {
          case HandleStep(event, env) =>
            if !stopRequested {
              HandleEvent(event, env);
            }
          case CaptureStep(frame, queued) =>
            CaptureOnPcm(frame, queued);
        }
      }
      RunEnds(Snapshot());
      InvIsSafe(Snapshot());
    }
  }
}
