/** The capture thread inside an event handler: its callback may come between any two
    statements of the handler, and the history stays in order all the same. */
module Preemption {
  import opened Bytes
  import opened Runtime

  // ---- handlers as statements ------------------------------------------------------------------

  /** A statement of a handler that changes the runtime's state. */
  datatype Stmt =
    | Enable(on: bool)
    | SetUploading(on: bool)
    | SetDump(open: bool)
    | SetTtsDone(on: bool)
    | SetSession(s: SessionState)
    | Say(h: Happening)
    | ForgetId
    | LearnId(id: bytes)
    | StopClient
    | StartClient(spawned: bool)
    | RequestStop

  function Exec(a: App, s: Stmt): App {
    match s
    case Enable(on) => a.(uploadEnabled := on)
    case SetUploading(on) => a.(capturing := on)
    case SetDump(open) => a.(dumpOpen := open)
    case SetTtsDone(on) => a.(ttsDone := on)
    case SetSession(state) => a.(session := state)
    case Say(h) => Log(a, h)
    case ForgetId => ClearId(a)
    case LearnId(id) => Greeted(a, id)
    case StopClient => Log(a.(running := false, clientStarted := false), ClientStopped)
    case StartClient(spawned) => Started(a, Env(false, false, spawned, false, false))
    case RequestStop => a.(stopRequested := true)
  }

  function ExecAll(a: App, program: seq<Stmt>): App
    decreases |program|
  {
    if program == [] then a else ExecAll(Exec(a, program[0]), program[1..])
  }

  function If(b: bool, program: seq<Stmt>): seq<Stmt> {
    if b then program else []
  }

  function Hush(): seq<Stmt> {
    [Enable(false), SetTtsDone(false), SetUploading(false), SetDump(false)]
  }

  /** app_handle_action. */
  function ActProgram(a: App, action: Action, env: Env): seq<Stmt> {
    match action
    case Connect => [ForgetId, SetTtsDone(false), StartClient(env.spawned)]
    case SendHello => If(env.queued, [Say(HelloQueued)])
    case StartListen =>
      If(a.sessionId != [] && env.queued,
         [Say(StartQueued(a.sessionId)), SetDump(env.creatable)]
         + If(env.creatable, [Enable(true), SetSession(UploadingAudio), SetUploading(true)]))
    case StopListen =>
      [Enable(false), SetUploading(false), SetDump(false)]
      + If(a.sessionId != [] && env.queued, [Say(StopQueued(a.sessionId))])
    case Abort =>
      [Enable(false), SetUploading(false), SetDump(false)] + If(env.queued, [Say(AbortQueued)])
      + If(a.clientStarted, [StopClient]) + [ForgetId, StartClient(env.spawned)]
    case ReturnToWake =>
      Hush() + [ForgetId] + If(a.clientStarted, [StopClient]) + [SetSession(Connecting), StartClient(env.spawned)]
    case _ => []
  }

  function DispatchProgram(a: App, e: Event, env: Env): seq<Stmt> {
    var (s, action) := SessionStep(a.session, e);
    [SetSession(s)] + ActProgram(a.(session := s), action, env)
  }

  function ResetProgram(a: App, env: Env): seq<Stmt> {
    Hush() + [SetSession(if a.clientStarted && env.linked then Ready else Idle)]
  }

  function ReceiveProgram(a: App, incoming: Incoming, env: Env): seq<Stmt> {
    match incoming
    case Hello(id) => [LearnId(id)] + DispatchProgram(Greeted(a, id), WsHello, env)
    case TtsStart => [Enable(false), SetUploading(false), SetSession(PlayingTts), SetTtsDone(false)]
    case TtsStop => [SetTtsDone(true)] + If(env.drained, ResetProgram(a, env))
    case _ => []
  }

  /** The statements of one turn of app_run's loop, in the order of the source. */
  function Program(a: App, e: Event, env: Env): seq<Stmt> {
    match e
    case ManualStart => DispatchProgram(a, e, env)
    case WakewordDetected => DispatchProgram(a, e, env)
    case ManualStop => DispatchProgram(a, e, env)
    case WsConnected => DispatchProgram(a, e, env)
    case WsText(incoming) => ReceiveProgram(a, incoming, env)
    case CaptureSilenceTimeout => DispatchProgram(a, e, env)
    case PlaybackFinished => If(a.ttsDone, ResetProgram(a, env))
    case Error => DispatchProgram(a, e, env)
    case Shutdown => [RequestStop]
    case _ => []
  }

  lemma {:induction false} ExecBoth(a: App, p: seq<Stmt>, q: seq<Stmt>)
    ensures ExecAll(a, p + q) == ExecAll(ExecAll(a, p), q)
    decreases |p|
  {
    if p == [] {
      assert p + q == q;
    } else {
      assert (p + q)[1..] == p[1..] + q;
      ExecBoth(Exec(a, p[0]), p[1..], q);
    }
  }

  // Short programs, statement by statement.

  lemma ExecNone(a: App)
    ensures ExecAll(a, []) == a
  {
  }

  lemma ExecFirst(a: App, s: Stmt, rest: seq<Stmt>)
    ensures ExecAll(a, [s] + rest) == ExecAll(Exec(a, s), rest)
  {
    assert ([s] + rest)[1..] == rest;
  }

  lemma ExecOne(a: App, s: Stmt)
    ensures ExecAll(a, [s]) == Exec(a, s)
  {
    hide Exec;
    ExecFirst(a, s, []);
    assert [s] + [] == [s];
  }

  lemma ExecTwo(a: App, s: Stmt, t: Stmt)
    ensures ExecAll(a, [s, t]) == Exec(Exec(a, s), t)
  {
    hide Exec, ExecAll;
    ExecFirst(a, s, [t]);
    ExecOne(Exec(a, s), t);
    assert [s] + [t] == [s, t];
  }

  lemma ExecThree(a: App, s: Stmt, t: Stmt, u: Stmt)
    ensures ExecAll(a, [s, t, u]) == Exec(Exec(Exec(a, s), t), u)
  {
    hide Exec, ExecAll;
    ExecFirst(a, s, [t, u]);
    ExecTwo(Exec(a, s), t, u);
    assert [s] + [t, u] == [s, t, u];
  }

  lemma ExecFour(a: App, s: Stmt, t: Stmt, u: Stmt, v: Stmt)
    ensures ExecAll(a, [s, t, u, v]) == Exec(Exec(Exec(Exec(a, s), t), u), v)
  {
    hide Exec, ExecAll;
    ExecFirst(a, s, [t, u, v]);
    ExecThree(Exec(a, s), t, u, v);
    assert [s] + [t, u, v] == [s, t, u, v];
  }

  lemma StartIsListen(a: App, env: Env)
    ensures ExecAll(a, ActProgram(a, StartListen, env)) == Listen(a, env)
  {
    hide ExecAll;
    ExecNone(a);
    if a.sessionId != [] && env.queued {
      var p := [Say(StartQueued(a.sessionId)), SetDump(env.creatable)];
      var q := If(env.creatable, [Enable(true), SetSession(UploadingAudio), SetUploading(true)]);
      var b := ExecAll(a, p);
      ExecBoth(a, p, q);
      ExecTwo(a, p[0], p[1]);
      ExecNone(b);
      ExecThree(b, Enable(true), SetSession(UploadingAudio), SetUploading(true));
    }
  }

  lemma StopIsStop(a: App, env: Env)
    ensures ExecAll(a, ActProgram(a, StopListen, env)) == StopListening(a, env)
  {
    hide ExecAll;
    var p := [Enable(false), SetUploading(false), SetDump(false)];
    var q := If(a.sessionId != [] && env.queued, [Say(StopQueued(a.sessionId))]);
    var b := ExecAll(a, p);
    ExecBoth(a, p, q);
    ExecThree(a, p[0], p[1], p[2]);
    ExecNone(b);
    ExecOne(b, Say(StopQueued(a.sessionId)));
  }

  lemma HushIsQuiet(a: App)
    ensures ExecAll(a, Hush()) == Quiet(a).(ttsDone := false, dumpOpen := false)
  {
    hide ExecAll;
    ExecFour(a, Enable(false), SetTtsDone(false), SetUploading(false), SetDump(false));
  }

  lemma StopIfStarted(a: App)
    ensures ExecAll(a, If(a.clientStarted, [StopClient])) == Stopped(a)
  {
    hide ExecAll;
    ExecNone(a);
    ExecOne(a, StopClient);
  }

  lemma AbortIsInterrupt(a: App, env: Env)
    ensures ExecAll(a, ActProgram(a, Abort, env)) == Interrupted(a, env)
  {
    hide ExecAll, ClearId, Stopped, Started;
    var p := [Enable(false), SetUploading(false), SetDump(false)];
    var q, r := If(env.queued, [Say(AbortQueued)]), If(a.clientStarted, [StopClient]);
    var b := ExecAll(a, p);
    var c := ExecAll(b, q);
    ExecBoth(a, p + q + r, [ForgetId, StartClient(env.spawned)]);
    ExecBoth(a, p + q, r);
    ExecBoth(a, p, q);
    ExecThree(a, p[0], p[1], p[2]);
    ExecNone(b);
    ExecOne(b, Say(AbortQueued));
    StopIfStarted(c);
    ExecTwo(Stopped(c), ForgetId, StartClient(env.spawned));
    StartsAlike(ClearId(Stopped(c)), env);
  }

  lemma StartsAlike(a: App, env: Env)
    ensures Exec(a, StartClient(env.spawned)) == Started(a, env)
  {
  }

  lemma ReturnIsReconnect(a: App, env: Env)
    ensures ExecAll(a, ActProgram(a, ReturnToWake, env)) == Reconnected(a, env)
  {
    hide ExecAll, Hush, Stopped, Started;
    var stop, last := If(a.clientStarted, [StopClient]), [SetSession(Connecting), StartClient(env.spawned)];
    var b := ExecAll(a, Hush());
    ExecBoth(a, Hush() + [ForgetId] + stop, last);
    ExecBoth(a, Hush() + [ForgetId], stop);
    ExecBoth(a, Hush(), [ForgetId]);
    HushIsQuiet(a);
    ExecOne(b, ForgetId);
    StopIfStarted(ClearId(b));
    ExecTwo(Stopped(ClearId(b)), SetSession(Connecting), StartClient(env.spawned));
    StartsAlike(Stopped(ClearId(b)).(session := Connecting), env);
  }

  lemma ActProgramIsAct(a: App, action: Action, env: Env)
    ensures ExecAll(a, ActProgram(a, action, env)) == Act(a, action, env)
  {
    match action {
      case Connect =>
        ExecThree(a, ForgetId, SetTtsDone(false), StartClient(env.spawned));
      case SendHello =>
        ExecOne(a, Say(HelloQueued));
      case StartListen => StartIsListen(a, env);
      case StopListen => StopIsStop(a, env);
      case Abort => AbortIsInterrupt(a, env);
      case ReturnToWake => ReturnIsReconnect(a, env);
      case _ =>
    }
  }

  lemma DispatchProgramIsDispatch(a: App, e: Event, env: Env)
    ensures ExecAll(a, DispatchProgram(a, e, env)) == Dispatch(a, e, env)
  {
    hide ExecAll, Act, ActProgram;
    var (s, action) := SessionStep(a.session, e);
    ExecBoth(a, [SetSession(s)], ActProgram(a.(session := s), action, env));
    ExecOne(a, SetSession(s));
    ActProgramIsAct(a.(session := s), action, env);
  }

  lemma ResetProgramIsReset(a: App, env: Env)
    ensures ExecAll(a, ResetProgram(a, env)) == ResetToIdle(a, env)
  {
    hide ExecAll, Hush;
    var state := if a.clientStarted && env.linked then Ready else Idle;
    ExecBoth(a, Hush(), [SetSession(state)]);
    HushIsQuiet(a);
    ExecOne(ExecAll(a, Hush()), SetSession(state));
  }

  lemma ReceiveProgramIsReceive(a: App, incoming: Incoming, env: Env)
    ensures ExecAll(a, ReceiveProgram(a, incoming, env)) == Receive(a, incoming, env)
  {
    hide ExecAll, Dispatch, DispatchProgram, ResetToIdle, ResetProgram;
    ExecNone(a);
    match incoming {
      case Hello(id) =>
        ExecFirst(a, LearnId(id), DispatchProgram(Greeted(a, id), WsHello, env));
        DispatchProgramIsDispatch(Greeted(a, id), WsHello, env);
      case TtsStart =>
        ExecFour(a, Enable(false), SetUploading(false), SetSession(PlayingTts), SetTtsDone(false));
      case TtsStop =>
        var b := a.(ttsDone := true);
        ExecFirst(a, SetTtsDone(true), If(env.drained, ResetProgram(a, env)));
        ExecNone(b);
        ResetLooksAlike(a, env);
        ResetProgramIsReset(b, env);
      case _ =>
    }
  }

  lemma ResetLooksAlike(a: App, env: Env)
    ensures ResetProgram(a.(ttsDone := true), env) == ResetProgram(a, env)
  {
  }

  /** Without callbacks in between, the statements make up the handler. */
  lemma ProgramIsHandle(a: App, e: Event, env: Env)
    ensures ExecAll(a, Program(a, e, env)) == Handle(a, e, env)
  {
    hide ExecAll, Dispatch, DispatchProgram, Receive, ReceiveProgram, ResetToIdle, ResetProgram;
    ExecNone(a);
    match e {
      case WsText(incoming) => ReceiveProgramIsReceive(a, incoming, env);
      case PlaybackFinished => ResetProgramIsReset(a, env);
      case Shutdown => ExecOne(a, RequestStop);
      case _ => DispatchProgramIsDispatch(a, e, env);
    }
  }

  // ---- callbacks in between ------------------------------------------------------------------------

  /** What happens while a handler runs: its next statement, or a capture callback. */
  datatype Moment = Statement(s: Stmt) | Callback(frame: bytes, queued: bool)

  function Pass(a: App, m: Moment): App {
    match m
    case Statement(s) => Exec(a, s)
    case Callback(frame, queued) => Captured(a, frame, queued)
  }

  function Play(a: App, ms: seq<Moment>): App
    decreases |ms|
  {
    if ms == [] then a else Play(Pass(a, ms[0]), ms[1..])
  }

  /** The statements among the moments. */
  function Statements(ms: seq<Moment>): seq<Stmt>
    decreases |ms|
  {
    if ms == [] then []
    else if ms[0].Statement? then [ms[0].s] + Statements(ms[1..])
    else Statements(ms[1..])
  }

  /** What holds between any two statements: a frame that is queued now would be in order,
      and so has everything been. */
  predicate InOrder(a: App) {
    (a.uploadEnabled ==> Listening(a.trace)) && a.sessionId == IdOf(a.trace) && Proper(a.trace)
  }

  /** What a program needs to know of the state it starts in to keep this. */
  datatype View = View(up: bool, listening: bool, id: bytes)

  function ViewOf(a: App): View {
    View(a.uploadEnabled, Listening(a.trace), a.sessionId)
  }

  predicate Lets(v: View, s: Stmt) {
    match s
    case Enable(on) => on ==> v.listening
    case Say(h) =>
      && (h.StartQueued? || h.StopQueued? || h.AbortQueued? || h.HelloQueued?)
      && !(EndsListening(h) && v.up) && (h.StartQueued? || h.StopQueued? ==> h.id == v.id != [])
    case ForgetId => !v.up
    case StopClient => !v.up
    case _ => true
  }

  function After(v: View, s: Stmt): View {
    match s
    case Enable(on) => v.(up := on)
    case Say(h) => v.(listening := h.StartQueued? || (v.listening && !EndsListening(h)))
    case ForgetId => v.(listening := false, id := [])
    case LearnId(id) => if id != [] then v.(id := id) else v
    case StopClient => v.(listening := false)
    case _ => v
  }

  predicate Careful(v: View, program: seq<Stmt>)
    decreases |program|
  {
    program == [] || (Lets(v, program[0]) && Careful(After(v, program[0]), program[1..]))
  }

  lemma StatementKeepsOrder(a: App, s: Stmt)
    requires InOrder(a) && Lets(ViewOf(a), s)
    ensures var b := Exec(a, s); InOrder(b) && ViewOf(b) == After(ViewOf(a), s)
  {
    hide Listening, IdOf, Proper;
    match s {
      case Say(h) => LogIsSeen(a.trace, h);
      case ForgetId => LogIsSeen(a.trace, IdCleared);
      case LearnId(id) => LogIsSeen(a.trace, HelloHandled(id));
      case StopClient => LogIsSeen(a.trace, ClientStopped);
      case _ =>
    }
  }

  lemma CallbackKeepsOrder(a: App, frame: bytes, queued: bool)
    requires InOrder(a)
    ensures var b := Captured(a, frame, queued); InOrder(b) && ViewOf(b) == ViewOf(a)
  {
    hide Listening, IdOf, Proper;
    LogIsSeen(a.trace, FrameQueued(frame));
  }

  /** At every moment of a careful program, callbacks included, the history is in order. */
  lemma {:induction false} PlayKeepsOrder(a: App, ms: seq<Moment>, program: seq<Stmt>)
    requires InOrder(a) && Careful(ViewOf(a), program) && Statements(ms) <= program
    ensures InOrder(Play(a, ms))
    decreases |ms|
  {
    hide InOrder, ViewOf, Exec, Captured, Lets, After;
    if ms != [] {
      var rest := ms[1..];
      match ms[0] {
        case Statement(s) =>
          StatementKeepsOrder(a, s);
          assert Statements(ms)[1..] == Statements(rest);
          PlayKeepsOrder(Exec(a, s), rest, program[1..]);
        case Callback(frame, queued) =>
          CallbackKeepsOrder(a, frame, queued);
          PlayKeepsOrder(Captured(a, frame, queued), rest, program);
      }
    }
  }

  // ---- every handler is careful ------------------------------------------------------------------

  function AfterAll(v: View, program: seq<Stmt>): View
    decreases |program|
  {
    if program == [] then v else AfterAll(After(v, program[0]), program[1..])
  }

  lemma {:induction false} CarefulBoth(v: View, p: seq<Stmt>, q: seq<Stmt>)
    requires Careful(v, p) && Careful(AfterAll(v, p), q)
    ensures Careful(v, p + q) && AfterAll(v, p + q) == AfterAll(AfterAll(v, p), q)
    decreases |p|
  {
    hide Lets, After;
    if p == [] {
      assert p + q == q;
    } else {
      assert (p + q)[1..] == p[1..] + q;
      CarefulBoth(After(v, p[0]), p[1..], q);
    }
  }

  lemma CarefulNone(v: View)
    ensures Careful(v, []) && AfterAll(v, []) == v
  {
  }

  lemma CarefulOne(v: View, s: Stmt)
    requires Lets(v, s)
    ensures Careful(v, [s]) && AfterAll(v, [s]) == After(v, s)
  {
    hide Lets, After;
    CarefulNone(After(v, s));
    assert [s][1..] == [];
  }

  lemma CarefulTwo(v: View, s: Stmt, t: Stmt)
    requires Lets(v, s) && Lets(After(v, s), t)
    ensures Careful(v, [s, t]) && AfterAll(v, [s, t]) == After(After(v, s), t)
  {
    hide Lets, After, Careful, AfterAll;
    CarefulOne(v, s);
    CarefulOne(After(v, s), t);
    CarefulBoth(v, [s], [t]);
    assert [s] + [t] == [s, t];
  }

  lemma CarefulThree(v: View, s: Stmt, t: Stmt, u: Stmt)
    requires Lets(v, s) && Lets(After(v, s), t) && Lets(After(After(v, s), t), u)
    ensures Careful(v, [s, t, u]) && AfterAll(v, [s, t, u]) == After(After(After(v, s), t), u)
  {
    hide Lets, After, Careful, AfterAll;
    CarefulTwo(v, s, t);
    CarefulOne(After(After(v, s), t), u);
    CarefulBoth(v, [s, t], [u]);
    assert [s, t] + [u] == [s, t, u];
  }

  /** Without recording, everything may be said and done. */
  lemma HushIsCareful(v: View)
    ensures Careful(v, Hush()) && AfterAll(v, Hush()) == v.(up := false)
  {
    hide Careful, AfterAll;
    CarefulTwo(v, Enable(false), SetTtsDone(false));
    CarefulTwo(v.(up := false), SetUploading(false), SetDump(false));
    CarefulBoth(v, [Enable(false), SetTtsDone(false)], [SetUploading(false), SetDump(false)]);
    assert [Enable(false), SetTtsDone(false)] + [SetUploading(false), SetDump(false)] == Hush();
  }

  lemma StopIsCareful(a: App, v: View)
    requires !v.up
    ensures var stop := If(a.clientStarted, [StopClient]); Careful(v, stop) && !AfterAll(v, stop).up
  {
    hide Careful, AfterAll;
    CarefulNone(v);
    CarefulOne(v, StopClient);
  }

  lemma ListenIsCareful(a: App, v: View, env: Env)
    requires v.id == a.sessionId
    ensures Careful(v, ActProgram(a, StartListen, env))
  {
    hide Careful, AfterAll;
    CarefulNone(v);
    if a.sessionId != [] && env.queued {
      var p := [Say(StartQueued(a.sessionId)), SetDump(env.creatable)];
      var w := AfterAll(v, p);
      CarefulTwo(v, p[0], p[1]);
      CarefulNone(w);
      CarefulThree(w, Enable(true), SetSession(UploadingAudio), SetUploading(true));
      CarefulBoth(v, p, If(env.creatable, [Enable(true), SetSession(UploadingAudio), SetUploading(true)]));
    }
  }

  lemma StopListenIsCareful(a: App, v: View, env: Env)
    requires v.id == a.sessionId
    ensures Careful(v, ActProgram(a, StopListen, env))
  {
    hide Careful, AfterAll;
    var p := [Enable(false), SetUploading(false), SetDump(false)];
    var q := If(a.sessionId != [] && env.queued, [Say(StopQueued(a.sessionId))]);
    CarefulThree(v, p[0], p[1], p[2]);
    CarefulNone(AfterAll(v, p));
    if q != [] {
      CarefulOne(AfterAll(v, p), q[0]);
    }
    CarefulBoth(v, p, q);
  }

  lemma AbortIsCareful(a: App, v: View, env: Env)
    ensures Careful(v, ActProgram(a, Abort, env))
  {
    hide Careful, AfterAll;
    var p := [Enable(false), SetUploading(false), SetDump(false)];
    var q, r := If(env.queued, [Say(AbortQueued)]), If(a.clientStarted, [StopClient]);
    CarefulThree(v, p[0], p[1], p[2]);
    CarefulNone(AfterAll(v, p));
    CarefulOne(AfterAll(v, p), Say(AbortQueued));
    CarefulBoth(v, p, q);
    StopIsCareful(a, AfterAll(v, p + q));
    CarefulBoth(v, p + q, r);
    CarefulTwo(AfterAll(v, p + q + r), ForgetId, StartClient(env.spawned));
    CarefulBoth(v, p + q + r, [ForgetId, StartClient(env.spawned)]);
  }

  lemma ReturnIsCareful(a: App, v: View, env: Env)
    ensures Careful(v, ActProgram(a, ReturnToWake, env))
  {
    hide Careful, AfterAll, Hush;
    var p, stop := Hush() + [ForgetId], If(a.clientStarted, [StopClient]);
    HushIsCareful(v);
    CarefulOne(v.(up := false), ForgetId);
    CarefulBoth(v, Hush(), [ForgetId]);
    StopIsCareful(a, AfterAll(v, p));
    CarefulBoth(v, p, stop);
    CarefulTwo(AfterAll(v, p + stop), SetSession(Connecting), StartClient(env.spawned));
    CarefulBoth(v, p + stop, [SetSession(Connecting), StartClient(env.spawned)]);
  }

  /** In every state that the automaton leaves behind. */
  lemma ActIsCareful(a: App, v: View, action: Action, env: Env)
    requires v.id == a.sessionId && (action == Connect ==> !v.up)
    ensures Careful(v, ActProgram(a, action, env))
  {
    hide Careful, AfterAll;
    match action {
      case Connect =>
        CarefulThree(v, ForgetId, SetTtsDone(false), StartClient(env.spawned));
      case SendHello =>
        CarefulNone(v);
        CarefulOne(v, Say(HelloQueued));
      case StartListen => ListenIsCareful(a, v, env);
      case StopListen => StopListenIsCareful(a, v, env);
      case Abort => AbortIsCareful(a, v, env);
      case ReturnToWake => ReturnIsCareful(a, v, env);
      case _ => CarefulNone(v);
    }
  }

  lemma DispatchIsCareful(a: App, v: View, e: Event, env: Env)
    requires v.id == a.sessionId && (v.up ==> a.session == UploadingAudio)
    ensures Careful(v, DispatchProgram(a, e, env))
  {
    hide Careful, AfterAll, ActProgram;
    var (s, action) := SessionStep(a.session, e);
    CarefulOne(v, SetSession(s));
    ActIsCareful(a.(session := s), v, action, env);
    CarefulBoth(v, [SetSession(s)], ActProgram(a.(session := s), action, env));
  }

  lemma ResetIsCareful(a: App, v: View, env: Env)
    ensures Careful(v, ResetProgram(a, env))
  {
    hide Careful, AfterAll, Hush;
    var state := if a.clientStarted && env.linked then Ready else Idle;
    HushIsCareful(v);
    CarefulOne(v.(up := false), SetSession(state));
    CarefulBoth(v, Hush(), [SetSession(state)]);
  }

  lemma ReceiveIsCareful(a: App, v: View, incoming: Incoming, env: Env)
    requires v.id == a.sessionId && (v.up ==> a.session == UploadingAudio)
    ensures Careful(v, ReceiveProgram(a, incoming, env))
  {
    hide Careful, AfterAll, DispatchProgram, ResetProgram;
    CarefulNone(v);
    match incoming {
      case Hello(id) =>
        var w := After(v, LearnId(id));
        CarefulOne(v, LearnId(id));
        DispatchIsCareful(Greeted(a, id), w, WsHello, env);
        CarefulBoth(v, [LearnId(id)], DispatchProgram(Greeted(a, id), WsHello, env));
      case TtsStart =>
        CarefulTwo(v, Enable(false), SetUploading(false));
        CarefulTwo(v.(up := false), SetSession(PlayingTts), SetTtsDone(false));
        CarefulBoth(v, [Enable(false), SetUploading(false)], [SetSession(PlayingTts), SetTtsDone(false)]);
        assert [Enable(false), SetUploading(false)] + [SetSession(PlayingTts), SetTtsDone(false)]
            == ReceiveProgram(a, incoming, env);
      case TtsStop =>
        CarefulOne(v, SetTtsDone(true));
        ResetIsCareful(a, v, env);
        CarefulBoth(v, [SetTtsDone(true)], If(env.drained, ResetProgram(a, env)));
      case _ =>
    }
  }

  lemma ProgramIsCareful(a: App, e: Event, env: Env)
    requires Inv(a)
    ensures Careful(ViewOf(a), Program(a, e, env))
  {
    hide Careful, DispatchProgram, ReceiveProgram, ResetProgram, Listening, IdOf, Proper;
    var v := ViewOf(a);
    CarefulNone(v);
    match e {
      case WsText(incoming) => ReceiveIsCareful(a, v, incoming, env);
      case PlaybackFinished => ResetIsCareful(a, v, env);
      case Shutdown => CarefulOne(v, RequestStop);
      case _ => DispatchIsCareful(a, v, e, env);
    }
  }

  // ---- callbacks change nothing but the history ----------------------------------------------------

  predicate SameButTrace(a: App, b: App) {
    && a.session == b.session && a.uploadEnabled == b.uploadEnabled && a.capturing == b.capturing
    && a.ttsDone == b.ttsDone && a.sessionId == b.sessionId && a.clientStarted == b.clientStarted
    && a.running == b.running && a.dumpOpen == b.dumpOpen && a.stopRequested == b.stopRequested
  }

  /** A statement that leaves the history alone does not look at it either. */
  lemma SilentAlike(a: App, b: App, s: Stmt)
    requires SameButTrace(a, b) && !s.Say? && !s.ForgetId? && !s.LearnId? && !s.StopClient?
    ensures SameButTrace(Exec(a, s), Exec(b, s))
  {
    hide Log, ClearId, Greeted;
    match s {
      case StartClient(_) =>
      case _ =>
    }
  }

  lemma ExecAlike(a: App, b: App, s: Stmt)
    requires SameButTrace(a, b)
    ensures SameButTrace(Exec(a, s), Exec(b, s))
  {
    hide Log, Started;
    match s {
      case Say(h) => LogAlike(a, b, h);
      case ForgetId => LogAlike(a.(sessionId := []), b.(sessionId := []), IdCleared);
      case LearnId(id) => LogAlike(a, b, HelloHandled(id));
      case StopClient =>
        LogAlike(a.(running := false, clientStarted := false), b.(running := false, clientStarted := false),
                 ClientStopped);
      case _ => SilentAlike(a, b, s);
    }
  }

  lemma LogAlike(a: App, b: App, h: Happening)
    requires SameButTrace(a, b)
    ensures SameButTrace(Log(a, h), Log(b, h))
  {
  }

  lemma {:induction false} PlayIsExec(a: App, b: App, ms: seq<Moment>)
    requires SameButTrace(a, b)
    ensures SameButTrace(Play(a, ms), ExecAll(b, Statements(ms)))
    decreases |ms|
  {
    hide Exec, SameButTrace;
    if ms != [] {
      match ms[0] {
        case Statement(s) =>
          ExecAlike(a, b, s);
          PlayIsExec(Exec(a, s), Exec(b, s), ms[1..]);
          ExecFirst(b, s, Statements(ms[1..]));
        case Callback(frame, queued) =>
          CallbackIsAlike(a, b, frame, queued);
          PlayIsExec(Captured(a, frame, queued), b, ms[1..]);
      }
    }
  }

  lemma CallbackIsAlike(a: App, b: App, frame: bytes, queued: bool)
    requires SameButTrace(a, b)
    ensures SameButTrace(Captured(a, frame, queued), b)
  {
  }

  /** A handler with callbacks anywhere in it: the history is in order at every moment, and
      the composed invariant holds again at the end. */
  lemma HandlerKeeps(a: App, e: Event, env: Env, ms: seq<Moment>)
    requires Inv(a) && Statements(ms) <= Program(a, e, env)
    ensures InOrder(Play(a, ms))
    ensures Statements(ms) == Program(a, e, env) ==> Inv(Play(a, ms))
  {
    hide Listening, IdOf, Proper, Play, ExecAll, Handle, Program, Careful;
    ProgramIsCareful(a, e, env);
    PlayKeepsOrder(a, ms, Program(a, e, env));
    if Statements(ms) == Program(a, e, env) {
      HandleKeeps(a, e, env);
      ProgramIsHandle(a, e, env);
      PlayIsExec(a, a, ms);
    }
  }

  // ---- runs --------------------------------------------------------------------------------------

  /** One event and all that happens until the next one is taken from the queue. */
  datatype Turn = Turn(event: Event, env: Env, moments: seq<Moment>)

  predicate Possible(a: App, turn: Turn) {
    Statements(turn.moments) == if a.stopRequested then [] else Program(a, turn.event, turn.env)
  }

  /** A run takes the turns that are possible; others do not happen. */
  function PlayTurns(a: App, turns: seq<Turn>): App
    decreases |turns|
  {
    if turns == [] then a
    else PlayTurns(if Possible(a, turns[0]) then Play(a, turns[0].moments) else a, turns[1..])
  }

  lemma {:induction false} CallbacksKeep(a: App, ms: seq<Moment>)
    requires Inv(a) && Statements(ms) == []
    ensures Inv(Play(a, ms))
    decreases |ms|
  {
    hide Inv, Captured;
    if ms != [] {
      CaptureKeeps(a, ms[0].frame, ms[0].queued);
      CallbacksKeep(Captured(a, ms[0].frame, ms[0].queued), ms[1..]);
    }
  }

  lemma {:induction false} TurnsKeep(a: App, turns: seq<Turn>)
    requires Inv(a)
    ensures Inv(PlayTurns(a, turns))
    decreases |turns|
  {
    hide Inv, Play, Program, Statements;
    if turns != [] {
      var t := turns[0];
      if Possible(a, t) {
        if a.stopRequested {
          CallbacksKeep(a, t.moments);
        } else {
          HandlerKeeps(a, t.event, t.env, t.moments);
        }
        TurnsKeep(Play(a, t.moments), turns[1..]);
      } else {
        TurnsKeep(a, turns[1..]);
      }
    }
  }

  /** Over every run, stopped at any moment of any handler, with the capture thread's
      callbacks between any two statements: every queued frame follows a listen start that
      nothing has ended, and every listen message carries the current id. */
  lemma EveryMomentIsInOrder(boot: Env, turns: seq<Turn>, e: Event, env: Env, ms: seq<Moment>)
    requires Statements(ms) <= Program(PlayTurns(Boot(boot), turns), e, env)
    ensures var a := Play(PlayTurns(Boot(boot), turns), ms);
      FramesAreCovered(a.trace) && ListensAreCurrent(a.trace) && (a.uploadEnabled ==> Listening(a.trace))
  {
    hide Inv, Play, PlayTurns, Program, Statements, Boot, FramesAreCovered, ListensAreCurrent, Proper, IdOf, Listening;
    BootIsSafe(boot);
    TurnsKeep(Boot(boot), turns);
    var a := PlayTurns(Boot(boot), turns);
    HandlerKeeps(a, e, env, ms);
    ProperIsCovered(Play(a, ms).trace);
    ProperIsCurrent(Play(a, ms).trace);
  }

  /** And the composed invariant holds between turns. */
  lemma EveryTurnIsSafe(boot: Env, turns: seq<Turn>)
    ensures Inv(PlayTurns(Boot(boot), turns))
  {
    BootIsSafe(boot);
    TurnsKeep(Boot(boot), turns);
  }
}
