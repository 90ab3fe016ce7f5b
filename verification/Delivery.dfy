/** What the outgoing queues achieve: when a message is accepted, and that a connection
    without failures sends everything that is pending. */
module Delivery {
  import opened Bytes
  import opened Outgoing

  // ---- acceptance ----------------------------------------------------------------------------------

  predicate HasRoom(s: State) {
    |s.text| < s.capacity
  }

  /** Room is reserved for a text if and only if there is room or memory is granted; and a
      full array of texts becomes one of four, or of twice the size. */
  lemma ReserveIsExact(s: State, granted: bool)
    requires InBounds(s) && s.textPhase == TextIdle
    ensures Next(s, Reserve(granted))
         == if HasRoom(s) then s.(textPhase := Reserved)
            else if granted then s.(textPhase := Reserved, capacity := if s.capacity == 0 then 4 else 2 * s.capacity)
            else s
  {
  }

  /** Into the reserved place the text is always stored, behind the others. */
  lemma StoreAccepts(s: State, payload: bytes)
    requires s.textPhase == Reserved
    ensures Next(s, StoreText(payload))
         == s.(textPhase := TextStored, text := s.text + [payload], log := s.log + [Accepted(Text(payload))])
  {
  }

  /** A binary message is accepted if and only if it has 1 to 4096 bytes and fewer than 32
      are pending; otherwise nothing changes. */
  lemma BinaryIsAccepted(s: State, payload: bytes)
    requires InBounds(s) && s.binaryPhase == BinaryIdle
    ensures Next(s, StoreBinary(payload))
         == if 1 <= |payload| <= 4096 && |s.binary| < 32
            then s.(binaryPhase := BinaryStored, binary := s.binary + [payload],
                    log := s.log + [Accepted(Binary(payload))])
            else s
  {
  }

  /** A producer that has stored its message asks for a callback if there is a wsi. */
  lemma SignalAsks(s: State)
    ensures s.textPhase == TextStored ==>
              Next(s, SignalText) == s.(textPhase := TextIdle, armed := s.armed || s.wsi)
    ensures s.binaryPhase == BinaryStored ==>
              Next(s, SignalBinary) == s.(binaryPhase := BinaryIdle, armed := s.armed || s.wsi)
  {
  }

  /** Steps of other threads than the text producer. */
  predicate IsElsewhere(step: Step) {
    !step.Reserve? && !step.StoreText? && !step.CopyFails? && !step.SignalText?
  }

  predicate AllElsewhere(steps: seq<Step>) {
    forall i :: 0 <= i < |steps| ==> IsElsewhere(steps[i])
  }

  lemma ElsewhereStep(s: State, step: Step)
    requires Enabled(s, step) && IsElsewhere(step)
    ensures var t := Next(s, step); t.textPhase == s.textPhase && Texts(t.log, Queued) == Texts(s.log, Queued)
  {
    hide GrownCapacity, Texts, Binaries;
    match step {
      case StoreBinary(payload) => Logged(s.log, Accepted(Binary(payload)));
      case Writeable(_) =>
        if s.text != [] {
          Logged(s.log, Taken(Text(s.text[0])));
        } else if s.binary != [] {
          Logged(s.log, Taken(Binary(s.binary[0])));
        }
      case Write(_) => Logged(s.log, Sent(s.net.msg));
      case _ =>
    }
  }

  lemma {:induction false} ElsewhereKeeps(s: State, steps: seq<Step>)
    requires AllElsewhere(steps)
    ensures var t := Run(s, steps); t.textPhase == s.textPhase && Texts(t.log, Queued) == Texts(s.log, Queued)
    decreases |steps|
  {
    hide Texts, Next, Enabled;
    if steps != [] {
      if Enabled(s, steps[0]) {
        ElsewhereStep(s, steps[0]);
        ElsewhereKeeps(Next(s, steps[0]), steps[1..]);
      } else {
        ElsewhereKeeps(s, steps[1..]);
      }
    }
  }

  lemma {:induction false} RunBoth(s: State, p: seq<Step>, q: seq<Step>)
    ensures Run(s, p + q) == Run(Run(s, p), q)
    decreases |p|
  {
    hide Next, Enabled;
    if p == [] {
      assert p + q == q;
    } else {
      assert (p + q)[1..] == p[1..] + q;
      RunBoth(if Enabled(s, p[0]) then Next(s, p[0]) else s, p[1..], q);
    }
  }

  lemma RunOne(s: State, step: Step)
    ensures Run(s, [step]) == if Enabled(s, step) then Next(s, step) else s
  {
    hide Next, Enabled;
    assert [step][1..] == [];
  }

  /** xiaozhi_client_queue_text, whatever the other threads do between its two locked
      sections: the text is accepted, last, if and only if there is room or memory. */
  lemma TextIsAccepted(s: State, granted: bool, between: seq<Step>, payload: bytes)
    requires Inv(s) && s.textPhase == TextIdle && AllElsewhere(between)
    ensures var t := Run(s, [Reserve(granted)] + between + [StoreText(payload)]);
      if HasRoom(s) || granted
      then Texts(t.log, Queued) == Texts(s.log, Queued) + [payload] && t.text != [] && t.text[|t.text| - 1] == payload
      else Texts(t.log, Queued) == Texts(s.log, Queued)
  {
    hide Texts, Run, Next, AllElsewhere;
    RunBoth(s, [Reserve(granted)] + between, [StoreText(payload)]);
    RunBoth(s, [Reserve(granted)], between);
    RunOne(s, Reserve(granted));
    ReserveIsExact(s, granted);
    var r := Run(s, [Reserve(granted)]);
    ElsewhereKeeps(r, between);
    var u := Run(r, between);
    RunOne(u, StoreText(payload));
    if u.textPhase == Reserved {
      StoreAccepts(u, payload);
      Logged(u.log, Accepted(Text(payload)));
    }
  }

  /** A copy that cannot be made is forgotten: apart from the room that has been made, the
      queue is as it was, and the next text is accepted. */
  lemma GivenUpIsForgotten(s: State, granted: bool)
    requires InBounds(s) && s.textPhase == TextIdle
    ensures var t := Run(s, [Reserve(granted), CopyFails]);
      && t == s.(capacity := t.capacity) && s.capacity <= t.capacity
      && (HasRoom(s) || granted ==> HasRoom(t))
  {
    hide Run;
    assert [Reserve(granted), CopyFails] == [Reserve(granted)] + [CopyFails];
    RunBoth(s, [Reserve(granted)], [CopyFails]);
    RunOne(s, Reserve(granted));
    ReserveIsExact(s, granted);
    RunOne(Run(s, [Reserve(granted)]), CopyFails);
  }

  /** A text that is queued while the client dials asks for a callback, and before that none
      does. */
  lemma DiallingIsAsked(s: State, payload: bytes)
    requires InBounds(s) && s.textPhase == TextIdle && s.net == NetIdle && !s.wsi
    ensures var ask := [Reserve(true), StoreText(payload), SignalText];
      Run(s, [Dial] + ask).armed && Run(s, ask).armed == s.armed
  {
    hide Run, Next, Enabled;
    var ask := [Reserve(true), StoreText(payload), SignalText];
    RunBoth(s, [Dial], ask);
    RunOne(s, Dial);
    DialIsEnabled(s);
    TextAsks(s.(wsi := true), payload);
    TextAsks(s, payload);
  }

  lemma DialIsEnabled(s: State)
    requires s.net == NetIdle && !s.wsi
    ensures Enabled(s, Dial) && Next(s, Dial) == s.(wsi := true)
  {
  }

  lemma TextAsks(s: State, payload: bytes)
    requires InBounds(s) && s.textPhase == TextIdle
    ensures Run(s, [Reserve(true), StoreText(payload), SignalText]).armed == (s.armed || s.wsi)
  {
    hide Run;
    assert [Reserve(true), StoreText(payload), SignalText] == [Reserve(true)] + ([StoreText(payload)] + [SignalText]);
    RunBoth(s, [Reserve(true)], [StoreText(payload)] + [SignalText]);
    RunOne(s, Reserve(true));
    ReserveIsExact(s, true);
    var a := Run(s, [Reserve(true)]);
    RunBoth(a, [StoreText(payload)], [SignalText]);
    RunOne(a, StoreText(payload));
    RunOne(Run(a, [StoreText(payload)]), SignalText);
  }

  // ---- delivery ------------------------------------------------------------------------------------

  /** ESTABLISHED leaves a connection that has been asked for a callback. */
  lemma ConnectionComesUp(s: State)
    requires s.net == NetIdle
    ensures Run(s, [Establish, Greet]) == s.(wsi := true, connected := true, armed := true)
  {
    RunBoth(s, [Establish], [Greet]);
    RunOne(s, Establish);
    RunOne(Next(s, Establish), Greet);
  }

  /** One writable callback with nothing failing, and the request for the next one. */
  function Turn(): seq<Step> {
    [Writeable(true), Write(true), Check, Rearm]
  }

  function Turns(n: nat): seq<Step> {
    if n == 0 then [] else Turn() + Turns(n - 1)
  }

  lemma RunTurn(s: State)
    ensures var a := Run(s, [Writeable(true)]);
      var b := Run(a, [Write(true)]);
      var c := Run(b, [Check]);
      Run(s, Turn()) == Run(c, [Rearm])
  {
    hide Run;
    assert Turn() == [Writeable(true)] + ([Write(true)] + ([Check] + [Rearm]));
    RunBoth(s, [Writeable(true)], [Write(true)] + ([Check] + [Rearm]));
    var a := Run(s, [Writeable(true)]);
    RunBoth(a, [Write(true)], [Check] + [Rearm]);
    RunBoth(Run(a, [Write(true)]), [Check], [Rearm]);
  }

  /** The network thread can send. */
  predicate Ready(s: State) {
    s.connected && s.net == NetIdle && (s.armed || (s.text == [] && s.binary == []))
  }

  function First(s: State): Message
    requires s.text != [] || s.binary != []
  {
    if s.text != [] then Text(s.text[0]) else Binary(s.binary[0])
  }

  /** The state without that message in its queue. */
  function Popped(s: State): State
    requires s.text != [] || s.binary != []
  {
    if s.text != [] then s.(text := s.text[1..]) else s.(binary := s.binary[1..])
  }

  lemma TakesTheFirst(s: State)
    requires Ready(s) && (s.text != [] || s.binary != [])
    ensures Enabled(s, Writeable(true))
    ensures Next(s, Writeable(true))
         == Popped(s).(net := Sending(First(s)), armed := false, log := s.log + [Taken(First(s))])
  {
  }

  lemma WriteSends(s: State)
    requires s.net.Sending?
    ensures Enabled(s, Write(true))
    ensures Next(s, Write(true)) == s.(net := Checking, log := s.log + [Sent(s.net.msg)])
  {
  }

  lemma CheckRearms(s: State)
    requires s.net == Checking
    ensures Enabled(s, Check)
    ensures var c := Next(s, Check);
      (if Enabled(c, Rearm) then Next(c, Rearm) else c)
      == s.(net := NetIdle, armed := s.armed || s.text != [] || s.binary != [])
  {
  }

  /** What a callback without failures sends: the first text or else the first binary
      message; and it asks for another callback if something is left. */
  lemma OneTurn(s: State)
    requires Ready(s) && (s.text != [] || s.binary != [])
    ensures Run(s, Turn())
         == Popped(s).(armed := Popped(s).text != [] || Popped(s).binary != [],
                       log := s.log + [Taken(First(s)), Sent(First(s))])
  {
    hide Run, Next, Enabled;
    RunTurn(s);
    RunOne(s, Writeable(true));
    TakesTheFirst(s);
    var a := Run(s, [Writeable(true)]);
    RunOne(a, Write(true));
    WriteSends(a);
    var b := Run(a, [Write(true)]);
    RunOne(b, Check);
    RunOne(Run(b, [Check]), Rearm);
    CheckRearms(b);
    assert (s.log + [Taken(First(s))]) + [Sent(First(s))] == s.log + [Taken(First(s)), Sent(First(s))];
  }

  /** The history of sending everything: the texts, then the binary messages, each in order. */
  function Wire(text: seq<bytes>, binary: seq<bytes>): seq<Occurrence>
    decreases |text| + |binary|
  {
    if text != [] then [Taken(Text(text[0])), Sent(Text(text[0]))] + Wire(text[1..], binary)
    else if binary != [] then [Taken(Binary(binary[0])), Sent(Binary(binary[0]))] + Wire([], binary[1..])
    else []
  }

  /** A connection without failures empties both queues, in one callback for each message. */
  lemma {:induction false} QueuesDrain(s: State)
    requires Ready(s)
    ensures Run(s, Turns(|s.text| + |s.binary|))
         == s.(text := [], binary := [], armed := s.armed && s.text == [] && s.binary == [],
               log := s.log + Wire(s.text, s.binary))
    decreases |s.text| + |s.binary|
  {
    hide Run, Turn;
    var n := |s.text| + |s.binary|;
    if n == 0 {
      RunEnds(s);
      assert s.log + [] == s.log;
    } else {
      RunBoth(s, Turn(), Turns(n - 1));
      OneTurn(s);
      var t := Run(s, Turn());
      QueuesDrain(t);
      var m := First(s);
      assert (s.log + [Taken(m), Sent(m)]) + Wire(t.text, t.binary)
          == s.log + ([Taken(m), Sent(m)] + Wire(t.text, t.binary));
    }
  }

  /** One message goes through: taken, and sent. */
  lemma Exchanged(log: seq<Occurrence>, m: Message)
    ensures var t := log + [Taken(m), Sent(m)];
      && Texts(t, OnWire) == Texts(log, OnWire) + TextOf(Sent(m), OnWire)
      && Binaries(t, OnWire) == Binaries(log, OnWire) + BinaryOf(Sent(m), OnWire)
  {
    hide Texts, Binaries;
    Logged(log, Taken(m));
    Logged(log + [Taken(m)], Sent(m));
    assert (log + [Taken(m)]) + [Sent(m)] == log + [Taken(m), Sent(m)];
    assert Texts(log, OnWire) + [] == Texts(log, OnWire);
    assert Binaries(log, OnWire) + [] == Binaries(log, OnWire);
  }

  lemma {:induction false} WireSends(log: seq<Occurrence>, text: seq<bytes>, binary: seq<bytes>)
    ensures Texts(log + Wire(text, binary), OnWire) == Texts(log, OnWire) + text
    ensures Binaries(log + Wire(text, binary), OnWire) == Binaries(log, OnWire) + binary
    decreases |text| + |binary|
  {
    hide Texts, Binaries;
    if text != [] {
      var m := Text(text[0]);
      Exchanged(log, m);
      WireSends(log + [Taken(m), Sent(m)], text[1..], binary);
      assert (log + [Taken(m), Sent(m)]) + Wire(text[1..], binary) == log + Wire(text, binary);
      assert (Texts(log, OnWire) + [text[0]]) + text[1..] == Texts(log, OnWire) + text;
    } else if binary != [] {
      var m := Binary(binary[0]);
      Exchanged(log, m);
      WireSends(log + [Taken(m), Sent(m)], [], binary[1..]);
      assert (log + [Taken(m), Sent(m)]) + Wire([], binary[1..]) == log + Wire(text, binary);
      assert (Binaries(log, OnWire) + [binary[0]]) + binary[1..] == Binaries(log, OnWire) + binary;
    } else {
      assert log + [] == log;
    }
  }

  // ---- from the first message to the wire ---------------------------------------------------------

  function QueueTexts(texts: seq<bytes>): seq<Step> {
    if texts == [] then []
    else QueueTexts(texts[..|texts| - 1]) + [Reserve(true), StoreText(texts[|texts| - 1]), SignalText]
  }

  function QueueBinaries(frames: seq<bytes>): seq<Step> {
    if frames == [] then []
    else QueueBinaries(frames[..|frames| - 1]) + [StoreBinary(frames[|frames| - 1]), SignalBinary]
  }

  /** Nothing is going on, and nothing has been sent or lost. */
  predicate Unsent(s: State, text: seq<bytes>, binary: seq<bytes>) {
    && s.text == text && s.binary == binary
    && s.textPhase == TextIdle && s.binaryPhase == BinaryIdle && s.net == NetIdle && !s.broken
    && Texts(s.log, OnWire) == [] && Binaries(s.log, OnWire) == []
  }

  lemma {:induction false} TextsAreQueued(s: State, texts: seq<bytes>)
    requires Inv(s) && Unsent(s, [], [])
    ensures Unsent(Run(s, QueueTexts(texts)), texts, [])
  {
    hide Run, Texts, Binaries, Inv;
    if texts == [] {
      RunEnds(s);
    } else {
      var front, last := texts[..|texts| - 1], texts[|texts| - 1];
      TextsAreQueued(s, front);
      RunBoth(s, QueueTexts(front), [Reserve(true), StoreText(last), SignalText]);
      var t := Run(s, QueueTexts(front));
      EveryRunIsSafe(s, QueueTexts(front));
      OneText(t, last);
      assert front + [last] == texts;
    }
  }

  lemma OneText(s: State, payload: bytes)
    requires Inv(s) && Unsent(s, s.text, [])
    ensures Unsent(Run(s, [Reserve(true), StoreText(payload), SignalText]), s.text + [payload], [])
  {
    hide Run, Texts, Binaries;
    assert [Reserve(true), StoreText(payload), SignalText] == [Reserve(true)] + ([StoreText(payload)] + [SignalText]);
    RunBoth(s, [Reserve(true)], [StoreText(payload)] + [SignalText]);
    RunOne(s, Reserve(true));
    ReserveIsExact(s, true);
    var a := Run(s, [Reserve(true)]);
    RunBoth(a, [StoreText(payload)], [SignalText]);
    RunOne(a, StoreText(payload));
    StoreAccepts(a, payload);
    Logged(a.log, Accepted(Text(payload)));
    RunOne(Run(a, [StoreText(payload)]), SignalText);
  }

  lemma {:induction false} BinariesAreQueued(s: State, frames: seq<bytes>)
    requires Inv(s) && Unsent(s, s.text, []) && |frames| <= 32
    requires forall f :: f in frames ==> 1 <= |f| <= 4096
    ensures Unsent(Run(s, QueueBinaries(frames)), s.text, frames)
  {
    hide Run, Texts, Binaries, Inv;
    if frames == [] {
      RunEnds(s);
    } else {
      var front, last := frames[..|frames| - 1], frames[|frames| - 1];
      BinariesAreQueued(s, front);
      RunBoth(s, QueueBinaries(front), [StoreBinary(last), SignalBinary]);
      EveryRunIsSafe(s, QueueBinaries(front));
      OneBinary(Run(s, QueueBinaries(front)), last);
      assert front + [last] == frames;
    }
  }

  lemma OneBinary(s: State, payload: bytes)
    requires Inv(s) && Unsent(s, s.text, s.binary) && 1 <= |payload| <= 4096 && |s.binary| < 32
    ensures Unsent(Run(s, [StoreBinary(payload), SignalBinary]), s.text, s.binary + [payload])
  {
    hide Run, Texts, Binaries;
    assert [StoreBinary(payload), SignalBinary] == [StoreBinary(payload)] + [SignalBinary];
    RunBoth(s, [StoreBinary(payload)], [SignalBinary]);
    RunOne(s, StoreBinary(payload));
    BinaryIsAccepted(s, payload);
    Logged(s.log, Accepted(Binary(payload)));
    RunOne(Run(s, [StoreBinary(payload)]), SignalBinary);
  }

  /** With memory and a connection that holds, all that was queued before it came up goes
      over it: any number of texts and up to 32 frames, in order. */
  lemma EverythingArrives(texts: seq<bytes>, frames: seq<bytes>)
    requires |frames| <= 32 && forall f :: f in frames ==> 1 <= |f| <= 4096
    ensures var t := Run(Start(), (QueueTexts(texts) + QueueBinaries(frames))
                                  + ([Establish, Greet] + Turns(|texts| + |frames|)));
      && Texts(t.log, OnWire) == texts && Binaries(t.log, OnWire) == frames
      && t.text == [] && t.binary == [] && !t.broken
  {
    hide Run, Inv, Texts, Binaries, Turns, QueueTexts, QueueBinaries;
    var ask := QueueTexts(texts) + QueueBinaries(frames);
    StartIsSafe();
    StartIsUnsent();
    TextsAreQueued(Start(), texts);
    RunBoth(Start(), QueueTexts(texts), QueueBinaries(frames));
    EveryRunIsSafe(Start(), QueueTexts(texts));
    BinariesAreQueued(Run(Start(), QueueTexts(texts)), frames);
    RunBoth(Start(), ask, [Establish, Greet] + Turns(|texts| + |frames|));
    AllIsSent(Run(Start(), ask), texts, frames);
  }

  lemma StartIsUnsent()
    ensures Unsent(Start(), [], [])
  {
  }

  lemma AllIsSent(s: State, texts: seq<bytes>, frames: seq<bytes>)
    requires Unsent(s, texts, frames)
    ensures var t := Run(s, [Establish, Greet] + Turns(|texts| + |frames|));
      && Texts(t.log, OnWire) == texts && Binaries(t.log, OnWire) == frames
      && t.text == [] && t.binary == [] && !t.broken
  {
    hide Run, Texts, Binaries, Wire, Turns;
    RunBoth(s, [Establish, Greet], Turns(|texts| + |frames|));
    ConnectionComesUp(s);
    QueuesDrain(s.(wsi := true, connected := true, armed := true));
    WireSends(s.log, texts, frames);
  }

  lemma WriteFails(s: State)
    requires s.net.Sending?
    ensures Enabled(s, Write(false))
    ensures var f := Next(s, Write(false));
      Enabled(f, Close)
      && Next(f, Close) == s.(net := NetIdle, wsi := false, connected := false, armed := false, broken := true)
  {
  }

  /** A write that fails loses the message in hand and no other, and ends the connection
      with both queues kept. */
  lemma FailureLosesOne(s: State)
    requires Ready(s) && (s.text != [] || s.binary != [])
    ensures Run(s, [Writeable(true), Write(false), Close])
         == Popped(s).(wsi := false, connected := false, armed := false,
                       log := s.log + [Taken(First(s))], broken := true)
  {
    hide Run, Next, Enabled;
    assert [Writeable(true), Write(false), Close] == [Writeable(true)] + ([Write(false)] + [Close]);
    RunBoth(s, [Writeable(true)], [Write(false)] + [Close]);
    RunOne(s, Writeable(true));
    TakesTheFirst(s);
    var a := Run(s, [Writeable(true)]);
    RunBoth(a, [Write(false)], [Close]);
    RunOne(a, Write(false));
    WriteFails(a);
    RunOne(Run(a, [Write(false)]), Close);
  }

  /** So does memory that is refused for the copy of a binary message. */
  lemma DenialLosesOne(s: State)
    requires Ready(s) && s.text == [] && s.binary != []
    ensures Run(s, [Writeable(false), Close])
         == s.(binary := s.binary[1..], wsi := false, connected := false, armed := false,
               log := s.log + [Taken(Binary(s.binary[0]))], broken := true)
  {
    hide Run;
    assert [Writeable(false), Close] == [Writeable(false)] + [Close];
    RunBoth(s, [Writeable(false)], [Close]);
    RunOne(s, Writeable(false));
    RunOne(Next(s, Writeable(false)), Close);
  }
}
