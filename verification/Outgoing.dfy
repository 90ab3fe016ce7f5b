/** The outgoing queues of xiaozhi_client.c: a growing array of texts, the audio ring, and
    the interleaving of one text producer, one binary producer and the network thread. */
module Outgoing {
  import opened Bytes
  import opened Options

  // ---- the text queue in memory ----------------------------------------------------------------

  class TextQueue {
    var items: array<bytes>
    var count: nat

    ghost predicate Valid()
      reads this
    {
      count <= items.Length
    }

    ghost function Contents(): seq<bytes>
      requires Valid()
      reads this, items
    {
      items[..count]
    }

    constructor ()
      ensures Valid() && Contents() == [] && fresh(items) && items.Length == 0
    {
      items := new bytes[0];
      count := 0;
    }

    /** ensure_text_capacity: capacity doubles until it suffices. */
    method EnsureTextCapacity(needed: nat, granted: bool) returns (rc: int)
      requires Valid()
      modifies this`items
      ensures Valid() && Contents() == old(Contents()) && (items == old(items) || fresh(items))
      ensures rc == 0 <==> old(items.Length) >= needed || granted
      ensures rc == 0 ==> items.Length == GrownCapacity(old(items.Length), needed)
      ensures rc != 0 ==> rc == -1 && items == old(items)
    {
      if items.Length >= needed {
        return 0;
      }
      var newCapacity := if items.Length != 0 then items.Length * 2 else 4;
      while newCapacity < needed
        invariant newCapacity > items.Length
        invariant GrownCapacity(items.Length, needed) == Doubled(newCapacity, needed)
        decreases needed - newCapacity
      {
        newCapacity := newCapacity * 2;
      }
      if !granted {
        return -1;
      }
      var newItems := new bytes[newCapacity];
      for i := 0 to items.Length
        modifies newItems
        invariant newItems[..i] == items[..i]
      {
        newItems[i] := items[i];
      }
      assert newItems[..count] == items[..items.Length][..count];
      items := newItems;
      rc := 0;
    }

    /** The second locked section of queue_text, which does not look at the capacity. */
    method Append(payload: bytes)
      requires Valid() && count < items.Length
      modifies this`count, items
      ensures Valid() && Contents() == old(Contents()) + [payload]
    {
      items[count] := payload;
      count := count + 1;
    }

    /** queue_text when no other thread comes in between its locked sections. */
    method QueueText(payload: bytes, granted: bool, copied: bool) returns (rc: int)
      requires Valid()
      modifies this, items
      ensures Valid() && (rc == 0 <==> copied && (old(count < items.Length) || granted))
      ensures Contents() == if rc == 0 then old(Contents()) + [payload] else old(Contents())
    {
      rc := EnsureTextCapacity(count + 1, granted);
      if rc != 0 {
        return -1;
      }
      if !copied {
        return -1;
      }
      Append(payload);
    }

    /** pop_text_locked: the first text, and a memmove of the others. */
    method PopTextLocked() returns (rc: int, payload: bytes)
      requires Valid()
      modifies this`count, items
      ensures Valid() && rc == (if old(Contents()) == [] then 0 else 1)
      ensures rc == 0 ==> Contents() == []
      ensures rc == 1 ==> [payload] + Contents() == old(Contents())
    {
      payload := [];
      if count == 0 {
        return 0, payload;
      }
      payload := items[0];
      ghost var before := Contents();
      if count > 1 {
        for i := 1 to count
          modifies items
          invariant forall k :: 0 <= k < i - 1 ==> items[k] == before[k + 1]
          invariant forall k :: i - 1 <= k < count ==> items[k] == before[k]
        {
          items[i - 1] := items[i];
        }
      }
      count := count - 1;
      rc := 1;
    }
  }

  // ---- the interleaving ------------------------------------------------------------------------

  const BINARY_SLOTS: nat := 32
  const BINARY_BLOCK: nat := 4096

  /** Where the text producer stands in queue_text. */
  datatype TextPhase = TextIdle | Reserved | TextStored

  /** Where the binary producer stands in queue_binary. */
  datatype BinaryPhase = BinaryIdle | BinaryStored

  /** Where the network thread stands: outside its callbacks, between the locked section
      of ESTABLISHED and the request for a callback, between the two locked sections of
      WRITEABLE with a message in hand or without one, before the request that ends
      WRITEABLE, or between a callback that failed and the CLOSED that follows from it. */
  datatype NetPhase = NetIdle | Greeting | Sending(msg: Message) | Checking | Rearming | Closing

  datatype Message = Text(payload: bytes) | Binary(payload: bytes)

  /** What happens to messages: a queue accepts one, a callback takes it from its queue,
      and lws_write accepts it. */
  datatype Occurrence = Accepted(msg: Message) | Taken(msg: Message) | Sent(msg: Message)

  /** The shared state, and the history of all messages. broken: an allocation or a write
      has failed with a message in hand. */
  datatype State = State(
    capacity: nat, text: seq<bytes>, binary: seq<bytes>,
    textPhase: TextPhase, binaryPhase: BinaryPhase, net: NetPhase,
    wsi: bool, connected: bool, armed: bool,
    log: seq<Occurrence>, broken: bool)

  function Start(): State {
    State(0, [], [], TextIdle, BinaryIdle, NetIdle, false, false, false, [], false)
  }

  // The history, read as one list of payloads for each queue and stage.

  datatype Stage = Queued | Dequeued | OnWire

  function StageOf(o: Occurrence): Stage {
    match o
    case Accepted(_) => Queued
    case Taken(_) => Dequeued
    case Sent(_) => OnWire
  }

  function TextOf(o: Occurrence, stage: Stage): seq<bytes> {
    if StageOf(o) == stage && o.msg.Text? then [o.msg.payload] else []
  }

  function BinaryOf(o: Occurrence, stage: Stage): seq<bytes> {
    if StageOf(o) == stage && o.msg.Binary? then [o.msg.payload] else []
  }

  function Texts(log: seq<Occurrence>, stage: Stage): seq<bytes> {
    if log == [] then [] else Texts(log[..|log| - 1], stage) + TextOf(log[|log| - 1], stage)
  }

  function Binaries(log: seq<Occurrence>, stage: Stage): seq<bytes> {
    if log == [] then [] else Binaries(log[..|log| - 1], stage) + BinaryOf(log[|log| - 1], stage)
  }

  /** Whenever a binary message is taken, every text accepted before has been taken. */
  predicate TextGoesFirst(log: seq<Occurrence>) {
    log == [] ||
    var front, o := log[..|log| - 1], log[|log| - 1];
    && TextGoesFirst(front)
    && (o.Taken? && o.msg.Binary? ==> Texts(front, Queued) == Texts(front, Dequeued))
  }

  /** And, unless something failed, every text accepted before has been sent. */
  predicate TextIsSentFirst(log: seq<Occurrence>) {
    log == [] ||
    var front, o := log[..|log| - 1], log[|log| - 1];
    && TextIsSentFirst(front)
    && (o.Taken? && o.msg.Binary? ==> Texts(front, Queued) == Texts(front, OnWire))
  }

  /** A step is one locked section, or one access between them. */
  datatype Step =
    | Reserve(granted: bool)
    | StoreText(payload: bytes)
    | CopyFails
    | SignalText
    | StoreBinary(payload: bytes)
    | SignalBinary
    | Dial
    | Establish
    | Greet
    | Writeable(granted: bool)
    | Write(ok: bool)
    | Check
    | Rearm
    | Close
    | Stop

  function GrownCapacity(capacity: nat, needed: nat): (c: nat)
    ensures c >= needed && c >= capacity
  {
    if capacity >= needed then capacity else Doubled(if capacity != 0 then capacity * 2 else 4, needed)
  }

  function Doubled(c: nat, needed: nat): (d: nat)
    requires c > 0
    ensures d >= needed && d >= c
    decreases needed - c
  {
    if c >= needed then c else Doubled(2 * c, needed)
  }

  /** A thread takes the step that it stands before; libwebsockets calls back when asked. */
  predicate MayStep(textPhase: TextPhase, binaryPhase: BinaryPhase, net: NetPhase, wsi: bool, connected: bool,
                    armed: bool, step: Step)
  {
    match step
    case Reserve(_) => textPhase == TextIdle
    case StoreText(_) => textPhase == Reserved
    case CopyFails => textPhase == Reserved
    case SignalText => textPhase == TextStored
    case StoreBinary(_) => binaryPhase == BinaryIdle
    case SignalBinary => binaryPhase == BinaryStored
    case Dial => net == NetIdle && !wsi
    case Establish => net == NetIdle
    case Greet => net == Greeting
    case Writeable(_) => net == NetIdle && connected && armed
    case Write(_) => net.Sending?
    case Check => net == Checking
    case Rearm => net == Rearming
    case Close => net == NetIdle || net == Closing
    case Stop => net == NetIdle || net == Closing
  }

  predicate Enabled(s: State, step: Step) {
    MayStep(s.textPhase, s.binaryPhase, s.net, s.wsi, s.connected, s.armed, step)
  }

  function Log(s: State, o: Occurrence): State {
    s.(log := s.log + [o])
  }

  function Next(s: State, step: Step): State
    requires Enabled(s, step)
  {
    match step
    case Reserve(granted) =>
      // ensure_text_capacity under the lock
      if s.capacity > |s.text| then s.(textPhase := Reserved)
      else if granted then s.(capacity := GrownCapacity(s.capacity, |s.text| + 1), textPhase := Reserved)
      else s
    case StoreText(payload) =>
      Log(s.(text := s.text + [payload], textPhase := TextStored), Accepted(Text(payload)))
    case CopyFails => s.(textPhase := TextIdle)
    case SignalText => s.(armed := s.armed || s.wsi, textPhase := TextIdle)
    case StoreBinary(payload) =>
      if payload == [] || |payload| > BINARY_BLOCK || |s.binary| == BINARY_SLOTS then s
      else Log(s.(binary := s.binary + [payload], binaryPhase := BinaryStored), Accepted(Binary(payload)))
    case SignalBinary => s.(armed := s.armed || s.wsi, binaryPhase := BinaryIdle)
    case Dial => s.(wsi := true)
    case Establish => s.(wsi := true, connected := true, net := Greeting)
    case Greet => s.(armed := true, net := NetIdle)
    case Writeable(granted) =>
      // pop_text_locked, else pop_binary_locked
      var called := s.(armed := false);
      if s.text != [] then TakeOut(called.(text := s.text[1..]), Text(s.text[0]))
      else if s.binary != [] then
        var taking := TakeOut(called.(binary := s.binary[1..]), Binary(s.binary[0]));
        if granted then taking else Failed(taking)
      else called.(net := Checking)
    case Write(ok) => if ok then Log(s.(net := Checking), Sent(s.net.msg)) else Failed(s)
    case Check => if s.text != [] || s.binary != [] then s.(net := Rearming) else s.(net := NetIdle)
    case Rearm => s.(armed := true, net := NetIdle)
    case Close => Disconnected(s)
    case Stop => Disconnected(s)
  }

  function TakeOut(s: State, m: Message): State {
    Log(s.(net := Sending(m)), Taken(m))
  }

  /** The callback returns -1 and the message in hand is lost; the connection is still
      there until CLOSED. */
  function Failed(s: State): State {
    s.(broken := true, net := Closing)
  }

  /** CLOSED, CONNECTION_ERROR and the end of the network thread leave no connection. The
      queues are kept. */
  function Disconnected(s: State): State {
    s.(connected := false, wsi := false, armed := false, net := NetIdle)
  }

  function TextInHand(s: State): seq<bytes> {
    if s.net.Sending? && s.net.msg.Text? then [s.net.msg.payload] else []
  }

  function BinaryInHand(s: State): seq<bytes> {
    if s.net.Sending? && s.net.msg.Binary? then [s.net.msg.payload] else []
  }

  /** Some thread is on its way to ask for a writable callback. */
  predicate AboutToArm(s: State) {
    s.textPhase == TextStored || s.binaryPhase == BinaryStored
    || s.net.Greeting? || s.net.Sending? || s.net.Checking? || s.net.Rearming?
  }

  /** The store behind a capacity check stays in bounds, although the lock was released. */
  predicate InBounds(s: State) {
    && |s.text| <= s.capacity && (s.textPhase == Reserved ==> |s.text| < s.capacity)
    && |s.binary| <= BINARY_SLOTS
  }

  /** Each queue is first-in first-out: accepted = taken ++ pending, whatever fails. */
  predicate Fifo(s: State) {
    && Texts(s.log, Queued) == Texts(s.log, Dequeued) + s.text
    && Binaries(s.log, Queued) == Binaries(s.log, Dequeued) + s.binary
  }

  /** Absent failure, what was taken has been sent, but for the message in hand. */
  predicate Delivered(s: State) {
    !s.broken ==>
      && Texts(s.log, Dequeued) == Texts(s.log, OnWire) + TextInHand(s)
      && Binaries(s.log, Dequeued) == Binaries(s.log, OnWire) + BinaryInHand(s)
  }

  /** Control before audio, in the history. */
  predicate ControlFirst(s: State) {
    TextGoesFirst(s.log) && (!s.broken ==> TextIsSentFirst(s.log))
  }

  /** Pending work is never forgotten while connected, until a callback has failed. */
  predicate Attended(s: State) {
    && (s.connected ==> s.wsi)
    && (s.connected && s.net != Closing && (s.text != [] || s.binary != []) ==> s.armed || AboutToArm(s))
    && (!s.connected ==> s.net == NetIdle)
    && (s.net == Closing ==> s.broken)
  }

  predicate Inv(s: State) {
    InBounds(s) && Fifo(s) && Delivered(s) && ControlFirst(s) && Attended(s)
  }

  lemma StartIsSafe()
    ensures Inv(Start())
  {
  }

  /** What a step does to room. */
  lemma StepNeedsRoom(s: State, step: Step)
    requires Enabled(s, step) && |s.binary| <= BINARY_SLOTS
    ensures var t := Next(s, step);
      && t.capacity >= s.capacity && |t.binary| <= BINARY_SLOTS
      && (|t.text| <= |s.text| || (s.textPhase == Reserved && t.textPhase == TextStored && |t.text| == |s.text| + 1))
      && (t.textPhase == Reserved ==> s.textPhase == Reserved || t.capacity > |t.text|)
  {
    hide GrownCapacity, Doubled, Texts, Binaries;
    match step {
      case Reserve(_) =>
      case StoreText(_) =>
      case StoreBinary(_) =>
      case Writeable(_) =>
      case _ =>
    }
  }

  lemma StepStaysInBounds(s: State, step: Step)
    requires InBounds(s) && Enabled(s, step)
    ensures InBounds(Next(s, step))
  {
    hide Next, Enabled;
    StepNeedsRoom(s, step);
  }

  /** One more entry in the history. */
  lemma Logged(log: seq<Occurrence>, o: Occurrence)
    ensures forall stage :: Texts(log + [o], stage) == Texts(log, stage) + TextOf(o, stage)
    ensures forall stage :: Binaries(log + [o], stage) == Binaries(log, stage) + BinaryOf(o, stage)
    ensures TextGoesFirst(log + [o]) <==>
              TextGoesFirst(log) && (o.Taken? && o.msg.Binary? ==> Texts(log, Queued) == Texts(log, Dequeued))
    ensures TextIsSentFirst(log + [o]) <==>
              TextIsSentFirst(log) && (o.Taken? && o.msg.Binary? ==> Texts(log, Queued) == Texts(log, OnWire))
  {
    assert (log + [o])[..|log|] == log;
  }

  /** o is what has happened between s and s'. */
  predicate Happened(s: State, s': State, o: Occurrence) {
    && s'.log == s.log + [o]
    && match o
       case Accepted(Text(p)) => s'.text == s.text + [p] && s'.binary == s.binary
       case Accepted(Binary(p)) => s'.binary == s.binary + [p] && s'.text == s.text
       case Taken(Text(p)) => s.text == [p] + s'.text && s'.binary == s.binary
       case Taken(Binary(p)) => s.binary == [p] + s'.binary && s'.text == s.text && s.text == []
       case Sent(_) => s'.text == s.text && s'.binary == s.binary
  }

  predicate Silent(s: State, s': State) {
    s'.log == s.log && s'.text == s.text && s'.binary == s.binary
  }

  /** What a step does to messages. */
  function Effect(s: State, step: Step): Option<Occurrence> {
    match step
    case StoreText(payload) => Some(Accepted(Text(payload)))
    case StoreBinary(payload) =>
      if payload == [] || |payload| > BINARY_BLOCK || |s.binary| == BINARY_SLOTS then None
      else Some(Accepted(Binary(payload)))
    case Writeable(granted) =>
      if s.text != [] then Some(Taken(Text(s.text[0])))
      else if s.binary != [] then Some(Taken(Binary(s.binary[0])))
      else None
    case Write(ok) => if ok && s.net.Sending? then Some(Sent(s.net.msg)) else None
    case _ => None
  }

  lemma StepHasEffect(s: State, step: Step)
    requires Enabled(s, step)
    ensures match Effect(s, step)
            case None => Silent(s, Next(s, step))
            case Some(o) => Happened(s, Next(s, step), o)
  {
    hide GrownCapacity;
    if step.Writeable? {
      assert s.text != [] ==> s.text == [s.text[0]] + s.text[1..];
      assert s.binary != [] ==> s.binary == [s.binary[0]] + s.binary[1..];
    }
  }

  lemma FifoAfter(s: State, s': State, o: Occurrence)
    requires Fifo(s) && Happened(s, s', o)
    ensures Fifo(s')
  {
    hide Texts, Binaries;
    Logged(s.log, o);
    var gone := if o.msg.Text? then Texts(s.log, Dequeued) else Binaries(s.log, Dequeued);
    if o.Accepted? {
      var pending := if o.msg.Text? then s.text else s.binary;
      assert (gone + pending) + [o.msg.payload] == gone + (pending + [o.msg.payload]);
    } else if o.Taken? {
      var pending := if o.msg.Text? then s'.text else s'.binary;
      assert gone + ([o.msg.payload] + pending) == (gone + [o.msg.payload]) + pending;
    }
  }

  lemma StepStaysFifo(s: State, step: Step)
    requires Fifo(s) && Enabled(s, step)
    ensures Fifo(Next(s, step))
  {
    hide Next, Happened, Effect, Texts, Binaries;
    StepHasEffect(s, step);
    if Effect(s, step).Some? {
      FifoAfter(s, Next(s, step), Effect(s, step).value);
    }
  }

  /** What a step does to the message in hand. */
  lemma StepHands(s: State, step: Step)
    requires Enabled(s, step) && !Next(s, step).broken
    ensures !s.broken
    ensures var t := Next(s, step);
      match Effect(s, step)
      case Some(Taken(m)) => t.net == Sending(m) && !s.net.Sending?
      case Some(Sent(m)) => s.net == Sending(m) && !t.net.Sending?
      case _ => TextInHand(t) == TextInHand(s) && BinaryInHand(t) == BinaryInHand(s)
  {
    hide GrownCapacity;
  }

  lemma StepDelivers(s: State, step: Step)
    requires Delivered(s) && Enabled(s, step)
    ensures Delivered(Next(s, step))
  {
    hide Next, Effect, Texts, Binaries;
    StepHasEffect(s, step);
    var t := Next(s, step);
    if !t.broken {
      StepHands(s, step);
      if Effect(s, step).Some? {
        Logged(s.log, Effect(s, step).value);
      }
    }
  }

  lemma StepKeepsControlFirst(s: State, step: Step)
    requires Fifo(s) && Delivered(s) && ControlFirst(s) && Enabled(s, step)
    ensures ControlFirst(Next(s, step))
  {
    hide Next, Effect, Texts, Binaries, TextGoesFirst, TextIsSentFirst;
    StepHasEffect(s, step);
    if Effect(s, step).Some? {
      Logged(s.log, Effect(s, step).value);
    }
    if !Next(s, step).broken {
      StepHands(s, step);
    }
  }

  lemma StepAttends(s: State, step: Step)
    requires Attended(s) && Enabled(s, step)
    ensures Attended(Next(s, step))
  {
    hide GrownCapacity;
  }

  /** Every step of every thread keeps the invariant. */
  lemma StepKeepsInv(s: State, step: Step)
    requires Inv(s) && Enabled(s, step)
    ensures Inv(Next(s, step))
  {
    hide InBounds, Fifo, Delivered, ControlFirst, Attended, Next, Enabled;
    StepStaysInBounds(s, step);
    StepStaysFifo(s, step);
    StepDelivers(s, step);
    StepKeepsControlFirst(s, step);
    StepAttends(s, step);
  }

  /** A run applies the steps that are enabled; the others do not happen. */
  function Run(s: State, steps: seq<Step>): State
    decreases |steps|
  {
    if steps == [] then s
    else Run(if Enabled(s, steps[0]) then Next(s, steps[0]) else s, steps[1..])
  }

  lemma RunStep(s: State, steps: seq<Step>)
    requires steps != []
    ensures Run(s, steps) == Run(if Enabled(s, steps[0]) then Next(s, steps[0]) else s, steps[1..])
  {
  }

  lemma RunEnds(s: State)
    ensures Run(s, []) == s
  {
  }

  /** Safety of every interleaving: capacity, first-in first-out conservation for both
      queues, control before audio, and an armed callback whenever connected work is
      pending. */
  lemma {:induction false} EveryRunIsSafe(s: State, steps: seq<Step>)
    requires Inv(s)
    ensures Inv(Run(s, steps))
    decreases |steps|
  {
    if steps != [] {
      if Enabled(s, steps[0]) {
        StepKeepsInv(s, steps[0]);
        EveryRunIsSafe(Next(s, steps[0]), steps[1..]);
      } else {
        EveryRunIsSafe(s, steps[1..]);
      }
    }
  }

  /** What that means when no thread is in the middle of anything: absent failures
      accepted = sent ++ pending, and nothing is pending while connected and unarmed. */
  lemma AcceptedIsSentThenPending(steps: seq<Step>)
    ensures var s := Run(Start(), steps);
      && (!s.broken && !s.net.Sending? ==>
            && Texts(s.log, Queued) == Texts(s.log, OnWire) + s.text
            && Binaries(s.log, Queued) == Binaries(s.log, OnWire) + s.binary)
      && (s.connected && s.net == NetIdle && s.textPhase != TextStored && s.binaryPhase != BinaryStored && !s.armed ==>
            s.text == [] && s.binary == [])
  {
    hide Run, Texts, Binaries;
    StartIsSafe();
    EveryRunIsSafe(Start(), steps);
    var s := Run(Start(), steps);
    assert Texts(s.log, OnWire) + [] == Texts(s.log, OnWire);
    assert Binaries(s.log, OnWire) + [] == Binaries(s.log, OnWire);
  }

  lemma {:induction false} GoesFirstAt(log: seq<Occurrence>, i: nat)
    requires i < |log| && log[i].Taken? && log[i].msg.Binary?
    ensures TextGoesFirst(log) ==> Texts(log[..i], Queued) == Texts(log[..i], Dequeued)
    ensures TextIsSentFirst(log) ==> Texts(log[..i], Queued) == Texts(log[..i], OnWire)
    decreases |log|
  {
    if i < |log| - 1 {
      GoesFirstAt(log[..|log| - 1], i);
      assert log[..|log| - 1][..i] == log[..i];
    }
  }

  /** Control before audio, over every run: at each moment i at which a binary message is
      taken, every text accepted until then has been taken, and absent failures sent. */
  lemma AudioWaitsForControl(steps: seq<Step>, i: nat)
    requires var log := Run(Start(), steps).log; i < |log| && log[i].Taken? && log[i].msg.Binary?
    ensures var s := Run(Start(), steps);
      && Texts(s.log[..i], Queued) == Texts(s.log[..i], Dequeued)
      && (!s.broken ==> Texts(s.log[..i], Queued) == Texts(s.log[..i], OnWire))
  {
    hide Run, Texts;
    StartIsSafe();
    EveryRunIsSafe(Start(), steps);
    GoesFirstAt(Run(Start(), steps).log, i);
  }
}
