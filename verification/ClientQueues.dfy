/** The client's two queues and its flags in memory: one method for each locked section and
    each access between them. Every interleaving of these methods is a run of the step
    system, so that what is proved of runs holds of the arrays. */
module ClientQueues {
  import opened Bytes
  import AudioRing
  import opened Outgoing

  function Payloads(q: seq<AudioRing.Frame>): (p: seq<bytes>)
    ensures |p| == |q|
  {
    seq(|q|, i requires 0 <= i < |q| => q[i].data)
  }

  lemma PayloadsGrow(q: seq<AudioRing.Frame>, f: AudioRing.Frame)
    ensures Payloads(q + [f]) == Payloads(q) + [f.data]
  {
  }

  lemma PayloadsShrink(q: seq<AudioRing.Frame>)
    requires q != []
    ensures Payloads(q)[0] == q[0].data && Payloads(q[1..]) == Payloads(q)[1..]
  {
  }

  class Client {
    const texts: TextQueue
    const audio: AudioRing.AudioBuffer
    var wsi: bool
    var connected: bool

    // Where each thread stands, and what libwebsockets has been asked for.
    var textPhase: TextPhase
    var binaryPhase: BinaryPhase
    var net: NetPhase
    var armed: bool

    ghost var log: seq<Occurrence>
    ghost var broken: bool

    /** The queues are in order, and the step system's invariant holds. */
    ghost predicate Valid()
      reads this, texts, texts.items, audio, audio.blocks, audio.storage
    {
      Shaped() && Inv(Snapshot())
    }

    ghost predicate Shaped()
      reads this, texts, audio, audio.blocks
    {
      && texts.Valid() && audio.Valid()
      && audio.capacity == BINARY_SLOTS && audio.blockCapacity == BINARY_BLOCK
    }

    ghost function Pending(): (p: seq<bytes>)
      requires audio.Valid()
      reads audio, audio.blocks, audio.storage
    {
      Payloads(AudioRing.Queued(audio.Snapshot()))
    }

    ghost function Snapshot(): State
      requires Shaped()
      reads this, texts, texts.items, audio, audio.blocks, audio.storage
    {
      State(texts.items.Length, texts.Contents(), Pending(), textPhase, binaryPhase, net, wsi, connected, armed,
            log, broken)
    }

    constructor ()
      ensures Valid() && Snapshot() == Start()
      ensures fresh(texts) && fresh(texts.items) && fresh(audio) && fresh(audio.blocks) && fresh(audio.storage)
    {
      texts := new TextQueue();
      audio := new AudioRing.AudioBuffer(BINARY_SLOTS, BINARY_BLOCK);
      wsi, connected, armed, broken := false, false, false, false;
      textPhase, binaryPhase, net, log := TextIdle, BinaryIdle, NetIdle, [];
      new;
      StartIsSafe();
    }

    // ---- the text producer: xiaozhi_client_queue_text -------------------------------------------

    method ReserveText(granted: bool)
      requires Valid() && Enabled(Snapshot(), Reserve(granted))
      modifies this`textPhase, texts`items
      ensures Valid() && Snapshot() == Next(old(Snapshot()), Reserve(granted))
      ensures textPhase == Reserved <==> old(texts.count < texts.items.Length) || granted
      ensures texts.Contents() == old(texts.Contents())
      ensures texts.items == old(texts.items) || fresh(texts.items)
    {
      hide Inv, AudioRing.Queued;
      StepKeepsInv(Snapshot(), Reserve(granted));
      var rc := texts.EnsureTextCapacity(texts.count + 1, granted);
      if rc == 0 {
        textPhase := Reserved;
      }
    }

    /** The store that does not look at the capacity. */
    method AppendText(payload: bytes)
      requires Valid() && Enabled(Snapshot(), StoreText(payload))
      modifies this`textPhase, this`log, texts`count, texts.items
      ensures Valid() && Snapshot() == Next(old(Snapshot()), StoreText(payload))
      ensures texts.Contents() == old(texts.Contents()) + [payload]
    {
      hide Inv, AudioRing.Queued, Payloads;
      StepKeepsInv(Snapshot(), StoreText(payload));
      RoomIsReserved(Snapshot());
      texts.Append(payload);
      log := log + [Accepted(Text(payload))];
      textPhase := TextStored;
    }

    method GiveUpText()
      requires Valid() && Enabled(Snapshot(), CopyFails)
      modifies this`textPhase
      ensures Valid() && Snapshot() == Next(old(Snapshot()), CopyFails)
    {
      hide Inv, AudioRing.Queued, Payloads;
      StepKeepsInv(Snapshot(), CopyFails);
      textPhase := TextIdle;
    }

    /** xiaozhi_client_signal_writable, with the lock released. */
    method SignalForText()
      requires Valid() && Enabled(Snapshot(), SignalText)
      modifies this`textPhase, this`armed
      ensures Valid() && Snapshot() == Next(old(Snapshot()), SignalText)
    {
      hide Inv, AudioRing.Queued, Payloads;
      StepKeepsInv(Snapshot(), SignalText);
      if wsi {
        armed := true;
      }
      textPhase := TextIdle;
    }

    // ---- the binary producer: xiaozhi_client_queue_binary ---------------------------------------

    method AppendBinary(data: array<byte>, len: nat) returns (rc: int)
      requires Valid() && len <= data.Length && data != audio.storage
      requires Enabled(Snapshot(), StoreBinary(data[..len]))
      modifies this`binaryPhase, this`log, audio`tail, audio`count, audio.blocks, audio.storage
      ensures Valid() && Snapshot() == Next(old(Snapshot()), StoreBinary(old(data[..len])))
      ensures rc == 0 <==> 0 < len <= 4096 && |old(Pending())| < 32
      ensures Pending() == if rc == 0 then old(Pending()) + [old(data[..len])] else old(Pending())
    {
      hide Inv, AudioRing.Queued, AudioRing.Pushed, Payloads;
      ghost var payload, ring := data[..len], audio.Snapshot();
      ghost var frame := AudioRing.Frame(payload, 0);
      StepKeepsInv(Snapshot(), StoreBinary(payload));
      AudioRing.PushAppends(ring, frame);
      PayloadsGrow(AudioRing.Queued(ring), frame);
      if len == 0 {
        return -1;
      }
      rc := audio.Push(data, len, 0);
      if rc == 0 {
        log := log + [Accepted(Binary(payload))];
        binaryPhase := BinaryStored;
      }
    }

    method SignalForBinary()
      requires Valid() && Enabled(Snapshot(), SignalBinary)
      modifies this`binaryPhase, this`armed
      ensures Valid() && Snapshot() == Next(old(Snapshot()), SignalBinary)
    {
      hide Inv, AudioRing.Queued, Payloads;
      StepKeepsInv(Snapshot(), SignalBinary);
      if wsi {
        armed := true;
      }
      binaryPhase := BinaryIdle;
    }

    // ---- the network thread ------------------------------------------------------------------------

    /** lws_client_connect_via_info stores wsi before the connection is there. */
    method Connect()
      requires Valid() && Enabled(Snapshot(), Dial)
      modifies this`wsi
      ensures Valid() && Snapshot() == Next(old(Snapshot()), Dial)
    {
      hide Inv, AudioRing.Queued, Payloads;
      StepKeepsInv(Snapshot(), Dial);
      wsi := true;
    }

    /** The locked section of ESTABLISHED. */
    method OnEstablished()
      requires Valid() && Enabled(Snapshot(), Establish)
      modifies this`wsi, this`connected, this`net
      ensures Valid() && Snapshot() == Next(old(Snapshot()), Establish)
    {
      hide Inv, AudioRing.Queued, Payloads;
      StepKeepsInv(Snapshot(), Establish);
      wsi, connected, net := true, true, Greeting;
    }

    /** The end of ESTABLISHED, or of WRITEABLE with something left. */
    method AskForCallback()
      requires Valid() && (net == Greeting || net == Rearming)
      modifies this`armed, this`net
      ensures Valid() && Snapshot() == Next(old(Snapshot()), if old(net) == Greeting then Greet else Rearm)
    {
      hide Inv, AudioRing.Queued, Payloads;
      StepKeepsInv(Snapshot(), if net == Greeting then Greet else Rearm);
      armed, net := true, NetIdle;
    }

    /** pop_text_locked. */
    method TakeText() returns (found: bool)
      requires Shaped()
      modifies this`net, this`log, texts`count, texts.items
      ensures Shaped() && (found <==> old(texts.Contents()) != [])
      ensures var s := old(Snapshot());
        Snapshot() == if found then TakeOut(s.(text := s.text[1..]), Text(s.text[0])) else s
    {
      hide AudioRing.Queued, Payloads;
      var rc, text := texts.PopTextLocked();
      found := rc == 1;
      if found {
        net, log := Sending(Text(text)), log + [Taken(Text(text))];
      }
    }

    /** pop_binary_locked: a copy of the oldest block, if memory for it is granted. */
    method TakeBinary(granted: bool) returns (found: bool)
      requires Shaped()
      modifies this`net, this`log, this`broken, audio`head, audio`count
      ensures Shaped() && (found <==> old(Pending()) != [])
      ensures var s := old(Snapshot());
        found ==>
          var taking := TakeOut(s.(binary := s.binary[1..]), Binary(s.binary[0]));
          Snapshot() == if granted then taking else Failed(taking)
      ensures !found ==> Snapshot() == old(Snapshot())
    {
      hide AudioRing.Queued, AudioRing.Popped, Payloads;
      ghost var ring := audio.Snapshot();
      AudioRing.PopTakesTheOldest(ring);
      if Pending() != [] {
        PayloadsShrink(AudioRing.Queued(ring));
      }
      var rc, block := audio.Pop();
      found := rc == 1;
      if found {
        var payload := audio.storage[block.data..block.data + block.len];
        log := log + [Taken(Binary(payload))];
        if granted {
          net := Sending(Binary(payload));
        } else {
          broken, net := true, Closing;
        }
      }
    }

    /** The first locked section of WRITEABLE. */
    method OnWriteable(granted: bool)
      requires Valid() && Enabled(Snapshot(), Writeable(granted))
      modifies this`armed, this`net, this`log, this`broken
      modifies texts`count, texts.items, audio`head, audio`count
      ensures Valid() && Snapshot() == Next(old(Snapshot()), Writeable(granted))
    {
      hide Inv, Pending;
      StepKeepsInv(Snapshot(), Writeable(granted));
      armed := false;
      var found := TakeText();
      if !found {
        found := TakeBinary(granted);
      }
      if !found {
        net := Checking;
      }
    }

    /** lws_write. */
    method OnWritten(ok: bool)
      requires Valid() && Enabled(Snapshot(), Write(ok))
      modifies this`net, this`log, this`broken
      ensures Valid() && Snapshot() == Next(old(Snapshot()), Write(ok))
    {
      hide Inv, AudioRing.Queued, Payloads;
      StepKeepsInv(Snapshot(), Write(ok));
      if ok {
        log := log + [Sent(net.msg)];
        net := Checking;
      } else {
        broken, net := true, Closing;
      }
    }

    /** The second locked section of WRITEABLE. */
    method CheckPending()
      requires Valid() && Enabled(Snapshot(), Check)
      modifies this`net
      ensures Valid() && Snapshot() == Next(old(Snapshot()), Check)
    {
      hide Inv, AudioRing.Queued, Payloads;
      StepKeepsInv(Snapshot(), Check);
      var size := audio.Size();
      net := if texts.count > 0 || size > 0 then Rearming else NetIdle;
    }

    /** CLOSED, CONNECTION_ERROR, and the end of the network thread. */
    method Disconnect()
      requires Valid() && Enabled(Snapshot(), Close)
      modifies this`wsi, this`connected, this`armed, this`net
      ensures Valid() && Snapshot() == Next(old(Snapshot()), Close)
    {
      hide Inv, AudioRing.Queued, Payloads;
      StepKeepsInv(Snapshot(), Close);
      wsi, connected, armed, net := false, false, false, NetIdle;
    }

    // ---- every interleaving ------------------------------------------------------------------------

    method Perform(step: Step)
      requires Valid() && Enabled(Snapshot(), step)
      modifies this, texts, texts.items, audio, audio.blocks, audio.storage
      ensures Valid() && Snapshot() == Next(old(Snapshot()), step)
      ensures texts.items == old(texts.items) || fresh(texts.items)
    {
      hide Inv, Shaped, Next, Pending;
      match step {
        case Reserve(granted) => ReserveText(granted);
        case StoreText(payload) => AppendText(payload);
        case CopyFails => GiveUpText();
        case SignalText => SignalForText();
        case StoreBinary(payload) =>
          var data := new byte[|payload|](i requires 0 <= i < |payload| => payload[i]);
          assert data[..|payload|] == payload;
          var _ := AppendBinary(data, |payload|);
        case SignalBinary => SignalForBinary();
        case Dial => Connect();
        case Establish => OnEstablished();
        case Greet => AskForCallback();
        case Writeable(granted) => OnWriteable(granted);
        case Write(ok) => OnWritten(ok);
        case Check => CheckPending();
        case Rearm => AskForCallback();
        case Close => Disconnect();
        case Stop =>
          StopIsClose(Snapshot());
          Disconnect();
      }
    }

    /** Whatever the schedule of the three threads, no store leaves its array, and the
        queues end in the state that the step system reaches. */
    method Interleave(steps: seq<Step>)
      requires Shaped() && Snapshot() == Start()
      modifies this, texts, texts.items, audio, audio.blocks, audio.storage
      ensures Valid() && Snapshot() == Run(Start(), steps)
    {
      hide Inv, Shaped, Next, Pending, Run;
      StartIsSafe();
      for n := 0 to |steps|
        invariant Valid() && Run(Snapshot(), steps[n..]) == Run(Start(), steps)
        invariant texts.items == old(texts.items) || fresh(texts.items)
      {
        RunStep(Snapshot(), steps[n..]);
        if MayStep(textPhase, binaryPhase, net, wsi, connected, armed, steps[n]) {
          Perform(steps[n]);
        }
      }
      RunEnds(Snapshot());
    }
  }

  lemma StopIsClose(s: State)
    requires Enabled(s, Stop)
    ensures Enabled(s, Close) && Next(s, Stop) == Next(s, Close)
  {
  }

  lemma RoomIsReserved(s: State)
    requires Inv(s) && s.textPhase == Reserved
    ensures |s.text| < s.capacity
  {
  }
}
