/** audio_buffer.c: a ring of fixed slots in one slab. pop hands out a block that still
    points into the slab. */
module AudioRing {
  import opened Bytes

  // ---- the ring as a value ---------------------------------------------------------------

  /** The bytes and the sample rate of one block. */
  datatype Frame = Frame(data: bytes, rate: int)

  /** What the slots hold, stale ones included, and where the queue is. */
  datatype Ring = Ring(slots: seq<Frame>, head: nat, count: nat)

  ghost predicate Sound(r: Ring) {
    r.head < |r.slots| && r.count <= |r.slots|
  }

  function Tail(r: Ring): nat
    requires r.slots != []
  {
    (r.head + r.count) % |r.slots|
  }

  function Pushed(r: Ring, f: Frame): Ring
    requires r.slots != []
  {
    if r.count == |r.slots| then r else Ring(r.slots[Tail(r) := f], r.head, r.count + 1)
  }

  function Popped(r: Ring): Ring
    requires r.slots != []
  {
    if r.count == 0 then r else Ring(r.slots, (r.head + 1) % |r.slots|, r.count - 1)
  }

  /** The queue, oldest first. */
  function Queued(r: Ring): (q: seq<Frame>)
    requires r.slots != []
    ensures |q| == r.count
  {
    seq(r.count, i requires 0 <= i => r.slots[(r.head + i) % |r.slots|])
  }

  lemma WrapsOnce(a: nat, n: nat)
    requires a < 2 * n
    ensures n > 0 && a % n == if a < n then a else a - n
  {
    if a >= n {
      assert a == 1 * n + (a - n);
    }
  }

  /** The ring is a bounded first-in first-out queue. */
  lemma PushAppends(r: Ring, f: Frame)
    requires Sound(r)
    ensures Sound(Pushed(r, f))
    ensures Queued(Pushed(r, f)) == if r.count < |r.slots| then Queued(r) + [f] else Queued(r)
  {
    var n := |r.slots|;
    if r.count < n {
      var q := Queued(Pushed(r, f));
      WrapsOnce(r.head + r.count, n);
      forall i | 0 <= i < r.count
        ensures q[i] == Queued(r)[i]
      {
        WrapsOnce(r.head + i, n);
      }
    }
  }

  lemma PopTakesTheOldest(r: Ring)
    requires Sound(r)
    ensures Sound(Popped(r))
    ensures Queued(Popped(r)) == if r.count > 0 then Queued(r)[1..] else []
    ensures r.count > 0 ==> Queued(r)[0] == r.slots[r.head]
  {
    var n := |r.slots|;
    WrapsOnce(r.head, n);
    if r.count > 0 {
      var q := Queued(Popped(r));
      WrapsOnce(r.head + 1, n);
      forall i | 0 <= i < r.count - 1
        ensures q[i] == Queued(r)[1..][i]
      {
        WrapsOnce(r.head + 1 + i, n);
        WrapsOnce((r.head + 1) % n + i, n);
      }
    }
  }

  // ---- how long a popped block keeps its bytes ---------------------------------------------

  datatype Op = PushOp(f: Frame) | PopOp

  function Apply(r: Ring, op: Op): (s: Ring)
    requires r.slots != []
    ensures |s.slots| == |r.slots|
  {
    match op
    case PushOp(f) => Pushed(r, f)
    case PopOp => Popped(r)
  }

  function Run(r: Ring, ops: seq<Op>): (s: Ring)
    requires r.slots != []
    ensures |s.slots| == |r.slots|
    decreases |ops|
  {
    if ops == [] then r else Run(Apply(r, ops[0]), ops[1..])
  }

  predicate Succeeds(r: Ring, op: Op) {
    op.PushOp? && r.count < |r.slots|
  }

  /** The number of pushes among ops that find room. */
  function Pushes(r: Ring, ops: seq<Op>): nat
    requires r.slots != []
    decreases |ops|
  {
    if ops == [] then 0
    else (if Succeeds(r, ops[0]) then 1 else 0) + Pushes(Apply(r, ops[0]), ops[1..])
  }

  /** Pops do not move the tail, a successful push moves it by one slot. */
  lemma TailMoves(r: Ring, op: Op)
    requires Sound(r)
    ensures Sound(Apply(r, op))
    ensures Tail(Apply(r, op)) == if Succeeds(r, op) then (Tail(r) + 1) % |r.slots| else Tail(r)
  {
    var n := |r.slots|;
    WrapsOnce(r.head + r.count, n);
    WrapsOnce(r.head + 1, n);
    WrapsOnce(Tail(r) + 1, n);
    match op {
      case PushOp(_) =>
        if r.count < n {
          WrapsOnce(r.head + r.count + 1, n);
        }
      case PopOp =>
        if r.count > 0 {
          WrapsOnce((r.head + 1) % n + (r.count - 1), n);
        }
    }
  }

  /** p lies room slots ahead of the tail. A run with no more successful pushes than that
      leaves slot p alone, however many pops it has, and brings the tail that much closer. */
  lemma {:induction false} SlotSurvives(r: Ring, p: nat, room: nat, ops: seq<Op>)
    requires Sound(r) && p < |r.slots| && room < |r.slots| && (Tail(r) + room) % |r.slots| == p
    requires Pushes(r, ops) <= room
    ensures Sound(Run(r, ops)) && Run(r, ops).slots[p] == r.slots[p]
    ensures (Tail(Run(r, ops)) + (room - Pushes(r, ops))) % |r.slots| == p
    decreases |ops|
  {
    if ops != [] {
      var n, s := |r.slots|, Apply(r, ops[0]);
      TailMoves(r, ops[0]);
      if Succeeds(r, ops[0]) {
        assert Tail(r) < n;
        WrapsOnce(Tail(r) + room, n);
        WrapsOnce(Tail(r) + 1, n);
        WrapsOnce(Tail(s) + (room - 1), n);
        SlotSurvives(s, p, room - 1, ops[1..]);
      } else {
        SlotSurvives(s, p, room, ops[1..]);
      }
    }
  }

  /** The block popped from r keeps its bytes through exactly the next
      capacity - count - 1 successful pushes, count taken just after the pop, whatever pops
      come in between; the successful push after those is the first to reuse its slot. */
  lemma PoppedBlockIsReusedExactly(r: Ring, ops: seq<Op>, f: Frame)
    requires Sound(r) && r.count > 0
    requires Pushes(Popped(r), ops) <= |r.slots| - Popped(r).count - 1
    ensures var s := Run(Popped(r), ops);
      && Sound(s) && s.slots[r.head] == r.slots[r.head]
      && (Tail(s) == r.head <==> Pushes(Popped(r), ops) == |r.slots| - Popped(r).count - 1)
      && (Succeeds(s, PushOp(f)) && Tail(s) == r.head ==> Pushed(s, f).slots[r.head] == f)
  {
    hide Run, Pushes, Queued;
    var n, q := |r.slots|, Popped(r);
    var room := n - q.count - 1;
    PopTakesTheOldest(r);
    WrapsOnce(r.head + 1, n);
    WrapsOnce(q.head + q.count, n);
    WrapsOnce(Tail(q) + room, n);
    SlotSurvives(q, r.head, room, ops);
    var s := Run(q, ops);
    WrapsOnce(s.head + s.count, n);
    WrapsOnce(Tail(s) + (room - Pushes(q, ops)), n);
  }

  // ---- the ring in memory --------------------------------------------------------------------

  /** audio_block_t: data is an offset into the slab. */
  datatype Block = Block(data: nat, len: nat, rate: int)

  class AudioBuffer {
    const capacity: nat
    const blockCapacity: nat
    const blocks: array<Block>
    const storage: array<byte>
    var head: nat
    var tail: nat
    var count: nat

    /** A block's slot is its own stretch of the slab. */
    ghost predicate SlotOf(b: Block, i: nat) {
      b.data == i * blockCapacity && b.len <= blockCapacity && b.data + blockCapacity <= storage.Length
    }

    ghost predicate Partitioned()
      reads blocks
    {
      && capacity > 0 && blockCapacity > 0
      && blocks.Length == capacity && storage.Length == capacity * blockCapacity
      && forall i :: 0 <= i < capacity ==> SlotOf(blocks[i], i)
    }

    ghost predicate Valid()
      reads this, blocks
    {
      Partitioned() && head < capacity && count <= capacity && tail == (head + count) % capacity
    }

    /** The bytes that a block points to. */
    ghost function BytesOf(b: Block): bytes
      requires b.data + b.len <= storage.Length
      reads storage
    {
      storage[b.data..b.data + b.len]
    }

    ghost function Slots(): (s: seq<Frame>)
      requires Partitioned()
      ensures |s| == capacity
      reads blocks, storage
    {
      seq(capacity, i requires 0 <= i < capacity && Partitioned() reads blocks, storage =>
            Frame(BytesOf(blocks[i]), blocks[i].rate))
    }

    ghost function Snapshot(): (r: Ring)
      requires Valid()
      ensures Sound(r)
      reads this, blocks, storage
    {
      Ring(Slots(), head, count)
    }

    constructor (capacity: nat, blockCapacity: nat)
      requires capacity > 0 && blockCapacity > 0
      ensures Valid() && this.capacity == capacity && this.blockCapacity == blockCapacity
      ensures fresh(blocks) && fresh(storage) && Queued(Snapshot()) == []
    {
      this.capacity, this.blockCapacity := capacity, blockCapacity;
      head, tail, count := 0, 0, 0;
      storage := new byte[capacity * blockCapacity](_ => 0);
      blocks := new Block[capacity](i => Block(0, 0, 0));
      new;
      for i := 0 to capacity
        modifies blocks
        invariant forall k :: 0 <= k < i ==> SlotOf(blocks[k], k)
      {
        assert (i + 1) * blockCapacity <= capacity * blockCapacity;
        blocks[i] := Block(i * blockCapacity, 0, 0);
      }
    }

    /** audio_buffer_init: null for a ring without room, or without memory. */
    static method Init(capacity: nat, blockCapacity: nat, granted: bool) returns (buffer: AudioBuffer?)
      ensures buffer != null <==> capacity > 0 && blockCapacity > 0 && granted
      ensures buffer != null ==> fresh(buffer) && fresh(buffer.blocks) && fresh(buffer.storage) && buffer.Valid()
      ensures buffer != null ==> buffer.capacity == capacity && buffer.blockCapacity == blockCapacity
      ensures buffer != null ==> Queued(buffer.Snapshot()) == []
    {
      if capacity == 0 || blockCapacity == 0 || !granted {
        return null;
      }
      buffer := new AudioBuffer(capacity, blockCapacity);
    }

    /** The memcpy. */
    method CopyIn(at: nat, data: array<byte>, len: nat)
      requires len <= data.Length && at + len <= storage.Length && data != storage
      modifies storage
      ensures storage[at..at + len] == data[..len]
      ensures forall k :: 0 <= k < storage.Length && !(at <= k < at + len) ==> storage[k] == old(storage[k])
    {
      for i := 0 to len
        modifies storage
        invariant forall k :: 0 <= k < i ==> storage[at + k] == data[k]
        invariant forall k :: 0 <= k < storage.Length && !(at <= k < at + i) ==> storage[k] == old(storage[k])
      {
        storage[at + i] := data[i];
      }
    }

    /** A block is written to its own slot only. */
    method Fill(t: nat, data: array<byte>, len: nat, rate: int)
      requires Partitioned() && t < capacity && len <= data.Length && len <= blockCapacity && data != storage
      modifies blocks, storage
      ensures Partitioned() && Slots() == old(Slots())[t := Frame(data[..len], rate)]
    {
      ghost var before, filled := Slots(), Frame(data[..len], rate);
      var at := blocks[t].data;
      SlotsApart(t);
      CopyIn(at, data, len);
      blocks[t] := Block(at, len, rate);
      forall i | 0 <= i < capacity
        ensures Slots()[i] == before[t := filled][i]
      {
        if i == t {
          assert BytesOf(blocks[i]) == data[..len];
        } else {
          assert BytesOf(blocks[i]) == old(BytesOf(blocks[i]));
        }
      }
    }

    /** -1 when the block is too large or the ring full, and then nothing changes. */
    method Push(data: array?<byte>, len: nat, rate: int) returns (rc: int)
      requires Valid() && (data != null ==> len <= data.Length && data != storage)
      modifies this`tail, this`count, blocks, storage
      ensures Valid() && (rc == 0 || rc == -1)
      ensures rc == 0 <==> data != null && len <= blockCapacity && old(count) < capacity
      ensures rc == -1 ==> Snapshot() == old(Snapshot())
      ensures rc == 0 ==> Snapshot() == Pushed(old(Snapshot()), Frame(data[..len], rate))
    {
      hide Partitioned, Slots;
      if data == null || len > blockCapacity || count == capacity {
        return -1;
      }
      TailMoves(Snapshot(), PushOp(Frame(data[..len], rate)));
      Fill(tail, data, len, rate);
      tail := (tail + 1) % capacity;
      count := count + 1;
      rc := 0;
    }

    lemma SlotsApart(t: nat)
      requires Partitioned() && t < capacity
      ensures forall i :: 0 <= i < capacity && i < t ==> blocks[i].data + blockCapacity <= blocks[t].data
      ensures forall i :: 0 <= i < capacity && i > t ==> blocks[t].data + blockCapacity <= blocks[i].data
    {
      forall i | 0 <= i < capacity
        ensures i < t ==> blocks[i].data + blockCapacity <= blocks[t].data
        ensures i > t ==> blocks[t].data + blockCapacity <= blocks[i].data
      {
        assert i < t ==> (i + 1) * blockCapacity <= t * blockCapacity;
        assert i > t ==> (t + 1) * blockCapacity <= i * blockCapacity;
      }
    }

    /** The oldest block, which still points into the slab: see PoppedBlockIsReusedExactly. */
    method Pop() returns (rc: int, block: Block)
      requires Valid()
      modifies this`head, this`count
      ensures Valid() && rc == (if old(count) > 0 then 1 else 0)
      ensures Snapshot() == Popped(old(Snapshot()))
      ensures rc == 1 ==> block == blocks[old(head)] && SlotOf(block, old(head))
      ensures rc == 1 ==> Frame(BytesOf(block), block.rate) == Slots()[old(head)] == Queued(old(Snapshot()))[0]
    {
      hide Queued;
      block := Block(0, 0, 0);
      if count == 0 {
        return 0, block;
      }
      PopTakesTheOldest(Snapshot());
      TailMoves(Snapshot(), PopOp);
      block := blocks[head];
      head := (head + 1) % capacity;
      count := count - 1;
      rc := 1;
    }

    /** The block that Pop returned still points to the bytes it had then, as long as the
        slot it came from is unchanged. */
    twostate lemma SlotKeepsBlock(block: Block)
      requires old(Valid()) && Valid() && block == old(blocks[head])
      requires Slots()[old(head)] == old(Slots()[head])
      ensures block.data + block.len <= storage.Length && BytesOf(block) == old(BytesOf(block))
      ensures BytesOf(block) == old(Slots()[head]).data
    {
      var now := blocks[old(head)];
      assert SlotOf(now, old(head)) && old(SlotOf(blocks[head], head));
      assert BytesOf(now) == old(BytesOf(blocks[head]));
      assert |BytesOf(now)| == now.len && |old(BytesOf(block))| == block.len;
    }

    /** So the aliased block is good through the next capacity - count - 1 successful
        pushes, count taken just after the pop, with any pops in between. */
    twostate lemma PoppedBlockKeepsItsBytes(block: Block, ops: seq<Op>)
      requires old(Valid()) && Valid() && old(count) > 0 && block == old(blocks[head])
      requires Snapshot() == Run(Popped(old(Snapshot())), ops)
      requires Pushes(Popped(old(Snapshot())), ops) <= capacity - Popped(old(Snapshot())).count - 1
      ensures block.data + block.len <= storage.Length && BytesOf(block) == old(BytesOf(block))
      ensures BytesOf(block) == Queued(old(Snapshot()))[0].data
    {
      hide Run, Pushes, Queued, Popped, Partitioned, Slots;
      PoppedBlockIsReusedExactly(old(Snapshot()), ops, Frame([], 0));
      PopTakesTheOldest(old(Snapshot()));
      SlotKeepsBlock(block);
    }

    method Size() returns (n: nat)
      requires Valid()
      ensures n == |Queued(Snapshot())|
    {
      n := count;
    }
  }
}
