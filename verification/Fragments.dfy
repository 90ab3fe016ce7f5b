/** Reassembly of fragmented binary messages in xiaozhi_client.c. */
module Fragments {
  import opened Bytes

  const BUFFER_SIZE: nat := 4096

  /** What has been received of the current message, and the messages delivered so far. */
  datatype Receiver = Receiver(pending: bytes, delivered: seq<bytes>)

  predicate Acceptable(r: Receiver, payload: bytes) {
    payload != [] && |r.pending| + |payload| <= BUFFER_SIZE
  }

  function Feed(r: Receiver, payload: bytes, final: bool): Receiver {
    if payload == [] then r
    else if !Acceptable(r, payload) then Receiver([], r.delivered)
    else if !final then Receiver(r.pending + payload, r.delivered)
    else Receiver([], r.delivered + [r.pending + payload])
  }

  class Client {
    const recvBinary: array<byte>
    var recvBinaryLen: nat
    ghost var delivered: seq<bytes>

    ghost predicate Valid()
      reads this
    {
      recvBinary.Length == BUFFER_SIZE && recvBinaryLen <= BUFFER_SIZE
    }

    ghost function Snapshot(): Receiver
      requires Valid()
      reads this, recvBinary
    {
      Receiver(recvBinary[..recvBinaryLen], delivered)
    }

    constructor ()
      ensures Valid() && fresh(recvBinary) && Snapshot() == Receiver([], [])
    {
      recvBinary := new byte[BUFFER_SIZE](_ => 0);
      recvBinaryLen, delivered := 0, [];
    }

    /** The on_binary callback. */
    method OnBinary(n: nat)
      requires Valid() && n <= BUFFER_SIZE
      modifies this`delivered
      ensures delivered == old(delivered) + [recvBinary[..n]]
    {
      delivered := delivered + [recvBinary[..n]];
    }

    /** xiaozhi_client_feed_binary_fragment. A message that outgrows the buffer is dropped. */
    method FeedBinaryFragment(payload: bytes, isFinal: bool) returns (rc: int)
      requires Valid()
      modifies this, recvBinary
      ensures Valid() && Snapshot() == Feed(old(Snapshot()), payload, isFinal)
      ensures rc == if payload != [] && old(recvBinaryLen) + |payload| <= 4096 then 0 else -1
    {
      if |payload| == 0 {
        return -1;
      }
      if recvBinaryLen + |payload| > recvBinary.Length {
        recvBinaryLen := 0;
        return -1;
      }
      ghost var before := Snapshot();
      for i := 0 to |payload|
        modifies recvBinary
        invariant recvBinary[..recvBinaryLen + i] == before.pending + payload[..i]
      {
        recvBinary[recvBinaryLen + i] := payload[i];
      }
      assert payload[..|payload|] == payload;
      recvBinaryLen := recvBinaryLen + |payload|;
      if !isFinal {
        return 0;
      }
      OnBinary(recvBinaryLen);
      recvBinaryLen := 0;
      rc := 0;
    }
  }

  // ---- whole messages --------------------------------------------------------------------------

  function Concat(pieces: seq<bytes>): bytes {
    if pieces == [] then [] else pieces[0] + Concat(pieces[1..])
  }

  predicate Pieces(pieces: seq<bytes>) {
    forall i :: 0 <= i < |pieces| ==> pieces[i] != []
  }

  /** A message of up to 4096 bytes, cut into one or more non-empty pieces. */
  predicate IsSplit(pieces: seq<bytes>) {
    pieces != [] && Pieces(pieces) && |Concat(pieces)| <= 4096
  }

  function FeedMessage(r: Receiver, pieces: seq<bytes>): Receiver
    decreases |pieces|
  {
    if pieces == [] then r else FeedMessage(Feed(r, pieces[0], |pieces| == 1), pieces[1..])
  }

  function FeedAll(r: Receiver, messages: seq<seq<bytes>>): Receiver
    decreases |messages|
  {
    if messages == [] then r else FeedAll(FeedMessage(r, messages[0]), messages[1..])
  }

  function Wholes(messages: seq<seq<bytes>>): seq<bytes> {
    if messages == [] then [] else [Concat(messages[0])] + Wholes(messages[1..])
  }

  lemma {:induction false} RestIsDelivered(r: Receiver, pieces: seq<bytes>)
    requires pieces != [] && Pieces(pieces) && |r.pending| + |Concat(pieces)| <= 4096
    ensures FeedMessage(r, pieces) == Receiver([], r.delivered + [r.pending + Concat(pieces)])
    decreases |pieces|
  {
    var rest := pieces[1..];
    if rest == [] {
      assert Concat(pieces) == pieces[0] + [] == pieces[0];
    } else {
      var s := Feed(r, pieces[0], false);
      RestIsDelivered(s, rest);
      assert s.pending + Concat(rest) == r.pending + Concat(pieces);
    }
  }

  /** However each message is cut into non-empty fragments, on_binary gets exactly the
      messages, in order, and nothing is pending in between. */
  lemma {:induction false} MessagesAreDelivered(r: Receiver, messages: seq<seq<bytes>>)
    requires r.pending == [] && forall i :: 0 <= i < |messages| ==> IsSplit(messages[i])
    ensures FeedAll(r, messages) == Receiver([], r.delivered + Wholes(messages))
    decreases |messages|
  {
    hide FeedMessage, Feed, Concat, Pieces;
    if messages == [] {
      assert r.delivered + [] == r.delivered;
    } else {
      RestIsDelivered(r, messages[0]);
      var s := FeedMessage(r, messages[0]);
      assert [] + Concat(messages[0]) == Concat(messages[0]);
      MessagesAreDelivered(s, messages[1..]);
      assert (r.delivered + [Concat(messages[0])]) + Wholes(messages[1..]) == r.delivered + Wholes(messages);
    }
  }

  // ---- what is lost --------------------------------------------------------------------------------

  lemma {:induction false} FeedBoth(r: Receiver, front: seq<bytes>, back: seq<bytes>)
    requires back != []
    ensures FeedMessage(r, front + back) == FeedMessage(FeedOpen(r, front), back)
    decreases |front|
  {
    if front == [] {
      assert front + back == back;
    } else {
      assert (front + back)[1..] == front[1..] + back;
      FeedBoth(Feed(r, front[0], false), front[1..], back);
    }
  }

  /** Fragments that others follow. */
  function FeedOpen(r: Receiver, pieces: seq<bytes>): Receiver
    decreases |pieces|
  {
    if pieces == [] then r else FeedOpen(Feed(r, pieces[0], false), pieces[1..])
  }

  lemma {:induction false} OpenIsPending(r: Receiver, pieces: seq<bytes>)
    requires Pieces(pieces) && |r.pending| + |Concat(pieces)| <= 4096
    ensures FeedOpen(r, pieces) == Receiver(r.pending + Concat(pieces), r.delivered)
    decreases |pieces|
  {
    if pieces == [] {
      assert r.pending + [] == r.pending;
    } else {
      var s := Feed(r, pieces[0], false);
      OpenIsPending(s, pieces[1..]);
      assert s.pending + Concat(pieces[1..]) == r.pending + Concat(pieces);
    }
  }

  /** A message that outgrows 4096 bytes loses what has been received of it, together with
      the fragment that does not fit. The rest is taken for a message. */
  lemma OversizedLosesItsFront(r: Receiver, front: seq<bytes>, big: bytes, rest: seq<bytes>)
    requires r.pending == [] && Pieces(front + rest) && |Concat(front)| <= 4096 && |Concat(rest)| <= 4096
    requires big != [] && |Concat(front)| + |big| > 4096
    ensures FeedMessage(r, front + [big] + rest)
         == Receiver([], if rest == [] then r.delivered else r.delivered + [Concat(rest)])
  {
    hide FeedMessage, FeedOpen, Feed, Concat, Pieces;
    PiecesSplit(front, rest);
    assert front + [big] + rest == front + ([big] + rest);
    FeedBoth(r, front, [big] + rest);
    OpenIsPending(r, front);
    assert [] + Concat(front) == Concat(front);
    OversizedIsDropped(Receiver(Concat(front), r.delivered), big, rest);
    if rest != [] {
      RestIsDelivered(Receiver([], r.delivered), rest);
      assert [] + Concat(rest) == Concat(rest);
    }
  }

  lemma PiecesSplit(a: seq<bytes>, b: seq<bytes>)
    requires Pieces(a + b)
    ensures Pieces(a) && Pieces(b)
  {
    assert forall i :: 0 <= i < |a| ==> (a + b)[i] == a[i];
    assert forall i :: 0 <= i < |b| ==> (a + b)[|a| + i] == b[i];
  }

  lemma OversizedIsDropped(r: Receiver, big: bytes, rest: seq<bytes>)
    requires big != [] && |r.pending| + |big| > 4096
    ensures FeedMessage(r, [big] + rest)
         == if rest == [] then Receiver([], r.delivered) else FeedMessage(Receiver([], r.delivered), rest)
  {
    assert ([big] + rest)[1..] == rest;
  }

  /** A message that an empty fragment ends is not delivered. The next one is glued to it. */
  lemma EmptyEndGlues(r: Receiver, pieces: seq<bytes>, next: seq<bytes>)
    requires r.pending == [] && Pieces(pieces + next) && next != []
    requires |Concat(pieces)| + |Concat(next)| <= 4096
    ensures FeedMessage(FeedMessage(r, pieces + [[]]), next)
         == Receiver([], r.delivered + [Concat(pieces) + Concat(next)])
  {
    hide FeedMessage;
    PiecesSplit(pieces, next);
    FeedBoth(r, pieces, [[]]);
    OpenIsPending(r, pieces);
    EmptyChangesNothing(FeedOpen(r, pieces));
    RestIsDelivered(FeedOpen(r, pieces), next);
    assert [] + Concat(pieces) == Concat(pieces);
  }

  lemma EmptyChangesNothing(r: Receiver)
    ensures FeedMessage(r, [[]]) == r
  {
  }
}
