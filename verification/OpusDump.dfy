/** The opus dump: app.c appends length-prefixed packets to a file, and
    tools/decode_opus_dump.c reads them back. */
module OpusDump {
  import opened Bytes

  const MAX_PACKET: nat := 65535

  /** Two bytes of length, low byte first, and the packet. */
  function Framed(packet: bytes): (f: bytes)
    requires |packet| <= MAX_PACKET
    ensures |f| == |packet| + 2
  {
    [(|packet| % 256) as byte, (|packet| / 256) as byte] + packet
  }

  /** The packets that app_write_opus_packet accepts. */
  predicate Writable(packet: bytes) {
    0 < |packet| <= MAX_PACKET
  }

  predicate AllWritable(packets: seq<bytes>) {
    forall i :: 0 <= i < |packets| ==> Writable(packets[i])
  }

  /** Two bytes of length suffice. */
  predicate AllFramable(packets: seq<bytes>) {
    forall i :: 0 <= i < |packets| ==> |packets[i]| <= 65535
  }

  /** The file after a sequence of packets. */
  function FramedAll(packets: seq<bytes>): bytes
    requires AllFramable(packets)
  {
    if packets == [] then [] else Framed(packets[0]) + FramedAll(packets[1..])
  }

  /** The length comes first, low byte first; then the packet. */
  lemma FrameIsLittleEndian(packet: bytes)
    requires |packet| <= 65535
    ensures var f := Framed(packet);
      |f| == 2 + |packet| && f[0] as int + 256 * f[1] as int == |packet| && f[2..] == packet
  {
  }

  class DumpFile {
    var data: bytes

    constructor ()
      ensures data == []
    {
      data := [];
    }

    /** fwrite on a disk that still takes room bytes. */
    method Write(bs: bytes, room: nat) returns (written: nat)
      modifies this
      ensures written == (if |bs| <= room then |bs| else room) && data == old(data) + bs[..written]
    {
      written := if |bs| <= room then |bs| else room;
      data := data + bs[..written];
    }
  }

  /** app_write_opus_packet. The disk may fill up at any byte: then part of the framed
      packet is in the file. */
  method WritePacket(file: DumpFile?, packet: bytes, room: nat) returns (rc: int)
    modifies file
    ensures rc == 0 <==> file != null && 1 <= |packet| <= 65535 && |packet| + 2 <= room
    ensures rc == 0 ==> file.data == old(file.data) + Framed(packet)
    ensures rc != 0 ==> rc == -1
    ensures rc != 0 && file != null ==>
      file.data == old(file.data) + if Writable(packet) then Framed(packet)[..room] else []
  {
    if |packet| == 0 || |packet| > 65535 {
      return -1;
    }
    var header := [(|packet| % 256) as byte, (|packet| / 256 % 256) as byte];
    if file == null {
      return -1;
    }
    var written := file.Write(header, room);
    if written != |header| {
      assert Framed(packet)[..room] == header[..written];
      return -1;
    }
    written := file.Write(packet, room - 2);
    if written != |packet| {
      assert Framed(packet)[..room] == header + packet[..written];
      return -1;
    }
    rc := 0;
    assert Framed(packet) == header + packet;
  }

  // ---- the reader ------------------------------------------------------------------------------

  function LengthAt(data: bytes): (n: nat)
    requires |data| >= 2
    ensures n <= MAX_PACKET
  {
    data[0] as nat + 256 * data[1] as nat
  }

  /** The packets that the reader decodes: whole ones, without the empty ones. */
  function Packets(data: bytes): seq<bytes>
    decreases |data|
  {
    if |data| < 2 then []
    else
      var n := LengthAt(data);
      if n == 0 then Packets(data[2..])
      else if |data| < 2 + n then []
      else [data[2..2 + n]] + Packets(data[2 + n..])
  }

  lemma HeaderIsReadBack(packet: bytes, rest: bytes)
    requires |packet| <= 65535
    ensures LengthAt(Framed(packet) + rest) == |packet|
    ensures (Framed(packet) + rest)[2..2 + |packet|] == packet
    ensures (Framed(packet) + rest)[2 + |packet|..] == rest
  {
  }

  /** Round trip: the reader recovers exactly the packets written. */
  lemma {:induction false} WrittenIsRead(packets: seq<bytes>)
    requires AllWritable(packets)
    ensures Packets(FramedAll(packets)) == packets
    decreases |packets|
  {
    if packets != [] {
      HeaderIsReadBack(packets[0], FramedAll(packets[1..]));
      WrittenIsRead(packets[1..]);
    }
  }

  function NonEmpty(packets: seq<bytes>): seq<bytes> {
    if packets == [] then []
    else (if packets[0] == [] then [] else [packets[0]]) + NonEmpty(packets[1..])
  }

  /** A frame that has been cut off, or nothing. */
  predicate Incomplete(tail: bytes) {
    |tail| < 2 || |tail| - 2 < tail[0] as int + 256 * tail[1] as int
  }

  /** Whatever a file holds, it is frames and an incomplete one, and the reader decodes
      the frames that are not empty. */
  lemma {:induction false} EveryFileIsFrames(data: bytes) returns (packets: seq<bytes>, tail: bytes)
    ensures AllFramable(packets) && Incomplete(tail) && data == FramedAll(packets) + tail
    ensures Packets(data) == NonEmpty(packets)
    decreases |data|
  {
    if Incomplete(data) {
      packets, tail := [], data;
    } else {
      var n := data[0] as nat + 256 * data[1] as nat;
      var p, rest := data[2..2 + n], data[2 + n..];
      var more;
      more, tail := EveryFileIsFrames(rest);
      packets := [p] + more;
      assert packets[1..] == more && packets[0] == p;
      FrameIs(data, n);
      assert data == (Framed(p) + FramedAll(more)) + tail;
      if n > 0 {
        assert p != [] && NonEmpty(packets) == [p] + NonEmpty(more);
      } else {
        assert NonEmpty(packets) == NonEmpty(more);
      }
    }
  }

  lemma FrameIs(data: bytes, n: nat)
    requires |data| >= 2 + n && n == data[0] as int + 256 * data[1] as int
    ensures n <= 65535 && data == Framed(data[2..2 + n]) + data[2 + n..]
  {
  }

  /** The packets that lie wholly within the first n bytes of the file. */
  function Whole(packets: seq<bytes>, n: nat): seq<bytes> {
    if packets == [] || |packets[0]| + 2 > n then [] else [packets[0]] + Whole(packets[1..], n - (|packets[0]| + 2))
  }

  /** Truncation: from any prefix of the file exactly the whole packets are recovered. */
  lemma {:induction false} TruncationIsRead(packets: seq<bytes>, n: nat)
    requires AllWritable(packets) && n <= |FramedAll(packets)|
    ensures Packets(FramedAll(packets)[..n]) == Whole(packets, n)
    decreases |packets|
  {
    if packets != [] {
      var p, rest := packets[0], FramedAll(packets[1..]);
      var cut := FramedAll(packets)[..n];
      HeaderIsReadBack(p, rest);
      if |p| + 2 <= n {
        var m := n - (|p| + 2);
        assert cut == Framed(p) + rest[..m];
        HeaderIsReadBack(p, rest[..m]);
        TruncationIsRead(packets[1..], m);
      } else if n >= 2 {
        assert LengthAt(cut) == LengthAt(FramedAll(packets));
      }
    }
  }

  /** Those are the first k packets for the largest k whose frames fit in n bytes. */
  lemma {:induction false} WholeIsLongest(packets: seq<bytes>, n: nat)
    requires AllWritable(packets)
    ensures var whole := Whole(packets, n);
      && |whole| <= |packets| && whole == packets[..|whole|] && |FramedAll(whole)| <= n
      && (|whole| < |packets| ==> n < |FramedAll(packets[..|whole| + 1])|)
    decreases |packets|
  {
    var k := |Whole(packets, n)|;
    if packets != [] && |packets[0]| + 2 <= n {
      WholeIsLongest(packets[1..], n - (|packets[0]| + 2));
      assert packets[..k][1..] == packets[1..][..k - 1];
      assert k < |packets| ==> packets[..k + 1][1..] == packets[1..][..k];
    }
  }

  /** One turn of the reader, at offset at. */
  lemma PacketsTurn(input: bytes, at: nat)
    requires at <= |input|
    ensures at + 2 > |input| ==> Packets(input[at..]) == []
    ensures at + 2 <= |input| ==>
      var n := LengthAt(input[at..at + 2]);
      Packets(input[at..]) ==
        if n == 0 then Packets(input[at + 2..])
        else if at + 2 + n > |input| then []
        else [input[at + 2..at + 2 + n]] + Packets(input[at + 2 + n..])
  {
    var rest := input[at..];
    if |rest| >= 2 {
      var n := LengthAt(rest);
      assert rest[2..] == input[at + 2..];
      if 2 + n <= |rest| {
        assert rest[2..2 + n] == input[at + 2..at + 2 + n] && rest[2 + n..] == input[at + 2 + n..];
      }
    }
  }

  lemma Associate(a: seq<bytes>, p: bytes, b: seq<bytes>)
    ensures a + ([p] + b) == (a + [p]) + b
    ensures a + [] == a
  {
  }

  /** The loop of the decoder's main. memory is the largest packet buffer that realloc
      can provide; the result is every packet handed to opus_decode. */
  method ReadPackets(input: bytes, memory: nat) returns (packets: seq<bytes>, ok: bool)
    ensures ok ==> packets == Packets(input)
    ensures memory >= MAX_PACKET ==> ok
    ensures packets <= Packets(input)
  {
    hide Packets;
    packets, ok := [], true;
    var packet := new byte[0];
    var at := 0;
    assert input[0..] == input;
    while at + 2 <= |input|
      invariant 0 <= at <= |input| && fresh(packet)
      invariant packets + Packets(input[at..]) == Packets(input)
      decreases |input| - at
    {
      PacketsTurn(input, at);
      var header := input[at..at + 2];
      var packetLen := header[0] as nat + 256 * header[1] as nat;
      at := at + 2;
      if packetLen == 0 {
        continue;
      }
      if packetLen > packet.Length {
        if packetLen > memory {
          return packets, false;
        }
        packet := new byte[packetLen];
      }
      if at + packetLen > |input| {
        Associate(packets, [], []);
        return packets, true;
      }
      var payload := FillPacket(packet, input, at, packetLen);
      at := at + packetLen;
      Associate(packets, payload, Packets(input[at..]));
      packets := packets + [payload];
    }
    PacketsTurn(input, at);
    Associate(packets, [], []);
  }

  /** fread of one packet into the shared packet buffer. */
  method FillPacket(packet: array<byte>, input: bytes, at: nat, n: nat) returns (payload: bytes)
    requires n <= packet.Length && at + n <= |input|
    modifies packet
    ensures payload == input[at..at + n]
  {
    for i := 0 to n
      invariant packet[..i] == input[at..at + i]
    {
      packet[i] := input[at + i];
    }
    payload := packet[..n];
  }
}
