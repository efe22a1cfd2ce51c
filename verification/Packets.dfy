/**
 * Packet framing (writePacket, readPacket, packetBuffer and releasePacketBuffer in
 * pkg/mysqlmock/protocol_codec.go): three bytes of length, a sequence number, the payload.
 */
module Packets {
  import opened WireBytes

  const MAX_PAYLOAD: nat := 0x100_0000
  const MAX_RETAINED: nat := 0x1_0000

  /** A payload the writer takes. */
  predicate Sendable(payload: Bytes) {
    |payload| < MAX_PAYLOAD
  }

  function Frame(number: Byte, payload: Bytes): Bytes
    requires Sendable(payload)
  {
    Le(|payload|, 3) + ([number] + payload)
  }

  function Next(number: Byte): Byte {
    (number + 1) % 0x100
  }

  datatype Reading = Incomplete | Packet(payload: Bytes, number: Byte, rest: Bytes)

  /** readPacket, on the bytes that have yet to be read. */
  function ReadPacket(input: Bytes): (r: Reading)
    ensures r.Packet? ==> |r.rest| < |input|
  {
    if |input| < 4 then Incomplete
    else
      var length := FromLe(input[..3]);
      if |input| < 4 + length then Incomplete
      else Packet(input[4..4 + length], input[3], input[4 + length..])
  }

  /** The server's reader takes a packet whole, with its number, and touches nothing that follows it. */
  lemma ReadPacketBack(number: Byte, payload: Bytes, rest: Bytes)
    requires Sendable(payload)
    ensures ReadPacket(Frame(number, payload) + rest) == Packet(payload, number, rest)
  {
    hide Le, FromLe;
    Powers();
    LeRoundTrip(|payload|, 3);
    var input := Frame(number, payload) + rest;
    assert input[..3] == Le(|payload|, 3);
    assert input[3] == number;
    assert input[4..4 + |payload|] == payload;
    assert input[4 + |payload|..] == rest;
  }

  // ---------------------------------------------------------------------------------------------
  // The client's reader
  // ---------------------------------------------------------------------------------------------

  /** A payload that leaves room in its length field; after a full one a client waits for the rest. */
  predicate OnePacket(payload: Bytes) {
    |payload| < 0xff_ffff
  }

  /** A payload, the bytes that follow it, and the number due next. */
  datatype Receipt = Missing | Receipt(payload: Bytes, rest: Bytes, number: Byte)

  /**
   * The next payload as the Client/Server Protocol defines it ("MySQL Packets", sending more than
   * 16 MB): a packet whose length field is full is continued by the packet that follows it.
   */
  function Receive(input: Bytes, number: Byte): (r: Receipt)
    ensures r.Receipt? ==> |r.rest| < |input|
    decreases |input|
  {
    var p := ReadPacket(input);
    if p.Incomplete? || p.number != number then Missing
    else if OnePacket(p.payload) then Receipt(p.payload, p.rest, Next(number))
    else Continue(p.payload, Receive(p.rest, Next(number)))
  }

  function Continue(payload: Bytes, later: Receipt): Receipt {
    if later.Missing? then Missing else later.(payload := payload + later.payload)
  }

  /** A client takes the packet for what it is exactly when its length field is not full. */
  lemma FrameRoundTrip(number: Byte, payload: Bytes, rest: Bytes)
    requires Sendable(payload)
    ensures Receive(Frame(number, payload) + rest, number) == Receipt(payload, rest, Next(number)) <==> OnePacket(payload)
  {
    hide Frame, ReadPacket;
    ReadPacketBack(number, payload, rest);
  }

  /**
   * The writer sends a payload of 2^24 - 1 bytes as one packet.  A client takes the payload that
   * follows for its continuation, and waits for one as long as there is none.
   */
  lemma FullPacketSwallowsNext(number: Byte, payload: Bytes, next: Bytes, rest: Bytes)
    requires |payload| == 0xff_ffff && OnePacket(next)
    ensures Sendable(payload) && Receive(Frame(number, payload), number).Missing?
    ensures Receive(Frame(number, payload) + (Frame(Next(number), next) + rest), number)
         == Receipt(payload + next, rest, Next(Next(number)))
  {
    hide Frame;
    assert Frame(number, payload) + [] == Frame(number, payload);
    assert Receive([], Next(number)).Missing?;
    hide ReadPacket;
    ReadPacketBack(number, payload, []);
    ReadPacketBack(number, payload, Frame(Next(number), next) + rest);
    ReadPacketBack(Next(number), next, rest);
  }

  /** The packets of a list of payloads, numbered from `number` on, up to the first one refused. */
  function Sent(payloads: seq<Bytes>, number: Byte): Bytes {
    if payloads == [] || !Sendable(payloads[0]) then []
    else Frame(number, payloads[0]) + Sent(payloads[1..], Next(number))
  }

  predicate AllSendable(payloads: seq<Bytes>) {
    forall p :: p in payloads ==> Sendable(p)
  }

  predicate AllOnePacket(payloads: seq<Bytes>) {
    forall p :: p in payloads ==> OnePacket(p)
  }

  function After(number: Byte, count: nat): Byte {
    (number + count) % 0x100
  }

  /** A connection's writing side: the bytes handed to the network and the buffer kept for reuse. */
  class PacketWriter {
    var packetBuf: array<Byte>
    var written: Bytes

    ghost predicate Valid()
      reads this
    {
      packetBuf.Length <= MAX_RETAINED
    }

    constructor ()
      ensures Valid() && written == [] && fresh(packetBuf)
    {
      packetBuf := new Byte[0];
      written := [];
    }

    /** The kept buffer if it is large enough, a new one otherwise. */
    method PacketBuffer(size: nat) returns (packet: array<Byte>)
      requires Valid()
      ensures packet.Length >= size
      ensures packet == packetBuf || (fresh(packet) && packet.Length == size)
    {
      if packetBuf.Length < size {
        packet := new Byte[size](_ => 0);
      } else {
        packet := packetBuf;
      }
    }

    /** Keeps the buffer unless it has grown too large. */
    method ReleasePacketBuffer(packet: array<Byte>)
      modifies this`packetBuf
      ensures Valid()
      ensures if packet.Length <= 65_536 then packetBuf == packet else fresh(packetBuf) && packetBuf.Length == 0
    {
      if packet.Length > MAX_RETAINED {
        packetBuf := new Byte[0];
      } else {
        packetBuf := packet;
      }
    }

    /** Whatever the reused buffer held, exactly the packet is written; a payload of 2^24 bytes or more is refused. */
    method WritePacket(number: Byte, payload: Bytes) returns (ok: bool)
      requires Valid()
      modifies this, packetBuf
      ensures Valid() && (packetBuf == old(packetBuf) || fresh(packetBuf))
      ensures ok <==> Sendable(payload)
      ensures written == if ok then old(written) + Frame(number, payload) else old(written)
    {
      hide Le;
      if |payload| >= MAX_PAYLOAD {
        return false;
      }
      var packetLen := 4 + |payload|;
      var packet := PacketBuffer(packetLen);
      LeShort(|payload|);
      packet[0] := |payload| % 0x100;
      packet[1] := (|payload| / 0x100) % 0x100;
      packet[2] := (|payload| / 0x1_0000) % 0x100;
      packet[3] := number;
      var i := 0;
      while i < |payload|
        invariant 0 <= i <= |payload|
        invariant packet[..4] == Le(|payload|, 3) + [number]
        invariant forall j :: 0 <= j < i ==> packet[4 + j] == payload[j]
        invariant written == old(written)
      {
        packet[4 + i] := payload[i];
        i := i + 1;
      }
      assert packet[4..packetLen] == payload;
      assert packet[..packetLen] == packet[..4] + packet[4..packetLen] == Frame(number, payload);
      written := written + packet[..packetLen];
      ReleasePacketBuffer(packet);
      ok := true;
    }
  }
}
