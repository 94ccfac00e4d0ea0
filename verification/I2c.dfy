/** The I2C reader: one SHTP packet rebuilt from 32-byte bus reads that each repeat a
    4-byte header. */
module I2c {
  import opened Basics
  import opened Reassembly

  const CHUNK := 32

  /** The hub's side of the bus. A read of n bytes returns a header and the next n - 4 bytes
      of the pending cargo, so a read of 4 bytes consumes nothing. The header's length field
      covers what is still to come; its continuation bit is free to be anything. */
  class Hub {
    const chan: byte
    const seqNo: byte
    const cargo: seq<byte>
    var pos: nat
    var bits: seq<bool>      // the continuation bits of the coming reads
    var failures: seq<bool>  // whether the coming reads fail; afterwards none does
    var failed: nat          // how many reads have failed

    constructor (chan: byte, seqNo: byte, cargo: seq<byte>, bits: seq<bool>, failures: seq<bool>)
      requires HEADER_LEN + |cargo| < LENGTH_MASK
      ensures Valid() && this.chan == chan && this.seqNo == seqNo && this.cargo == cargo
      ensures pos == 0 && this.bits == bits && this.failures == failures && failed == 0
    {
      this.chan, this.seqNo, this.cargo := chan, seqNo, cargo;
      this.pos, this.bits, this.failures, this.failed := 0, bits, failures, 0;
    }

    ghost predicate Valid()
      reads this
    {
      pos <= |cargo| && HEADER_LEN + |cargo| < LENGTH_MASK
    }

    function Pending(): Header
      reads this
      requires Valid()
    {
      Header(HEADER_LEN + |cargo| - pos, bits != [] && bits[0], chan, seqNo)
    }

    /** A read of at most 32 bytes; one that fails still moves the data on. */
    method Read(n: nat) returns (ok: bool, data: seq<byte>)
      requires Valid() && HEADER_LEN <= n <= HEADER_LEN + |cargo| - pos && n <= 32
      modifies this
      ensures Valid() && pos == old(pos) + n - HEADER_LEN
      ensures ok == (old(failures) == [] || !old(failures)[0])
      ensures failed == old(failed) + if ok then 0 else 1
      ensures failures == if old(failures) == [] then [] else old(failures)[1..]
      ensures data == EncodeHeader(old(Pending())) + cargo[old(pos)..pos]
    {
      ok := failures == [] || !failures[0];
      failed := failed + if ok then 0 else 1;
      data := EncodeHeader(Pending()) + cargo[pos..pos + n - HEADER_LEN];
      pos := pos + n - HEADER_LEN;
      bits := if bits == [] then [] else bits[1..];
      failures := if failures == [] then [] else failures[1..];
    }
  }

  /** Copies a slice into the buffer at an offset. */
  method CopyInto(buffer: array<byte>, at: nat, bytes: seq<byte>)
    requires at + |bytes| <= buffer.Length
    modifies buffer
    ensures buffer[..at + |bytes|] == old(buffer[..at]) + bytes
    ensures buffer[at + |bytes|..] == old(buffer[at + |bytes|..])
  {
    forall i | 0 <= i < |bytes| {
      buffer[at + i] := bytes[i];
    }
  }

  /** What a read of everything pending from the given place looks like. */
  ghost function Packet(hub: Hub, start: nat, bit: bool): (packet: seq<byte>)
    requires start <= |hub.cargo| && HEADER_LEN + |hub.cargo| < LENGTH_MASK
    ensures |packet| == HEADER_LEN + |hub.cargo| - start
  {
    EncodeHeader(Header(HEADER_LEN + |hub.cargo| - start, bit, hub.chan, hub.seqNo)) + hub.cargo[start..]
  }

  /** The useful part of a bus read continues the packet. */
  lemma PacketGrows(hub: Hub, start: nat, bit: bool, h: Header, at: nat, p: nat, n: nat, first: bool, data: seq<byte>)
    requires start <= p <= |hub.cargo| && HEADER_LEN + |hub.cargo| < LENGTH_MASK && ValidHeader(h)
    requires HEADER_LEN <= n <= HEADER_LEN + |hub.cargo| - p
    requires data == EncodeHeader(h) + hub.cargo[p..p + n - HEADER_LEN]
    requires if first then at == 0 && p == start && h == Header(HEADER_LEN + |hub.cargo| - start, bit, hub.chan, hub.seqNo)
             else HEADER_LEN <= at && p == start + at - HEADER_LEN
    ensures |data| == n
    ensures var packet, part := Packet(hub, start, bit), if first then data else data[HEADER_LEN..];
            at + |part| <= |packet| && packet[..at + |part|] == packet[..at] + part
  {
    hide EncodeHeader;
    var packet, part := Packet(hub, start, bit), if first then data else data[HEADER_LEN..];
    var tail := hub.cargo[start..];
    if first {
      assert packet == EncodeHeader(h) + tail;
      assert packet[..n] == EncodeHeader(h) + tail[..n - HEADER_LEN];
    } else {
      var from := at - HEADER_LEN;
      assert part == tail[from..from + |part|];
      assert packet[at..at + |part|] == tail[from..from + |part|];
      assert packet[..at + |part|] == packet[..at] + packet[at..at + |part|];
    }
  }

  /** A packet byte by byte: the length with its low byte first and the continuation bit on
      top, the channel, the sequence number, and what is pending of the cargo. */
  lemma PacketBytes(hub: Hub, start: nat, bit: bool)
    requires start <= |hub.cargo| && 4 + |hub.cargo| < 32768
    ensures var n := 4 + |hub.cargo| - start;
            Packet(hub, start, bit) ==
            [n % 256, n / 256 + (if bit then 128 else 0), hub.chan, hub.seqNo] + hub.cargo[start..]
  {
  }

  lemma PendingSize(h: Header)
    requires ValidHeader(h)
    ensures |EncodeHeader(h) + []| == HEADER_LEN && DecodeHeader(EncodeHeader(h) + []).length == h.length
  {
    HeaderRoundTrip(h, []);
  }

  /** Reads one packet. It returns 0 exactly when a bus read fails or the packet does not fit, and
      otherwise leaves in the buffer a header for, and the bytes of, all that was pending. */
  method ReadPacket(hub: Hub, buffer: array<byte>) returns (size: nat)
    requires hub.Valid()
    modifies hub, buffer
    ensures hub.Valid()
    ensures size == 0 || size == HEADER_LEN + |hub.cargo| - old(hub.pos) <= buffer.Length
    ensures size > 0 ==>
              && hub.pos == |hub.cargo|
              && exists bit :: buffer[..size] == Packet(hub, old(hub.pos), bit)
    ensures old(hub.failures) == [] ==> (size == 0 <==> HEADER_LEN + |hub.cargo| - old(hub.pos) > buffer.Length)
    ensures HEADER_LEN + |hub.cargo| - old(hub.pos) <= buffer.Length ==> (size == 0 <==> hub.failed > old(hub.failed))
    ensures size == 0 && HEADER_LEN + |hub.cargo| - old(hub.pos) > buffer.Length ==> hub.pos == old(hub.pos)
  {
    hide Packet, EncodeHeader, DecodeHeader;
    ghost var start := hub.pos;
    PendingSize(hub.Pending());
    var ok, header := hub.Read(HEADER_LEN);
    if !ok {
      return 0;
    }
    assert hub.cargo[start..hub.pos] == [];
    size := DecodeHeader(header).length;
    if size > buffer.Length {
      return 0;
    }
    ghost var bit := hub.Pending().continuation;
    var at, remaining, first := 0, size, true;
    while remaining > 0
      invariant hub.Valid() && at + remaining == size
      invariant first ==> at == 0 && hub.pos == start && hub.Pending().continuation == bit
      invariant !first ==> HEADER_LEN <= at && hub.pos == start + at - HEADER_LEN
      invariant buffer[..at] == Packet(hub, start, bit)[..at]
      invariant hub.failed == old(hub.failed) && (old(hub.failures) == [] ==> hub.failures == [])
    {
      var readSize := Min(CHUNK, remaining + (if first then 0 else HEADER_LEN));
      ghost var p, h := hub.pos, hub.Pending();
      var data;
      ok, data := hub.Read(readSize);
      if !ok {
        return 0;
      }
      PacketGrows(hub, start, bit, h, at, p, readSize, first, data);
      var part := if first then data else data[HEADER_LEN..];
      CopyInto(buffer, at, part);
      first := false;
      at, remaining := at + |part|, remaining - |part|;
    }
    assert Packet(hub, start, bit)[..size] == Packet(hub, start, bit);
  }

  /** A rebuilt packet is delivered at once, as one cargo, by a receiver that is idle,
      whatever its continuation bit and sequence number say; and the receiver is idle again. */
  lemma PacketDelivered(cargo: seq<byte>, bit: bool, chan: byte, seqNo: byte, t: u32, listeners: nat)
    requires HEADER_LEN + |cargo| <= MAX_PAYLOAD_IN && chan < Min(listeners, MAX_CHANNELS)
    ensures var packet := EncodeHeader(Header(HEADER_LEN + |cargo|, bit, chan, seqNo)) + cargo;
            Receive(Idle, packet, t, listeners) == Step(Idle, Some(Delivery(chan, cargo, t)), None)
  {
    var h := Header(HEADER_LEN + |cargo|, bit, chan, seqNo);
    HeaderRoundTrip(h, cargo);
    var packet := EncodeHeader(h) + cargo;
    assert packet[HEADER_LEN..Min(|packet|, h.length)] == cargo;
    assert [] + cargo == cargo;
  }

  /** From the bus to the listener: when a packet was read, the receiver hands over exactly
      the cargo that was pending, once. Without bus failures nothing of it is missing. */
  method ReadAndReceive(hub: Hub, buffer: array<byte>, t: u32, listeners: nat) returns (size: nat, step: Step)
    requires hub.Valid() && buffer.Length == MAX_PAYLOAD_IN && hub.chan < Min(listeners, MAX_CHANNELS)
    modifies hub, buffer
    ensures hub.Valid() && step.next == Idle && step.fault == None
    ensures size == 0 ==> step.delivered == None
    ensures size > 0 ==> step.delivered == Some(Delivery(hub.chan, hub.cargo[old(hub.pos)..], t)) && hub.pos == |hub.cargo|
    ensures old(hub.failures) == [] ==> (size > 0 <==> HEADER_LEN + |hub.cargo| - old(hub.pos) <= MAX_PAYLOAD_IN)
    ensures HEADER_LEN + |hub.cargo| - old(hub.pos) <= MAX_PAYLOAD_IN ==> (size == 0 <==> hub.failed > old(hub.failed))
  {
    size := ReadPacket(hub, buffer);
    if size == 0 {
      step := Step(Idle, None, None);
    } else {
      ghost var bit :| buffer[..size] == Packet(hub, old(hub.pos), bit);
      PacketDelivered(hub.cargo[old(hub.pos)..], bit, hub.chan, hub.seqNo, t, listeners);
      step := Receive(Idle, buffer[..size], t, listeners);
    }
  }
}
