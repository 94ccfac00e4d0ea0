/** The SHTP transfer header and the receive state machine of rxAssemble, with what it
    guarantees for transfers that were interleaved over channels and partly lost. */
module Reassembly {
  import opened Basics

  const HEADER_LEN := 4
  const MAX_CHANNELS := 8
  const MAX_PAYLOAD_IN := 384
  const LENGTH_MASK := 0x8000

  datatype Header = Header(length: int, continuation: bool, chan: byte, seqNo: byte)

  predicate ValidHeader(h: Header) {
    0 <= h.length < LENGTH_MASK
  }

  function EncodeHeader(h: Header): (bytes: seq<byte>)
    requires ValidHeader(h)
    ensures |bytes| == HEADER_LEN
  {
    [h.length % 0x100,
     h.length / 0x100 + (if h.continuation then 0x80 else 0),
     h.chan,
     h.seqNo]
  }

  function DecodeHeader(bytes: seq<byte>): (h: Header)
    requires |bytes| >= HEADER_LEN
    ensures ValidHeader(h)
  {
    Header((bytes[0] + bytes[1] * 0x100) % LENGTH_MASK, bytes[1] >= 0x80, bytes[2], bytes[3])
  }

  /** What the header encodes is read back, whatever follows it in the transfer. */
  lemma HeaderRoundTrip(h: Header, body: seq<byte>)
    requires ValidHeader(h)
    ensures DecodeHeader(EncodeHeader(h) + body) == h
  {
    var bytes := EncodeHeader(h) + body;
    assert bytes[0] == h.length % 0x100 && bytes[2] == h.chan && bytes[3] == h.seqNo;
    assert bytes[1] == h.length / 0x100 + (if h.continuation then 0x80 else 0);
    assert bytes[0] + (h.length / 0x100) * 0x100 == h.length;
    if h.continuation {
      var low: int, high: int := bytes[0], bytes[1];
      assert low + high * 0x100 == h.length + LENGTH_MASK;
    }
  }

  /** The header on the wire, byte by byte: the length with its low byte first, its top bit
      marking a continuation, the channel, the sequence number. */
  lemma WireFormat(low: byte, high: byte, chan: byte, seqNo: byte, rest: seq<byte>)
    requires high < 128
    ensures DecodeHeader([low, high, chan, seqNo] + rest) == Header(low + 256 * high, false, chan, seqNo)
    ensures DecodeHeader([low, high + 128, chan, seqNo] + rest) == Header(low + 256 * high, true, chan, seqNo)
    ensures EncodeHeader(Header(low + 256 * high, false, chan, seqNo)) == [low, high, chan, seqNo]
    ensures EncodeHeader(Header(low + 256 * high, true, chan, seqNo)) == [low, high + 128, chan, seqNo]
  {
    HighByte(low, high);
    var plain, marked := [low, high, chan, seqNo] + rest, [low, high + 128, chan, seqNo] + rest;
    assert plain[0] == marked[0] == low && plain[1] == high && marked[1] == high + 128;
    assert plain[2] == marked[2] == chan && plain[3] == marked[3] == seqNo;
  }

  lemma HighByte(low: byte, high: byte)
    requires high < 128
    ensures (low + 256 * high) % 256 == low && (low + 256 * high) / 256 == high
    ensures (low + 256 * high) % 32768 == low + 256 * high && (low + 256 * (high + 128)) % 32768 == low + 256 * high
  {
  }

  // ---------------------------------------------------------------- receiver

  /** The receive side of the driver state. Between deliveries only the sequence number
      expected on the channel being assembled matters, so one number replaces the table. */
  datatype Assembly =
    | Idle
    | Partial(chan: byte, nextSeq: byte, remaining: nat, data: seq<byte>, timestamp: u32)

  datatype Delivery = Delivery(chan: byte, payload: seq<byte>, timestamp: u32)

  datatype Fault = ShortTransfer | ShortLength | BadChannel | TooLarge

  datatype Step = Step(next: Assembly, delivered: Option<Delivery>, fault: Option<Fault>)

  /** The transfer extends the assembly in progress. */
  predicate Continues(a: Assembly, h: Header) {
    a.Partial? && h.continuation && h.chan == a.chan && h.seqNo == a.nextSeq
  }

  /** One received transfer, as rxAssemble handles it. */
  function Receive(a: Assembly, transfer: seq<byte>, t: u32, listeners: nat): Step {
    if |transfer| < HEADER_LEN then
      Step(a, None, Some(ShortTransfer))
    else
      var h := DecodeHeader(transfer);
      if h.length < HEADER_LEN then
        Step(a, None, Some(ShortLength))
      else
        Process(a, h, transfer[HEADER_LEN..Min(|transfer|, h.length)], t, listeners)
  }

  /** The same after the header was read and the unused end of the transfer cut off. */
  function Process(a: Assembly, h: Header, body: seq<byte>, t: u32, listeners: nat): Step
    requires HEADER_LEN + |body| <= h.length
  {
    if h.chan >= MAX_CHANNELS || h.chan >= listeners then
      Step(a, None, Some(BadChannel))
    else if !Continues(a, h) && h.length > MAX_PAYLOAD_IN then
      Step(Idle, None, Some(TooLarge))
    else
      var data := (if Continues(a, h) then a.data else []) + body;
      var stamp := if Continues(a, h) then a.timestamp else t;
      var remaining := h.length - HEADER_LEN - |body|;
      if remaining == 0 then
        Step(Idle, Some(Delivery(h.chan, data, stamp)), None)
      else
        Step(Partial(h.chan, Next(h.seqNo), remaining, data, stamp), None, None)
  }

  /** The receiver on the bytes of a transfer. In this order: no header, a length below 4 and
      a channel that is not listened to are rejected without touching the assembly; a
      transfer that does not continue the assembly drops it; a new cargo of more than 384
      bytes is refused; anything else adds its bytes, up to the length, and what is still to
      come decides between delivery and waiting. */
  lemma ReceiveOnBytes(a: Assembly, transfer: seq<byte>, t: u32, listeners: nat)
    ensures |transfer| < 4 ==> Receive(a, transfer, t, listeners) == Step(a, None, Some(ShortTransfer))
    ensures |transfer| >= 4 ==>
              var len := ((transfer[0] as int) + 256 * (transfer[1] as int)) % 32768;
              var joins := && a.Partial? && transfer[1] >= 128
                             && transfer[2] == a.chan && transfer[3] == a.nextSeq;
              var used := if |transfer| < len then |transfer| else len;
              if len < 4 then
                Receive(a, transfer, t, listeners) == Step(a, None, Some(ShortLength))
              else if transfer[2] >= 8 || transfer[2] >= listeners then
                Receive(a, transfer, t, listeners) == Step(a, None, Some(BadChannel))
              else if !joins && len > 384 then
                Receive(a, transfer, t, listeners) == Step(Idle, None, Some(TooLarge))
              else
                var data := (if joins then a.data else []) + transfer[4..used];
                var stamp := if joins then a.timestamp else t;
                Receive(a, transfer, t, listeners) ==
                  if used == len then Step(Idle, Some(Delivery(transfer[2], data, stamp)), None)
                  else Step(Partial(transfer[2], ((transfer[3] as int) + 1) % 256, len - used, data, stamp), None, None)
  {
  }

  /** The bytes of the transfer fit behind those already assembled. The code copies them
      unchecked, so this is what it demands of the device. */
  predicate Fits(a: Assembly, transfer: seq<byte>) {
    |transfer| >= HEADER_LEN ==>
      var h := DecodeHeader(transfer);
      h.length >= HEADER_LEN && Continues(a, h) ==>
        |a.data| + Min(|transfer|, h.length) - HEADER_LEN <= MAX_PAYLOAD_IN
  }

  // ------------------------------------------------------------------ sender

  /** A cargo as its sender splits it. */
  type Cargo = seq<seq<byte>>

  /** Every part but the first carries data, and the length field can hold the whole. */
  predicate ValidCargo(c: Cargo) {
    && c != []
    && (forall i :: 0 < i < |c| ==> c[i] != [])
    && HEADER_LEN + |Flatten(c)| < LENGTH_MASK
  }

  lemma TailShorter(c: Cargo, i: nat)
    requires i <= |c|
    ensures |Flatten(c[i..])| <= |Flatten(c)|
    ensures i < |c| ==> Flatten(c[i..]) == c[i] + Flatten(c[i + 1..])
  {
    FlattenSplit(c, i);
    if i < |c| {
      assert c[i..][1..] == c[i + 1..];
    }
  }

  /** Data is still to come exactly when parts are. */
  lemma TailEmpty(c: Cargo, i: nat)
    requires ValidCargo(c) && i < |c|
    ensures Flatten(c[i + 1..]) == [] <==> i + 1 == |c|
  {
    if i + 1 < |c| {
      TailShorter(c, i + 1);
    }
  }

  /** The place of a transfer in the stream of its channel. */
  datatype Position = Position(cargo: nat, part: nat)

  predicate ValidPosition(cargos: seq<Cargo>, p: Position) {
    p.cargo < |cargos| && p.part < |cargos[p.cargo]|
  }

  function PartsBefore(cargos: seq<Cargo>, cargo: nat): nat
    requires cargo <= |cargos|
  {
    if cargo == 0 then 0 else PartsBefore(cargos, cargo - 1) + |cargos[cargo - 1]|
  }

  function Ordinal(cargos: seq<Cargo>, p: Position): nat
    requires ValidPosition(cargos, p)
  {
    PartsBefore(cargos, p.cargo) + p.part
  }

  lemma {:induction false} PartsBeforeMonotone(cargos: seq<Cargo>, j: nat, k: nat)
    requires j < k <= |cargos|
    ensures PartsBefore(cargos, j) + |cargos[j]| <= PartsBefore(cargos, k)
  {
    if j + 1 < k {
      PartsBeforeMonotone(cargos, j, k - 1);
    }
  }

  /** Order in the stream is order of cargoes, then of parts. */
  lemma OrdinalOrder(cargos: seq<Cargo>, p: Position, q: Position)
    requires ValidPosition(cargos, p) && ValidPosition(cargos, q)
    ensures Ordinal(cargos, p) < Ordinal(cargos, q) <==>
            p.cargo < q.cargo || (p.cargo == q.cargo && p.part < q.part)
    ensures Ordinal(cargos, p) == Ordinal(cargos, q) <==> p == q
  {
    if p.cargo < q.cargo {
      PartsBeforeMonotone(cargos, p.cargo, q.cargo);
    } else if q.cargo < p.cargo {
      PartsBeforeMonotone(cargos, q.cargo, p.cargo);
    }
  }

  /** What the hub sends: per channel a list of cargoes and the first sequence number. */
  datatype Sender = Sender(cargos: seq<seq<Cargo>>, firstSeq: seq<byte>)

  predicate ValidSender(s: Sender) {
    && |s.cargos| == |s.firstSeq| == 0x100
    && forall c, j :: 0 <= c < 0x100 && 0 <= j < |s.cargos[c]| ==> ValidCargo(s.cargos[c][j])
  }

  /** A transfer that reaches the receiver. */
  datatype Arrival = Arrival(chan: byte, pos: Position, time: u32)

  predicate ValidArrival(s: Sender, r: Arrival)
    requires ValidSender(s)
  {
    ValidPosition(s.cargos[r.chan], r.pos)
  }

  function ArrivalOrdinal(s: Sender, r: Arrival): nat
    requires ValidSender(s) && ValidArrival(s, r)
  {
    Ordinal(s.cargos[r.chan], r.pos)
  }

  /** The header of a transfer: its length field counts the bytes still to come, and the
      sequence number advances by one, mod 256, for each transfer on the channel. */
  function WireHeader(s: Sender, r: Arrival): (h: Header)
    requires ValidSender(s) && ValidArrival(s, r)
    ensures ValidHeader(h)
  {
    var c := s.cargos[r.chan][r.pos.cargo];
    TailShorter(c, r.pos.part);
    Header(HEADER_LEN + |Flatten(c[r.pos.part..])|, r.pos.part > 0, r.chan,
           (s.firstSeq[r.chan] + ArrivalOrdinal(s, r)) % 0x100)
  }

  function WireBody(s: Sender, r: Arrival): seq<byte>
    requires ValidSender(s) && ValidArrival(s, r)
  {
    s.cargos[r.chan][r.pos.cargo][r.pos.part]
  }

  function WireTransfer(s: Sender, r: Arrival): seq<byte>
    requires ValidSender(s) && ValidArrival(s, r)
  {
    EncodeHeader(WireHeader(s, r)) + WireBody(s, r)
  }

  /** The ordinals last seen on each channel. */
  type Seen = map<byte, nat>

  /** Arrivals keep the order of each channel, in any interleaving, with fewer than 256
      consecutive transfers of a channel lost. */
  predicate Conforms(s: Sender, arrivals: seq<Arrival>, seen: Seen)
    requires ValidSender(s)
  {
    arrivals == [] ||
    (&& ValidArrival(s, arrivals[0])
     && var r, n := arrivals[0], ArrivalOrdinal(s, arrivals[0]);
     && (r.chan in seen ==> seen[r.chan] < n <= seen[r.chan] + 0x100)
     && Conforms(s, arrivals[1..], seen[r.chan := n]))
  }

  /** The outcome of each arrival in turn. */
  function Run(s: Sender, arrivals: seq<Arrival>, seen: Seen, a: Assembly, listeners: nat): (steps: seq<Step>)
    requires ValidSender(s) && Conforms(s, arrivals, seen)
    ensures |steps| == |arrivals|
  {
    if arrivals == [] then []
    else
      var r := arrivals[0];
      var step := Receive(a, WireTransfer(s, r), r.time, listeners);
      [step] + Run(s, arrivals[1..], seen[r.chan := ArrivalOrdinal(s, r)], step.next, listeners)
  }

  // -------------------------------------------------------- suffix guarantee

  /** Parts i through p.part of the cargo at p have been collected, and no more. */
  predicate Collected(cargos: seq<Cargo>, p: Position, i: nat, data: seq<byte>)
    requires ValidPosition(cargos, p)
  {
    i <= p.part && data == Flatten(cargos[p.cargo][i..p.part + 1])
  }

  /** The assembly holds consecutive parts of one cargo, ending with the last transfer seen
      on its channel. */
  ghost predicate Tracks(s: Sender, a: Assembly, seen: Seen, listeners: nat)
    requires ValidSender(s)
  {
    a.Partial? ==>
      && a.chan < Min(listeners, MAX_CHANNELS)
      && a.chan in seen
      && exists p: Position, i: nat :: TracksFrom(s, a, seen[a.chan], p, i)
  }

  ghost predicate TracksFrom(s: Sender, a: Assembly, n: nat, p: Position, i: nat)
    requires ValidSender(s) && a.Partial?
  {
    var cargos := s.cargos[a.chan];
    && ValidPosition(cargos, p) && Ordinal(cargos, p) == n
    && a.nextSeq == (s.firstSeq[a.chan] + n + 1) % 0x100
    && Collected(cargos, p, i, a.data)
    && a.remaining == |Flatten(cargos[p.cargo][p.part + 1..])| > 0
    && |a.data| + a.remaining + HEADER_LEN <= MAX_PAYLOAD_IN
  }

  /** A delivery is a suffix of the arriving transfer's own cargo, made by its last part. */
  ghost predicate DeliversSuffix(s: Sender, r: Arrival, d: Delivery)
    requires ValidSender(s) && ValidArrival(s, r)
  {
    var cargo := s.cargos[r.chan][r.pos.cargo];
    && d.chan == r.chan
    && r.pos.part + 1 == |cargo|
    && exists i: nat :: i < |cargo| && d.payload == Flatten(cargo[i..])
  }

  /** A matching sequence number means that nothing on the channel was lost in between. */
  lemma SameNumberIsSuccessor(first: byte, k: nat, n: nat)
    requires k < n <= k + 0x100
    requires (first + n) % 0x100 == (first + k + 1) % 0x100
    ensures n == k + 1
  {
  }

  lemma NextIsSuccessor(first: byte, n: nat)
    ensures Next((first + n) % 0x100) == (first + n + 1) % 0x100
  {
  }

  /** The transfer after part p.part is the next part of the same cargo when it continues. */
  lemma SuccessorPart(cargos: seq<Cargo>, p: Position, q: Position)
    requires ValidPosition(cargos, p) && ValidPosition(cargos, q)
    requires p.part + 1 < |cargos[p.cargo]|
    requires Ordinal(cargos, q) == Ordinal(cargos, p) + 1
    ensures q == Position(p.cargo, p.part + 1)
  {
    OrdinalOrder(cargos, q, Position(p.cargo, p.part + 1));
  }

  lemma CollectOne(cargos: seq<Cargo>, p: Position)
    requires ValidPosition(cargos, p)
    ensures Collected(cargos, p, p.part, cargos[p.cargo][p.part])
  {
    var part := cargos[p.cargo][p.part];
    FlattenSnoc([], part);
    assert [] + [part] == cargos[p.cargo][p.part..p.part + 1];
  }

  lemma CollectNext(cargos: seq<Cargo>, p: Position, i: nat, data: seq<byte>)
    requires ValidPosition(cargos, p) && p.part > 0 && i <= p.part - 1
    requires Collected(cargos, Position(p.cargo, p.part - 1), i, data)
    ensures Collected(cargos, p, i, data + cargos[p.cargo][p.part])
  {
    var c := cargos[p.cargo];
    FlattenSnoc(c[i..p.part], c[p.part]);
    assert c[i..p.part] + [c[p.part]] == c[i..p.part + 1];
  }

  /** How a wire transfer looks to the receiver. */
  lemma WireView(s: Sender, r: Arrival, a: Assembly, listeners: nat)
    requires ValidSender(s) && ValidArrival(s, r)
    ensures var w, h, body := WireTransfer(s, r), WireHeader(s, r), WireBody(s, r);
            && HEADER_LEN + |body| <= h.length
            && |w| == HEADER_LEN + |body|
            && DecodeHeader(w) == h
            && Receive(a, w, r.time, listeners) == Process(a, h, body, r.time, listeners)
  {
    var w, h, body := WireTransfer(s, r), WireHeader(s, r), WireBody(s, r);
    TailShorter(s.cargos[r.chan][r.pos.cargo], r.pos.part);
    HeaderRoundTrip(h, body);
    assert w[HEADER_LEN..Min(|w|, h.length)] == body;
  }

  /** What an accepted arrival leaves: an assembly of parts i onward, or their delivery. */
  ghost predicate Accepted(s: Sender, r: Arrival, step: Step, i: nat)
    requires ValidSender(s) && ValidArrival(s, r)
  {
    && (step.next.Partial? ==>
          step.next.chan == r.chan && TracksFrom(s, step.next, ArrivalOrdinal(s, r), r.pos, i))
    && (step.delivered.Some? ==>
          var c := s.cargos[r.chan][r.pos.cargo];
          i < |c| == r.pos.part + 1 && step.delivered.value.chan == r.chan
          && step.delivered.value.payload == Flatten(c[i..]))
  }

  lemma FreshStep(s: Sender, r: Arrival, a: Assembly, listeners: nat)
    requires ValidSender(s) && ValidArrival(s, r)
    requires HEADER_LEN + |WireBody(s, r)| <= WireHeader(s, r).length <= MAX_PAYLOAD_IN
    requires !Continues(a, WireHeader(s, r)) && r.chan < Min(listeners, MAX_CHANNELS)
    ensures Accepted(s, r, Process(a, WireHeader(s, r), WireBody(s, r), r.time, listeners), r.pos.part)
  {
    var c, k := s.cargos[r.chan][r.pos.cargo], r.pos.part;
    CollectOne(s.cargos[r.chan], r.pos);
    TailEmpty(c, k);
    TailShorter(c, k);
    NextIsSuccessor(s.firstSeq[r.chan], ArrivalOrdinal(s, r));
    assert k + 1 == |c| ==> c[k..k + 1] == c[k..];
  }

  lemma ContinuingStep(s: Sender, r: Arrival, last: nat, a: Assembly, p: Position, i: nat, listeners: nat)
    requires ValidSender(s) && ValidArrival(s, r)
    requires HEADER_LEN + |WireBody(s, r)| <= WireHeader(s, r).length
    requires last < ArrivalOrdinal(s, r) <= last + 0x100
    requires a.Partial? && TracksFrom(s, a, last, p, i)
    requires Continues(a, WireHeader(s, r)) && r.chan < Min(listeners, MAX_CHANNELS)
    ensures |a.data| + |WireBody(s, r)| <= MAX_PAYLOAD_IN
    ensures Accepted(s, r, Process(a, WireHeader(s, r), WireBody(s, r), r.time, listeners), i)
  {
    hide Flatten, PartsBefore, Process, Accepted;
    var cargos := s.cargos[r.chan];
    SameNumberIsSuccessor(s.firstSeq[r.chan], last, ArrivalOrdinal(s, r));
    TailEmpty(cargos[p.cargo], p.part);
    SuccessorPart(cargos, p, r.pos);
    ExtendStep(s, r, a, p, i, listeners);
  }

  lemma ExtendStep(s: Sender, r: Arrival, a: Assembly, p: Position, i: nat, listeners: nat)
    requires ValidSender(s) && ValidArrival(s, r)
    requires HEADER_LEN + |WireBody(s, r)| <= WireHeader(s, r).length
    requires a.Partial? && a.chan == r.chan && r.pos == Position(p.cargo, p.part + 1)
    requires TracksFrom(s, a, ArrivalOrdinal(s, r) - 1, p, i)
    requires Continues(a, WireHeader(s, r)) && r.chan < Min(listeners, MAX_CHANNELS)
    ensures |a.data| + |WireBody(s, r)| <= MAX_PAYLOAD_IN
    ensures Accepted(s, r, Process(a, WireHeader(s, r), WireBody(s, r), r.time, listeners), i)
  {
    hide Flatten, PartsBefore;
    var c, k := s.cargos[r.chan][p.cargo], r.pos.part;
    CollectNext(s.cargos[r.chan], r.pos, i, a.data);
    TailShorter(c, k);
    TailEmpty(c, k);
    NextIsSuccessor(s.firstSeq[r.chan], ArrivalOrdinal(s, r));
    assert k + 1 == |c| ==> c[i..k + 1] == c[i..];
  }

  /** One arrival: the assembly keeps tracking a single cargo, the copy stays in bounds, and
      whatever is delivered is a suffix of that cargo. */
  lemma ArrivalStep(s: Sender, r: Arrival, seen: Seen, a: Assembly, listeners: nat)
    requires ValidSender(s) && ValidArrival(s, r)
    requires r.chan in seen ==> seen[r.chan] < ArrivalOrdinal(s, r) <= seen[r.chan] + 0x100
    requires Tracks(s, a, seen, listeners)
    ensures Fits(a, WireTransfer(s, r))
    ensures var step := Receive(a, WireTransfer(s, r), r.time, listeners);
            && Tracks(s, step.next, seen[r.chan := ArrivalOrdinal(s, r)], listeners)
            && (step.delivered.Some? ==> DeliversSuffix(s, r, step.delivered.value))
  {
    WireView(s, r, a, listeners);
    var h, body := WireHeader(s, r), WireBody(s, r);
    if r.chan >= Min(listeners, MAX_CHANNELS) {
      if a.Partial? {
        var p, i :| TracksFrom(s, a, seen[a.chan], p, i);
        assert TracksFrom(s, a, seen[r.chan := ArrivalOrdinal(s, r)][a.chan], p, i);
      }
    } else if Continues(a, h) {
      var p, i :| TracksFrom(s, a, seen[a.chan], p, i);
      ContinuingStep(s, r, seen[a.chan], a, p, i, listeners);
      assert Accepted(s, r, Process(a, h, body, r.time, listeners), i);
    } else if h.length <= MAX_PAYLOAD_IN {
      FreshStep(s, r, a, listeners);
      var step := Process(a, h, body, r.time, listeners);
      assert Accepted(s, r, step, r.pos.part);
      if step.next.Partial? {
        assert TracksFrom(s, step.next, seen[r.chan := ArrivalOrdinal(s, r)][r.chan], r.pos, r.pos.part);
      }
    }
  }

  /** The assembly that arrival k meets. */
  function Before(s: Sender, arrivals: seq<Arrival>, seen: Seen, a: Assembly, listeners: nat, k: nat): Assembly
    requires ValidSender(s) && Conforms(s, arrivals, seen) && k < |arrivals|
  {
    if k == 0 then a else Run(s, arrivals, seen, a, listeners)[k - 1].next
  }

  /** No delivery is ever a splice: anywhere in any run of arrivals, a delivery is a suffix
      of the cargo whose last part just arrived, and the copy stays in the payload buffer. */
  lemma {:induction false} DeliveryIsSuffix(s: Sender, arrivals: seq<Arrival>, seen: Seen, a: Assembly,
                                            listeners: nat, k: nat)
    requires ValidSender(s) && Conforms(s, arrivals, seen) && Tracks(s, a, seen, listeners)
    requires k < |arrivals|
    ensures ValidArrival(s, arrivals[k])
    ensures Fits(Before(s, arrivals, seen, a, listeners, k), WireTransfer(s, arrivals[k]))
    ensures var d := Run(s, arrivals, seen, a, listeners)[k].delivered;
            d.Some? ==> DeliversSuffix(s, arrivals[k], d.value)
  {
    hide Flatten, PartsBefore, Process, DecodeHeader, EncodeHeader;
    ArrivalStep(s, arrivals[0], seen, a, listeners);
    if k > 0 {
      var r := arrivals[0];
      var step := Receive(a, WireTransfer(s, r), r.time, listeners);
      var seen' := seen[r.chan := ArrivalOrdinal(s, r)];
      DeliveryIsSuffix(s, arrivals[1..], seen', step.next, listeners, k - 1);
      assert Run(s, arrivals, seen, a, listeners)[1..] == Run(s, arrivals[1..], seen', step.next, listeners);
    }
  }

  /** Ordinals of one channel only grow along a run. */
  lemma {:induction false} OrdinalsGrow(s: Sender, arrivals: seq<Arrival>, seen: Seen, k: nat)
    requires ValidSender(s) && Conforms(s, arrivals, seen) && k < |arrivals|
    ensures ValidArrival(s, arrivals[k])
    ensures arrivals[k].chan in seen ==> seen[arrivals[k].chan] < ArrivalOrdinal(s, arrivals[k])
  {
    if k > 0 {
      OrdinalsGrow(s, arrivals[1..], seen[arrivals[0].chan := ArrivalOrdinal(s, arrivals[0])], k - 1);
    }
  }

  lemma {:induction false} OrdinalsIncrease(s: Sender, arrivals: seq<Arrival>, seen: Seen, j: nat, k: nat)
    requires ValidSender(s) && Conforms(s, arrivals, seen) && j < k < |arrivals|
    requires arrivals[j].chan == arrivals[k].chan
    ensures ValidArrival(s, arrivals[j]) && ValidArrival(s, arrivals[k])
    ensures ArrivalOrdinal(s, arrivals[j]) < ArrivalOrdinal(s, arrivals[k])
  {
    var seen' := seen[arrivals[0].chan := ArrivalOrdinal(s, arrivals[0])];
    if j == 0 {
      OrdinalsGrow(s, arrivals[1..], seen', k - 1);
    } else {
      OrdinalsIncrease(s, arrivals[1..], seen', j - 1, k - 1);
    }
  }

  /** Deliveries of a channel come in the order its cargoes were sent, each at most once. */
  lemma {:induction false} DeliveredInOrderAtMostOnce(s: Sender, arrivals: seq<Arrival>, seen: Seen,
                                                      a: Assembly, listeners: nat, j: nat, k: nat)
    requires ValidSender(s) && Conforms(s, arrivals, seen) && Tracks(s, a, seen, listeners)
    requires j < k < |arrivals| && arrivals[j].chan == arrivals[k].chan
    requires Run(s, arrivals, seen, a, listeners)[j].delivered.Some?
    requires Run(s, arrivals, seen, a, listeners)[k].delivered.Some?
    ensures arrivals[j].pos.cargo < arrivals[k].pos.cargo
  {
    DeliveryIsSuffix(s, arrivals, seen, a, listeners, j);
    DeliveryIsSuffix(s, arrivals, seen, a, listeners, k);
    OrdinalsIncrease(s, arrivals, seen, j, k);
    OrdinalOrder(s.cargos[arrivals[j].chan], arrivals[j].pos, arrivals[k].pos);
  }

  // --------------------------------------------------- whole-cargo guarantee

  /** Parts i onward of one cargo arrive with nothing in between. */
  ghost predicate BackToBack(s: Sender, arrivals: seq<Arrival>, chan: byte, cargo: nat, i: nat)
    requires ValidSender(s)
  {
    && cargo < |s.cargos[chan]|
    && i + |arrivals| == |s.cargos[chan][cargo]|
    && forall k :: 0 <= k < |arrivals| ==>
         arrivals[k].chan == chan && arrivals[k].pos == Position(cargo, i + k)
  }

  /** The last step, and no other, delivers d. */
  ghost predicate OnlyLastDelivers(steps: seq<Step>, d: Delivery) {
    && steps != []
    && (forall k :: 0 <= k < |steps| - 1 ==> steps[k].delivered.None?)
    && steps[|steps| - 1].delivered == Some(d)
  }

  /** A cargo whose parts arrive back to back is delivered whole, once, at its last part and
      with the time of its first part, whatever was being assembled before. It is required
      that the cargo with its header fits the receive buffer and that the channel is open. */
  lemma WholeCargoDelivered(s: Sender, arrivals: seq<Arrival>, seen: Seen, a: Assembly, listeners: nat,
                            chan: byte, cargo: nat)
    requires ValidSender(s) && Conforms(s, arrivals, seen)
    requires BackToBack(s, arrivals, chan, cargo, 0) && chan < Min(listeners, MAX_CHANNELS)
    requires HEADER_LEN + |Flatten(s.cargos[chan][cargo])| <= MAX_PAYLOAD_IN
    ensures arrivals != []
    ensures OnlyLastDelivers(Run(s, arrivals, seen, a, listeners),
                             Delivery(chan, Flatten(s.cargos[chan][cargo]), arrivals[0].time))
  {
    hide Flatten, PartsBefore, DecodeHeader, EncodeHeader;
    var r := arrivals[0];
    var c := s.cargos[chan][cargo];
    WireView(s, r, a, listeners);
    var step := Process(a, WireHeader(s, r), WireBody(s, r), r.time, listeners);
    assert c[0..] == c;
    FreshStep(s, r, a, listeners);
    TailEmpty(c, 0);
    TailShorter(c, 0);
    if |c| > 1 {
      var seen' := seen[r.chan := ArrivalOrdinal(s, r)];
      RestDelivered(s, arrivals[1..], seen', step.next, listeners, r.pos, r.time);
      assert Run(s, arrivals, seen, a, listeners) == [step] + Run(s, arrivals[1..], seen', step.next, listeners);
    }
  }

  /** Any stretch of a run is a run of its own, from what was seen and assembled before it. */
  lemma {:induction false} RunSuffix(s: Sender, arrivals: seq<Arrival>, seen: Seen, a: Assembly, listeners: nat, k: nat)
    returns (seen': Seen, a': Assembly)
    requires ValidSender(s) && Conforms(s, arrivals, seen) && k <= |arrivals|
    ensures Conforms(s, arrivals[k..], seen')
    ensures Run(s, arrivals, seen, a, listeners)[k..] == Run(s, arrivals[k..], seen', a', listeners)
    ensures k < |arrivals| ==> a' == Before(s, arrivals, seen, a, listeners, k)
  {
    hide Receive, WireTransfer, PartsBefore;
    if k == 0 {
      seen', a' := seen, a;
      assert arrivals[0..] == arrivals;
    } else {
      var r := arrivals[0];
      var step := Receive(a, WireTransfer(s, r), r.time, listeners);
      seen', a' := RunSuffix(s, arrivals[1..], seen[r.chan := ArrivalOrdinal(s, r)], step.next, listeners, k - 1);
      assert arrivals[1..][k - 1..] == arrivals[k..];
    }
  }

  lemma {:induction false} RunPrefix(s: Sender, arrivals: seq<Arrival>, seen: Seen, a: Assembly, listeners: nat, n: nat)
    requires ValidSender(s) && Conforms(s, arrivals, seen) && n <= |arrivals|
    ensures Conforms(s, arrivals[..n], seen)
    ensures Run(s, arrivals, seen, a, listeners)[..n] == Run(s, arrivals[..n], seen, a, listeners)
    decreases n
  {
    hide Receive, WireTransfer, PartsBefore;
    if n > 0 {
      var r := arrivals[0];
      var step := Receive(a, WireTransfer(s, r), r.time, listeners);
      RunPrefix(s, arrivals[1..], seen[r.chan := ArrivalOrdinal(s, r)], step.next, listeners, n - 1);
      assert arrivals[..n][0] == r && arrivals[..n][1..] == arrivals[1..][..n - 1];
    }
  }

  /** The same anywhere inside a longer run: whatever came before and whatever follows, the
      stretch that holds the cargo delivers it whole, once, at its last part. */
  lemma WholeCargoInRun(s: Sender, arrivals: seq<Arrival>, seen: Seen, a: Assembly, listeners: nat,
                        k: nat, n: nat, chan: byte, cargo: nat)
    requires ValidSender(s) && Conforms(s, arrivals, seen) && k < n <= |arrivals|
    requires BackToBack(s, arrivals[k..n], chan, cargo, 0) && chan < Min(listeners, MAX_CHANNELS)
    requires HEADER_LEN + |Flatten(s.cargos[chan][cargo])| <= MAX_PAYLOAD_IN
    ensures OnlyLastDelivers(Run(s, arrivals, seen, a, listeners)[k..n],
                             Delivery(chan, Flatten(s.cargos[chan][cargo]), arrivals[k].time))
  {
    hide Flatten, PartsBefore, Run, Conforms, BackToBack, OnlyLastDelivers;
    RunPrefix(s, arrivals, seen, a, listeners, n);
    var seen', a' := RunSuffix(s, arrivals[..n], seen, a, listeners, k);
    assert arrivals[..n][k..] == arrivals[k..n];
    assert Run(s, arrivals, seen, a, listeners)[..n][k..] == Run(s, arrivals, seen, a, listeners)[k..n];
    WholeCargoDelivered(s, arrivals[k..n], seen', a', listeners, chan, cargo);
  }

  lemma {:induction false} RestDelivered(s: Sender, arrivals: seq<Arrival>, seen: Seen, a: Assembly,
                                         listeners: nat, p: Position, t: u32)
    requires ValidSender(s) && Conforms(s, arrivals, seen) && arrivals != []
    requires a.Partial? && a.chan < Min(listeners, MAX_CHANNELS) && a.timestamp == t
    requires a.chan in seen && TracksFrom(s, a, seen[a.chan], p, 0)
    requires BackToBack(s, arrivals, a.chan, p.cargo, p.part + 1)
    ensures OnlyLastDelivers(Run(s, arrivals, seen, a, listeners),
                             Delivery(a.chan, Flatten(s.cargos[a.chan][p.cargo]), t))
  {
    var r := arrivals[0];
    WireView(s, r, a, listeners);
    NextPart(s, r, seen[a.chan], a, p, listeners);
    var step := Process(a, WireHeader(s, r), WireBody(s, r), r.time, listeners);
    if |arrivals| > 1 {
      var seen' := seen[r.chan := ArrivalOrdinal(s, r)];
      RestDelivered(s, arrivals[1..], seen', step.next, listeners, r.pos, t);
      assert Run(s, arrivals, seen, a, listeners) == [step] + Run(s, arrivals[1..], seen', step.next, listeners);
    }
  }

  /** The next part of a cargo collected from its start extends or completes it. */
  lemma NextPart(s: Sender, r: Arrival, last: nat, a: Assembly, p: Position, listeners: nat)
    requires ValidSender(s) && ValidArrival(s, r)
    requires a.Partial? && TracksFrom(s, a, last, p, 0)
    requires r.chan == a.chan && r.pos == Position(p.cargo, p.part + 1)
    requires a.chan < Min(listeners, MAX_CHANNELS)
    ensures HEADER_LEN + |WireBody(s, r)| <= WireHeader(s, r).length
    ensures var step := Process(a, WireHeader(s, r), WireBody(s, r), r.time, listeners);
            var c := s.cargos[a.chan][p.cargo];
            if r.pos.part + 1 == |c| then
              step.delivered == Some(Delivery(a.chan, Flatten(c), a.timestamp))
            else
              && step.delivered.None? && step.next.Partial?
              && step.next.chan == a.chan && step.next.timestamp == a.timestamp
              && TracksFrom(s, step.next, ArrivalOrdinal(s, r), r.pos, 0)
  {
    var c := s.cargos[a.chan][p.cargo];
    TailEmpty(c, r.pos.part);
    TailShorter(c, r.pos.part);
    ContinuingStep(s, r, last, a, p, 0, listeners);
    assert c[0..] == c;
  }
}
