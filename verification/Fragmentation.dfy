/** The transmit side of SHTP: how txProcess cuts a cargo into transfers, and what a
    receiver of the same protocol and a 32-byte I2C write make of them. */
module Fragmentation {
  import opened Basics
  import opened Reassembly

  const MAX_TRANSFER_OUT := 256
  const MAX_PAYLOAD_OUT := 256
  const OK := 0

  /** The data bytes of one transfer: the 16-bit difference wraps for limits below 4. */
  function Capacity(outMaxTransfer: u16): u16 {
    (outMaxTransfer - HEADER_LEN) % TWO_TO_16
  }

  /** The loop advances and each transfer fits the staging buffer. A limit of 4 leaves no
      room for data, and limits below 4 put no bound on a transfer. */
  predicate Sendable(payload: seq<byte>, outMaxTransfer: u16) {
    payload == [] ||
    (0 < Capacity(outMaxTransfer) && Min(|payload|, Capacity(outMaxTransfer)) + HEADER_LEN <= MAX_TRANSFER_OUT)
  }

  /** Every limit above 4 that the buffer allows can be used, for any payload. */
  lemma SendableWhen(payload: seq<byte>, outMaxTransfer: u16)
    requires |payload| <= MAX_PAYLOAD_OUT && payload != []
    ensures Sendable(payload, outMaxTransfer) <==>
            HEADER_LEN < outMaxTransfer <= MAX_TRANSFER_OUT
            || (outMaxTransfer != HEADER_LEN && |payload| + HEADER_LEN <= MAX_TRANSFER_OUT)
  {
  }

  /** The transfers of a cargo. Each length field covers that transfer alone. */
  function Fragments(chan: byte, seqNo: byte, payload: seq<byte>, capacity: u16, continuation: bool): seq<seq<byte>>
    requires capacity > 0 && |payload| + HEADER_LEN < LENGTH_MASK
    decreases |payload|
  {
    if payload == [] then []
    else
      var n := Min(|payload|, capacity);
      [EncodeHeader(Header(n + HEADER_LEN, continuation, chan, seqNo)) + payload[..n]]
      + Fragments(chan, Next(seqNo), payload[n..], capacity, true)
  }

  function Bodies(transfers: seq<seq<byte>>): seq<seq<byte>>
    requires forall w :: w in transfers ==> |w| >= HEADER_LEN
  {
    if transfers == [] then [] else [transfers[0][HEADER_LEN..]] + Bodies(transfers[1..])
  }

  lemma {:induction false} FragmentLengths(chan: byte, seqNo: byte, payload: seq<byte>, capacity: u16,
                                           continuation: bool)
    requires capacity > 0 && |payload| + HEADER_LEN < LENGTH_MASK
    ensures forall w :: w in Fragments(chan, seqNo, payload, capacity, continuation) ==>
              HEADER_LEN < |w| <= HEADER_LEN + Min(|payload|, capacity)
    decreases |payload|
  {
    if payload != [] {
      FragmentLengths(chan, Next(seqNo), payload[Min(|payload|, capacity)..], capacity, true);
    }
  }

  /** The first transfer of a non-empty cargo, and the others. */
  lemma Peel(chan: byte, seqNo: byte, payload: seq<byte>, capacity: u16, continuation: bool)
    requires capacity > 0 && |payload| + HEADER_LEN < LENGTH_MASK && payload != []
    ensures var n, ws := Min(|payload|, capacity), Fragments(chan, seqNo, payload, capacity, continuation);
            && ws != []
            && ws[0] == EncodeHeader(Header(n + HEADER_LEN, continuation, chan, seqNo)) + payload[..n]
            && ws == [ws[0]] + ws[1..]
            && ws[1..] == Fragments(chan, Next(seqNo), payload[n..], capacity, true)
            && |ws[0]| == HEADER_LEN + n && ws[0][HEADER_LEN..] == payload[..n]
            && payload[..n] + payload[n..] == payload
  {
    var n := Min(|payload|, capacity);
    var first := EncodeHeader(Header(n + HEADER_LEN, continuation, chan, seqNo)) + payload[..n];
    var rest := Fragments(chan, Next(seqNo), payload[n..], capacity, true);
    assert Fragments(chan, seqNo, payload, capacity, continuation) == [first] + rest;
    hide Fragments, EncodeHeader;
    assert first[HEADER_LEN..] == payload[..n];
    assert ([first] + rest)[1..] == rest;
  }

  /** The same for the transfers still to be sent, the cursor being at the next data byte. */
  lemma PeelAt(frames: seq<seq<byte>>, sent: nat, chan: byte, seqNo: byte, payload: seq<byte>, cursor: nat,
               capacity: u16, continuation: bool)
    requires capacity > 0 && cursor < |payload| && |payload| + HEADER_LEN < LENGTH_MASK && sent <= |frames|
    requires frames[sent..] == Fragments(chan, (seqNo + sent) % 0x100, payload[cursor..], capacity, continuation)
    ensures var n := Min(|payload| - cursor, capacity);
            && sent < |frames|
            && frames[sent] == EncodeHeader(Header(n + HEADER_LEN, continuation, chan, (seqNo + sent) % 0x100))
                               + payload[cursor..cursor + n]
            && frames[sent + 1..] == Fragments(chan, (seqNo + sent + 1) % 0x100, payload[cursor + n..], capacity, true)
            && frames[..sent + 1] == frames[..sent] + [frames[sent]]
    ensures Next((seqNo + sent) % 0x100) == (seqNo + sent + 1) % 0x100
  {
    hide Fragments, EncodeHeader;
    var n := Min(|payload| - cursor, capacity);
    Peel(chan, (seqNo + sent) % 0x100, payload[cursor..], capacity, continuation);
    assert frames[sent..][0] == frames[sent] && frames[sent..][1..] == frames[sent + 1..];
    assert payload[cursor..][..n] == payload[cursor..cursor + n] && payload[cursor..][n..] == payload[cursor + n..];
  }

  lemma BodiesCons(w: seq<byte>, ws: seq<seq<byte>>)
    requires |w| >= HEADER_LEN && forall x :: x in ws ==> |x| >= HEADER_LEN
    ensures Flatten(Bodies([w] + ws)) == w[HEADER_LEN..] + Flatten(Bodies(ws))
  {
    assert ([w] + ws)[1..] == ws;
    assert ([w[HEADER_LEN..]] + Bodies(ws))[1..] == Bodies(ws);
  }

  /** Nothing is lost or repeated: the bodies make up the cargo, in order. */
  lemma {:induction false} BodiesMakeThePayload(chan: byte, seqNo: byte, payload: seq<byte>, capacity: u16,
                                                continuation: bool)
    requires capacity > 0 && |payload| + HEADER_LEN < LENGTH_MASK
    ensures var ws := Fragments(chan, seqNo, payload, capacity, continuation);
            && (forall w :: w in ws ==> |w| >= HEADER_LEN)
            && Flatten(Bodies(ws)) == payload
    decreases |payload|
  {
    if payload != [] {
      var n := Min(|payload|, capacity);
      Peel(chan, seqNo, payload, capacity, continuation);
      BodiesMakeThePayload(chan, Next(seqNo), payload[n..], capacity, true);
      var ws := Fragments(chan, seqNo, payload, capacity, continuation);
      BodiesCons(ws[0], ws[1..]);
      assert ws == [ws[0]] + ws[1..];
      assert ws[0][HEADER_LEN..] == payload[..n];
    }
  }

  lemma {:induction false} BodiesSplit(ws: seq<seq<byte>>, k: nat)
    requires k <= |ws| && forall w :: w in ws ==> |w| >= HEADER_LEN
    ensures Bodies(ws) == Bodies(ws[..k]) + Bodies(ws[k..])
  {
    if k == 0 {
      assert ws[..0] == [] && ws[0..] == ws;
    } else {
      var w, rest := ws[0], ws[1..];
      BodiesSplit(rest, k - 1);
      assert ws[..k][0] == w && ws[..k][1..] == rest[..k - 1] && rest[k - 1..] == ws[k..];
      ConcatAssociates([w[HEADER_LEN..]], Bodies(rest[..k - 1]), Bodies(ws[k..]));
    }
  }

  /** The first k transfers carry a prefix of the cargo, and all of it only if they are all. */
  lemma SentPrefix(chan: byte, seqNo: byte, payload: seq<byte>, capacity: u16, k: nat)
    requires capacity > 0 && |payload| + HEADER_LEN < LENGTH_MASK
    requires k <= |Fragments(chan, seqNo, payload, capacity, false)|
    ensures var ws := Fragments(chan, seqNo, payload, capacity, false);
            && (forall w :: w in ws[..k] ==> |w| >= HEADER_LEN)
            && Flatten(Bodies(ws[..k])) <= payload
            && (Flatten(Bodies(ws[..k])) == payload <==> k == |ws|)
  {
    hide Fragments, Bodies, Flatten;
    var ws := Fragments(chan, seqNo, payload, capacity, false);
    FragmentLengths(chan, seqNo, payload, capacity, false);
    BodiesMakeThePayload(chan, seqNo, payload, capacity, false);
    BodiesSplit(ws, k);
    FlattenConcat(Bodies(ws[..k]), Bodies(ws[k..]));
    if k < |ws| {
      var w := ws[k];
      assert w in ws && ws[k..] == [w] + ws[k + 1..];
      BodiesCons(w, ws[k + 1..]);
    } else {
      assert ws[..k] == ws;
    }
  }

  /** As few transfers as the capacity allows. */
  lemma {:induction false} FragmentCount(chan: byte, seqNo: byte, payload: seq<byte>, capacity: u16, continuation: bool)
    requires capacity > 0 && |payload| + HEADER_LEN < LENGTH_MASK && payload != []
    ensures var k := |Fragments(chan, seqNo, payload, capacity, continuation)|;
            k > 0 && (k - 1) * capacity < |payload| <= k * capacity
    decreases |payload|
  {
    Peel(chan, seqNo, payload, capacity, continuation);
    var rest := payload[Min(|payload|, capacity)..];
    if rest != [] {
      FragmentCount(chan, Next(seqNo), rest, capacity, true);
      var k := |Fragments(chan, Next(seqNo), rest, capacity, true)|;
      Distribute(k - 1, capacity);
      Distribute(k, capacity);
    }
  }

  lemma Distribute(k: nat, c: nat)
    ensures (k + 1) * c == k * c + c
  {
  }

  /** Header of transfer k: its own length, the continuation bit on all but the first, and
      the sequence number advanced by k, mod 256. */
  lemma {:induction false} FragmentHeader(chan: byte, seqNo: byte, payload: seq<byte>, capacity: u16,
                                          continuation: bool, k: nat)
    requires capacity > 0 && |payload| + HEADER_LEN < LENGTH_MASK
    requires k < |Fragments(chan, seqNo, payload, capacity, continuation)|
    ensures var w := Fragments(chan, seqNo, payload, capacity, continuation)[k];
            && |w| >= HEADER_LEN
            && DecodeHeader(w) == Header(|w|, k > 0 || continuation, chan, (seqNo + k) % 0x100)
    decreases k
  {
    var n := Min(|payload|, capacity);
    if k == 0 {
      HeaderRoundTrip(Header(n + HEADER_LEN, continuation, chan, seqNo), payload[..n]);
    } else {
      FragmentHeader(chan, Next(seqNo), payload[n..], capacity, true, k - 1);
      NextAdds(seqNo, k - 1);
    }
  }

  lemma NextAdds(seqNo: byte, k: nat)
    ensures (Next(seqNo) + k) % 0x100 == (seqNo + k + 1) % 0x100
  {
  }

  /** Transfer k in terms of the hub's limit: it holds the data bytes from k * (limit - 4) on,
      as many as fit, behind a header that is the literal length of the transfer, the top
      bit set on all but the first, the channel, and the sequence number. */
  lemma TransferIs(chan: byte, seqNo: byte, payload: seq<byte>, limit: u16, k: nat)
    requires 4 < limit <= 256 && |payload| <= 256
    requires k < |Fragments(chan, seqNo, payload, Capacity(limit), false)|
    ensures k * (limit - 4) < |payload|
    ensures var from := k * (limit - 4);
            var n := if |payload| - from < limit - 4 then |payload| - from else limit - 4;
            Fragments(chan, seqNo, payload, Capacity(limit), false)[k] ==
            [(n + 4) % 256, (n + 4) / 256 + (if k > 0 then 128 else 0), chan, ((seqNo as int) + k) % 256]
            + payload[from..from + n]
  {
    hide Fragments, EncodeHeader;
    var from := Steps(k, limit - 4);
    StepsMultiply(k, limit - 4);
    TransferAt(chan, seqNo, payload, Capacity(limit), false, k);
    HeaderBytes(Min(|payload| - from, limit - 4) + 4, k > 0, chan, ((seqNo as int) + k) % 256);
  }

  /** The place after k steps of c bytes. */
  function Steps(k: nat, c: nat): nat {
    if k == 0 then 0 else Steps(k - 1, c) + c
  }

  lemma {:induction false} StepsMultiply(k: nat, c: nat)
    ensures Steps(k, c) == k * c
  {
    if k > 0 {
      StepsMultiply(k - 1, c);
      Distribute(k - 1, c);
    }
  }

  lemma {:induction false} TransferAt(chan: byte, seqNo: byte, payload: seq<byte>, c: u16, continuation: bool, k: nat)
    requires 0 < c <= 252 && |payload| <= 256
    requires k < |Fragments(chan, seqNo, payload, c, continuation)|
    ensures Steps(k, c) < |payload|
    ensures var from := Steps(k, c);
            var n := Min(|payload| - from, c);
            Fragments(chan, seqNo, payload, c, continuation)[k] ==
            EncodeHeader(Header(n + 4, k > 0 || continuation, chan, ((seqNo as int) + k) % 256)) + payload[from..from + n]
    decreases k
  {
    hide Fragments, EncodeHeader, Next;
    NotEmpty(chan, seqNo, payload, c, continuation);
    Peel(chan, seqNo, payload, c, continuation);
    if k > 0 {
      var n := Min(|payload|, c);
      var ws := Fragments(chan, seqNo, payload, c, continuation);
      var tail := payload[n..];
      assert ws[k] == ws[1..][k - 1];
      TransferAt(chan, Next(seqNo), tail, c, true, k - 1);
      NextAdds(seqNo, k - 1);
      var from := Steps(k, c);
      LaterSlice(payload, n, c, from);
      assert Steps(k - 1, c) == from - c && Min(|tail| - (from - c), c) == Min(|payload| - from, c);
    }
  }

  /** Past a full first part, what is left is cut at the same places. */
  lemma LaterSlice(payload: seq<byte>, n: nat, c: nat, from: nat)
    requires n == Min(|payload|, c) && c <= from && from - c < |payload| - n
    ensures n == c && |payload[n..]| - (from - c) == |payload| - from
    ensures var m := Min(|payload| - from, c); payload[n..][from - c..from - c + m] == payload[from..from + m]
  {
    var m := Min(|payload| - from, c);
    assert payload[n..][from - c..from - c + m] == payload[n + from - c..n + from - c + m];
  }

  lemma NotEmpty(chan: byte, seqNo: byte, payload: seq<byte>, c: u16, continuation: bool)
    requires c > 0 && |payload| + HEADER_LEN < LENGTH_MASK && Fragments(chan, seqNo, payload, c, continuation) != []
    ensures payload != []
  {
  }

  lemma HeaderBytes(n: nat, continuation: bool, chan: byte, seqNo: byte)
    requires n <= 256
    ensures EncodeHeader(Header(n, continuation, chan, seqNo))
         == [n % 256, n / 256 + (if continuation then 128 else 0), chan, seqNo]
  {
  }

  /** So every transfer is within the limit, and all but the last fill it. */
  lemma TransferSizes(chan: byte, seqNo: byte, payload: seq<byte>, limit: u16)
    requires 4 < limit <= 256 && |payload| <= 256
    ensures var ws := Fragments(chan, seqNo, payload, Capacity(limit), false);
            && (forall k :: 0 <= k < |ws| ==> 4 < |ws[k]| <= limit)
            && (forall k :: 0 <= k < |ws| - 1 ==> |ws[k]| == limit)
  {
    hide Fragments;
    forall k | 0 <= k < |Fragments(chan, seqNo, payload, Capacity(limit), false)|
      ensures var ws := Fragments(chan, seqNo, payload, Capacity(limit), false);
              4 < |ws[k]| <= limit && (k < |ws| - 1 ==> |ws[k]| == limit)
    {
      TransferSize(chan, seqNo, payload, limit, k);
    }
  }

  /** And there are as many as it takes at limit - 4 bytes each. */
  lemma TransferNumber(chan: byte, seqNo: byte, payload: seq<byte>, limit: u16)
    requires 4 < limit <= 256 && |payload| <= 256
    ensures var n := |Fragments(chan, seqNo, payload, Capacity(limit), false)|;
            && (payload == [] ==> n == 0)
            && (payload != [] ==> (n - 1) * (limit - 4) < |payload| <= n * (limit - 4))
  {
    if payload == [] {
      NoFragments(chan, seqNo, payload, Capacity(limit), false, []);
    } else {
      FragmentCount(chan, seqNo, payload, Capacity(limit), false);
    }
  }

  lemma TransferSize(chan: byte, seqNo: byte, payload: seq<byte>, limit: u16, k: nat)
    requires 4 < limit <= 256 && |payload| <= 256
    requires k < |Fragments(chan, seqNo, payload, Capacity(limit), false)|
    ensures var ws := Fragments(chan, seqNo, payload, Capacity(limit), false);
            4 < |ws[k]| <= limit && (k < |ws| - 1 ==> |ws[k]| == limit)
  {
    hide Fragments, EncodeHeader;
    TransferAt(chan, seqNo, payload, Capacity(limit), false, k);
    if k + 1 < |Fragments(chan, seqNo, payload, Capacity(limit), false)| {
      TransferAt(chan, seqNo, payload, Capacity(limit), false, k + 1);
    }
  }

  // ---------------------------------------------------------------- loopback

  /** A receiver fed the given transfers one by one. */
  function ReceiveAll(a: Assembly, transfers: seq<seq<byte>>, t: u32, listeners: nat): (r: (Assembly, seq<Delivery>))
    decreases |transfers|
  {
    if transfers == [] then (a, [])
    else
      var step := Receive(a, transfers[0], t, listeners);
      var rest := ReceiveAll(step.next, transfers[1..], t, listeners);
      (rest.0, (if step.delivered.Some? then [step.delivered.value] else []) + rest.1)
  }

  function Payloads(ds: seq<Delivery>): seq<seq<byte>> {
    if ds == [] then [] else [ds[0].payload] + Payloads(ds[1..])
  }

  /** A transfer that counts only its own bytes is delivered at once when it starts afresh. */
  lemma SelfContained(h: Header, body: seq<byte>, t: u32, listeners: nat, a: Assembly)
    requires h.length == HEADER_LEN + |body| <= MAX_PAYLOAD_IN
    requires h.chan < Min(listeners, MAX_CHANNELS) && !Continues(a, h)
    ensures Receive(a, EncodeHeader(h) + body, t, listeners) == Step(Idle, Some(Delivery(h.chan, body, t)), None)
  {
    HeaderRoundTrip(h, body);
    var w := EncodeHeader(h) + body;
    assert w[HEADER_LEN..Min(|w|, h.length)] == body;
    assert [] + body == body;
  }

  lemma PayloadsCons(d: Delivery, ds: seq<Delivery>)
    ensures Flatten(Payloads([d] + ds)) == d.payload + Flatten(Payloads(ds))
  {
    assert ([d] + ds)[1..] == ds;
    assert ([d.payload] + Payloads(ds))[1..] == Payloads(ds);
  }

  /** Since sender and receiver read the length field differently, the receiver hands over
      each transfer by itself: every byte once and in order, but as one delivery only for a
      cargo that fits one transfer. */
  lemma {:induction false} LoopbackDeliversEachTransfer(chan: byte, seqNo: byte, payload: seq<byte>, capacity: u16,
                                                      continuation: bool, a: Assembly, t: u32, listeners: nat)
    requires 0 < capacity && Min(|payload|, capacity) + HEADER_LEN <= MAX_TRANSFER_OUT
    requires |payload| + HEADER_LEN < LENGTH_MASK
    requires chan < Min(listeners, MAX_CHANNELS)
    requires a.Idle? || !continuation
    ensures var ws := Fragments(chan, seqNo, payload, capacity, continuation);
            var ds := ReceiveAll(a, ws, t, listeners).1;
            && |ds| == |ws|
            && (forall d :: d in ds ==> d.chan == chan && d.timestamp == t)
            && Flatten(Payloads(ds)) == payload
            && (|ds| == 1 <==> 0 < |payload| <= capacity)
    decreases |payload|
  {
    if payload != [] {
      var n := Min(|payload|, capacity);
      Peel(chan, seqNo, payload, capacity, continuation);
      SelfContained(Header(n + HEADER_LEN, continuation, chan, seqNo), payload[..n], t, listeners, a);
      LoopbackDeliversEachTransfer(chan, Next(seqNo), payload[n..], capacity, true, Idle, t, listeners);
      var rest := Fragments(chan, Next(seqNo), payload[n..], capacity, true);
      PayloadsCons(Delivery(chan, payload[..n], t), ReceiveAll(Idle, rest, t, listeners).1);
    }
  }

  // ------------------------------------------------- the HAL write interface

  /** The answers of the HAL to write calls: 0 is busy, negative an error, positive done.
      After the scripted answers every write is accepted. */
  type Script = seq<int>

  datatype Outcome = Outcome(sent: nat, status: int, rest: Script)

  function SkipBusy(script: Script): (r: Script)
    ensures |r| <= |script| && (r == [] || r[0] != 0)
  {
    if script != [] && script[0] == 0 then SkipBusy(script[1..]) else script
  }

  /** How many of n transfers get out, trying each again while the HAL is busy. */
  function Transmit(n: nat, script: Script): (o: Outcome)
    ensures o.sent <= n && (o.status == OK <==> o.sent == n) && o.status <= OK
  {
    if n == 0 then Outcome(0, OK, script)
    else
      var s := SkipBusy(script);
      if s == [] then Outcome(n, OK, [])
      else if s[0] < 0 then Outcome(0, s[0], s[1..])
      else
        var o := Transmit(n - 1, s[1..]);
        Outcome(o.sent + 1, o.status, o.rest)
  }

  /** The answer that ends the tries for one transfer, and the script after it. */
  predicate Answered(script: Script, status: int, rest: Script) {
    var s := SkipBusy(script);
    if s == [] then status > 0 && rest == [] else status == s[0] && rest == s[1..]
  }

  lemma TransmitNext(n: nat, script: Script, status: int, rest: Script)
    requires n > 0 && Answered(script, status, rest)
    ensures status != 0
    ensures status < 0 ==> Transmit(n, script) == Outcome(0, status, rest)
    ensures status > 0 ==> var o := Transmit(n - 1, rest); Transmit(n, script) == Outcome(o.sent + 1, o.status, o.rest)
  {
  }

  /** What the answers mean: the busy ones are skipped, each positive one sends a transfer, and
      the first negative one before all are sent ends the transmission with its own value. */
  lemma {:induction false} AnswersCounted(n: nat, script: Script, i: nat)
    requires i < |script| && script[i] < 0 && forall j :: 0 <= j < i ==> script[j] >= 0
    requires Positives(script[..i]) < n
    ensures Transmit(n, script) == Outcome(Positives(script[..i]), script[i], script[i + 1..])
    decreases i
  {
    if i > 0 {
      assert script[..i][1..] == script[1..][..i - 1];
      if script[0] == 0 {
        AnswersCounted(n, script[1..], i - 1);
        BusySkipped(n, script);
      } else {
        AnswersCounted(n - 1, script[1..], i - 1);
      }
      assert script[1..][i..] == script[i + 1..];
    }
  }

  lemma BusySkipped(n: nat, script: Script)
    requires n > 0 && script != [] && script[0] == 0
    ensures Transmit(n, script) == Transmit(n, script[1..])
  {
  }

  function Positives(script: Script): nat {
    if script == [] then 0 else (if script[0] > 0 then 1 else 0) + Positives(script[1..])
  }

  lemma NoFragments(chan: byte, seqNo: byte, payload: seq<byte>, capacity: u16, continuation: bool, script: Script)
    requires capacity > 0 && payload == []
    ensures Fragments(chan, seqNo, payload, capacity, continuation) == []
    ensures Transmit(0, script) == Outcome(0, OK, script)
  {
  }

  /** A busy HAL alone never loses anything. */
  lemma {:induction false} BusyIsHarmless(n: nat, script: Script)
    requires forall x :: x in script ==> x >= 0
    ensures Transmit(n, script).sent == n && Transmit(n, script).status == OK
  {
    if n > 0 {
      SkipBusyKeeps(script);
      var s := SkipBusy(script);
      if s != [] {
        assert s[0] in s && forall x :: x in s[1..] ==> x in s;
        BusyIsHarmless(n - 1, s[1..]);
      }
    }
  }

  lemma {:induction false} SkipBusyKeeps(script: Script)
    ensures forall x :: x in SkipBusy(script) ==> x in script
  {
    if script != [] && script[0] == 0 {
      SkipBusyKeeps(script[1..]);
    }
  }

  // ------------------------------------------------------- 32-byte I2C write

  const I2C_CHUNK := 32

  /** The I2C driver puts at most 32 bytes of a transfer on the bus and reports success. */
  function OnBus(transfer: seq<byte>): seq<byte> {
    transfer[..Min(I2C_CHUNK, |transfer|)]
  }

  function AllOnBus(transfers: seq<seq<byte>>): seq<seq<byte>> {
    if transfers == [] then [] else [OnBus(transfers[0])] + AllOnBus(transfers[1..])
  }

  /** Over I2C the hub gets the whole cargo exactly when no transfer needs more than 28 data
      bytes; otherwise the cut is silent. */
  lemma {:induction false} BusConservesCargo(chan: byte, seqNo: byte, payload: seq<byte>, capacity: u16,
                                             continuation: bool)
    requires capacity > 0 && |payload| + HEADER_LEN < LENGTH_MASK
    ensures var ws := Fragments(chan, seqNo, payload, capacity, continuation);
            && (forall w :: w in AllOnBus(ws) ==> |w| >= HEADER_LEN)
            && (Flatten(Bodies(AllOnBus(ws))) == payload <==> |payload| <= 28 || capacity <= 28)
            && |Flatten(Bodies(AllOnBus(ws)))| <= |payload|
    decreases |payload|
  {
    if payload != [] {
      var n := Min(|payload|, capacity);
      Peel(chan, seqNo, payload, capacity, continuation);
      BusConservesCargo(chan, Next(seqNo), payload[n..], capacity, true);
      var ws := Fragments(chan, seqNo, payload, capacity, continuation);
      CutConserves(ws[0], ws[1..], payload, n);
    }
  }

  /** Cutting the first transfer, which carries n bytes of the payload. */
  lemma {:induction false} CutConserves(w: seq<byte>, ws: seq<seq<byte>>, payload: seq<byte>, n: nat)
    requires n <= |payload| && |w| == HEADER_LEN + n && w[HEADER_LEN..] == payload[..n]
    requires forall x :: x in AllOnBus(ws) ==> |x| >= HEADER_LEN
    requires |Flatten(Bodies(AllOnBus(ws)))| <= |payload| - n
    ensures OnBus(w) in AllOnBus([w] + ws) && forall x :: x in AllOnBus([w] + ws) ==> |x| >= HEADER_LEN
    ensures var sent := Flatten(Bodies(AllOnBus([w] + ws)));
            && (sent == payload <==> |w| <= I2C_CHUNK && Flatten(Bodies(AllOnBus(ws))) == payload[n..])
            && |sent| <= |payload|
  {
    hide Flatten, Bodies;
    var cut := Min(I2C_CHUNK - HEADER_LEN, n);
    var tail := Flatten(Bodies(AllOnBus(ws)));
    assert ([w] + ws)[1..] == ws;
    assert AllOnBus([w] + ws) == [OnBus(w)] + AllOnBus(ws);
    assert OnBus(w)[HEADER_LEN..] == w[HEADER_LEN..][..cut];
    assert payload[..n][..cut] == payload[..cut];
    BodiesCons(OnBus(w), AllOnBus(ws));
    if cut == n {
      assert payload[..n] + tail == payload <==> tail == payload[n..] by {
        assert (payload[..n] + tail)[n..] == tail;
        assert payload[..n] + payload[n..] == payload;
      }
    }
  }
}
