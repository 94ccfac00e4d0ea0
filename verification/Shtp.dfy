/** The SHTP driver instance: its buffers, cursors and tables, updated in place. */
module Shtp {
  import opened Basics
  import opened Reassembly
  import opened ShtpTables
  import Ad = Advertisement
  import Fr = Fragmentation

  const SH2_OK := 0
  const SH2_ERR := -1
  const SH2_ERR_BAD_PARAM := -2
  const RESP_ADVERTISE := 0
  const NOT_FOUND: byte := 0xFF
  const COMMAND_NAME: Name := [0x63, 0x6F, 0x6D, 0x6D, 0x61, 0x6E, 0x64]  // "command"
  const SHTP_ADVERT_HANDLER := 0

  datatype AdvertPhase = AdvertNeeded | AdvertRequested | AdvertIdle

  /** What the driver tells its clients, in order. */
  datatype Event =
    | Delivered(handler: Handler, payload: seq<byte>, timestamp: u32)
    | Advertised(call: Ad.AdvertCall)
    | Async(fault: Fault)

  function AsEvents(calls: seq<Ad.AdvertCall>): seq<Event> {
    if calls == [] then [] else [Advertised(calls[0])] + AsEvents(calls[1..])
  }

  lemma {:induction false} AsEventsConcat(a: seq<Ad.AdvertCall>, b: seq<Ad.AdvertCall>)
    ensures AsEvents(a + b) == AsEvents(a) + AsEvents(b)
  {
    if a == [] {
      assert a + b == b;
    } else {
      var rest := a[1..] + b;
      AsEventsConcat(a[1..], b);
      assert (a + b)[1..] == rest && (a + b)[0] == a[0];
      ConcatAssociates([Advertised(a[0])], AsEvents(a[1..]), AsEvents(b));
    }
  }

  /** A cargo on the command channel is parsed as an advertisement when it starts with 0. */
  predicate IsAdvertisement(h: Option<Handler>, payload: seq<byte>) {
    h == Some(CommandListener) && payload != [] && payload[0] == RESP_ADVERTISE
  }

  /** The parser stays inside the payload and the name buffers. */
  predicate Parsable(payload: seq<byte>) {
    payload != [] && Ad.Decode(payload[1..]).Some? && Ad.ValidTlvs(Ad.Decode(payload[1..]).value)
  }

  /** Tables and events after a payload was handed to handler h. */
  function Dispatched(d: Ad.Directory, h: Option<Handler>, payload: seq<byte>, ls: seq<ChanListener>): (r: Ad.Directory)
    requires |d.chans| == MAX_CHANS
    requires IsAdvertisement(h, payload) ==> Parsable(payload)
    ensures |r.chans| == MAX_CHANS
  {
    if IsAdvertisement(h, payload) then Ad.ApplyAll(d, Ad.START, Ad.Decode(payload[1..]).value, ls) else d
  }

  function DispatchEvents(h: Option<Handler>, payload: seq<byte>, t: u32, als: seq<AppListener>): seq<Event>
    requires IsAdvertisement(h, payload) ==> Parsable(payload)
  {
    match h
    case None => []
    case Some(handler) =>
      [Delivered(handler, payload, t)] +
      (if IsAdvertisement(h, payload) then AsEvents(Ad.CallsAll(Ad.START, Ad.Decode(payload[1..]).value, als)) else [])
  }

  /** A 32-bit counter after an event that may have happened. */
  function Counted(n: u32, happened: bool): u32 {
    if happened then (n + 1) % TWO_TO_32 else n
  }

  function FaultEvents(f: Fault, notify: bool): seq<Event> {
    if notify && f != ShortTransfer then [Async(f)] else []
  }

  /** The events of one received transfer. */
  function StepEvents(step: Step, notify: bool, chans: seq<Channel>, als: seq<AppListener>): seq<Event>
    requires |chans| == MAX_CHANS && Deliverable(step, chans)
  {
    match step
    case Step(_, _, Some(f)) => FaultEvents(f, notify)
    case Step(_, Some(d), None) => DispatchEvents(chans[d.chan].handler, d.payload, d.timestamp, als)
    case Step(_, None, None) => []
  }

  /** A delivered cargo that will be parsed as an advertisement can be. */
  predicate Deliverable(step: Step, chans: seq<Channel>)
    requires |chans| == MAX_CHANS
  {
    match step.delivered
    case None => true
    case Some(d) => d.chan < MAX_CHANS && (IsAdvertisement(chans[d.chan].handler, d.payload) ==> Parsable(d.payload))
  }

  /** The tables after one received transfer: what a delivered advertisement says, and then
      the sequence number expected next. */
  function StepTables(d: Ad.Directory, step: Step, h: Header, ls: seq<ChanListener>): Ad.Directory
    requires |d.chans| == MAX_CHANS && Deliverable(step, d.chans)
  {
    if step.fault.Some? || h.chan >= MAX_CHANS then d
    else
      var d' := match step.delivered
                case None => d
                case Some(del) => Dispatched(d, d.chans[del.chan].handler, del.payload, ls);
      d'.(chans := d'.chans[h.chan := d'.chans[h.chan].(nextInSeq := Next(h.seqNo))])
  }

  /** The advertisement phase after one received transfer. */
  function StepPhase(phase: AdvertPhase, step: Step, chans: seq<Channel>): AdvertPhase
    requires |chans| == MAX_CHANS && Deliverable(step, chans)
  {
    match step
    case Step(_, Some(d), None) => if IsAdvertisement(chans[d.chan].handler, d.payload) then AdvertIdle else phase
    case _ => phase
  }

  /** What is heard of one received transfer. */
  lemma HeardMeans(step: Step, notify: bool, chans: seq<Channel>, als: seq<AppListener>, log: seq<Event>)
    requires |chans| == 8 && Deliverable(step, chans)
    ensures var after := log + StepEvents(step, notify, chans, als);
            match step
            case Step(_, _, Some(f)) => after == log + if notify && f != ShortTransfer then [Async(f)] else []
            case Step(_, None, None) => after == log
            case Step(_, Some(d), None) =>
              match chans[d.chan].handler
              case None => after == log
              case Some(h) =>
                && log + [Delivered(h, d.payload, d.timestamp)] <= after
                && (h != CommandListener || d.payload == [] || d.payload[0] != 0 ==>
                      after == log + [Delivered(h, d.payload, d.timestamp)])
  {
  }

  /** An advertisement, and nothing else, leaves none expected. */
  lemma PhaseMeans(step: Step, phase: AdvertPhase, chans: seq<Channel>)
    requires |chans| == 8 && Deliverable(step, chans)
    ensures StepPhase(phase, step, chans) ==
            match step
            case Step(_, Some(d), None) =>
              if chans[d.chan].handler == Some(CommandListener) && d.payload != [] && d.payload[0] == 0 then AdvertIdle else phase
            case _ => phase
  {
  }

  lemma NoTables(d: Ad.Directory, step: Step, transfer: seq<byte>, ls: seq<ChanListener>)
    requires |d.chans| == 8 && Deliverable(step, d.chans) && |transfer| >= 4
    ensures step.fault != None ==> StepTables(d, step, DecodeHeader(transfer), ls) == d
  {
  }

  /** The tables after an accepted transfer: unless an advertisement was delivered, only the
      channel's expected sequence number changes, to the one after the transfer's. */
  lemma TablesMean(d: Ad.Directory, step: Step, transfer: seq<byte>, ls: seq<ChanListener>)
    requires |d.chans| == 8 && Deliverable(step, d.chans) && |transfer| >= 4 && transfer[2] < 8 && step.fault == None
    requires match step.delivered
             case None => true
             case Some(x) => !(d.chans[x.chan].handler == Some(CommandListener) && x.payload != [] && x.payload[0] == 0)
    ensures StepTables(d, step, DecodeHeader(transfer), ls) ==
            d.(chans := d.chans[transfer[2] := d.chans[transfer[2]].(nextInSeq := ((transfer[3] as int) + 1) % 256)])
  {
  }

  /** Listener calls are told one by one, in order. */
  lemma {:induction false} AsEventsMeans(calls: seq<Ad.AdvertCall>)
    ensures |AsEvents(calls)| == |calls|
    ensures forall i :: 0 <= i < |calls| ==> AsEvents(calls)[i] == Advertised(calls[i])
  {
    if calls != [] {
      AsEventsMeans(calls[1..]);
    }
  }

  /** Discarding an assembly that does not match is the same as having none. */
  lemma DiscardFirst(a: Assembly, h: Header, body: seq<byte>, t: u32, listeners: nat)
    requires HEADER_LEN + |body| <= h.length && h.chan < Min(listeners, MAX_CHANNELS)
    ensures Process(a, h, body, t, listeners) == Process(if Continues(a, h) then a else Idle, h, body, t, listeners)
  {
  }

  /** The TLV at the cursor is the next one decoded. */
  lemma DecodeHead(payload: seq<byte>, cursor: nat, rest: seq<Ad.Tlv>)
    requires cursor < |payload| && Ad.Decode(payload[cursor..]) == Some(rest)
    ensures cursor + 2 <= |payload| && cursor + 2 + payload[cursor + 1] as int <= |payload|
    ensures var end := cursor + 2 + payload[cursor + 1] as int;
            && rest != []
            && rest[0] == Ad.Tlv(payload[cursor], payload[cursor + 2..end])
            && Ad.Decode(payload[end..]) == Some(rest[1..])
  {
    var bytes := payload[cursor..];
    var n: int := bytes[1];
    assert bytes[2..2 + n] == payload[cursor + 2..cursor + 2 + n];
    assert bytes[2 + n..] == payload[cursor + 2 + n..];
  }

  /** The effect of the first TLV and of the others. */
  lemma AdvertStep(d: Ad.Directory, sc: Ad.Scan, tlvs: seq<Ad.Tlv>, ls: seq<ChanListener>, als: seq<AppListener>)
    requires Ad.ValidTlvs(tlvs) && tlvs != [] && |d.chans| == MAX_CHANS
    ensures Ad.ValidTlv(tlvs[0]) && Ad.ValidTlvs(tlvs[1..])
    ensures |Ad.ApplyTlv(d, sc, tlvs[0], ls).chans| == MAX_CHANS
    ensures var sc' := Ad.NextScan(sc, tlvs[0]);
            && Ad.ApplyAll(d, sc, tlvs, ls) == Ad.ApplyAll(Ad.ApplyTlv(d, sc, tlvs[0], ls), sc', tlvs[1..], ls)
            && AsEvents(Ad.CallsAll(sc, tlvs, als))
               == AsEvents(Ad.CallsFor(sc, tlvs[0], als)) + AsEvents(Ad.CallsAll(sc', tlvs[1..], als))
  {
    AsEventsConcat(Ad.CallsFor(sc, tlvs[0], als), Ad.CallsAll(Ad.NextScan(sc, tlvs[0]), tlvs[1..], als));
  }

  lemma AdvertEnd(payload: seq<byte>, cursor: nat, rest: seq<Ad.Tlv>, d: Ad.Directory, sc: Ad.Scan,
                  ls: seq<ChanListener>, als: seq<AppListener>)
    requires cursor == |payload| && Ad.Decode(payload[cursor..]) == Some(rest) && |d.chans| == MAX_CHANS
    ensures rest == [] && Ad.ApplyAll(d, sc, rest, ls) == d
    ensures AsEvents(Ad.CallsAll(sc, rest, als)) == AsEvents(Ad.Call(als, sc.guid, Ad.NULL_TLV))
  {
  }

  lemma CallsForEvents(sc: Ad.Scan, t: Ad.Tlv, als: seq<AppListener>)
    requires Ad.ValidTlv(t)
    ensures AsEvents(Ad.CallsFor(sc, t, als))
         == (if t.tag == Ad.TAG_GUID then AsEvents(Ad.Call(als, sc.guid, Ad.NULL_TLV)) else [])
            + AsEvents(Ad.Call(als, Ad.NextScan(sc, t).guid, t))
  {
    AsEventsConcat(if t.tag == Ad.TAG_GUID then Ad.Call(als, sc.guid, Ad.NULL_TLV) else [],
                   Ad.Call(als, Ad.NextScan(sc, t).guid, t));
  }

  /** The HAL's write side: scripted answers, and the transfers it accepted. */
  class Hal {
    var script: Fr.Script
    var wire: seq<seq<byte>>

    constructor (script: Fr.Script)
      ensures this.script == script && wire == []
    {
      this.script, wire := script, [];
    }

    method Write(buffer: array<byte>, len: nat) returns (status: int)
      requires 0 < len <= buffer.Length
      modifies this
      ensures old(script) == [] ==> status == len && script == []
      ensures old(script) != [] ==> status == old(script)[0] && script == old(script)[1..]
      ensures wire == if status > 0 then old(wire) + [buffer[..len]] else old(wire)
    {
      if script == [] {
        status := len;
      } else {
        status := script[0];
        script := script[1..];
      }
      if status > 0 {
        wire := wire + [buffer[..len]];
      }
    }
  }

  class Instance {
    const hal: Hal
    var eventCallback: bool

    var outMaxPayload: u16
    var outMaxTransfer: u16
    const outTransfer: array<byte>

    var inMaxTransfer: u16
    var inRemaining: u16
    var inChan: byte
    const inPayload: array<byte>
    var inCursor: u16
    var inTimestamp: u32

    var advertPhase: AdvertPhase

    const app: array<App>
    var nextApp: nat
    const appListener: array<AppListener>
    var nextAppListener: nat
    const chan: array<Channel>
    const chanListener: array<ChanListener>
    var nextChanListener: nat

    var txDiscards: u32
    var shortFragments: u32
    var tooLargePayloads: u32
    var badRxChan: u32
    var badTxChan: u32

    var log: seq<Event>

    ghost predicate Shape()
      reads `nextApp, `nextAppListener, `nextChanListener, `inCursor, `inRemaining, `inChan, `outMaxPayload, `outMaxTransfer
    {
      && outTransfer.Length == Fr.MAX_TRANSFER_OUT && inPayload.Length == MAX_PAYLOAD_IN
      && outTransfer != inPayload
      && app.Length == appListener.Length == MAX_APPS
      && chan.Length == chanListener.Length == MAX_CHANS
      && nextApp <= MAX_APPS && nextAppListener <= MAX_APPS && nextChanListener <= MAX_CHANS
      && inCursor <= MAX_PAYLOAD_IN
      && (inRemaining > 0 ==> inChan < MAX_CHANS)
      && outMaxPayload <= Fr.MAX_PAYLOAD_OUT && outMaxTransfer <= Fr.MAX_TRANSFER_OUT
    }

    /** Channel callbacks agree with direct lookup; no registered listener has an empty name,
        so entries that were never set stay unbound; and every known application is in its
        table once. */
    ghost predicate Valid()
      reads `nextApp, `nextAppListener, `nextChanListener, `inCursor, `inRemaining, `inChan, `outMaxPayload, `outMaxTransfer
      reads app, chan, chanListener
      ensures Valid() ==> Shape()
    {
      && Shape()
      && DistinctApps(app[..nextApp])
      && Indexed(chan[..], chanListener[..])
      && (forall i :: 0 <= i < MAX_CHANS && chanListener[i].handler.Some? ==> chanListener[i].name != [])
    }

    ghost function InProgress(): Assembly
      reads `nextApp, `nextAppListener, `nextChanListener, `inCursor, `inRemaining, `inChan, `outMaxPayload, `outMaxTransfer
      reads `inTimestamp, chan, inPayload
      requires Shape()
    {
      if inRemaining == 0 then Idle
      else Partial(inChan, chan[inChan].nextInSeq, inRemaining, inPayload[..inCursor], inTimestamp)
    }

    ghost function Dir(): Ad.Directory
      reads `nextApp, `nextAppListener, `nextChanListener, `inCursor, `inRemaining, `inChan, `outMaxPayload, `outMaxTransfer
      reads `inMaxTransfer, app, chan
      requires Shape()
      ensures |Dir().chans| == MAX_CHANS
    {
      Ad.Directory(app[..nextApp], chan[..], Ad.Limits(outMaxPayload, outMaxTransfer, inMaxTransfer))
    }

    /** A cleared instance: every table entry is blank. */
    constructor Cleared(hal: Hal)
      ensures Valid() && this.hal == hal
      ensures fresh(inPayload) && fresh(outTransfer) && fresh(app) && fresh(appListener) && fresh(chan) && fresh(chanListener)
      ensures inRemaining == nextApp == nextAppListener == nextChanListener == 0 && log == []
      ensures forall c :: 0 <= c < MAX_CHANS ==> chan[c] == NO_CHANNEL && chanListener[c] == NO_CHAN_LISTENER
      ensures forall n :: 0 <= n < MAX_APPS ==> app[n] == NO_APP && appListener[n] == NO_APP_LISTENER
      ensures outMaxPayload == Fr.MAX_PAYLOAD_OUT && outMaxTransfer == Fr.MAX_TRANSFER_OUT && inMaxTransfer == 0
      ensures !eventCallback && txDiscards == shortFragments == tooLargePayloads == badRxChan == badTxChan == 0
    {
      this.hal := hal;
      eventCallback, log := false, [];
      inMaxTransfer, inRemaining, inChan, inCursor, inTimestamp := 0, 0, 0, 0, 0;
      txDiscards, shortFragments, tooLargePayloads, badRxChan, badTxChan := 0, 0, 0, 0, 0;
      outTransfer := new byte[Fr.MAX_TRANSFER_OUT](_ => 0);
      inPayload := new byte[MAX_PAYLOAD_IN](_ => 0);
      app := new App[MAX_APPS](_ => NO_APP);
      appListener := new AppListener[MAX_APPS](_ => NO_APP_LISTENER);
      chan := new Channel[MAX_CHANS](_ => NO_CHANNEL);
      chanListener := new ChanListener[MAX_CHANS](_ => NO_CHAN_LISTENER);
      nextApp, nextAppListener, nextChanListener := 0, 0, 0;
      outMaxPayload, outMaxTransfer := Fr.MAX_PAYLOAD_OUT, Fr.MAX_TRANSFER_OUT;
      advertPhase := AdvertRequested;
      new;
      LookupNone(chanListener[..], 0, []);
    }

    /** Opening makes the command channel known and listened to, and the driver itself the
        first to hear advertisements; every other entry stays as it was, channels unbound,
        and advertisements are on their way. Limits and counters are not touched. */
    method Open()
      requires Valid() && inRemaining == nextApp == nextAppListener == nextChanListener == 0
      requires forall c :: 0 <= c < MAX_CHANS ==> chan[c] == NO_CHANNEL
      modifies this`nextApp, this`nextAppListener, this`nextChanListener, this`advertPhase
      modifies app, appListener, chan, chanListener
      ensures Valid() && InProgress() == Idle && advertPhase == AdvertRequested
      ensures chan[0] == Channel(0, 0, 0, [99, 111, 109, 109, 97, 110, 100], false, Some(CommandListener))
      ensures forall c :: 0 < c < MAX_CHANS ==> chan[c] == NO_CHANNEL
      ensures nextApp == nextChanListener == nextAppListener == 1 && app[0] == App(GUID_SHTP, [])
      ensures appListener[..] == old(appListener[..])[0 := AppListener(GUID_SHTP, Some(SHTP_ADVERT_HANDLER))]
      ensures chanListener[..] == old(chanListener[..])[0 := ChanListener(GUID_SHTP, COMMAND_NAME, Some(CommandListener))]
    {
      hide AsEvents;
      AddApp(GUID_SHTP);
      assert app[..nextApp] == [App(GUID_SHTP, [])];
      assert app[0] == app[..nextApp][0];
      AddChannel(0, GUID_SHTP, COMMAND_NAME, false);
      ListenAdvert(GUID_SHTP, Some(SHTP_ADVERT_HANDLER));
      ghost var before := chan[..];
      assert forall c :: 0 < c < MAX_CHANS ==> before[c] == NO_CHANNEL;
      assert before[0].(handler := None) == Channel(0, 0, GUID_SHTP, COMMAND_NAME, false, None);
      var _ := ListenChan(GUID_SHTP, COMMAND_NAME, Some(CommandListener));
      OpenBindings(before);
      advertPhase := AdvertRequested;
    }

    lemma OpenBindings(before: seq<Channel>)
      requires Valid() && |before| == MAX_CHANS
      requires forall c :: 0 <= c < MAX_CHANS ==> chan[c] == Bind(before[c], chanListener[..])
      requires chanListener[0] == ChanListener(GUID_SHTP, COMMAND_NAME, Some(CommandListener))
      requires before[0].guid == GUID_SHTP && before[0].name == COMMAND_NAME
      requires forall c :: 0 < c < MAX_CHANS ==> before[c] == NO_CHANNEL
      ensures chan[0] == before[0].(handler := Some(CommandListener))
      ensures forall c :: 0 < c < MAX_CHANS ==> chan[c] == NO_CHANNEL
    {
      LookupIs(chanListener[..], 0, GUID_SHTP, COMMAND_NAME);
      BlankUnbound(chanListener[..], 0);
    }

    // ------------------------------------------------------------ callback index

    method UpdateCallbacks()
      requires Shape()
      modifies chan
      ensures forall c :: 0 <= c < MAX_CHANS ==> chan[c] == Bind(old(chan[c]), chanListener[..])
    {
      for chanNo := 0 to MAX_CHANS
        invariant forall c :: 0 <= c < chanNo ==> chan[c] == Bind(old(chan[c]), chanListener[..])
        invariant forall c :: chanNo <= c < MAX_CHANS ==> chan[c] == old(chan[c])
      {
        chan[chanNo] := chan[chanNo].(handler := None);
        var guid, name := chan[chanNo].guid, chan[chanNo].name;
        if guid == UNUSED_GUID {
          UnusedUnbound(chanListener[..], name);
        } else {
          var listenerNo := 0;
          while listenerNo < MAX_CHANS && !Matches(chanListener[listenerNo], guid, name)
            invariant 0 <= listenerNo <= MAX_CHANS
            invariant forall i :: 0 <= i < listenerNo ==> !Matches(chanListener[i], guid, name)
          {
            listenerNo := listenerNo + 1;
          }
          if listenerNo < MAX_CHANS {
            LookupIs(chanListener[..], listenerNo, guid, name);
            chan[chanNo] := chan[chanNo].(handler := chanListener[listenerNo].handler);
          } else {
            LookupNone(chanListener[..], guid, name);
          }
        }
      }
    }

    method AddChanListener(guid: u16, name: Name, handler: Option<Handler>) returns (status: int)
      requires Valid() && name != []
      modifies this`nextChanListener, chan, chanListener
      ensures Valid()
      ensures status == if old(nextChanListener) < MAX_CHANS then SH2_OK else SH2_ERR
      ensures status == SH2_OK ==>
                && nextChanListener == old(nextChanListener) + 1
                && chanListener[..] == old(chanListener[..])[old(nextChanListener) := ChanListener(guid, name, handler)]
      ensures status != SH2_OK ==> nextChanListener == old(nextChanListener) && chanListener[..] == old(chanListener[..])
      ensures forall c :: 0 <= c < MAX_CHANS ==> chan[c] == Bind(old(chan[c]), chanListener[..])
      ensures InProgress() == old(InProgress())
    {
      if nextChanListener >= MAX_CHANS {
        assert chanListener[..] == old(chanListener[..]);
        return SH2_ERR;
      }
      chanListener[nextChanListener] := ChanListener(guid, name, handler);
      nextChanListener := nextChanListener + 1;
      UpdateCallbacks();
      return SH2_OK;
    }

    method ListenChan(guid: u16, name: Name, handler: Option<Handler>) returns (status: int)
      requires Valid()
      modifies this`nextChanListener, chan, chanListener
      ensures Valid()
      ensures name == [] ==> status == SH2_ERR_BAD_PARAM && nextChanListener == old(nextChanListener)
                             && chan[..] == old(chan[..]) && chanListener[..] == old(chanListener[..])
      ensures name != [] ==> (status == SH2_OK <==> old(nextChanListener) < MAX_CHANS)
      ensures status == SH2_OK ==>
                && nextChanListener == old(nextChanListener) + 1
                && chanListener[..] == old(chanListener[..])[old(nextChanListener) := ChanListener(guid, name, handler)]
                && forall c :: 0 <= c < MAX_CHANS ==> chan[c] == Bind(old(chan[c]), chanListener[..])
    {
      if name == [] {
        return SH2_ERR_BAD_PARAM;
      }
      status := AddChanListener(guid, name, handler);
    }

    /** In every valid state a channel's callback is that of the lowest-numbered listener that
        has a handler, the channel's GUID and its name; it has none when there is no such one. */
    lemma CallbackIs(c: nat, h: Handler)
      requires Valid() && c < 8
      ensures chan[c].handler == Some(h) <==>
              exists k :: 0 <= k < chanListener.Length && chanListener[k].handler == Some(h)
                          && chanListener[k].guid == chan[c].guid && chanListener[k].name == chan[c].name
                          && forall i :: 0 <= i < k ==> !(&& chanListener[i].handler.Some?
                                                          && chanListener[i].guid == chan[c].guid
                                                          && chanListener[i].name == chan[c].name)
    {
      var ls := chanListener[..];
      LookupMeans(ls, chan[c].guid, chan[c].name, h);
      assert forall i :: 0 <= i < |ls| ==> ls[i] == chanListener[i];
      assert chan[..][c] == chan[c];
    }

    /** A channel entry that was never set has no callback. */
    lemma BlankStaysUnbound(c: nat)
      requires Valid() && c < MAX_CHANS && chan[c].name == []
      ensures chan[c].handler == None
    {
      BlankUnbound(chanListener[..], chan[c].guid);
    }

    // -------------------------------------------------------------------- tables

    method AddApp(guid: u32)
      requires Valid()
      modifies this`nextApp, app, chan
      ensures Valid()
      ensures Dir() == old(Dir()).(apps := ShtpTables.AddApp(old(Dir()).apps, guid))
    {
      var n := 0;
      while n < nextApp
        invariant 0 <= n <= nextApp
        invariant forall i :: 0 <= i < n ==> app[i].guid != guid
      {
        if app[n].guid == guid {
          assert app[..nextApp][n].guid == guid;
          return;
        }
        n := n + 1;
      }
      if nextApp >= MAX_APPS {
        return;
      }
      app[nextApp] := App(guid, []);
      nextApp := nextApp + 1;
      UpdateCallbacks();
      assert app[..nextApp] == old(app[..nextApp]) + [App(guid, [])];
      assert chan[..] == old(chan[..]);
    }

    method SetAppName(guid: u32, name: Name)
      requires Valid()
      modifies app
      ensures Valid()
      ensures Dir() == old(Dir()).(apps := ShtpTables.SetAppName(old(Dir()).apps, guid, name))
    {
      ghost var before := app[..nextApp];
      var n := 0;
      while n < nextApp
        invariant 0 <= n <= nextApp
        invariant app[..] == old(app[..])
        invariant forall i :: 0 <= i < n ==> app[i].guid != guid
      {
        if app[n].guid == guid {
          app[n] := app[n].(name := name);
          SetAppNameAt(before, n, guid, name);
          assert app[..nextApp] == before[n := App(guid, name)];
          return;
        }
        n := n + 1;
      }
      assert app[..nextApp] == before;
      SetAppNameUnknown(before, guid, name);
    }

    method AddChannel(chanNo: byte, guid: u32, name: Name, wake: bool)
      requires Valid()
      modifies chan
      ensures Valid()
      ensures Dir() == old(Dir()).(chans := ShtpTables.AddChannel(old(Dir()).chans, chanNo, guid, name, wake, chanListener[..]))
    {
      if chanNo >= MAX_CHANS {
        return;
      }
      chan[chanNo] := Channel(0, 0, guid, name, wake, None);
      UpdateCallbacks();
      assert forall c :: 0 <= c < MAX_CHANS && c != chanNo ==> chan[c] == old(chan[c]);
      assert chan[..] == old(chan[..])[chanNo := Channel(0, 0, guid, name, wake, Lookup(chanListener[..], guid, name))];
    }

    method AddAdvertListener(guid: u16, handler: Option<nat>)
      requires Shape()
      modifies this`nextAppListener, appListener
      ensures Shape()
      ensures old(nextAppListener) < MAX_APPS ==>
                && nextAppListener == old(nextAppListener) + 1
                && appListener[..] == old(appListener[..])[old(nextAppListener) := AppListener(guid, handler)]
      ensures old(nextAppListener) >= MAX_APPS ==>
                nextAppListener == old(nextAppListener) && appListener[..] == old(appListener[..])
    {
      if nextAppListener >= MAX_APPS {
        return;
      }
      appListener[nextAppListener] := AppListener(guid, handler);
      nextAppListener := nextAppListener + 1;
    }

    method ListenAdvert(guid: u16, handler: Option<nat>)
      requires Shape()
      modifies this`nextAppListener, this`advertPhase, appListener
      ensures Shape()
      ensures old(nextAppListener) < MAX_APPS ==>
                && nextAppListener == old(nextAppListener) + 1
                && appListener[..] == old(appListener[..])[old(nextAppListener) := AppListener(guid, handler)]
      ensures old(nextAppListener) >= MAX_APPS ==>
                nextAppListener == old(nextAppListener) && appListener[..] == old(appListener[..])
      ensures advertPhase == if old(advertPhase).AdvertIdle? then AdvertNeeded else old(advertPhase)
    {
      AddAdvertListener(guid, handler);
      if advertPhase == AdvertIdle {
        advertPhase := AdvertNeeded;
      }
    }

    // ------------------------------------------------------------- advertisement

    method CallAdvertHandler(guid: u32, t: Ad.Tlv)
      requires Shape()
      modifies this`log
      ensures log == old(log) + AsEvents(Ad.Call(appListener[..], guid, t))
    {
      var n := 0;
      while n < MAX_APPS
        invariant 0 <= n <= MAX_APPS && log == old(log)
        invariant forall i :: 0 <= i < n ==> !(appListener[i].guid == guid && appListener[i].handler.Some?)
      {
        if appListener[n].guid == guid && appListener[n].handler.Some? {
          FindAppListenerSkips(appListener[..], n, guid);
          var call := Ad.AdvertCall(appListener[n].handler.value, t.tag, t.val);
          assert AsEvents([call]) == [Advertised(call)];
          log := log + [Advertised(call)];
          return;
        }
        n := n + 1;
      }
      FindAppListenerSkips(appListener[..], MAX_APPS, guid);
    }

    /** Walks the TLVs of an advertisement. The tables become what the decoded TLVs say, and
        the listeners hear them in order. */
    method ProcessAdvertisement(payload: seq<byte>)
      requires Valid() && Parsable(payload) && |payload| <= MAX_PAYLOAD_IN
      modifies this`log, this`advertPhase, this`nextApp, this`outMaxPayload, this`outMaxTransfer, this`inMaxTransfer, app, chan
      ensures Valid() && advertPhase == AdvertIdle
      ensures var tlvs := Ad.Decode(payload[1..]).value;
              && Dir() == Ad.ApplyAll(old(Dir()), Ad.START, tlvs, chanListener[..])
              && log == old(log) + AsEvents(Ad.CallsAll(Ad.START, tlvs, appListener[..]))
    {
      hide Indexed, Ad.Decode, Ad.ApplyAll, Ad.CallsAll, Ad.CallsFor, Ad.ApplyTlv, Ad.ValidTlv, AsEvents, Dir, Ad.Call;
      ghost var rest := Ad.Decode(payload[1..]).value;
      ghost var target := Ad.ApplyAll(Dir(), Ad.START, rest, chanListener[..]);
      ghost var calls := old(log) + AsEvents(Ad.CallsAll(Ad.START, rest, appListener[..]));
      var cursor, sc := 1, Ad.START;
      advertPhase := AdvertIdle;
      while cursor < |payload|
        invariant 1 <= cursor <= |payload| && Valid() && advertPhase == AdvertIdle
        invariant Ad.Decode(payload[cursor..]) == Some(rest) && Ad.ValidTlvs(rest)
        invariant target == Ad.ApplyAll(Dir(), sc, rest, chanListener[..])
        invariant calls == log + AsEvents(Ad.CallsAll(sc, rest, appListener[..]))
      {
        DecodeHead(payload, cursor, rest);
        var len := payload[cursor + 1];
        var t := Ad.Tlv(payload[cursor], payload[cursor + 2..cursor + 2 + len]);
        AdvertStep(Dir(), sc, rest, chanListener[..], appListener[..]);
        ProcessTag(sc, t);
        sc, cursor, rest := Ad.NextScan(sc, t), cursor + 2 + len, rest[1..];
      }
      AdvertEnd(payload, cursor, rest, Dir(), sc, chanListener[..], appListener[..]);
      CallAdvertHandler(sc.guid, Ad.NULL_TLV);
    }

    method ProcessTag(sc: Ad.Scan, t: Ad.Tlv)
      requires Valid() && Ad.ValidTlv(t)
      modifies this`log, this`nextApp, this`outMaxPayload, this`outMaxTransfer, this`inMaxTransfer, app, chan
      ensures Valid()
      ensures Dir() == Ad.ApplyTlv(old(Dir()), sc, t, chanListener[..])
      ensures log == old(log) + AsEvents(Ad.CallsFor(sc, t, appListener[..]))
    {
      hide *;
      CallsForEvents(sc, t, appListener[..]);
      if t.tag == Ad.TAG_GUID {
        CallAdvertHandler(sc.guid, Ad.NULL_TLV);
      }
      UpdateTables(sc, t);
      CallAdvertHandler(Ad.NextScan(sc, t).guid, t);
    }

    method UpdateTables(sc: Ad.Scan, t: Ad.Tlv)
      requires Valid() && Ad.ValidTlv(t)
      modifies this`nextApp, this`outMaxPayload, this`outMaxTransfer, this`inMaxTransfer, app, chan
      ensures Valid()
      ensures Dir() == Ad.ApplyTlv(old(Dir()), sc, t, chanListener[..])
    {
      if t.tag == Ad.TAG_GUID {
        AddApp(Ad.ReadU32(t.val));
      } else if t.tag == Ad.TAG_APP_NAME {
        SetAppName(sc.guid, Ad.CString(t.val));
      } else if t.tag == Ad.TAG_CHANNEL_NAME {
        AddChannel(sc.chanNo, sc.guid, Ad.CString(t.val), sc.wake);
      } else {
        UpdateLimits(t);
      }
    }

    method UpdateLimits(t: Ad.Tlv)
      requires Shape() && Ad.ValidTlv(t)
      modifies this`outMaxPayload, this`outMaxTransfer, this`inMaxTransfer
      ensures Shape()
      ensures Ad.Limits(outMaxPayload, outMaxTransfer, inMaxTransfer)
           == Ad.ApplyLimits(old(Ad.Limits(outMaxPayload, outMaxTransfer, inMaxTransfer)), t)
    {
      if t.tag == Ad.TAG_MAX_CARGO_PLUS_HEADER_WRITE {
        var x := (Ad.ReadU16(t.val) - HEADER_LEN) % TWO_TO_16;
        if x < Fr.MAX_PAYLOAD_OUT {
          outMaxPayload := x;
        }
      } else if t.tag == Ad.TAG_MAX_TRANSFER_WRITE {
        var x := (Ad.ReadU16(t.val) - HEADER_LEN) % TWO_TO_16;
        if x < Fr.MAX_TRANSFER_OUT {
          outMaxTransfer := x;
        } else {
          outMaxTransfer := Fr.MAX_TRANSFER_OUT;
        }
      } else if t.tag == Ad.TAG_MAX_TRANSFER_READ {
        var x := (Ad.ReadU16(t.val) - HEADER_LEN) % TWO_TO_16;
        if x < Ad.MAX_TRANSFER_IN {
          inMaxTransfer := x;
        }
      }
    }

    // ------------------------------------------------------------------- receive

    method Invoke(handler: Option<Handler>, payload: seq<byte>, timestamp: u32)
      requires Valid() && |payload| <= MAX_PAYLOAD_IN
      requires IsAdvertisement(handler, payload) ==> Parsable(payload)
      modifies this`log, this`advertPhase, this`nextApp, this`outMaxPayload, this`outMaxTransfer, this`inMaxTransfer, app, chan
      ensures Valid()
      ensures Dir() == Dispatched(old(Dir()), handler, payload, chanListener[..])
      ensures log == old(log) + DispatchEvents(handler, payload, timestamp, appListener[..])
      ensures advertPhase == if IsAdvertisement(handler, payload) then AdvertIdle else old(advertPhase)
    {
      hide Indexed, Valid, Dir, Ad.Decode, Ad.ApplyAll, Ad.CallsAll, Ad.ValidTlv, AsEvents;
      if handler.Some? {
        log := log + [Delivered(handler.value, payload, timestamp)];
        if handler.value.CommandListener? && payload != [] && payload[0] == RESP_ADVERTISE {
          ProcessAdvertisement(payload);
        }
      }
    }

    /** Counts a rejected transfer and tells the client, unless it had no header at all. */
    method Reject(f: Fault)
      modifies this`shortFragments, this`badRxChan, this`tooLargePayloads, this`log
      ensures log == old(log) + FaultEvents(f, eventCallback)
      ensures shortFragments == Counted(old(shortFragments), f.ShortTransfer? || f.ShortLength?)
      ensures badRxChan == Counted(old(badRxChan), f.BadChannel?)
      ensures tooLargePayloads == Counted(old(tooLargePayloads), f.TooLarge?)
    {
      match f {
        case ShortTransfer => shortFragments := Counted(shortFragments, true);
        case ShortLength => shortFragments := Counted(shortFragments, true);
        case BadChannel => badRxChan := Counted(badRxChan, true);
        case TooLarge => tooLargePayloads := Counted(tooLargePayloads, true);
      }
      if eventCallback && f != ShortTransfer {
        log := log + [Async(f)];
      }
    }

    /** Opens an empty assembly for the channel. */
    method Begin(c: byte, t_us: u32)
      requires Valid() && inRemaining == 0
      modifies this`inCursor, this`inChan, this`inTimestamp
      ensures Valid() && inCursor == 0 && inChan == c && inTimestamp == t_us
    {
      inTimestamp := t_us;
      inCursor := 0;
      inChan := c;
    }

    method Append(body: seq<byte>, remaining: u16)
      requires Valid() && inCursor + |body| <= MAX_PAYLOAD_IN && inChan < MAX_CHANS
      modifies this`inCursor, this`inRemaining, inPayload
      ensures Valid() && inCursor == old(inCursor) + |body| && inRemaining == remaining
      ensures inPayload[..inCursor] == old(inPayload[..inCursor]) + body
    {
      forall i | 0 <= i < |body| {
        inPayload[inCursor + i] := body[i];
      }
      inCursor := inCursor + |body|;
      inRemaining := remaining;
      assert chan[..] == old(chan[..]) && chanListener[..] == old(chanListener[..]);
    }

    /** The accepted bytes join the assembly, which is started first when there is none. */
    method Gather(h: Header, body: seq<byte>, t_us: u32)
      requires Valid() && ValidHeader(h) && HEADER_LEN + |body| <= h.length && h.chan < MAX_CHANS
      requires inRemaining == 0 ==> h.length <= MAX_PAYLOAD_IN
      requires inRemaining > 0 ==> inChan == h.chan && inCursor + |body| <= MAX_PAYLOAD_IN
      modifies this`inRemaining, this`inCursor, this`inChan, this`inTimestamp, inPayload
      ensures Valid() && inRemaining == h.length - HEADER_LEN - |body| && inChan == h.chan
      ensures inPayload[..inCursor] == (if old(inRemaining) > 0 then old(inPayload[..inCursor]) else []) + body
      ensures inTimestamp == if old(inRemaining) > 0 then old(inTimestamp) else t_us
    {
      hide Valid, Indexed;
      if inRemaining == 0 {
        Begin(h.chan, t_us);
      }
      Append(body, h.length - HEADER_LEN - |body|);
    }

    /** Starts or extends the assembly, and hands over a completed cargo. */
    method Assemble(h: Header, body: seq<byte>, t_us: u32)
      requires Valid() && ValidHeader(h) && HEADER_LEN + |body| <= h.length
      requires h.chan < Min(nextChanListener, MAX_CHANS)
      requires inRemaining > 0 ==> Continues(InProgress(), h) && inCursor + |body| <= MAX_PAYLOAD_IN
      requires inRemaining == 0 ==> h.length <= MAX_PAYLOAD_IN
      requires Deliverable(Process(InProgress(), h, body, t_us, nextChanListener), chan[..])
      modifies this`inRemaining, this`inCursor, this`inChan, this`inTimestamp, inPayload
      modifies this`log, this`advertPhase, this`nextApp, this`outMaxPayload, this`outMaxTransfer, this`inMaxTransfer, app, chan
      ensures Valid()
      ensures var step := Process(old(InProgress()), h, body, t_us, nextChanListener);
              && step.fault.None?
              && InProgress() == step.next
              && Dir() == StepTables(old(Dir()), step, h, chanListener[..])
              && log == old(log) + StepEvents(step, eventCallback, old(chan[..]), appListener[..])
              && advertPhase == StepPhase(old(advertPhase), step, old(chan[..]))
    {
      hide Indexed, Valid, Dispatched, DispatchEvents, IsAdvertisement, Parsable, Next, FaultEvents, Lookup;
      ghost var step := Process(InProgress(), h, body, t_us, nextChanListener);
      Gather(h, body, t_us);
      assert inRemaining == 0 ==> step.delivered == Some(Delivery(h.chan, inPayload[..inCursor], inTimestamp));
      Conclude(h.chan, Next(h.seqNo));
    }

    /** Delivers the assembly if it is complete and notes the sequence number to come. */
    method Conclude(c: byte, n: byte)
      requires Valid() && c < MAX_CHANS
      requires inRemaining == 0 && IsAdvertisement(chan[c].handler, inPayload[..inCursor]) ==> Parsable(inPayload[..inCursor])
      modifies this`log, this`advertPhase, this`nextApp, this`outMaxPayload, this`outMaxTransfer, this`inMaxTransfer, app, chan
      ensures Valid()
      ensures var advert := inRemaining == 0 && IsAdvertisement(old(chan[c]).handler, inPayload[..inCursor]);
              advertPhase == if advert then AdvertIdle else old(advertPhase)
      ensures var events := if inRemaining > 0 then []
                            else DispatchEvents(old(chan[c]).handler, inPayload[..inCursor], inTimestamp, appListener[..]);
              log == old(log) + events
      ensures var d := if inRemaining > 0 then old(Dir())
                       else Dispatched(old(Dir()), old(chan[c]).handler, inPayload[..inCursor], chanListener[..]);
              Dir() == d.(chans := d.chans[c := d.chans[c].(nextInSeq := n)])
    {
      hide Indexed, Valid, Dispatched, DispatchEvents, IsAdvertisement, Parsable;
      if inRemaining == 0 {
        Invoke(chan[c].handler, inPayload[..inCursor], inTimestamp);
      }
      SetNextInSeq(c, n);
    }

    method SetNextInSeq(c: byte, n: byte)
      requires Valid() && c < MAX_CHANS
      modifies chan
      ensures Valid()
      ensures chan[..] == old(chan[..])[c := old(chan[c]).(nextInSeq := n)]
    {
      chan[c] := chan[c].(nextInSeq := n);
    }

    /** A transfer with a good header: an assembly that it does not extend is dropped, and
        a cargo that would not fit is refused. */
    method Admit(h: Header, body: seq<byte>, t_us: u32)
      requires Valid() && ValidHeader(h) && HEADER_LEN + |body| <= h.length
      requires h.chan < Min(nextChanListener, MAX_CHANS)
      requires inRemaining > 0 && Continues(InProgress(), h) ==> inCursor + |body| <= MAX_PAYLOAD_IN
      requires Deliverable(Process(InProgress(), h, body, t_us, nextChanListener), chan[..])
      modifies this`inRemaining, this`inCursor, this`inChan, this`inTimestamp, inPayload
      modifies this`tooLargePayloads, this`shortFragments, this`badRxChan
      modifies this`log, this`advertPhase, this`nextApp, this`outMaxPayload, this`outMaxTransfer, this`inMaxTransfer, app, chan
      ensures Valid()
      ensures var step := Process(old(InProgress()), h, body, t_us, nextChanListener);
              && (step.fault.None? || step.fault == Some(TooLarge))
              && InProgress() == step.next
              && Dir() == StepTables(old(Dir()), step, h, chanListener[..])
              && log == old(log) + StepEvents(step, eventCallback, old(chan[..]), appListener[..])
              && advertPhase == StepPhase(old(advertPhase), step, old(chan[..]))
              && tooLargePayloads == Counted(old(tooLargePayloads), step.fault == Some(TooLarge))
              && shortFragments == old(shortFragments) && badRxChan == old(badRxChan)
    {
      hide Indexed, Valid, Dispatched, DispatchEvents, IsAdvertisement, Parsable, Next, Lookup;
      DiscardFirst(InProgress(), h, body, t_us, nextChanListener);
      Discard(h);
      if inRemaining == 0 && h.length > MAX_PAYLOAD_IN {
        Reject(TooLarge);
      } else {
        Assemble(h, body, t_us);
      }
    }

    /** One transfer from the HAL. The receive state, the tables and the events are those of
        the abstract receiver, and each rejected transfer is counted once.
        What is heard of it: a delivered cargo goes, whole and with its time, to the handler
        that its channel had, if any, and to nobody else, unless the command listener gets
        one that starts with 0, which is an advertisement; a rejected transfer is told to the
        client if it asked for that and the transfer had a header. */
    method RxAssemble(transfer: seq<byte>, t_us: u32)
      requires Valid() && Fits(InProgress(), transfer)
      requires Deliverable(Receive(InProgress(), transfer, t_us, nextChanListener), chan[..])
      modifies this`inRemaining, this`inCursor, this`inChan, this`inTimestamp, inPayload
      modifies this`tooLargePayloads, this`shortFragments, this`badRxChan
      modifies this`log, this`advertPhase, this`nextApp, this`outMaxPayload, this`outMaxTransfer, this`inMaxTransfer, app, chan
      ensures Valid()
      ensures var step := Receive(old(InProgress()), transfer, t_us, nextChanListener);
              && InProgress() == step.next
              && log == old(log) + StepEvents(step, eventCallback, old(chan[..]), appListener[..])
              && advertPhase == StepPhase(old(advertPhase), step, old(chan[..]))
              && Dir() == (if |transfer| < HEADER_LEN then old(Dir())
                           else StepTables(old(Dir()), step, DecodeHeader(transfer), chanListener[..]))
      ensures match Receive(old(InProgress()), transfer, t_us, nextChanListener)
              case Step(_, _, Some(f)) => log == old(log) + if eventCallback && f != ShortTransfer then [Async(f)] else []
              case Step(_, None, None) => log == old(log)
              case Step(_, Some(d), None) =>
                match old(chan[..])[d.chan].handler
                case None => log == old(log)
                case Some(h) =>
                  && old(log) + [Delivered(h, d.payload, d.timestamp)] <= log
                  && (h != CommandListener || d.payload == [] || d.payload[0] != 0 ==>
                        log == old(log) + [Delivered(h, d.payload, d.timestamp)] && advertPhase == old(advertPhase))
      ensures var fault := Receive(old(InProgress()), transfer, t_us, nextChanListener).fault;
              && (fault != None ==> Dir() == old(Dir()) && advertPhase == old(advertPhase))
              && shortFragments == (old(shortFragments) + if fault in {Some(ShortTransfer), Some(ShortLength)} then 1 else 0)
                                   % 0x1_0000_0000
              && badRxChan == (old(badRxChan) + if fault == Some(BadChannel) then 1 else 0) % 0x1_0000_0000
              && tooLargePayloads == (old(tooLargePayloads) + if fault == Some(TooLarge) then 1 else 0) % 0x1_0000_0000
    {
      hide Indexed, Valid, Ad.ApplyAll, Ad.Decode, DispatchEvents, Dispatched, Parsable, DecodeHeader, FaultEvents;
      hide IsAdvertisement, Continues, Receive, StepEvents, StepTables, StepPhase;
      ghost var step := Receive(InProgress(), transfer, t_us, nextChanListener);
      HeardMeans(step, eventCallback, chan[..], appListener[..], log);
      PhaseMeans(step, advertPhase, chan[..]);
      if |transfer| >= HEADER_LEN {
        NoTables(Dir(), step, transfer, chanListener[..]);
      }
      RxTransfer(transfer, t_us);
    }

    /** The same, told in terms of the abstract receiver alone. */
    method RxTransfer(transfer: seq<byte>, t_us: u32)
      requires Valid() && Fits(InProgress(), transfer)
      requires Deliverable(Receive(InProgress(), transfer, t_us, nextChanListener), chan[..])
      modifies this`inRemaining, this`inCursor, this`inChan, this`inTimestamp, inPayload
      modifies this`tooLargePayloads, this`shortFragments, this`badRxChan
      modifies this`log, this`advertPhase, this`nextApp, this`outMaxPayload, this`outMaxTransfer, this`inMaxTransfer, app, chan
      ensures Valid()
      ensures var step := Receive(old(InProgress()), transfer, t_us, nextChanListener);
              && InProgress() == step.next
              && log == old(log) + StepEvents(step, eventCallback, old(chan[..]), appListener[..])
              && advertPhase == StepPhase(old(advertPhase), step, old(chan[..]))
              && Dir() == (if |transfer| < HEADER_LEN then old(Dir())
                           else StepTables(old(Dir()), step, DecodeHeader(transfer), chanListener[..]))
              && shortFragments == Counted(old(shortFragments),
                                           step.fault == Some(ShortTransfer) || step.fault == Some(ShortLength))
              && badRxChan == Counted(old(badRxChan), step.fault == Some(BadChannel))
              && tooLargePayloads == Counted(old(tooLargePayloads), step.fault == Some(TooLarge))
    {
      hide Indexed, Valid, Ad.ApplyAll, Ad.Decode, DispatchEvents, Dispatched, Parsable;
      hide DecodeHeader, FaultEvents, IsAdvertisement, Continues;
      if |transfer| < HEADER_LEN {
        Reject(ShortTransfer);
        return;
      }
      var h := DecodeHeader(transfer);
      if h.length < HEADER_LEN {
        Reject(ShortLength);
        return;
      }
      if h.chan >= MAX_CHANS || h.chan >= nextChanListener {
        Reject(BadChannel);
        return;
      }
      var len := Min(|transfer|, h.length);
      Admit(h, transfer[HEADER_LEN..len], t_us);
    }

    /** Drops an assembly in progress that the transfer does not extend. */
    method Discard(h: Header)
      requires Valid() && h.chan < MAX_CHANS
      modifies this`inRemaining
      ensures Valid() && InProgress() == if Continues(old(InProgress()), h) then old(InProgress()) else Idle
    {
      if inRemaining > 0 {
        if !h.continuation || h.chan != inChan || h.seqNo != chan[h.chan].nextInSeq {
          inRemaining := 0;
        }
      }
    }

    // ------------------------------------------------------------------ transmit

    /** Sends a cargo as a sequence of transfers. They are the fragments of the payload, as
        far as the HAL takes them; after an error the rest of the cargo is dropped. No
        transfer is longer than the hub's limit, all but the last are exactly that long, and
        a whole cargo takes as few as that allows. */
    method TxProcess(chanNo: byte, payload: seq<byte>) returns (status: int)
      requires Valid() && chanNo < MAX_CHANS && |payload| <= Fr.MAX_PAYLOAD_OUT
      requires Fr.Sendable(payload, outMaxTransfer)
      modifies this`txDiscards, outTransfer, chan, hal
      ensures Valid()
      ensures payload == [] ==>
                status == SH2_OK && hal.wire == old(hal.wire) && chan[..] == old(chan[..]) && txDiscards == old(txDiscards)
      ensures payload != [] ==>
                var frames := Fr.Fragments(chanNo, old(chan[chanNo]).nextOutSeq, payload, Fr.Capacity(outMaxTransfer), false);
                var o := Fr.Transmit(|frames|, old(hal.script));
                && status == o.status
                && hal.script == o.rest
                && hal.wire == old(hal.wire) + frames[..o.sent]
                && chan[..] == old(chan[..])[chanNo := old(chan[chanNo]).(
                     nextOutSeq := (old(chan[chanNo]).nextOutSeq + o.sent + (if status < SH2_OK then 1 else 0)) % 0x100)]
      ensures txDiscards == (old(txDiscards) + if status < 0 then 1 else 0) % 0x1_0000_0000
      ensures |old(hal.wire)| <= |hal.wire| && hal.wire[..|old(hal.wire)|] == old(hal.wire)
      ensures outMaxTransfer > 4 ==>
                var sent := hal.wire[|old(hal.wire)|..];
                && (forall k :: 0 <= k < |sent| ==> |sent[k]| <= outMaxTransfer)
                && (forall k :: 0 <= k < |sent| - 1 ==> |sent[k]| == outMaxTransfer)
                && (status == 0 && payload != [] ==>
                      (|sent| - 1) * (outMaxTransfer - 4) < |payload| <= |sent| * (outMaxTransfer - 4))
    {
      hide Valid, Indexed, Fr.Fragments, Fr.Transmit, EncodeHeader;
      ghost var seqNo := chan[chanNo].nextOutSeq;
      if outMaxTransfer > HEADER_LEN {
        Fr.TransferSizes(chanNo, seqNo, payload, outMaxTransfer);
        Fr.TransferNumber(chanNo, seqNo, payload, outMaxTransfer);
      }
      status := TxTransfers(chanNo, payload);
      if payload != [] {
        ghost var frames := Fr.Fragments(chanNo, seqNo, payload, Fr.Capacity(outMaxTransfer), false);
        ghost var o := Fr.Transmit(|frames|, old(hal.script));
        assert hal.wire[|old(hal.wire)|..] == frames[..o.sent];
        assert o.sent == |frames| ==> frames[..o.sent] == frames;
      }
    }

    /** The loop over the transfers. */
    method TxTransfers(chanNo: byte, payload: seq<byte>) returns (status: int)
      requires Valid() && chanNo < MAX_CHANS && |payload| <= Fr.MAX_PAYLOAD_OUT
      requires Fr.Sendable(payload, outMaxTransfer)
      modifies this`txDiscards, outTransfer, chan, hal
      ensures Valid()
      ensures payload == [] ==>
                status == SH2_OK && hal.wire == old(hal.wire) && chan[..] == old(chan[..]) && txDiscards == old(txDiscards)
      ensures payload != [] ==>
                var frames := Fr.Fragments(chanNo, old(chan[chanNo]).nextOutSeq, payload, Fr.Capacity(outMaxTransfer), false);
                var o := Fr.Transmit(|frames|, old(hal.script));
                && status == o.status
                && hal.script == o.rest
                && hal.wire == old(hal.wire) + frames[..o.sent]
                && txDiscards == Counted(old(txDiscards), status < SH2_OK)
                && chan[..] == old(chan[..])[chanNo := old(chan[chanNo]).(
                     nextOutSeq := (old(chan[chanNo]).nextOutSeq + o.sent + (if status < SH2_OK then 1 else 0)) % 0x100)]
    {
      hide Valid, Indexed, Fr.Fragments, Fr.Transmit, Fr.SkipBusy, Fr.Answered, EncodeHeader, Next;
      if payload == [] {
        return SH2_OK;
      }
      ghost var seqNo := chan[chanNo].nextOutSeq;
      var capacity := Fr.Capacity(outMaxTransfer);
      ghost var frames := Fr.Fragments(chanNo, seqNo, payload, capacity, false);
      ghost var sent := 0;
      var continuation, cursor, remaining := false, 0, |payload|;
      while remaining > 0
        invariant 0 <= cursor <= |payload| && remaining == |payload| - cursor && Valid()
        invariant 0 <= sent <= |frames| && hal.wire == old(hal.wire) + frames[..sent]
        invariant frames[sent..] == Fr.Fragments(chanNo, (seqNo + sent) % 0x100, payload[cursor..], capacity, continuation)
        invariant chan[..] == old(chan[..])[chanNo := old(chan[chanNo]).(nextOutSeq := (seqNo + sent) % 0x100)]
        invariant var o, rest := Fr.Transmit(|frames|, old(hal.script)), Fr.Transmit(|frames| - sent, hal.script);
                  o == Fr.Outcome(sent + rest.sent, rest.status, rest.rest)
        invariant txDiscards == old(txDiscards)
      {
        var n := Min(remaining, capacity);
        ghost var script := hal.script;
        Fr.PeelAt(frames, sent, chanNo, seqNo, payload, cursor, capacity, continuation);
        assert chan[chanNo] == chan[..][chanNo];
        status := SendOne(chanNo, continuation, payload[cursor..cursor + n]);
        Fr.TransmitNext(|frames| - sent, script, status, hal.script);
        remaining, cursor := remaining - n, cursor + n;
        if status < 0 {
          txDiscards := Counted(txDiscards, true);
          return;
        }
        sent := sent + 1;
        continuation := true;
      }
      Fr.NoFragments(chanNo, (seqNo + sent) % 0x100, payload[cursor..], capacity, continuation, hal.script);
      return SH2_OK;
    }

    /** Stages one transfer under the next sequence number and offers it to the HAL. */
    method SendOne(chanNo: byte, continuation: bool, body: seq<byte>) returns (status: int)
      requires Valid() && chanNo < MAX_CHANS && HEADER_LEN + |body| <= Fr.MAX_TRANSFER_OUT
      modifies outTransfer, chan, hal
      ensures Valid() && status != 0 && Fr.Answered(old(hal.script), status, hal.script)
      ensures chan[..] == old(chan[..])[chanNo := old(chan[chanNo]).(nextOutSeq := Next(old(chan[chanNo]).nextOutSeq))]
      ensures var frame := EncodeHeader(Header(|body| + HEADER_LEN, continuation, chanNo, old(chan[chanNo]).nextOutSeq)) + body;
              hal.wire == old(hal.wire) + (if status < 0 then [] else [frame])
    {
      Stage(Header(|body| + HEADER_LEN, continuation, chanNo, chan[chanNo].nextOutSeq), body);
      chan[chanNo] := chan[chanNo].(nextOutSeq := Next(chan[chanNo].nextOutSeq));
      status := WriteStaged(|body| + HEADER_LEN);
    }

    /** Puts one transfer into the staging buffer. */
    method Stage(h: Header, body: seq<byte>)
      requires Valid() && ValidHeader(h) && HEADER_LEN + |body| <= Fr.MAX_TRANSFER_OUT
      modifies outTransfer
      ensures Valid() && outTransfer[..HEADER_LEN + |body|] == EncodeHeader(h) + body
    {
      outTransfer[0] := h.length % 0x100;
      outTransfer[1] := h.length / 0x100 + (if h.continuation then 0x80 else 0);
      outTransfer[2] := h.chan;
      outTransfer[3] := h.seqNo;
      forall i | 0 <= i < |body| {
        outTransfer[HEADER_LEN + i] := body[i];
      }
      assert chan[..] == old(chan[..]) && chanListener[..] == old(chanListener[..]);
    }

    /** Offers the staged transfer until the HAL takes it or fails. */
    method WriteStaged(len: nat) returns (status: int)
      requires Valid() && 0 < len <= Fr.MAX_TRANSFER_OUT
      modifies hal
      ensures Valid() && status != 0
      ensures Fr.Answered(old(hal.script), status, hal.script)
      ensures hal.wire == if status > 0 then old(hal.wire) + [outTransfer[..len]] else old(hal.wire)
    {
      status := hal.Write(outTransfer, len);
      while status == 0
        invariant Valid()
        invariant status == 0 ==> Fr.SkipBusy(hal.script) == Fr.SkipBusy(old(hal.script))
        invariant status != 0 ==> Fr.Answered(old(hal.script), status, hal.script)
        invariant hal.wire == if status > 0 then old(hal.wire) + [outTransfer[..len]] else old(hal.wire)
        decreases status == 0, |hal.script|
      {
        status := hal.Write(outTransfer, len);
      }
    }

    /** Sends a payload. Bad arguments send nothing; otherwise what goes out is a prefix of
        the payload, and the whole of it exactly when the call succeeds. */
    method Send(channel: byte, payload: seq<byte>) returns (ret: int)
      requires Valid()
      requires |payload| <= outMaxPayload && channel < MAX_CHANS ==> Fr.Sendable(payload, outMaxTransfer)
      modifies this`badTxChan, this`txDiscards, outTransfer, chan, hal
      ensures Valid()
      ensures |payload| > outMaxPayload || channel >= MAX_CHANS ==>
                ret == SH2_ERR_BAD_PARAM == -2 && hal.wire == old(hal.wire) && chan[..] == old(chan[..])
      ensures badTxChan == (old(badTxChan) + if |payload| <= outMaxPayload && channel >= 8 then 1 else 0) % 0x1_0000_0000
      ensures |payload| <= outMaxPayload && channel < MAX_CHANS ==>
                && old(hal.wire) <= hal.wire
                && (forall w :: w in hal.wire[|old(hal.wire)|..] ==> |w| >= HEADER_LEN)
                && Flatten(Fr.Bodies(hal.wire[|old(hal.wire)|..])) <= payload
                && (ret == SH2_OK <==> Flatten(Fr.Bodies(hal.wire[|old(hal.wire)|..])) == payload)
    {
      hide Fr.Fragments, Fr.Transmit, Indexed, Flatten, EncodeHeader;
      if |payload| > outMaxPayload {
        return SH2_ERR_BAD_PARAM;
      }
      if channel >= MAX_CHANS {
        badTxChan := Counted(badTxChan, true);
        return SH2_ERR_BAD_PARAM;
      }
      ghost var seqNo := chan[channel].nextOutSeq;
      ret := TxProcess(channel, payload);
      if payload == [] {
        assert hal.wire[|old(hal.wire)|..] == [];
        FlattenNothing<byte>();
      } else {
        ghost var capacity := Fr.Capacity(outMaxTransfer);
        ghost var frames := Fr.Fragments(channel, seqNo, payload, capacity, false);
        ghost var k := Fr.Transmit(|frames|, old(hal.script)).sent;
        Fr.SentPrefix(channel, seqNo, payload, capacity, k);
        assert hal.wire[|old(hal.wire)|..] == frames[..k];
      }
    }

    /** The number of the lowest channel with the given name that belongs to the first
        application with the given name, or 255. */
    method ChanNo(appName: Name, chanName: Name) returns (no: byte)
      requires Valid()
      ensures no == 255 || no < 8
      ensures no < 8 ==>
                && chan[no].name == chanName
                && exists n :: 0 <= n < app.Length && app[n].name == appName && (forall i :: 0 <= i < n ==> app[i].name != appName)
                               && app[n].guid == chan[no].guid != 0xFFFF_FFFF
                               && forall c :: 0 <= c < no ==> !(chan[c].name == chanName && chan[c].guid == app[n].guid)
      ensures no == 255 ==>
                forall n, c :: 0 <= n < app.Length && app[n].name == appName && (forall i :: 0 <= i < n ==> app[i].name != appName)
                               && 0 <= c < chan.Length && chan[c].name == chanName ==>
                                 chan[c].guid != app[n].guid || app[n].guid == 0xFFFF_FFFF
    {
      var n := 0;
      while n < MAX_APPS && app[n].name != appName
        invariant 0 <= n <= MAX_APPS && forall i :: 0 <= i < n ==> app[i].name != appName
      {
        n := n + 1;
      }
      if n == MAX_APPS || app[n].guid == UNUSED_GUID {
        return NOT_FOUND;
      }
      var c := 0;
      while c < MAX_CHANS
        invariant 0 <= c <= MAX_CHANS
        invariant forall i :: 0 <= i < c ==> !(chan[i].name == chanName && chan[i].guid == app[n].guid)
      {
        if chan[c].name == chanName && chan[c].guid == app[n].guid {
          return c;
        }
        c := c + 1;
      }
      return NOT_FOUND;
    }
  }
}
