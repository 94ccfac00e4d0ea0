/** A received advertisement, from the transfer to the tables and the listeners. */
module Announcement {
  import opened Basics
  import opened Reassembly
  import opened ShtpTables
  import opened Shtp
  import Ad = Advertisement

  /** The cargo that announces a list of sections. */
  function Cargo(ss: seq<Ad.Section>): seq<byte>
    requires forall s :: s in ss ==> Ad.ValidSection(s)
  {
    [0] + Ad.Encode(Ad.SectionsTlvs(ss))
  }

  lemma CargoParses(ss: seq<Ad.Section>)
    requires forall s :: s in ss ==> Ad.ValidSection(s)
    ensures Parsable(Cargo(ss)) && Cargo(ss) != [] && Cargo(ss)[0] == 0
    ensures Ad.Decode(Cargo(ss)[1..]) == Some(Ad.SectionsTlvs(ss))
  {
    hide Ad.Encode, Ad.Decode, Ad.SectionsTlvs;
    Ad.DecodeEncode(Ad.SectionsTlvs(ss));
    assert Cargo(ss)[1..] == Ad.Encode(Ad.SectionsTlvs(ss));
  }

  /** The transfer completes an announcement on a channel of the command listener. */
  predicate Announces(step: Step, chans: seq<Channel>, ss: seq<Ad.Section>)
    requires |chans| == 8 && forall s :: s in ss ==> Ad.ValidSection(s)
  {
    match step
    case Step(_, Some(d), None) => d.chan < 8 && d.payload == Cargo(ss) && chans[d.chan].handler == Some(CommandListener)
    case _ => false
  }

  lemma AnnouncementHeard(step: Step, notify: bool, chans: seq<Channel>, als: seq<AppListener>, ss: seq<Ad.Section>)
    requires |chans| == 8 && (forall s :: s in ss ==> Ad.ValidSection(s)) && Announces(step, chans, ss)
    ensures Deliverable(step, chans)
    ensures StepEvents(step, notify, chans, als)
         == [Delivered(CommandListener, Cargo(ss), step.delivered.value.timestamp)]
            + AsEvents(Ad.Call(als, 0, Ad.NULL_TLV) + Ad.DescribedCalls(ss, als))
  {
    hide Cargo, Ad.Decode, Ad.Encode, Ad.SectionsTlvs, Ad.CallsAll, Ad.DescribedCalls, Ad.Call, AsEvents;
    CargoParses(ss);
    Ad.CallsAsDescribed(Ad.START, ss, als);
  }

  lemma AnnouncementTabled(d: Ad.Directory, step: Step, transfer: seq<byte>, ls: seq<ChanListener>, ss: seq<Ad.Section>)
    requires |d.chans| == 8 && (forall s :: s in ss ==> Ad.ValidSection(s)) && Announces(step, d.chans, ss)
    requires |transfer| >= 4 && transfer[2] < 8 && |Ad.WithGuids(Ad.Guids(d.apps), ss)| <= 5
    ensures Deliverable(step, d.chans)
    ensures var r := StepTables(d, step, DecodeHeader(transfer), ls);
            && |r.chans| == 8
            && (forall no: nat :: no < 8 ==>
                  r.chans[no] == var c := Ad.Described(ss, no, d.chans[no], ls);
                                 if no == transfer[2] then c.(nextInSeq := ((transfer[3] as int) + 1) % 256) else c)
            && Ad.Guids(r.apps) == Ad.WithGuids(Ad.Guids(d.apps), ss)
            && (forall guid: u32 :: Ad.NameOf(r.apps, guid) == Ad.DescribedName(ss, guid, Ad.NameOf(d.apps, guid)))
  {
    hide Cargo, Ad.Decode, Ad.Encode, Ad.SectionsTlvs, Ad.CallsAll, Ad.DescribedCalls, Ad.ApplyAll, Ad.Described,
         Ad.WithGuids, Ad.DescribedName, Ad.Call, Ad.Guids, Ad.NameOf;
    CargoParses(ss);
    Ad.DecodeEncode(Ad.SectionsTlvs(ss));
    Ad.AdvertisementRefinesDescription(d, ss, ls, []);
  }

  /** When a transfer completes the announcement of any list of sections within the tables,
      the command listener gets the cargo, then every listener exactly the described calls,
      and the tables are left as described, but for the sequence number that the channel of
      the announcement expects next. */
  method Receive(shtp: Instance, transfer: seq<byte>, t_us: u32, ghost ss: seq<Ad.Section>)
    requires shtp.Valid() && Fits(shtp.InProgress(), transfer) && |transfer| >= 4
    requires (forall s :: s in ss ==> Ad.ValidSection(s)) && |Ad.WithGuids(Ad.Guids(shtp.Dir().apps), ss)| <= 5
    requires Announces(Reassembly.Receive(shtp.InProgress(), transfer, t_us, shtp.nextChanListener), shtp.chan[..], ss)
    modifies shtp, shtp.inPayload, shtp.app, shtp.chan
    ensures shtp.Valid() && shtp.advertPhase == AdvertIdle
    ensures var als := shtp.appListener[..];
            var joins := && old(shtp.InProgress()).Partial? && transfer[1] >= 128
                         && transfer[2] == old(shtp.InProgress()).chan && transfer[3] == old(shtp.InProgress()).nextSeq;
            var t := if joins then old(shtp.InProgress()).timestamp else t_us;
            shtp.log == old(shtp.log) + ([Delivered(CommandListener, Cargo(ss), t)]
                          + AsEvents(Ad.Call(als, 0, Ad.NULL_TLV) + Ad.DescribedCalls(ss, als)))
    ensures forall no: nat :: no < 8 ==>
              shtp.chan[no] == var c := Ad.Described(ss, no, old(shtp.chan[no]), shtp.chanListener[..]);
                               if no == transfer[2] then c.(nextInSeq := ((transfer[3] as int) + 1) % 256) else c
    ensures Ad.Guids(shtp.Dir().apps) == Ad.WithGuids(old(Ad.Guids(shtp.Dir().apps)), ss)
    ensures forall guid: u32 ::
              Ad.NameOf(shtp.Dir().apps, guid) == Ad.DescribedName(ss, guid, old(Ad.NameOf(shtp.Dir().apps, guid)))
  {
    hide Cargo, Ad.DescribedCalls, Ad.Described, Ad.WithGuids, Ad.DescribedName, Ad.Call, Ad.Guids, Ad.NameOf;
    hide StepEvents, StepTables, AsEvents, Reassembly.Receive, DecodeHeader;
    ghost var step := Reassembly.Receive(shtp.InProgress(), transfer, t_us, shtp.nextChanListener);
    ReceiveOnBytes(shtp.InProgress(), transfer, t_us, shtp.nextChanListener);
    CargoParses(ss);
    PhaseMeans(step, shtp.advertPhase, shtp.chan[..]);
    AnnouncementHeard(step, shtp.eventCallback, shtp.chan[..], shtp.appListener[..], ss);
    AnnouncementTabled(shtp.Dir(), step, transfer, shtp.chanListener[..], ss);
    shtp.RxAssemble(transfer, t_us);
  }
}
