/** SHTP advertisements: the TLV encoding, the parser's effect on the tables, and the table
    that a list of application sections is meant to set up. */
module Advertisement {
  import opened Basics
  import opened ShtpTables

  const TAG_NULL := 0
  const TAG_GUID := 1
  const TAG_MAX_CARGO_PLUS_HEADER_WRITE := 2
  const TAG_MAX_CARGO_PLUS_HEADER_READ := 3
  const TAG_MAX_TRANSFER_WRITE := 4
  const TAG_MAX_TRANSFER_READ := 5
  const TAG_NORMAL_CHANNEL := 6
  const TAG_WAKE_CHANNEL := 7
  const TAG_APP_NAME := 8
  const TAG_CHANNEL_NAME := 9

  const HDR := 4
  const MAX_PAYLOAD_OUT := 256
  const MAX_TRANSFER_OUT := 256
  const MAX_TRANSFER_IN := 384
  const NAME_LEN := 32

  datatype Tlv = Tlv(tag: byte, val: seq<byte>)

  // ----------------------------------------------------------------- encoding

  function Encode(tlvs: seq<Tlv>): seq<byte>
    requires forall t :: t in tlvs ==> |t.val| < 0x100
  {
    if tlvs == [] then [] else [tlvs[0].tag, |tlvs[0].val|] + tlvs[0].val + Encode(tlvs[1..])
  }

  /** The TLVs that the cursor walks over, or None when one reaches past the end. */
  function Decode(bytes: seq<byte>): Option<seq<Tlv>>
    decreases |bytes|
  {
    if bytes == [] then Some([])
    else if |bytes| < 2 || |bytes| < 2 + (bytes[1] as int) then None
    else
      match Decode(bytes[2 + bytes[1]..])
      case None => None
      case Some(rest) => Some([Tlv(bytes[0], bytes[2..2 + bytes[1]])] + rest)
  }

  lemma {:induction false} DecodeEncode(tlvs: seq<Tlv>)
    requires forall t :: t in tlvs ==> |t.val| < 0x100
    ensures Decode(Encode(tlvs)) == Some(tlvs)
  {
    if tlvs != [] {
      var t, rest := tlvs[0], Encode(tlvs[1..]);
      DecodeEncode(tlvs[1..]);
      DecodeOne(t, rest, tlvs[1..]);
      assert [t] + tlvs[1..] == tlvs;
    }
  }

  lemma DecodeOne(t: Tlv, rest: seq<byte>, tlvs: seq<Tlv>)
    requires |t.val| < 0x100 && Decode(rest) == Some(tlvs)
    ensures Decode([t.tag, |t.val|] + t.val + rest) == Some([t] + tlvs)
  {
    var bytes := [t.tag, |t.val|] + t.val + rest;
    assert bytes[1] == |t.val|;
    assert bytes[2..2 + |t.val|] == t.val;
    assert bytes[2 + |t.val|..] == rest;
  }

  // --------------------------------------------------------- reading the values

  /** Numbers come with their low byte first. */
  lemma NumbersOnBytes(v: seq<byte>)
    ensures |v| >= 2 ==> ReadU16(v) == (v[0] as int) + 256 * v[1] as int
    ensures |v| >= 4 ==> ReadU32(v) == (v[0] as int) + 256 * (v[1] as int) + 65536 * (v[2] as int) + 16777216 * v[3] as int
  {
  }

  function ReadU16(v: seq<byte>): u16
    requires |v| >= 2
  {
    (v[0] as int) + (v[1] as int) * 0x100
  }

  function ReadU32(v: seq<byte>): u32
    requires |v| >= 4
  {
    (v[0] as int) + (v[1] as int) * 0x100 + (v[2] as int) * 0x1_0000 + (v[3] as int) * 0x100_0000
  }

  function WriteU32(n: u32): (v: seq<byte>)
    ensures |v| == 4 && ReadU32(v) == n
  {
    var low, high := n % 0x1_0000, n / 0x1_0000;
    assert low == low / 0x100 * 0x100 + low % 0x100 && high == high / 0x100 * 0x100 + high % 0x100;
    [low % 0x100, low / 0x100, high % 0x100, high / 0x100]
  }

  /** The string at the start of a value, up to its terminator. */
  function CString(v: seq<byte>): Name {
    if v == [] || v[0] == 0 then [] else [v[0]] + CString(v[1..])
  }

  predicate IsName(n: Name) {
    0 !in n && |n| < NAME_LEN
  }

  lemma {:induction false} CStringOfName(n: Name)
    requires 0 !in n
    ensures CString(n + [0]) == n
  {
    if n != [] {
      assert (n + [0])[1..] == n[1..] + [0];
      CStringOfName(n[1..]);
    }
  }

  /** What the parser reads is inside the value, and names fit their tables. */
  predicate ValidTlv(t: Tlv) {
    && |t.val| < 0x100
    && (t.tag == TAG_GUID ==> |t.val| >= 4)
    && (TAG_MAX_CARGO_PLUS_HEADER_WRITE <= t.tag <= TAG_MAX_TRANSFER_READ ==> |t.val| >= 2)
    && (t.tag == TAG_NORMAL_CHANNEL || t.tag == TAG_WAKE_CHANNEL ==> |t.val| >= 1)
    && (t.tag == TAG_APP_NAME || t.tag == TAG_CHANNEL_NAME ==> 0 in t.val && |CString(t.val)| < NAME_LEN)
  }

  predicate ValidTlvs(tlvs: seq<Tlv>) {
    forall t :: t in tlvs ==> ValidTlv(t)
  }

  // --------------------------------------------------------------- the parser

  datatype Limits = Limits(outMaxPayload: u16, outMaxTransfer: u16, inMaxTransfer: u16)

  datatype Directory = Directory(apps: seq<App>, chans: seq<Channel>, limits: Limits)

  /** The section and channel that the next TLVs speak about. */
  datatype Scan = Scan(guid: u32, chanNo: byte, wake: bool)

  const START := Scan(0, 0, false)

  /** A call of an application listener. */
  datatype AdvertCall = AdvertCall(listener: nat, tag: byte, val: seq<byte>)

  function Call(als: seq<AppListener>, guid: u32, t: Tlv): seq<AdvertCall> {
    match FindAppListener(als, guid)
    case None => []
    case Some(h) => [AdvertCall(h, t.tag, t.val)]
  }

  const NULL_TLV := Tlv(TAG_NULL, [])

  function ApplyLimits(l: Limits, t: Tlv): Limits
    requires ValidTlv(t)
  {
    if t.tag == TAG_MAX_CARGO_PLUS_HEADER_WRITE then
      var x := (ReadU16(t.val) - HDR) % TWO_TO_16;
      if x < MAX_PAYLOAD_OUT then l.(outMaxPayload := x) else l
    else if t.tag == TAG_MAX_TRANSFER_WRITE then
      var x := (ReadU16(t.val) - HDR) % TWO_TO_16;
      l.(outMaxTransfer := Min(x, MAX_TRANSFER_OUT))
    else if t.tag == TAG_MAX_TRANSFER_READ then
      var x := (ReadU16(t.val) - HDR) % TWO_TO_16;
      if x < MAX_TRANSFER_IN then l.(inMaxTransfer := x) else l
    else l
  }

  function NextScan(sc: Scan, t: Tlv): Scan
    requires ValidTlv(t)
  {
    if t.tag == TAG_GUID then sc.(guid := ReadU32(t.val))
    else if t.tag == TAG_NORMAL_CHANNEL then sc.(chanNo := t.val[0], wake := false)
    else if t.tag == TAG_WAKE_CHANNEL then sc.(chanNo := t.val[0], wake := true)
    else sc
  }

  /** The effect of one TLV on the tables. */
  function ApplyTlv(d: Directory, sc: Scan, t: Tlv, ls: seq<ChanListener>): Directory
    requires ValidTlv(t) && |d.chans| == MAX_CHANS
  {
    if t.tag == TAG_GUID then d.(apps := AddApp(d.apps, ReadU32(t.val)))
    else if t.tag == TAG_APP_NAME then d.(apps := SetAppName(d.apps, sc.guid, CString(t.val)))
    else if t.tag == TAG_CHANNEL_NAME then
      d.(chans := AddChannel(d.chans, sc.chanNo, sc.guid, CString(t.val), sc.wake, ls))
    else d.(limits := ApplyLimits(d.limits, t))
  }

  /** The tags in numbers: 1 makes an application known, 6 and 7 choose the channel and whether
      it wakes the host, 8 names the application and 9 the channel, which defines it. */
  lemma TagsMean(d: Directory, sc: Scan, t: Tlv, ls: seq<ChanListener>)
    requires ValidTlv(t) && |d.chans| == 8
    ensures t.tag == 1 ==> ApplyTlv(d, sc, t, ls) == d.(apps := AddApp(d.apps, ReadU32(t.val)))
                           && NextScan(sc, t) == sc.(guid := ReadU32(t.val))
    ensures t.tag == 6 ==> ApplyTlv(d, sc, t, ls) == d && NextScan(sc, t) == sc.(chanNo := t.val[0], wake := false)
    ensures t.tag == 7 ==> ApplyTlv(d, sc, t, ls) == d && NextScan(sc, t) == sc.(chanNo := t.val[0], wake := true)
    ensures t.tag == 8 ==> ApplyTlv(d, sc, t, ls) == d.(apps := SetAppName(d.apps, sc.guid, CString(t.val)))
    ensures t.tag == 9 && sc.chanNo < 8 ==>
              var name := CString(t.val);
              ApplyTlv(d, sc, t, ls) ==
              d.(chans := d.chans[sc.chanNo := Channel(0, 0, sc.guid, name, sc.wake, Lookup(ls, sc.guid, name))])
    ensures t.tag == 9 && sc.chanNo >= 8 ==> ApplyTlv(d, sc, t, ls) == d
    ensures t.tag !in {1, 6, 7} ==> NextScan(sc, t) == sc
    ensures t.tag !in {1, 2, 4, 5, 8, 9} ==> ApplyTlv(d, sc, t, ls) == d
  {
  }

  /** The limits in numbers: tags 2, 4 and 5 carry a size that counts 4 header bytes. A cargo
      limit below 256 and a receive limit below 384 are taken over; the transfer limit is cut
      to 256. Sizes below 4 wrap around. No other tag touches the limits. */
  lemma LimitsMean(d: Directory, sc: Scan, t: Tlv, ls: seq<ChanListener>)
    requires ValidTlv(t) && |d.chans| == 8
    ensures t.tag in {2, 4, 5} ==>
              var size := (t.val[0] as int) + 256 * (t.val[1] as int);
              var x := if size >= 4 then size - 4 else size + 65532;
              ApplyTlv(d, sc, t, ls) == d.(limits :=
                if t.tag == 2 then (if x < 256 then d.limits.(outMaxPayload := x) else d.limits)
                else if t.tag == 4 then d.limits.(outMaxTransfer := if x < 256 then x else 256)
                else if x < 384 then d.limits.(inMaxTransfer := x)
                else d.limits)
    ensures t.tag !in {2, 4, 5} ==> ApplyTlv(d, sc, t, ls).limits == d.limits
  {
  }

  /** The listener calls that one TLV causes. A new GUID ends the section before it. */
  function CallsFor(sc: Scan, t: Tlv, als: seq<AppListener>): seq<AdvertCall>
    requires ValidTlv(t)
  {
    (if t.tag == TAG_GUID then Call(als, sc.guid, NULL_TLV) else []) + Call(als, NextScan(sc, t).guid, t)
  }

  /** Calls in terms of the listener table: each TLV goes to the listener of the GUID in force
      after it, if there is one; a GUID tag is first announced to that of the GUID before, by
      tag 0 without a value. */
  lemma CallsMean(sc: Scan, t: Tlv, als: seq<AppListener>)
    requires ValidTlv(t)
    ensures t.tag != 1 ==>
              CallsFor(sc, t, als) ==
              match FindAppListener(als, sc.guid)
              case None => []
              case Some(h) => [AdvertCall(h, t.tag, t.val)]
    ensures t.tag == 1 ==>
              CallsFor(sc, t, als) ==
              (match FindAppListener(als, sc.guid)
               case None => []
               case Some(h) => [AdvertCall(h, 0, [])])
              + (match FindAppListener(als, ReadU32(t.val))
                 case None => []
                 case Some(h) => [AdvertCall(h, 1, t.val)])
  {
  }

  function ApplyAll(d: Directory, sc: Scan, tlvs: seq<Tlv>, ls: seq<ChanListener>): (r: Directory)
    requires ValidTlvs(tlvs) && |d.chans| == MAX_CHANS
    ensures |r.chans| == MAX_CHANS
    decreases |tlvs|
  {
    if tlvs == [] then d
    else ApplyAll(ApplyTlv(d, sc, tlvs[0], ls), NextScan(sc, tlvs[0]), tlvs[1..], ls)
  }

  function ScanAll(sc: Scan, tlvs: seq<Tlv>): Scan
    requires ValidTlvs(tlvs)
    decreases |tlvs|
  {
    if tlvs == [] then sc else ScanAll(NextScan(sc, tlvs[0]), tlvs[1..])
  }

  /** All calls, with the one that ends the last section. */
  function CallsAll(sc: Scan, tlvs: seq<Tlv>, als: seq<AppListener>): seq<AdvertCall>
    requires ValidTlvs(tlvs)
    decreases |tlvs|
  {
    if tlvs == [] then Call(als, sc.guid, NULL_TLV)
    else CallsFor(sc, tlvs[0], als) + CallsAll(NextScan(sc, tlvs[0]), tlvs[1..], als)
  }

  lemma {:induction false} ApplyConcat(d: Directory, sc: Scan, a: seq<Tlv>, b: seq<Tlv>, ls: seq<ChanListener>)
    requires ValidTlvs(a) && ValidTlvs(b) && |d.chans| == MAX_CHANS
    ensures ValidTlvs(a + b)
    ensures ApplyAll(d, sc, a + b, ls) == ApplyAll(ApplyAll(d, sc, a, ls), ScanAll(sc, a), b, ls)
    decreases |a|
  {
    if a == [] {
      assert a + b == b;
    } else {
      ApplyConcat(ApplyTlv(d, sc, a[0], ls), NextScan(sc, a[0]), a[1..], b, ls);
      assert (a + b)[1..] == a[1..] + b;
    }
  }

  // ------------------------------------------------- what the sections describe

  datatype Item =
    | AppName(name: Name)
    | Chan(no: byte, wake: bool, chanName: Name)
    | Other(tlv: Tlv)

  datatype Section = Section(guid: u32, items: seq<Item>)

  predicate ValidItem(i: Item) {
    match i
    case AppName(name) => IsName(name)
    case Chan(_, _, name) => IsName(name)
    case Other(t) => ValidTlv(t) && t.tag != TAG_GUID && !(TAG_NORMAL_CHANNEL <= t.tag <= TAG_CHANNEL_NAME)
  }

  predicate ValidSection(s: Section) {
    forall i :: i in s.items ==> ValidItem(i)
  }

  function ItemTlvs(i: Item): (tlvs: seq<Tlv>)
    requires ValidItem(i)
    ensures ValidTlvs(tlvs)
  {
    match i
    case AppName(name) => CStringOfName(name); [Tlv(TAG_APP_NAME, name + [0])]
    case Chan(no, wake, name) =>
      CStringOfName(name);
      [Tlv(if wake then TAG_WAKE_CHANNEL else TAG_NORMAL_CHANNEL, [no]), Tlv(TAG_CHANNEL_NAME, name + [0])]
    case Other(t) => [t]
  }

  function ItemsTlvs(items: seq<Item>): (tlvs: seq<Tlv>)
    requires forall i :: i in items ==> ValidItem(i)
    ensures ValidTlvs(tlvs)
  {
    if items == [] then [] else ItemTlvs(items[0]) + ItemsTlvs(items[1..])
  }

  function SectionTlvs(s: Section): (tlvs: seq<Tlv>)
    requires ValidSection(s)
    ensures ValidTlvs(tlvs)
  {
    [Tlv(TAG_GUID, WriteU32(s.guid))] + ItemsTlvs(s.items)
  }

  function SectionsTlvs(ss: seq<Section>): (tlvs: seq<Tlv>)
    requires forall s :: s in ss ==> ValidSection(s)
    ensures ValidTlvs(tlvs)
  {
    if ss == [] then [] else SectionTlvs(ss[0]) + SectionsTlvs(ss[1..])
  }

  /** The last definition of a channel in a list of items, or in a list of sections. */
  function LastChan(items: seq<Item>, no: byte): Option<Item> {
    if items == [] then None
    else
      var later := LastChan(items[1..], no);
      if later.Some? then later
      else if items[0].Chan? && items[0].no == no then Some(items[0])
      else None
  }

  function Described(ss: seq<Section>, no: byte, before: Channel, ls: seq<ChanListener>): Channel {
    if ss == [] then before
    else
      var here := match LastChan(ss[0].items, no)
                  case Some(Chan(_, wake, name)) =>
                    Channel(0, 0, ss[0].guid, name, wake, Lookup(ls, ss[0].guid, name))
                  case _ => before;
      Described(ss[1..], no, here, ls)
  }

  /** The name an application ends up with. */
  function LastName(items: seq<Item>, before: Name): Name {
    if items == [] then before
    else LastName(items[1..], if items[0].AppName? then items[0].name else before)
  }

  function NameOf(apps: seq<App>, guid: u32): Option<Name> {
    if apps == [] then None
    else if apps[0].guid == guid then Some(apps[0].name)
    else NameOf(apps[1..], guid)
  }

  function DescribedName(ss: seq<Section>, guid: u32, before: Option<Name>): Option<Name> {
    if ss == [] then before
    else
      var here := if ss[0].guid != guid then before
                  else Some(LastName(ss[0].items, if before.Some? then before.value else []));
      DescribedName(ss[1..], guid, here)
  }

  function TlvCalls(guid: u32, tlvs: seq<Tlv>, als: seq<AppListener>): seq<AdvertCall> {
    if tlvs == [] then [] else Call(als, guid, tlvs[0]) + TlvCalls(guid, tlvs[1..], als)
  }

  /** Each section's listener gets its TLVs in order and then the null tag. */
  function DescribedCalls(ss: seq<Section>, als: seq<AppListener>): seq<AdvertCall>
    requires forall s :: s in ss ==> ValidSection(s)
  {
    if ss == [] then []
    else TlvCalls(ss[0].guid, SectionTlvs(ss[0]), als) + Call(als, ss[0].guid, NULL_TLV)
         + DescribedCalls(ss[1..], als)
  }

  // ------------------------------------------------------------------ the proof

  function ItemEffect(d: Directory, guid: u32, i: Item, ls: seq<ChanListener>): Directory
    requires ValidItem(i) && |d.chans| == MAX_CHANS
  {
    match i
    case AppName(name) => d.(apps := SetAppName(d.apps, guid, name))
    case Chan(no, wake, name) => d.(chans := AddChannel(d.chans, no, guid, name, wake, ls))
    case Other(t) => d.(limits := ApplyLimits(d.limits, t))
  }

  lemma ItemApplies(d: Directory, sc: Scan, i: Item, ls: seq<ChanListener>)
    requires ValidItem(i) && |d.chans| == MAX_CHANS
    ensures ApplyAll(d, sc, ItemTlvs(i), ls) == ItemEffect(d, sc.guid, i, ls)
    ensures ScanAll(sc, ItemTlvs(i)).guid == sc.guid
  {
    match i
    case AppName(name) =>
      CStringOfName(name);
    case Chan(no, wake, name) =>
      CStringOfName(name);
      var ts := ItemTlvs(i);
      assert ts[1..] == [ts[1]];
      var sc' := NextScan(sc, ts[0]);
      assert ApplyTlv(d, sc, ts[0], ls) == d;
      assert ApplyAll(d, sc', [ts[1]], ls) == ApplyTlv(d, sc', ts[1], ls);
      assert ScanAll(sc', [ts[1]]) == sc';
    case Other(t) =>
  }

  function ItemsEffect(d: Directory, guid: u32, items: seq<Item>, ls: seq<ChanListener>): (r: Directory)
    requires (forall i :: i in items ==> ValidItem(i)) && |d.chans| == MAX_CHANS
    ensures |r.chans| == MAX_CHANS
    decreases |items|
  {
    if items == [] then d else ItemsEffect(ItemEffect(d, guid, items[0], ls), guid, items[1..], ls)
  }

  lemma {:induction false} ItemsApply(d: Directory, sc: Scan, items: seq<Item>, ls: seq<ChanListener>)
    requires (forall i :: i in items ==> ValidItem(i)) && |d.chans| == MAX_CHANS
    ensures ApplyAll(d, sc, ItemsTlvs(items), ls) == ItemsEffect(d, sc.guid, items, ls)
    ensures ScanAll(sc, ItemsTlvs(items)).guid == sc.guid
    decreases |items|
  {
    if items != [] {
      ItemApplies(d, sc, items[0], ls);
      var sc' := ScanAll(sc, ItemTlvs(items[0]));
      ItemsApply(ItemEffect(d, sc.guid, items[0], ls), sc', items[1..], ls);
      ApplyConcat(d, sc, ItemTlvs(items[0]), ItemsTlvs(items[1..]), ls);
      ScanConcat(sc, ItemTlvs(items[0]), ItemsTlvs(items[1..]));
    }
  }

  lemma {:induction false} ScanConcat(sc: Scan, a: seq<Tlv>, b: seq<Tlv>)
    requires ValidTlvs(a) && ValidTlvs(b)
    ensures ValidTlvs(a + b) && ScanAll(sc, a + b) == ScanAll(ScanAll(sc, a), b)
    decreases |a|
  {
    if a == [] {
      assert a + b == b;
    } else {
      ScanConcat(NextScan(sc, a[0]), a[1..], b);
      assert (a + b)[1..] == a[1..] + b;
    }
  }

  /** Section by section, the parser does what the items say. */
  function SectionEffect(d: Directory, s: Section, ls: seq<ChanListener>): (r: Directory)
    requires ValidSection(s) && |d.chans| == MAX_CHANS
    ensures |r.chans| == MAX_CHANS
  {
    ItemsEffect(d.(apps := AddApp(d.apps, s.guid)), s.guid, s.items, ls)
  }

  lemma SectionApplies(d: Directory, sc: Scan, s: Section, ls: seq<ChanListener>)
    requires ValidSection(s) && |d.chans| == MAX_CHANS
    ensures ApplyAll(d, sc, SectionTlvs(s), ls) == SectionEffect(d, s, ls)
    ensures ScanAll(sc, SectionTlvs(s)).guid == s.guid
  {
    var ts := SectionTlvs(s);
    assert ts[1..] == ItemsTlvs(s.items);
    ItemsApply(d.(apps := AddApp(d.apps, s.guid)), sc.(guid := s.guid), s.items, ls);
  }

  lemma {:induction false} ItemsChannel(d: Directory, guid: u32, items: seq<Item>, ls: seq<ChanListener>, no: byte)
    requires (forall i :: i in items ==> ValidItem(i)) && |d.chans| == MAX_CHANS && no < MAX_CHANS
    ensures ItemsEffect(d, guid, items, ls).chans[no] ==
            match LastChan(items, no)
            case Some(Chan(_, wake, name)) => Channel(0, 0, guid, name, wake, Lookup(ls, guid, name))
            case _ => d.chans[no]
    decreases |items|
  {
    if items != [] {
      ItemsChannel(ItemEffect(d, guid, items[0], ls), guid, items[1..], ls, no);
      LastChanIsChan(items[1..], no);
    }
  }

  lemma {:induction false} LastChanIsChan(items: seq<Item>, no: byte)
    ensures LastChan(items, no).Some? ==> LastChan(items, no).value.Chan?
  {
    if items != [] {
      LastChanIsChan(items[1..], no);
    }
  }

  /** The channel table: each channel has its last definition, freshly numbered and bound to
      its listener; a channel that no section mentions keeps its entry. */
  lemma {:induction false} ChannelsAsDescribed(d: Directory, sc: Scan, ss: seq<Section>, ls: seq<ChanListener>,
                                               no: byte)
    requires (forall s :: s in ss ==> ValidSection(s)) && |d.chans| == MAX_CHANS && no < MAX_CHANS
    ensures ApplyAll(d, sc, SectionsTlvs(ss), ls).chans[no] == Described(ss, no, d.chans[no], ls)
    decreases |ss|
  {
    if ss != [] {
      SectionApplies(d, sc, ss[0], ls);
      ItemsChannel(d.(apps := AddApp(d.apps, ss[0].guid)), ss[0].guid, ss[0].items, ls, no);
      ApplyConcat(d, sc, SectionTlvs(ss[0]), SectionsTlvs(ss[1..]), ls);
      ChannelsAsDescribed(SectionEffect(d, ss[0], ls), ScanAll(sc, SectionTlvs(ss[0])), ss[1..], ls, no);
    }
  }

  // ------------------------------------------------------------ the app table

  function Guids(apps: seq<App>): (gs: seq<u32>)
    ensures |gs| == |apps|
  {
    if apps == [] then [] else [apps[0].guid] + Guids(apps[1..])
  }

  /** GUIDs in the order of their first appearance. */
  function WithGuids(gs: seq<u32>, ss: seq<Section>): (r: seq<u32>)
    ensures |gs| <= |r|
    decreases |ss|
  {
    if ss == [] then gs
    else WithGuids(if ss[0].guid in gs then gs else gs + [ss[0].guid], ss[1..])
  }

  predicate Distinct(gs: seq<u32>) {
    forall i, j :: 0 <= i < j < |gs| ==> gs[i] != gs[j]
  }

  lemma {:induction false} WithGuidsDistinct(gs: seq<u32>, ss: seq<Section>)
    requires Distinct(gs)
    ensures Distinct(WithGuids(gs, ss))
    decreases |ss|
  {
    if ss != [] {
      WithGuidsDistinct(if ss[0].guid in gs then gs else gs + [ss[0].guid], ss[1..]);
    }
  }

  lemma {:induction false} GuidsAt(apps: seq<App>, i: nat)
    requires i < |apps|
    ensures Guids(apps)[i] == apps[i].guid
  {
    if i > 0 {
      GuidsAt(apps[1..], i - 1);
    }
  }

  lemma DistinctMeans(apps: seq<App>)
    ensures DistinctApps(apps) <==> Distinct(Guids(apps))
  {
    forall i | 0 <= i < |apps|
      ensures Guids(apps)[i] == apps[i].guid
    {
      GuidsAt(apps, i);
    }
  }

  /** So a table that held each application once still does. */
  lemma AppsStayDistinct(before: seq<App>, after: seq<App>, ss: seq<Section>)
    requires DistinctApps(before) && Guids(after) == WithGuids(Guids(before), ss)
    ensures DistinctApps(after)
  {
    hide Distinct, DistinctApps, WithGuids, Guids;
    DistinctMeans(before);
    WithGuidsDistinct(Guids(before), ss);
    DistinctMeans(after);
  }

  lemma {:induction false} KnownMeans(apps: seq<App>, guid: u32)
    ensures Known(apps, guid) <==> guid in Guids(apps)
    ensures Known(apps, guid) <==> NameOf(apps, guid).Some?
  {
    if apps != [] {
      KnownMeans(apps[1..], guid);
      assert forall i :: 0 < i < |apps| ==> apps[i] == apps[1..][i - 1];
      assert forall i :: 0 <= i < |apps| - 1 ==> apps[1..][i] == apps[i + 1];
    }
  }

  lemma {:induction false} AppendName(apps: seq<App>, guid: u32, h: u32)
    requires !Known(apps, guid)
    ensures Guids(apps + [App(guid, [])]) == Guids(apps) + [guid]
    ensures NameOf(apps + [App(guid, [])], h) == if h == guid then Some([]) else NameOf(apps, h)
  {
    if apps != [] {
      assert forall i :: 0 <= i < |apps| - 1 ==> apps[1..][i] == apps[i + 1];
      AppendName(apps[1..], guid, h);
      assert (apps + [App(guid, [])])[1..] == apps[1..] + [App(guid, [])];
    }
  }

  lemma {:induction false} SetNameOf(apps: seq<App>, guid: u32, name: Name, h: u32)
    ensures Guids(SetAppName(apps, guid, name)) == Guids(apps)
    ensures NameOf(SetAppName(apps, guid, name), h) ==
            if h == guid && NameOf(apps, h).Some? then Some(name) else NameOf(apps, h)
  {
    if apps != [] {
      SetNameOf(apps[1..], guid, name, h);
    }
  }

  lemma {:induction false} ItemsName(d: Directory, guid: u32, items: seq<Item>, ls: seq<ChanListener>, h: u32)
    requires (forall i :: i in items ==> ValidItem(i)) && |d.chans| == MAX_CHANS
    ensures var r := ItemsEffect(d, guid, items, ls);
            && Guids(r.apps) == Guids(d.apps)
            && NameOf(r.apps, h) ==
               if h == guid && NameOf(d.apps, h).Some? then Some(LastName(items, NameOf(d.apps, h).value))
               else NameOf(d.apps, h)
    decreases |items|
  {
    if items != [] {
      ItemsName(ItemEffect(d, guid, items[0], ls), guid, items[1..], ls, h);
      if items[0].AppName? {
        SetNameOf(d.apps, guid, items[0].name, h);
      }
    }
  }

  lemma SectionName(d: Directory, s: Section, ls: seq<ChanListener>, h: u32)
    requires ValidSection(s) && |d.chans| == MAX_CHANS
    requires s.guid in Guids(d.apps) || |d.apps| < MAX_APPS
    ensures var r := SectionEffect(d, s, ls);
            && Guids(r.apps) == (if s.guid in Guids(d.apps) then Guids(d.apps) else Guids(d.apps) + [s.guid])
            && NameOf(r.apps, h) ==
               if s.guid != h then NameOf(d.apps, h)
               else Some(LastName(s.items, if NameOf(d.apps, h).Some? then NameOf(d.apps, h).value else []))
  {
    KnownMeans(d.apps, s.guid);
    if !Known(d.apps, s.guid) {
      AppendName(d.apps, s.guid, h);
    }
    ItemsName(d.(apps := AddApp(d.apps, s.guid)), s.guid, s.items, ls, h);
  }

  /** The application table: the GUIDs in order of first appearance, each once, and for
      every GUID the name its sections give it. */
  lemma {:induction false} AppsAsDescribed(d: Directory, sc: Scan, ss: seq<Section>, ls: seq<ChanListener>, h: u32)
    requires (forall s :: s in ss ==> ValidSection(s)) && |d.chans| == MAX_CHANS
    requires |WithGuids(Guids(d.apps), ss)| <= MAX_APPS
    ensures var r := ApplyAll(d, sc, SectionsTlvs(ss), ls);
            && Guids(r.apps) == WithGuids(Guids(d.apps), ss)
            && NameOf(r.apps, h) == DescribedName(ss, h, NameOf(d.apps, h))
    decreases |ss|
  {
    if ss != [] {
      SectionApplies(d, sc, ss[0], ls);
      SectionName(d, ss[0], ls, h);
      ApplyConcat(d, sc, SectionTlvs(ss[0]), SectionsTlvs(ss[1..]), ls);
      AppsAsDescribed(SectionEffect(d, ss[0], ls), ScanAll(sc, SectionTlvs(ss[0])), ss[1..], ls, h);
    }
  }

  // --------------------------------------------------------- the listener calls

  lemma {:induction false} NoGuidInItems(items: seq<Item>)
    requires forall i :: i in items ==> ValidItem(i)
    ensures forall t :: t in ItemsTlvs(items) ==> t.tag != TAG_GUID
  {
    if items != [] {
      NoGuidInItems(items[1..]);
      assert ValidItem(items[0]);
      assert ItemsTlvs(items) == ItemTlvs(items[0]) + ItemsTlvs(items[1..]);
    }
  }

  lemma {:induction false} CallsWithin(sc: Scan, a: seq<Tlv>, b: seq<Tlv>, als: seq<AppListener>)
    requires ValidTlvs(a) && ValidTlvs(b) && forall t :: t in a ==> t.tag != TAG_GUID
    ensures ValidTlvs(a + b)
    ensures ScanAll(sc, a).guid == sc.guid
    ensures CallsAll(sc, a + b, als) == TlvCalls(sc.guid, a, als) + CallsAll(ScanAll(sc, a), b, als)
    decreases |a|
  {
    if a == [] {
      assert a + b == b;
    } else {
      var sc' := NextScan(sc, a[0]);
      CallsWithin(sc', a[1..], b, als);
      assert (a + b)[1..] == a[1..] + b;
      assert CallsFor(sc, a[0], als) == Call(als, sc.guid, a[0]);
      ConcatAssociates(Call(als, sc.guid, a[0]), TlvCalls(sc.guid, a[1..], als),
                       CallsAll(ScanAll(sc', a[1..]), b, als));
    }
  }

  /** One section: the null tag for the one before it, then its own TLVs. */
  lemma CallsOfSection(sc: Scan, s: Section, rest: seq<Tlv>, als: seq<AppListener>) returns (sc'': Scan)
    requires ValidSection(s) && ValidTlvs(rest)
    ensures sc''.guid == s.guid && ValidTlvs(SectionTlvs(s) + rest)
    ensures CallsAll(sc, SectionTlvs(s) + rest, als)
         == Call(als, sc.guid, NULL_TLV) + (TlvCalls(s.guid, SectionTlvs(s), als) + CallsAll(sc'', rest, als))
  {
    hide WriteU32, ItemsTlvs, Call, ApplyAll;
    var head, items := Tlv(TAG_GUID, WriteU32(s.guid)), ItemsTlvs(s.items);
    var sc' := sc.(guid := s.guid);
    NoGuidInItems(s.items);
    CallsWithin(sc', items, rest, als);
    sc'' := ScanAll(sc', items);
    var tail := CallsAll(sc'', rest, als);
    assert SectionTlvs(s) + rest == [head] + (items + rest);
    assert ([head] + (items + rest))[1..] == items + rest;
    assert SectionTlvs(s)[1..] == items;
    assert CallsFor(sc, head, als) == Call(als, sc.guid, NULL_TLV) + Call(als, s.guid, head);
    var before, first, body := Call(als, sc.guid, NULL_TLV), Call(als, s.guid, head), TlvCalls(s.guid, items, als);
    ConcatAssociates(before, first, body + tail);
    ConcatAssociates(first, body, tail);
  }

  /** Every listener hears its sections in order, each closed by one null tag; the listener
      of the GUID in force before (0 at the start) hears a null tag first. */
  lemma {:induction false} CallsAsDescribed(sc: Scan, ss: seq<Section>, als: seq<AppListener>)
    requires forall s :: s in ss ==> ValidSection(s)
    ensures CallsAll(sc, SectionsTlvs(ss), als) == Call(als, sc.guid, NULL_TLV) + DescribedCalls(ss, als)
    decreases |ss|
  {
    if ss != [] {
      var rest := SectionsTlvs(ss[1..]);
      var sc'' := CallsOfSection(sc, ss[0], rest, als);
      CallsAsDescribed(sc'', ss[1..], als);
      ConcatAssociates(TlvCalls(ss[0].guid, SectionTlvs(ss[0]), als), Call(als, ss[0].guid, NULL_TLV),
                       DescribedCalls(ss[1..], als));
    }
  }

  /** The whole story: the bytes that encode a list of sections, parsed, set up exactly the
      described tables and make exactly the described calls. It is required that the GUIDs
      fit the application table. */
  lemma AdvertisementRefinesDescription(d: Directory, ss: seq<Section>, ls: seq<ChanListener>, als: seq<AppListener>)
    requires (forall s :: s in ss ==> ValidSection(s)) && |d.chans| == MAX_CHANS
    requires |WithGuids(Guids(d.apps), ss)| <= MAX_APPS
    ensures Decode(Encode(SectionsTlvs(ss))) == Some(SectionsTlvs(ss))
    ensures var r := ApplyAll(d, START, Decode(Encode(SectionsTlvs(ss))).value, ls);
            && (forall no: nat :: no < MAX_CHANS ==> r.chans[no] == Described(ss, no, d.chans[no], ls))
            && Guids(r.apps) == WithGuids(Guids(d.apps), ss) && (DistinctApps(d.apps) ==> DistinctApps(r.apps))
            && (forall h: u32 :: NameOf(r.apps, h) == DescribedName(ss, h, NameOf(d.apps, h)))
    ensures CallsAll(START, Decode(Encode(SectionsTlvs(ss))).value, als)
         == Call(als, GUID_SHTP, NULL_TLV) + DescribedCalls(ss, als)
  {
    hide Described, WithGuids, DescribedName, DescribedCalls, ApplyAll, CallsAll, Call, Encode, Decode, SectionsTlvs;
    DecodeEncode(SectionsTlvs(ss));
    forall no: nat | no < MAX_CHANS
      ensures ApplyAll(d, START, SectionsTlvs(ss), ls).chans[no] == Described(ss, no, d.chans[no], ls)
    {
      ChannelsAsDescribed(d, START, ss, ls, no);
    }
    AppsAsDescribed(d, START, ss, ls, 0);
    if DistinctApps(d.apps) {
      AppsStayDistinct(d.apps, ApplyAll(d, START, SectionsTlvs(ss), ls).apps, ss);
    }
    forall h: u32
      ensures NameOf(ApplyAll(d, START, SectionsTlvs(ss), ls).apps, h) == DescribedName(ss, h, NameOf(d.apps, h))
    {
      AppsAsDescribed(d, START, ss, ls, h);
    }
    CallsAsDescribed(START, ss, als);
  }
}
