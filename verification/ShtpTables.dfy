/** The channel and application tables of the SHTP driver, and the lookup that the
    precomputed channel callbacks stand for. */
module ShtpTables {
  import opened Basics

  const MAX_APPS := 5
  const MAX_CHANS := 8
  const UNUSED_GUID := 0xFFFF_FFFF
  const GUID_SHTP := 0

  /** A C string without its terminator. */
  type Name = seq<byte>

  /** A callback together with its cookie. */
  datatype Handler = CommandListener | Client(id: nat)

  datatype Channel = Channel(nextOutSeq: byte, nextInSeq: byte, guid: u32, name: Name, wake: bool,
                             handler: Option<Handler>)
  datatype ChanListener = ChanListener(guid: u16, name: Name, handler: Option<Handler>)
  datatype App = App(guid: u32, name: Name)
  datatype AppListener = AppListener(guid: u16, handler: Option<nat>)

  const NO_CHANNEL := Channel(0, 0, 0, [], false, None)
  const NO_CHAN_LISTENER := ChanListener(0, [], None)
  const NO_APP := App(0, [])
  const NO_APP_LISTENER := AppListener(0, None)

  predicate Matches(l: ChanListener, guid: u32, name: Name) {
    l.handler.Some? && l.guid == guid && l.name == name
  }

  /** The handler of the lowest-numbered listener for a GUID and channel name. */
  function Lookup(ls: seq<ChanListener>, guid: u32, name: Name): Option<Handler> {
    if ls == [] then None
    else if Matches(ls[0], guid, name) then ls[0].handler
    else Lookup(ls[1..], guid, name)
  }

  lemma {:induction false} LookupSkips(ls: seq<ChanListener>, k: nat, guid: u32, name: Name)
    requires k <= |ls| && forall i :: 0 <= i < k ==> !Matches(ls[i], guid, name)
    ensures Lookup(ls, guid, name) == Lookup(ls[k..], guid, name)
  {
    if k > 0 {
      LookupSkips(ls[1..], k - 1, guid, name);
      assert ls[1..][k - 1..] == ls[k..];
    }
  }

  /** Listener k is the one found: it has a handler, the GUID and the name, and none before it
      has all three. */
  lemma LookupIs(ls: seq<ChanListener>, k: nat, guid: u32, name: Name)
    requires k < |ls| && ls[k].handler.Some? && ls[k].guid == guid && ls[k].name == name
    requires forall i :: 0 <= i < k ==> !(ls[i].handler.Some? && ls[i].guid == guid && ls[i].name == name)
    ensures Lookup(ls, guid, name) == ls[k].handler
  {
    LookupSkips(ls, k, guid, name);
  }

  /** Nothing is found exactly when no listener with a handler has the GUID and the name. */
  lemma {:induction false} LookupNone(ls: seq<ChanListener>, guid: u32, name: Name)
    ensures Lookup(ls, guid, name).None? <==>
            forall i :: 0 <= i < |ls| ==> !(ls[i].handler.Some? && ls[i].guid == guid && ls[i].name == name)
  {
    if ls != [] {
      LookupNone(ls[1..], guid, name);
      assert forall i :: 0 < i < |ls| ==> ls[i] == ls[1..][i - 1];
      assert forall i :: 0 <= i < |ls| - 1 ==> ls[1..][i] == ls[i + 1];
    }
  }

  /** Both together: the handler found is that of the lowest-numbered listener that has one,
      the GUID and the name. */
  lemma {:induction false} LookupMeans(ls: seq<ChanListener>, guid: u32, name: Name, h: Handler)
    ensures Lookup(ls, guid, name) == Some(h) <==>
            exists k :: 0 <= k < |ls| && ls[k].handler == Some(h) && ls[k].guid == guid && ls[k].name == name
                        && forall i :: 0 <= i < k ==> !(ls[i].handler.Some? && ls[i].guid == guid && ls[i].name == name)
  {
    if k :| 0 <= k < |ls| && ls[k].handler.Some? && ls[k].guid == guid && ls[k].name == name {
      var first := FirstFound(ls, guid, name, k);
      LookupIs(ls, first, guid, name);
    } else {
      LookupNone(ls, guid, name);
    }
  }

  lemma {:induction false} FirstFound(ls: seq<ChanListener>, guid: u32, name: Name, k: nat) returns (first: nat)
    requires k < |ls| && ls[k].handler.Some? && ls[k].guid == guid && ls[k].name == name
    ensures first <= k && ls[first].handler.Some? && ls[first].guid == guid && ls[first].name == name
    ensures forall i :: 0 <= i < first ==> !(ls[i].handler.Some? && ls[i].guid == guid && ls[i].name == name)
    decreases k
  {
    if j :| 0 <= j < k && ls[j].handler.Some? && ls[j].guid == guid && ls[j].name == name {
      first := FirstFound(ls, guid, name, j);
    } else {
      first := k;
    }
  }

  /** Listener GUIDs are 16-bit, so an entry marked unused is found by nobody. */
  lemma UnusedUnbound(ls: seq<ChanListener>, name: Name)
    ensures Lookup(ls, UNUSED_GUID, name) == None
  {
    LookupNone(ls, UNUSED_GUID, name);
  }

  /** A blank entry is found by nobody while no registered listener has an empty name. */
  lemma BlankUnbound(ls: seq<ChanListener>, guid: u32)
    requires forall i :: 0 <= i < |ls| && ls[i].handler.Some? ==> ls[i].name != []
    ensures Lookup(ls, guid, []) == None
  {
    LookupNone(ls, guid, []);
  }

  /** Every channel's stored callback is the one a direct lookup finds. */
  ghost predicate Indexed(chans: seq<Channel>, ls: seq<ChanListener>) {
    forall c :: 0 <= c < |chans| ==> chans[c].handler == Lookup(ls, chans[c].guid, chans[c].name)
  }

  function Bind(c: Channel, ls: seq<ChanListener>): Channel {
    c.(handler := Lookup(ls, c.guid, c.name))
  }

  // ------------------------------------------------------------ table updates

  predicate Known(apps: seq<App>, guid: u32) {
    exists i :: 0 <= i < |apps| && apps[i].guid == guid
  }

  predicate DistinctApps(apps: seq<App>) {
    forall i, j :: 0 <= i < j < |apps| ==> apps[i].guid != apps[j].guid
  }

  function AddApp(apps: seq<App>, guid: u32): seq<App> {
    if Known(apps, guid) || |apps| >= MAX_APPS then apps else apps + [App(guid, [])]
  }

  function SetAppName(apps: seq<App>, guid: u32, name: Name): (r: seq<App>)
    ensures |r| == |apps|
  {
    if apps == [] then []
    else if apps[0].guid == guid then [App(guid, name)] + apps[1..]
    else [apps[0]] + SetAppName(apps[1..], guid, name)
  }

  lemma {:induction false} SetAppNameAt(apps: seq<App>, k: nat, guid: u32, name: Name)
    requires k < |apps| && apps[k].guid == guid && forall i :: 0 <= i < k ==> apps[i].guid != guid
    ensures SetAppName(apps, guid, name) == apps[k := App(guid, name)]
  {
    if k > 0 {
      SetAppNameAt(apps[1..], k - 1, guid, name);
    }
  }

  /** A new application goes behind the others while there are fewer than five; a known one,
      or a sixth, changes nothing. */
  lemma AddAppMeans(apps: seq<App>, guid: u32)
    ensures (exists i :: 0 <= i < |apps| && apps[i].guid == guid) || |apps| >= 5 ==> AddApp(apps, guid) == apps
    ensures (forall i :: 0 <= i < |apps| ==> apps[i].guid != guid) && |apps| < 5 ==>
              AddApp(apps, guid) == apps + [App(guid, [])]
  {
  }

  lemma {:induction false} SetAppNameUnknown(apps: seq<App>, guid: u32, name: Name)
    requires !Known(apps, guid)
    ensures SetAppName(apps, guid, name) == apps
  {
    if apps != [] {
      assert forall i :: 0 <= i < |apps| - 1 ==> apps[1..][i] == apps[i + 1];
      SetAppNameUnknown(apps[1..], guid, name);
    }
  }

  function AddChannel(chans: seq<Channel>, no: byte, guid: u32, name: Name, wake: bool, ls: seq<ChanListener>): seq<Channel>
    requires |chans| == MAX_CHANS
  {
    if no >= MAX_CHANS then chans
    else chans[no := Channel(0, 0, guid, name, wake, Lookup(ls, guid, name))]
  }

  // -------------------------------------------------- advertisement listeners

  function FindAppListener(als: seq<AppListener>, guid: u32): Option<nat> {
    if als == [] then None
    else if als[0].guid == guid && als[0].handler.Some? then als[0].handler
    else FindAppListener(als[1..], guid)
  }

  /** The listener called is the lowest-numbered one that has the GUID and a callback. */
  lemma {:induction false} FindAppListenerMeans(als: seq<AppListener>, guid: u32, h: nat)
    ensures FindAppListener(als, guid) == Some(h) <==>
            exists k :: 0 <= k < |als| && als[k].guid == guid && als[k].handler == Some(h)
                        && forall i :: 0 <= i < k ==> !(als[i].guid == guid && als[i].handler.Some?)
  {
    if als != [] {
      var rest := als[1..];
      FindAppListenerMeans(rest, guid, h);
      assert forall i :: 0 < i < |als| ==> als[i] == rest[i - 1];
      if !(als[0].guid == guid && als[0].handler.Some?) {
        if k :| 0 <= k < |als| && als[k].guid == guid && als[k].handler == Some(h)
                && forall i :: 0 <= i < k ==> !(als[i].guid == guid && als[i].handler.Some?) {
          assert rest[k - 1] == als[k] && forall i :: 0 <= i < k - 1 ==> rest[i] == als[i + 1];
        }
        if k :| 0 <= k < |rest| && rest[k].guid == guid && rest[k].handler == Some(h)
                && forall i :: 0 <= i < k ==> !(rest[i].guid == guid && rest[i].handler.Some?) {
          assert als[k + 1] == rest[k];
        }
      }
    }
  }

  lemma {:induction false} FindAppListenerSkips(als: seq<AppListener>, k: nat, guid: u32)
    requires k <= |als| && forall i :: 0 <= i < k ==> !(als[i].guid == guid && als[i].handler.Some?)
    ensures FindAppListener(als, guid) == FindAppListener(als[k..], guid)
  {
    if k > 0 {
      FindAppListenerSkips(als[1..], k - 1, guid);
      assert als[1..][k - 1..] == als[k..];
    }
  }
}
