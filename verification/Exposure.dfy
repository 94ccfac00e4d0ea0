/** The conflict between auto exposure and a fixed exposure time: what a parameter request
    may do, and the store that brings a displaced exposure time back. */
module Exposure {
  import opened Basics
  import opened Controls

  datatype Name = AeEnable | ExposureTimeMode | ExposureTime | OtherControl(id: nat)

  datatype Param = Param(name: Name, value: ParamValue)

  type Values = map<Name, ParamValue>

  const MODE_AUTO := 0
  const MODE_MANUAL := 1

  /** The control that switches auto exposure: it depends on the library version. */
  function Switch(hasEtm: bool): Name {
    if hasEtm then ExposureTimeMode else AeEnable
  }

  predicate IsOn(hasEtm: bool, v: ParamValue) {
    if hasEtm then v == PvInteger(MODE_AUTO) else v == PvBool(true)
  }

  /** A request value that counts as switching off. */
  predicate IsOff(hasEtm: bool, v: ParamValue) {
    if hasEtm then v == PvInteger(MODE_MANUAL) else v != PvBool(true)
  }

  function AutoValue(hasEtm: bool): ParamValue {
    if hasEtm then PvInteger(MODE_AUTO) else PvBool(true)
  }

  function ManualValue(hasEtm: bool): ParamValue {
    if hasEtm then PvInteger(MODE_MANUAL) else PvBool(false)
  }

  // ---------------------------------------------------------- parameter lists

  /** The first entry of that name that has a value. */
  function Find(ps: seq<Param>, name: Name): Option<ParamValue> {
    if ps == [] then None
    else if ps[0].name == name && ps[0].value != NotSet then Some(ps[0].value)
    else Find(ps[1..], name)
  }

  predicate IsSet(ps: seq<Param>, name: Name) {
    Find(ps, name).Some?
  }

  lemma {:induction false} FindMeans(ps: seq<Param>, name: Name)
    ensures Find(ps, name).Some? <==> exists i :: 0 <= i < |ps| && ps[i].name == name && ps[i].value != NotSet
    ensures Find(ps, name).Some? ==> Param(name, Find(ps, name).value) in ps && Find(ps, name).value != NotSet
  {
    if ps != [] {
      FindMeans(ps[1..], name);
      assert ps == [ps[0]] + ps[1..];
      assert forall i :: 0 < i < |ps| ==> ps[i] == ps[1..][i - 1];
      assert forall i :: 0 <= i < |ps| - 1 ==> ps[1..][i] == ps[i + 1];
    }
  }

  /** The value found is that of the first entry with the name that has one. */
  lemma {:induction false} FindIsFirst(ps: seq<Param>, name: Name, k: nat)
    requires k < |ps| && ps[k].name == name && ps[k].value != NotSet
    requires forall i :: 0 <= i < k ==> !(ps[i].name == name && ps[i].value != NotSet)
    ensures Find(ps, name) == Some(ps[k].value)
  {
    if k > 0 {
      FindIsFirst(ps[1..], name, k - 1);
    }
  }

  lemma {:induction false} FindConcat(a: seq<Param>, b: seq<Param>, name: Name)
    ensures Find(a + b, name) == if IsSet(a, name) then Find(a, name) else Find(b, name)
  {
    if a == [] {
      assert a + b == b;
    } else {
      FindConcat(a[1..], b, name);
      assert (a + b)[1..] == a[1..] + b;
    }
  }

  /** The old entries that no new one overrides. */
  function Kept(older: seq<Param>, newer: seq<Param>): seq<Param> {
    if older == [] then []
    else (if IsSet(newer, older[0].name) then [] else [older[0]]) + Kept(older[1..], newer)
  }

  lemma {:induction false} KeptSnoc(older: seq<Param>, newer: seq<Param>, k: nat)
    requires k < |older|
    ensures Kept(older[..k + 1], newer) == Kept(older[..k], newer) + (if IsSet(newer, older[k].name) then [] else [older[k]])
    decreases k
  {
    if k == 0 {
      assert older[..1][1..] == [] && older[..0] == [];
    } else {
      KeptSnoc(older[1..], newer, k - 1);
      assert older[..k + 1][1..] == older[1..][..k] && older[..k][1..] == older[1..][..k - 1];
    }
  }

  method Merge(older: seq<Param>, newer: seq<Param>) returns (merged: seq<Param>)
    ensures merged == newer + Kept(older, newer)
  {
    merged := newer;
    for i := 0 to |older|
      invariant merged == newer + Kept(older[..i], newer)
    {
      KeptSnoc(older, newer, i);
      if !IsSet(newer, older[i].name) {
        merged := merged + [older[i]];
      }
    }
    assert older[..|older|] == older;
  }

  lemma {:induction false} FindKept(older: seq<Param>, newer: seq<Param>, name: Name)
    requires !IsSet(newer, name)
    ensures Find(Kept(older, newer), name) == Find(older, name)
  {
    if older != [] {
      FindKept(older[1..], newer, name);
      FindConcat(if IsSet(newer, older[0].name) then [] else [older[0]], Kept(older[1..], newer), name);
      assert [older[0]][1..] == [];
    }
  }

  /** Merging: a new value wins, and an old one stays where there is no new one. */
  lemma MergedFind(older: seq<Param>, newer: seq<Param>, name: Name)
    ensures Find(newer + Kept(older, newer), name) == if IsSet(newer, name) then Find(newer, name) else Find(older, name)
  {
    FindConcat(newer, Kept(older, newer), name);
    if !IsSet(newer, name) {
      FindKept(older, newer, name);
    }
  }

  /** An exposure time is set while auto exposure is or stays on. */
  predicate Conflicts(hasEtm: bool, older: seq<Param>, newer: seq<Param>) {
    var mode := Find(newer + Kept(older, newer), Switch(hasEtm));
    mode.Some? && IsOn(hasEtm, mode.value) && IsSet(newer, ExposureTime)
  }

  /** What restoring makes of a request and the store. */
  function Restored(hasEtm: bool, store: Values, request: seq<Param>): (seq<Param>, Values) {
    match Find(request, Switch(hasEtm))
    case None => (request, store)
    case Some(mode) =>
      if !IsOff(hasEtm, mode) then (request + [Param(ExposureTime, NotSet)], store)
      else if ExposureTime in store && !IsSet(request, ExposureTime) then
        (request + [Param(ExposureTime, store[ExposureTime])], store - {ExposureTime})
      else (request, store)
  }

  /** The conflict by value: the exposure time is set by the request while the switch, as the
      request sets it or else as it is, is true, or 0 with the newer switch. */
  lemma ConflictsMean(older: seq<Param>, newer: seq<Param>)
    ensures var ae := if Find(newer, AeEnable).Some? then Find(newer, AeEnable) else Find(older, AeEnable);
            Conflicts(false, older, newer) <==> ae == Some(PvBool(true)) && Find(newer, ExposureTime).Some?
    ensures var etm := if Find(newer, ExposureTimeMode).Some? then Find(newer, ExposureTimeMode)
                       else Find(older, ExposureTimeMode);
            Conflicts(true, older, newer) <==> etm == Some(PvInteger(0)) && Find(newer, ExposureTime).Some?
  {
    MergedFind(older, newer, AeEnable);
    MergedFind(older, newer, ExposureTimeMode);
  }

  /** Restoring by value. Without the switch a request stays as it is. A switch that is set to
      anything but true, or to 1 with the newer switch, takes a stored exposure time out of
      the store and into a request that sets none; any other setting unsets the time. */
  lemma RestoredMeans(hasEtm: bool, store: Values, request: seq<Param>)
    ensures var switch := Find(request, if hasEtm then ExposureTimeMode else AeEnable);
            var off := switch.Some? && if hasEtm then switch.value == PvInteger(1) else switch.value != PvBool(true);
            && (switch == None ==> Restored(hasEtm, store, request) == (request, store))
            && (off && ExposureTime in store && Find(request, ExposureTime) == None ==>
                  Restored(hasEtm, store, request)
                  == (request + [Param(ExposureTime, store[ExposureTime])], store - {ExposureTime}))
            && (off && !(ExposureTime in store && Find(request, ExposureTime) == None) ==>
                  Restored(hasEtm, store, request) == (request, store))
            && (switch.Some? && !off ==> Restored(hasEtm, store, request) == (request + [Param(ExposureTime, NotSet)], store))
  {
  }

  // --------------------------------------------------- the parameters of the node

  /** Auto exposure on and a fixed exposure time never hold together. */
  predicate Exclusive(hasEtm: bool, node: Values) {
    !(&& Switch(hasEtm) in node && IsOn(hasEtm, node[Switch(hasEtm)])
      && ExposureTime in node && node[ExposureTime] != NotSet)
  }

  predicate DistinctNames(ps: seq<Param>) {
    forall i, j :: 0 <= i < j < |ps| ==> ps[i].name != ps[j].name
  }

  /** The list shows the current values of the named parameters. */
  predicate Shows(older: seq<Param>, node: Values, names: set<Name>) {
    && (forall p :: p in older ==> p.name in node && node[p.name] == p.value)
    && forall n :: n in names && n in node ==> Param(n, node[n]) in older
  }

  /** The node took over a list: every named parameter has one of the values the list gives
      it, and the others are unchanged. */
  predicate TookOver(before: Values, ps: seq<Param>, after: Values) {
    && (forall p :: p in ps ==> p.name in after)
    && (forall n :: n in after ==>
          Param(n, after[n]) in ps || (n in before && before[n] == after[n] && forall p :: p in ps ==> p.name != n))
  }

  /** A request with distinct names that passes the conflict check keeps the exclusion,
      whatever it sets, unsets or has restored. */
  lemma RequestKeepsExclusion(hasEtm: bool, store: Values, node: Values, older: seq<Param>,
                              request: seq<Param>, after: Values, names: set<Name>)
    requires Exclusive(hasEtm, node) && DistinctNames(request)
    requires Switch(hasEtm) in names && Shows(older, node, names)
    requires !Conflicts(hasEtm, older, Restored(hasEtm, store, request).0)
    requires TookOver(node, Restored(hasEtm, store, request).0, after)
    ensures Exclusive(hasEtm, after)
  {
    var key, ps := Switch(hasEtm), Restored(hasEtm, store, request).0;
    MergedFind(older, ps, key);
    if key in after && IsOn(hasEtm, after[key]) && ExposureTime in after && after[ExposureTime] != NotSet {
      FindMeans(request, key);
      FindMeans(ps, key);
      FindMeans(ps, ExposureTime);
      if Param(key, after[key]) in ps {
        SwitchOnUnsetsTime(hasEtm, store, request, after[key]);
      } else {
        FindMeans(older, key);
        OldSwitchFound(older, node, names, key);
      }
    }
  }

  lemma OldSwitchFound(older: seq<Param>, node: Values, names: set<Name>, key: Name)
    requires Shows(older, node, names) && key in names && key in node && node[key] != NotSet
    ensures Find(older, key) == Some(node[key])
  {
    FindMeans(older, key);
    assert Param(key, node[key]) in older;
  }

  lemma SwitchOnUnsetsTime(hasEtm: bool, store: Values, request: seq<Param>, v: ParamValue)
    requires DistinctNames(request) && IsOn(hasEtm, v)
    requires Param(Switch(hasEtm), v) in Restored(hasEtm, store, request).0
    ensures var ps := Restored(hasEtm, store, request).0;
            Find(ps, Switch(hasEtm)) == Some(v) && exists p :: p in ps && p == Param(ExposureTime, NotSet)
  {
    var key := Switch(hasEtm);
    assert Param(key, v) in request;
    FindMeans(request, key);
    var w := Find(request, key).value;
    assert Param(key, w) in request && w == v;
    FindConcat(request, [Param(ExposureTime, NotSet)], key);
    assert Param(ExposureTime, NotSet) in Restored(hasEtm, store, request).0;
  }

  /** Distinct names are needed: a request that switches twice slips through the check. */
  lemma DuplicateNamesBreakExclusion(hasEtm: bool)
    ensures var off := if hasEtm then PvInteger(MODE_MANUAL) else PvBool(false);
            var on := if hasEtm then PvInteger(MODE_AUTO) else PvBool(true);
            var request := [Param(Switch(hasEtm), off), Param(Switch(hasEtm), on), Param(ExposureTime, PvInteger(5))];
            var after := map[Switch(hasEtm) := on, ExposureTime := PvInteger(5)];
            && !Conflicts(hasEtm, [], Restored(hasEtm, map[], request).0)
            && TookOver(map[], Restored(hasEtm, map[], request).0, after)
            && !Exclusive(hasEtm, after)
  {
    var off := if hasEtm then PvInteger(MODE_MANUAL) else PvBool(false);
    var on := if hasEtm then PvInteger(MODE_AUTO) else PvBool(true);
    var request := [Param(Switch(hasEtm), off), Param(Switch(hasEtm), on), Param(ExposureTime, PvInteger(5))];
    assert Find(request, Switch(hasEtm)) == Some(off);
    assert request[1..][1..] == [Param(ExposureTime, PvInteger(5))];
    assert request[1] in request && request[2] in request;
    MergedFind([], request, Switch(hasEtm));
  }

  /** A stored exposure time comes back when a request switches auto exposure off and says
      nothing about the time itself. */
  lemma SwitchingOffBringsBack(hasEtm: bool, store: Values, node: Values, request: seq<Param>, after: Values)
    requires ExposureTime in store && forall p :: p in request ==> p.name != ExposureTime
    requires IsSet(request, Switch(hasEtm)) && IsOff(hasEtm, Find(request, Switch(hasEtm)).value)
    requires TookOver(node, Restored(hasEtm, store, request).0, after)
    ensures ExposureTime in after && after[ExposureTime] == store[ExposureTime]
    ensures ExposureTime !in Restored(hasEtm, store, request).1
  {
    FindMeans(request, ExposureTime);
    var back := Param(ExposureTime, store[ExposureTime]);
    assert Restored(hasEtm, store, request).0 == request + [back];
    assert back in request + [back];
  }

  // ------------------------------------------------------------------------ runs

  /** What lasts from one request to the next. */
  datatype Session = Session(store: Values, node: Values)

  /** A request, the list of current values that its check sees, the values the node would
      take over, and whether the checks of the single values pass. */
  datatype Request = Request(list: seq<Param>, older: seq<Param>, after: Values, valuesOk: bool)

  predicate Fair(hasEtm: bool, names: set<Name>, s: Session, q: Request) {
    && DistinctNames(q.list) && Shows(q.older, s.node, names)
    && TookOver(s.node, Restored(hasEtm, s.store, q.list).0, q.after)
  }

  predicate Granted(hasEtm: bool, s: Session, q: Request) {
    q.valuesOk && !Conflicts(hasEtm, q.older, Restored(hasEtm, s.store, q.list).0)
  }

  function Answer(hasEtm: bool, s: Session, q: Request): Session {
    if Granted(hasEtm, s, q) then Session(Restored(hasEtm, s.store, q.list).1, q.after) else s
  }

  predicate FairRun(hasEtm: bool, names: set<Name>, s: Session, qs: seq<Request>)
    decreases |qs|
  {
    qs == [] || (Fair(hasEtm, names, s, qs[0]) && FairRun(hasEtm, names, Answer(hasEtm, s, qs[0]), qs[1..]))
  }

  function AnswerAll(hasEtm: bool, s: Session, qs: seq<Request>): Session
    decreases |qs|
  {
    if qs == [] then s else AnswerAll(hasEtm, Answer(hasEtm, s, qs[0]), qs[1..])
  }

  /** How many requests of a run bring a stored exposure time back. */
  function Restorations(hasEtm: bool, s: Session, qs: seq<Request>): nat
    decreases |qs|
  {
    if qs == [] then 0
    else
      var s' := Answer(hasEtm, s, qs[0]);
      (if s'.store != s.store then 1 else 0) + Restorations(hasEtm, s', qs[1..])
  }

  /** Through any run of granted and refused requests the exclusion holds, and the exposure
      time stored at the beginning comes back at most once. */
  lemma {:induction false} ExclusionOverRuns(hasEtm: bool, names: set<Name>, s: Session, qs: seq<Request>)
    requires Exclusive(hasEtm, s.node) && Switch(hasEtm) in names && s.store.Keys <= {ExposureTime}
    requires FairRun(hasEtm, names, s, qs)
    ensures Exclusive(hasEtm, AnswerAll(hasEtm, s, qs).node)
    ensures Restorations(hasEtm, s, qs) <= if ExposureTime in s.store then 1 else 0
    decreases |qs|
  {
    hide Conflicts, TookOver, Shows, DistinctNames;
    if qs != [] {
      var q := qs[0];
      if Granted(hasEtm, s, q) {
        RequestKeepsExclusion(hasEtm, s.store, s.node, q.older, q.list, q.after, names);
      }
      ExclusionOverRuns(hasEtm, names, Answer(hasEtm, s, q), qs[1..]);
    }
  }

  // ----------------------------------------------------------------- declaration

  /** The switch, if it has a value at all, has one of its own type. */
  predicate SwitchTyped(hasEtm: bool, p: Values) {
    Switch(hasEtm) in p && p[Switch(hasEtm)] != NotSet ==>
      if hasEtm then p[Switch(hasEtm)].PvInteger? else p[Switch(hasEtm)].PvBool?
  }

  predicate HasValue(p: Values, n: Name) {
    n in p && p[n] != NotSet
  }

  predicate ExposureConflict(hasEtm: bool, p: Values) {
    HasValue(p, Switch(hasEtm)) && IsOn(hasEtm, p[Switch(hasEtm)]) && HasValue(p, ExposureTime)
  }

  /** The switch that the defaults ask for, automatic unless they say otherwise. */
  function DefaultSwitch(hasEtm: bool, defaults: Values): ParamValue {
    if HasValue(defaults, Switch(hasEtm)) then defaults[Switch(hasEtm)] else AutoValue(hasEtm)
  }

  /** The default exposure time that automatic exposure displaces. */
  predicate Displaced(hasEtm: bool, defaults: Values) {
    IsOn(hasEtm, DefaultSwitch(hasEtm, defaults)) && HasValue(defaults, ExposureTime)
  }

  function Override(overrides: Values, n: Name, otherwise: ParamValue): ParamValue {
    if n in overrides then overrides[n] else otherwise
  }

  /** The exposure time before a displaced one may come back. */
  function AskedTime(hasEtm: bool, defaults: Values, overrides: Values): ParamValue {
    Override(overrides, ExposureTime,
             if HasValue(defaults, ExposureTime) && !Displaced(hasEtm, defaults) then defaults[ExposureTime] else NotSet)
  }

  /** A time that was asked for switches automatic exposure off. */
  function ResolvedSwitch(hasEtm: bool, defaults: Values, overrides: Values): ParamValue {
    var asked := Override(overrides, Switch(hasEtm), DefaultSwitch(hasEtm, defaults));
    if IsOn(hasEtm, asked) && AskedTime(hasEtm, defaults, overrides) != NotSet then ManualValue(hasEtm) else asked
  }

  /** The displaced time comes back when the switch ends up manual and no time was asked for. */
  predicate BroughtBack(hasEtm: bool, defaults: Values, overrides: Values) {
    && Displaced(hasEtm, defaults) && AskedTime(hasEtm, defaults, overrides) == NotSet
    && ResolvedSwitch(hasEtm, defaults, overrides) == ManualValue(hasEtm)
  }

  function ResolvedTime(hasEtm: bool, defaults: Values, overrides: Values): ParamValue {
    if BroughtBack(hasEtm, defaults, overrides) then defaults[ExposureTime] else AskedTime(hasEtm, defaults, overrides)
  }

  /** Every other control has its override, or else its default. */
  predicate Resolves(hasEtm: bool, defaults: Values, overrides: Values, p: Values) {
    && p.Keys == defaults.Keys
    && (forall n :: n in p && n != Switch(hasEtm) && n != ExposureTime ==> p[n] == Override(overrides, n, defaults[n]))
    && (Switch(hasEtm) in p ==> p[Switch(hasEtm)] == ResolvedSwitch(hasEtm, defaults, overrides))
    && (ExposureTime in p ==> p[ExposureTime] == ResolvedTime(hasEtm, defaults, overrides))
  }

  /** The first step: p and the store that resolving the defaults gives. */
  predicate DefaultsResolved(hasEtm: bool, defaults: Values, before: Values, p: Values, store: Values) {
    var conflict := Switch(hasEtm) in p && Displaced(hasEtm, defaults);
    && p.Keys == defaults.Keys
    && (forall n :: n in p && n != Switch(hasEtm) && n != ExposureTime ==> p[n] == defaults[n])
    && (Switch(hasEtm) in p ==> p[Switch(hasEtm)] == DefaultSwitch(hasEtm, defaults))
    && (ExposureTime in p ==> p[ExposureTime] == if conflict then NotSet else defaults[ExposureTime])
    && store == if conflict then before[ExposureTime := defaults[ExposureTime]] else before
  }

  /** The second step: p and the store that resolving the overridden values gives. */
  predicate OverridesResolved(hasEtm: bool, overridden: Values, before: Values, p: Values, store: Values) {
    var conflict := ExposureConflict(hasEtm, overridden);
    var back := && Switch(hasEtm) in p && p[Switch(hasEtm)] == ManualValue(hasEtm)
                && !HasValue(overridden, ExposureTime) && ExposureTime in before;
    && p.Keys == overridden.Keys
    && (forall n :: n in p && n != Switch(hasEtm) && n != ExposureTime ==> p[n] == overridden[n])
    && (Switch(hasEtm) in p ==> p[Switch(hasEtm)] == if conflict then ManualValue(hasEtm) else overridden[Switch(hasEtm)])
    && (ExposureTime in p ==> p[ExposureTime] == if back then before[ExposureTime] else overridden[ExposureTime])
    && store == if back then before - {ExposureTime} else before
  }

  /** The two steps, with the overrides put in between them. */
  lemma StepsResolve(hasEtm: bool, defaults: Values, overrides: Values, a: Values, kept: Values, p: Values,
                     store: Values)
    requires Switch(hasEtm) in defaults && ExposureTime in defaults
    requires DefaultsResolved(hasEtm, defaults, map[], a, kept)
    requires OverridesResolved(hasEtm, map n | n in a :: Override(overrides, n, a[n]), kept, p, store)
    ensures Resolves(hasEtm, defaults, overrides, p)
    ensures store == if Displaced(hasEtm, defaults) && !BroughtBack(hasEtm, defaults, overrides)
                     then map[ExposureTime := defaults[ExposureTime]] else map[]
    ensures kept == map[] || kept == map[ExposureTime := defaults[ExposureTime]]
    ensures SwitchTyped(hasEtm, p) && HasValue(p, Switch(hasEtm)) && !HasValue(p, ExposureTime) ==>
              (IsOff(hasEtm, p[Switch(hasEtm)]) ==> ExposureTime !in store)
  {
    var b := map n | n in a :: Override(overrides, n, a[n]);
    assert b[ExposureTime] == AskedTime(hasEtm, defaults, overrides);
    assert b[Switch(hasEtm)] == Override(overrides, Switch(hasEtm), DefaultSwitch(hasEtm, defaults));
  }

  /** What the resolution is for: the values exclude each other; an exposure time given as an
      override stands, as does any override of the switch that does not clash with one; and
      without overrides automatic exposure is preferred. */
  lemma ResolutionPrefers(hasEtm: bool, defaults: Values, overrides: Values, p: Values)
    requires Resolves(hasEtm, defaults, overrides, p)
    requires Switch(hasEtm) in p && ExposureTime in p
    ensures Exclusive(hasEtm, p)
    ensures HasValue(overrides, ExposureTime) ==> p[ExposureTime] == overrides[ExposureTime]
    ensures Switch(hasEtm) in overrides && !IsOn(hasEtm, overrides[Switch(hasEtm)]) ==>
              p[Switch(hasEtm)] == overrides[Switch(hasEtm)]
    ensures overrides == map[] && IsOn(hasEtm, DefaultSwitch(hasEtm, defaults)) ==>
              IsOn(hasEtm, p[Switch(hasEtm)]) && p[ExposureTime] == NotSet
    ensures overrides == map[Switch(hasEtm) := ManualValue(hasEtm)] && HasValue(defaults, ExposureTime) ==>
              p[ExposureTime] == defaults[ExposureTime]
  {
  }

  /** The switch by value: true and false, or 0 and 1 with the newer one. Unset it is automatic
      by default, and a time that is asked for beside an automatic one makes it manual. */
  lemma SwitchValues(defaults: Values, overrides: Values)
    ensures !HasValue(defaults, AeEnable) ==> DefaultSwitch(false, defaults) == PvBool(true)
    ensures !HasValue(defaults, ExposureTimeMode) ==> DefaultSwitch(true, defaults) == PvInteger(0)
    ensures HasValue(overrides, ExposureTime) && AeEnable in overrides && overrides[AeEnable] == PvBool(true) ==>
              ResolvedSwitch(false, defaults, overrides) == PvBool(false)
    ensures HasValue(overrides, ExposureTime) && ExposureTimeMode in overrides && overrides[ExposureTimeMode] == PvInteger(0) ==>
              ResolvedSwitch(true, defaults, overrides) == PvInteger(1)
    ensures forall node: Values :: Exclusive(false, node) <==>
              !(&& AeEnable in node && node[AeEnable] == PvBool(true)
                && ExposureTime in node && node[ExposureTime] != NotSet)
    ensures forall node: Values :: Exclusive(true, node) <==>
              !(&& ExposureTimeMode in node && node[ExposureTimeMode] == PvInteger(0)
                && ExposureTime in node && node[ExposureTime] != NotSet)
  {
  }

  /** The list holds each of the values once. */
  predicate Lists(ps: seq<Param>, p: Values) {
    && DistinctNames(ps)
    && (forall x :: x in ps ==> x.name in p && p[x.name] == x.value)
    && forall n :: n in p ==> Param(n, p[n]) in ps
  }

  lemma FindListed(ps: seq<Param>, p: Values, n: Name)
    requires Lists(ps, p)
    ensures Find(ps, n) == if HasValue(p, n) then Some(p[n]) else None
  {
    FindMeans(ps, n);
    if HasValue(p, n) {
      assert Param(n, p[n]) in ps;
    }
  }

  /** The first request, made of resolved values, never conflicts. */
  lemma ResolvedNeverConflicts(hasEtm: bool, store: Values, older: seq<Param>, ps: seq<Param>, p: Values)
    requires Lists(ps, p) && Exclusive(hasEtm, p)
    requires forall x :: x in older ==> x.value == NotSet
    ensures !Conflicts(hasEtm, older, Restored(hasEtm, store, ps).0)
  {
    var key, list := Switch(hasEtm), Restored(hasEtm, store, ps).0;
    FindListed(ps, p, key);
    FindListed(ps, p, ExposureTime);
    FindMeans(older, key);
    MergedFind(older, list, key);
    if |list| > |ps| {
      var x := list[|ps|];
      assert list == ps + [x];
      FindConcat(ps, [x], key);
      FindConcat(ps, [x], ExposureTime);
      assert [x][1..] == [];
    }
  }
}
