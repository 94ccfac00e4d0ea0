/** Parameter requests to the camera: restore, validate, commit or revert, and the pending
    controls that the next frame takes. */
module Parameters {
  import opened Basics
  import opened Controls
  import opened Exposure

  // ---------------------------------------------------------------- validation

  const DYNAMIC_EXTENT: nat := 0xFFFF_FFFF_FFFF_FFFF

  /** A control: its type, how many elements it has (0 for a scalar), and its bounds. */
  datatype ControlInfo = ControlInfo(t: ControlType, extent: nat, lo: ControlValue, hi: ControlValue)

  datatype ParamType = NoType | BoolType | IntegerType | BoolArrayType | IntegerArrayType | OtherType

  function TypeOfParam(v: ParamValue): ParamType {
    match v
    case NotSet => NoType
    case PvBool(_) => BoolType
    case PvInteger(_) => IntegerType
    case PvIntegerArray(_) => IntegerArrayType
    case PvOther(_) => OtherType
  }

  /** The parameter type for a control. */
  function ExpectedType(info: ControlInfo): ParamType {
    if info.extent == 0 then
      match info.t
      case TypeBool => BoolType
      case TypeRectangle => IntegerArrayType
      case _ => IntegerType
    else if info.t == TypeBool then BoolArrayType else IntegerArrayType
  }

  predicate IsBound(info: ControlInfo, b: ControlValue) {
    match info.t
    case TypeBool => b.CvBool?
    case TypeRectangle => b.CvRectangle? && info.extent == 0
    case _ =>
      var wide := info.t == TypeInteger64;
      || (b.CvScalar? && b.wide == wide)
      || (b.CvArray? && b.wideElems == wide && info.extent != DYNAMIC_EXTENT && |b.elems| >= info.extent)
  }

  /** The bounds can be compared with every value of the control. */
  predicate InfoOk(info: ControlInfo) {
    IsBound(info, info.lo) && IsBound(info, info.hi)
  }

  /** The checks on one value, in their order. */
  predicate Accepted(info: ControlInfo, v: ParamValue)
    requires InfoOk(info)
  {
    && v != NotSet
    && TypeOfParam(v) == ExpectedType(info)
    && PvToCv(v, info.t).Some?
    && var cv := PvToCv(v, info.t).value;
    && (cv.CvArray? && info.extent != DYNAMIC_EXTENT ==> |cv.elems| == info.extent)
    && !Less(cv, info.lo) && !Greater(cv, info.hi)
  }

  /** The checks on a number, by value: a scalar control accepts exactly the numbers between its
      bounds, those under the minimum and over the maximum being refused. */
  lemma NumberAccepted(info: ControlInfo, n: i64)
    requires InfoOk(info) && info.extent == 0 && info.lo.CvScalar? && info.hi.CvScalar?
    requires info.t == TypeInteger64 || (info.t == TypeInteger32 && -2147483648 <= n < 2147483648)
    ensures Accepted(info, PvInteger(n)) <==> info.lo.value <= n <= info.hi.value
  {
    InSigned(n);
  }

  /** A truth value is refused only by bounds that exclude it. */
  lemma TruthAccepted(info: ControlInfo, b: bool)
    requires InfoOk(info) && info.extent == 0 && info.t == TypeBool
    ensures Accepted(info, PvBool(b)) <==> (info.lo.b ==> b) && (b ==> info.hi.b)
  {
  }

  /** An array is accepted when it has the size of its control, if that is fixed, and no element
      is out of bounds, be they the same for all or one each. */
  lemma {:induction false} ArrayAccepted(info: ControlInfo, ns: seq<i64>)
    requires InfoOk(info) && info.extent != 0
    requires || info.t == TypeInteger64
             || (info.t == TypeInteger32 && forall i :: 0 <= i < |ns| ==> -2147483648 <= ns[i] < 2147483648)
    ensures info.lo.CvScalar? && info.hi.CvScalar? ==>
              (Accepted(info, PvIntegerArray(ns)) <==>
               && (info.extent != 18446744073709551615 ==> |ns| == info.extent)
               && forall i :: 0 <= i < |ns| ==> info.lo.value <= ns[i] <= info.hi.value)
    ensures info.lo.CvArray? && info.hi.CvArray? ==>
              (Accepted(info, PvIntegerArray(ns)) <==>
               |ns| == info.extent && forall i :: 0 <= i < |ns| ==> info.lo.elems[i] <= ns[i] <= info.hi.elems[i])
  {
    forall i | 0 <= i < |ns|
      ensures -2147483648 <= ns[i] < 2147483648 ==> ToI32(ns[i]) == ns[i]
    {
      InSigned(ns[i]);
    }
    var wide := info.t == TypeInteger64;
    assert !wide ==> AllToWidth(false, ns) == ns;
    assert PvToCv(PvIntegerArray(ns), info.t) == Some(CvArray(wide, ns));
    hide ToI32;
  }

  /** A rectangle is accepted unless it lies strictly inside the minimum or around the maximum. */
  lemma RectangleAccepted(info: ControlInfo, r: Rectangle)
    requires InfoOk(info) && info.extent == 0 && info.t == TypeRectangle
    ensures Accepted(info, PvIntegerArray([r.x, r.y, r.width, r.height])) <==>
            !Less(CvRectangle(r), info.lo) && !Greater(CvRectangle(r), info.hi)
  {
    ConversionRoundTrip(CvRectangle(r), TypeRectangle);
  }

  /** Values of another kind than the control's are refused: a scalar for an array control and
      the other way round, a number for a truth value, anything unset or of another type. */
  lemma OthersRefused(info: ControlInfo, n: i64, b: bool, ns: seq<i64>, kind: nat)
    requires InfoOk(info)
    ensures !Accepted(info, NotSet) && !Accepted(info, PvOther(kind))
    ensures info.extent != 0 || info.t in {TypeBool, TypeRectangle} ==> !Accepted(info, PvInteger(n))
    ensures info.extent != 0 || info.t != TypeBool ==> !Accepted(info, PvBool(b))
    ensures (info.extent == 0 && info.t != TypeRectangle) || info.t == TypeBool ==> !Accepted(info, PvIntegerArray(ns))
  {
  }

  /** A default has the form of its control. */
  predicate Fitting(info: ControlInfo, v: ControlValue) {
    && TypeOf(v) == Some(info.t)
    && (v.CvArray? <==> info.extent != 0)
    && (v.CvArray? && info.extent != DYNAMIC_EXTENT ==> |v.elems| == info.extent)
  }

  /** The parameter of a clamped default passes all the checks, unless it is an array of
      fewer than two elements, which is no array any more. */
  lemma {:induction false} ClampedDefaultAccepted(info: ControlInfo, v: ControlValue, c: ControlValue)
    requires InfoOk(info) && Fitting(info, v) && Bounded(v, info.lo, info.hi)
    requires WellSized(v) && WellSized(info.lo) && WellSized(info.hi) && IsClamped(c, v, info.lo, info.hi)
    ensures Accepted(info, CvToPv(c)) <==> !(v.CvArray? && |v.elems| < 2)
  {
    hide Less, Greater, ClampRectangle, Clamp, WellSized;
    if !(v.CvArray? && |v.elems| < 2) {
      ClampedIsValid(v, info.lo, info.hi, c, info.t);
    }
  }

  predicate IsControl(controls: map<Name, ControlInfo>, p: Param) {
    p.name in controls && p.value != NotSet
  }

  predicate ControlsOk(controls: map<Name, ControlInfo>) {
    forall n :: n in controls ==> InfoOk(controls[n])
  }

  predicate AllAccepted(controls: map<Name, ControlInfo>, ps: seq<Param>)
    requires ControlsOk(controls)
  {
    forall p :: p in ps && IsControl(controls, p) ==> Accepted(controls[p.name], p.value)
  }

  // ------------------------------------------------------------ pending controls

  type Batch = map<Name, ControlValue>

  /** The set controls of a list; a later entry replaces an earlier one. */
  function PendingOf(controls: map<Name, ControlInfo>, ps: seq<Param>): Batch {
    if ps == [] then map[]
    else
      var before, p := PendingOf(controls, ps[..|ps| - 1]), ps[|ps| - 1];
      if IsControl(controls, p) && PvToCv(p.value, controls[p.name].t).Some?
      then before[p.name := PvToCv(p.value, controls[p.name].t).value]
      else before
  }

  /** The pending controls are exactly the set controls of an accepted list, each converted
      from a value of the right type inside its bounds. */
  lemma {:induction false} PendingIsAccepted(controls: map<Name, ControlInfo>, ps: seq<Param>, n: Name)
    requires ControlsOk(controls) && AllAccepted(controls, ps)
    ensures var batch := PendingOf(controls, ps);
            && (n in batch <==> n in controls && exists p :: p in ps && p.name == n && p.value != NotSet)
            && (n in batch ==>
                  exists v :: Param(n, v) in ps && Accepted(controls[n], v)
                           && PvToCv(v, controls[n].t) == Some(batch[n]))
  {
    if ps != [] {
      var init, last := ps[..|ps| - 1], ps[|ps| - 1];
      assert ps == init + [last];
      PendingIsAccepted(controls, init, n);
      if last.name == n && IsControl(controls, last) {
        assert Accepted(controls[n], last.value) && Param(n, last.value) in ps;
      } else if n in PendingOf(controls, init) {
        var v :| Param(n, v) in init && Accepted(controls[n], v) && PvToCv(v, controls[n].t) == Some(PendingOf(controls, init)[n]);
        assert Param(n, v) in ps;
      }
    }
  }

  // ---------------------------------------------------------------------- trace

  /** What happened so far: accepted batches, refused requests and frames. */
  datatype Happening = Took(batch: Batch, restored: bool) | Refused | Frame(got: Batch)

  /** The accepted request whose batch is pending after k happenings. */
  function PendingAt(trace: seq<Happening>, k: nat): Option<nat>
    requires k <= |trace|
  {
    if k == 0 then None
    else match trace[k - 1]
         case Took(_, _) => Some(k - 1)
         case Refused => PendingAt(trace, k - 1)
         case Frame(_) => None
  }

  function BatchAt(trace: seq<Happening>, k: nat): Batch
    requires k <= |trace|
  {
    match PendingAt(trace, k)
    case None => map[]
    case Some(i) => if i < |trace| && trace[i].Took? then trace[i].batch else map[]
  }

  /** A batch is pending until a frame takes it or a later batch replaces it, and no longer. */
  lemma {:induction false} PendingUntilTaken(trace: seq<Happening>, i: nat, k: nat)
    requires k <= |trace|
    ensures PendingAt(trace, k) == Some(i) <==>
            i < k && trace[i].Took? && forall j :: i < j < k ==> trace[j].Refused?
    decreases k
  {
    if k > 0 {
      PendingUntilTaken(trace, i, k - 1);
    }
  }

  /** So a batch reaches at most one frame: at most one frame finds it pending. */
  lemma BatchReachesOneFrame(trace: seq<Happening>, i: nat, j: nat, k: nat)
    requires j < |trace| && k < |trace| && trace[j].Frame? && trace[k].Frame?
    requires PendingAt(trace, j) == Some(i) && PendingAt(trace, k) == Some(i)
    ensures j == k
  {
    PendingUntilTaken(trace, i, j);
    PendingUntilTaken(trace, i, k);
  }

  function RestoreCount(trace: seq<Happening>): nat {
    if trace == [] then 0
    else RestoreCount(trace[..|trace| - 1]) + (match trace[|trace| - 1] case Took(_, true) => 1 case _ => 0)
  }

  /** Every frame got the batch that was pending. */
  ghost predicate FramesGotPending(trace: seq<Happening>) {
    forall k :: 0 <= k < |trace| && trace[k].Frame? ==> trace[k].got == BatchAt(trace, k)
  }

  lemma {:induction false} PendingPrefix(trace: seq<Happening>, h: Happening, k: nat)
    requires k <= |trace|
    ensures PendingAt(trace + [h], k) == PendingAt(trace, k)
    ensures PendingAt(trace, k).Some? ==> PendingAt(trace, k).value < k
  {
    if k > 0 {
      PendingPrefix(trace, h, k - 1);
    }
  }

  lemma BatchPrefix(trace: seq<Happening>, h: Happening, k: nat)
    requires k <= |trace|
    ensures BatchAt(trace + [h], k) == BatchAt(trace, k)
  {
    PendingPrefix(trace, h, k);
  }

  lemma BatchAfter(trace: seq<Happening>, h: Happening)
    ensures BatchAt(trace + [h], |trace| + 1)
         == match h case Took(b, _) => b case Refused => BatchAt(trace, |trace|) case Frame(_) => map[]
  {
    PendingPrefix(trace, h, |trace|);
    assert (trace + [h])[|trace|] == h;
  }

  lemma RestoreCountAfter(trace: seq<Happening>, h: Happening)
    ensures RestoreCount(trace + [h]) == RestoreCount(trace) + (match h case Took(_, true) => 1 case _ => 0)
  {
    assert (trace + [h])[..|trace|] == trace;
  }

  lemma TraceGrows(trace: seq<Happening>, h: Happening)
    requires FramesGotPending(trace) && (h.Frame? ==> h.got == BatchAt(trace, |trace|))
    ensures FramesGotPending(trace + [h])
  {
    forall k | 0 <= k < |trace + [h]| && (trace + [h])[k].Frame?
      ensures (trace + [h])[k].got == BatchAt(trace + [h], k)
    {
      BatchPrefix(trace, h, k);
      if k < |trace| {
        assert (trace + [h])[k] == trace[k];
      }
    }
  }

  // ----------------------------------------------------------------------- lists

  /** The values as a list, in some order. */
  method ListOf(p: Values) returns (ps: seq<Param>)
    ensures Lists(ps, p)
  {
    ps := [];
    var names := p.Keys;
    while names != {}
      invariant names <= p.Keys && DistinctNames(ps)
      invariant forall x :: x in ps ==> x.name in p && x.name !in names && p[x.name] == x.value
      invariant forall n :: n in p && n !in names ==> Param(n, p[n]) in ps
      decreases names
    {
      var n :| n in names;
      ps := ps + [Param(n, p[n])];
      names := names - {n};
    }
  }

  /** The node taking over a list entry by entry. */
  function TakeAll(before: Values, ps: seq<Param>): (after: Values)
    ensures before.Keys <= after.Keys
    decreases |ps|
  {
    if ps == [] then before else TakeAll(before[ps[0].name := ps[0].value], ps[1..])
  }

  lemma {:induction false} TakeAllTookOver(before: Values, ps: seq<Param>)
    ensures TookOver(before, ps, TakeAll(before, ps))
    decreases |ps|
  {
    if ps != [] {
      TakeAllTookOver(before[ps[0].name := ps[0].value], ps[1..]);
      assert ps == [ps[0]] + ps[1..];
    }
  }

  /** The first request brings no stored value back: the overrides already have. It unsets
      the exposure time once more unless the switch is off. */
  lemma FirstRequest(hasEtm: bool, store: Values, order: seq<Param>, p: Values)
    requires Lists(order, p) && SwitchTyped(hasEtm, p)
    requires HasValue(p, Switch(hasEtm)) && IsOff(hasEtm, p[Switch(hasEtm)]) && !HasValue(p, ExposureTime) ==>
               ExposureTime !in store
    ensures Restored(hasEtm, store, order).0 ==
            if NotOff(hasEtm, p) then order + [Param(ExposureTime, NotSet)] else order
  {
    FindListed(order, p, Switch(hasEtm));
    FindListed(order, p, ExposureTime);
  }

  predicate NotOff(hasEtm: bool, p: Values) {
    HasValue(p, Switch(hasEtm)) && !IsOff(hasEtm, p[Switch(hasEtm)])
  }

  /** The first request is good when every value in it is. */
  lemma AcceptedList(controls: map<Name, ControlInfo>, order: seq<Param>, ps: seq<Param>, p: Values)
    requires ControlsOk(controls) && Lists(order, p) && p.Keys == controls.Keys
    requires ps in {order, order + [Param(ExposureTime, NotSet)]}
    ensures AllAccepted(controls, ps) <==> forall n :: n in p && p[n] != NotSet ==> Accepted(controls[n], p[n])
  {
    if AllAccepted(controls, ps) {
      forall n | n in p && p[n] != NotSet
        ensures Accepted(controls[n], p[n])
      {
        assert Param(n, p[n]) in ps;
      }
    }
  }

  lemma ResolvedTaken(before: Values, order: seq<Param>, ps: seq<Param>, p: Values, after: Values)
    requires Lists(order, p) && ps in {order, order + [Param(ExposureTime, NotSet)]} && TookOver(before, ps, after)
    ensures forall n :: n in p && n != ExposureTime ==> n in after && after[n] == p[n]
    ensures ps == order && ExposureTime in p ==> ExposureTime in after && after[ExposureTime] == p[ExposureTime]
  {
    forall n | n in p && (n != ExposureTime || ps == order)
      ensures n in after && after[n] == p[n]
    {
      assert Param(n, p[n]) in ps;
      assert Param(n, after[n]) in order;
    }
  }

  lemma {:induction false} TakeAllSnoc(before: Values, ps: seq<Param>, x: Param)
    ensures TakeAll(before, ps + [x]) == TakeAll(before, ps)[x.name := x.value]
    decreases |ps|
  {
    if ps == [] {
      assert ps + [x] == [x] && [x][1..] == [];
    } else {
      assert (ps + [x])[0] == ps[0] && (ps + [x])[1..] == ps[1..] + [x];
      TakeAllSnoc(before[ps[0].name := ps[0].value], ps[1..], x);
    }
  }

  /** What the node has after taking over the first request. */
  lemma NodeTakesResolved(hasEtm: bool, before: Values, order: seq<Param>, p: Values, after: Values)
    requires Lists(order, p) && ExposureTime in p
    requires after == TakeAll(before, if NotOff(hasEtm, p) then order + [Param(ExposureTime, NotSet)] else order)
    ensures forall n :: n in p && n != ExposureTime ==> n in after && after[n] == p[n]
    ensures ExposureTime in after
    ensures after[ExposureTime] == if NotOff(hasEtm, p) then NotSet else p[ExposureTime]
  {
    TakeAllSnoc(before, order, Param(ExposureTime, NotSet));
    TakeAllTookOver(before, order);
    ResolvedTaken(before, order, order, p, TakeAll(before, order));
  }

  lemma BlankListShows(older: seq<Param>, node: Values, names: set<Name>)
    requires Lists(older, node) && forall n :: n in node ==> node[n] == NotSet
    ensures Shows(older, node, names) && forall x :: x in older ==> x.value == NotSet
  {
  }

  lemma ListedOnce(order: seq<Param>, p: Values)
    requires Lists(order, p)
    ensures DistinctNames(order)
  {
  }

  /** The first request can be put, conflicts with nothing, and is good when its values are. */
  lemma FirstRequestFits(hasEtm: bool, controls: map<Name, ControlInfo>, store: Values, node: Values, older: seq<Param>,
                         order: seq<Param>, p: Values, after: Values)
    requires ControlsOk(controls) && ExposureTime in controls && node == map n | n in controls :: NotSet
    requires Lists(older, node) && Lists(order, p) && p.Keys == controls.Keys && Exclusive(hasEtm, p) && SwitchTyped(hasEtm, p)
    requires HasValue(p, Switch(hasEtm)) && IsOff(hasEtm, p[Switch(hasEtm)]) && !HasValue(p, ExposureTime) ==>
               ExposureTime !in store
    requires after == TakeAll(node, Restored(hasEtm, store, order).0)
    ensures var ps := Restored(hasEtm, store, order).0;
            && DistinctNames(order) && Shows(older, node, controls.Keys) && TookOver(node, ps, after)
            && !Conflicts(hasEtm, older, ps)
            && (AllAccepted(controls, ps) <==> forall n :: n in p && p[n] != NotSet ==> Accepted(controls[n], p[n]))
    ensures forall n :: n in p && n != ExposureTime ==> n in after && after[n] == p[n]
    ensures ExposureTime in after && after[ExposureTime] == if NotOff(hasEtm, p) then NotSet else p[ExposureTime]
  {
    hide TookOver, TakeAll, Conflicts, Accepted, AllAccepted, Restored, NotOff, IsOff, Exclusive, Shows, Lists, DistinctNames;
    var ps := Restored(hasEtm, store, order).0;
    FirstRequest(hasEtm, store, order, p);
    BlankListShows(older, node, controls.Keys);
    ListedOnce(order, p);
    ResolvedNeverConflicts(hasEtm, store, older, order, p);
    TakeAllTookOver(node, ps);
    AcceptedList(controls, order, ps, p);
    NodeTakesResolved(hasEtm, node, order, p, after);
  }

  lemma SameKeys(hasEtm: bool, defaults: Values, overrides: Values, p: Values)
    requires Resolves(hasEtm, defaults, overrides, p)
    ensures p.Keys == defaults.Keys
  {
  }

  lemma OneStored(store: Values, defaults: Values)
    requires store == map[] || (ExposureTime in defaults && store == map[ExposureTime := defaults[ExposureTime]])
    ensures |store| <= 1 && store.Keys <= {ExposureTime}
  {
  }

  // --------------------------------------------------------------------- handler

  class Handler {
    const hasEtm: bool
    const controls: map<Name, ControlInfo>
    var store: Values
    var tmpStore: Values
    var controlValues: Batch
    var node: Values         // the node's parameters
    ghost var trace: seq<Happening>

    ghost predicate Valid()
      reads this
    {
      && ControlsOk(controls) && Switch(hasEtm) in controls && ExposureTime in controls
      && tmpStore == map[]
      && store.Keys <= {ExposureTime}
      && Exclusive(hasEtm, node)
      && FramesGotPending(trace) && controlValues == BatchAt(trace, |trace|)
      && RestoreCount(trace) + |store| <= 1
    }

    /** Before anything was declared, nothing is set. */
    constructor (hasEtm: bool, controls: map<Name, ControlInfo>)
      requires ControlsOk(controls) && Switch(hasEtm) in controls && ExposureTime in controls
      ensures Valid() && this.hasEtm == hasEtm && this.controls == controls
      ensures store == map[] && controlValues == map[] && trace == []
      ensures node == map n | n in controls :: NotSet
    {
      this.hasEtm, this.controls := hasEtm, controls;
      store, tmpStore, controlValues, trace := map[], map[], map[], [];
      node := map n | n in controls :: NotSet;
    }

    // --------------------------------------------------------------- declaration

    /** Defaults: auto exposure is assumed and preferred, and a displaced exposure time is
        stored. */
    method ResolveDefaults(defaults: Values) returns (p: Values)
      requires SwitchTyped(hasEtm, defaults)
      modifies `store
      ensures Exclusive(hasEtm, p) && SwitchTyped(hasEtm, p) && p.Keys == defaults.Keys
      ensures DefaultsResolved(hasEtm, defaults, old(store), p, store)
    {
      p := defaults;
      if Switch(hasEtm) in p && p[Switch(hasEtm)] == NotSet {
        p := p[Switch(hasEtm) := AutoValue(hasEtm)];
      }
      if ExposureConflict(hasEtm, p) {
        store := store[ExposureTime := p[ExposureTime]];
        p := p[ExposureTime := NotSet];
      }
    }

    /** Overrides: a given exposure time is preferred, and a stored one comes back when the
        overrides switch auto exposure off. */
    method ResolveOverrides(overridden: Values) returns (p: Values)
      requires SwitchTyped(hasEtm, overridden) && (ExposureTime in store ==> ExposureTime in overridden)
      modifies `store
      ensures Exclusive(hasEtm, p) && SwitchTyped(hasEtm, p) && p.Keys == overridden.Keys
      ensures OverridesResolved(hasEtm, overridden, old(store), p, store)
    {
      p := overridden;
      if ExposureConflict(hasEtm, p) {
        p := p[Switch(hasEtm) := ManualValue(hasEtm)];
      }
      if HasValue(p, Switch(hasEtm)) && p[Switch(hasEtm)] == ManualValue(hasEtm)
         && !HasValue(p, ExposureTime) && ExposureTime in store {
        p := p[ExposureTime := store[ExposureTime]];
        store := store - {ExposureTime};
      }
    }

    /** Declares the controls: their resolved defaults and overrides become the first
        request. The conflict check never refuses it; only the checks of the values can. Then
        the node has the resolved values, but for an exposure time beside a switch that is
        neither on nor off: that is unset. */
    method Declare(defaults: Values, overrides: Values) returns (resolved: Values, ok: bool)
      requires Valid() && store == map[] && trace == []
      requires defaults.Keys == controls.Keys && SwitchTyped(hasEtm, defaults) && SwitchTyped(hasEtm, overrides)
      requires node == map n | n in controls :: NotSet
      modifies this
      ensures Valid() && Exclusive(hasEtm, resolved) && Resolves(hasEtm, defaults, overrides, resolved)
      ensures ok <==> forall n :: n in resolved && resolved[n] != NotSet ==> Accepted(controls[n], resolved[n])
      ensures !ok ==> node == old(node) && controlValues == old(controlValues)
      ensures ok ==> forall n :: n in resolved && n != ExposureTime ==> n in node && node[n] == resolved[n]
      ensures ok ==>
                && ExposureTime in node
                && node[ExposureTime] == if NotOff(hasEtm, resolved) then NotSet else resolved[ExposureTime]
      ensures ok && (NotOff(hasEtm, resolved) ==> IsOn(hasEtm, resolved[Switch(hasEtm)])) ==>
                forall n :: n in resolved ==> n in node && node[n] == resolved[n]
    {
      hide Resolves, FramesGotPending, BatchAt, RestoreCount, Accepted, NotOff;
      resolved := Resolve(defaults, overrides);
      SameKeys(hasEtm, defaults, overrides, resolved);
      ok := SetResolved(resolved);
    }

    /** The first request, made of the resolved values. */
    method SetResolved(resolved: Values) returns (ok: bool)
      requires Valid() && node == map n | n in controls :: NotSet
      requires Exclusive(hasEtm, resolved) && SwitchTyped(hasEtm, resolved) && resolved.Keys == controls.Keys
      requires HasValue(resolved, Switch(hasEtm)) && IsOff(hasEtm, resolved[Switch(hasEtm)])
               && !HasValue(resolved, ExposureTime) ==>
                 ExposureTime !in store
      modifies this
      ensures Valid()
      ensures ok <==> forall n :: n in resolved && resolved[n] != NotSet ==> Accepted(controls[n], resolved[n])
      ensures !ok ==> node == old(node) && controlValues == old(controlValues)
      ensures ok ==> forall n :: n in resolved && n != ExposureTime ==> n in node && node[n] == resolved[n]
      ensures ok ==>
                && ExposureTime in node
                && node[ExposureTime] == if NotOff(hasEtm, resolved) then NotSet else resolved[ExposureTime]
    {
      hide Lists, Restored, TookOver, TakeAll, Conflicts, Accepted, AllAccepted, Shows, NotOff, Exclusive, DistinctNames;
      hide FramesGotPending, BatchAt, RestoreCount, HasValue, SwitchTyped, IsOff, Answer, PendingOf;
      var order := ListOf(resolved);
      var older := ListOf(node);
      var after := TakeAll(node, Restored(hasEtm, store, order).0);
      FirstRequestFits(hasEtm, controls, store, node, older, order, resolved, after);
      ok := SetParameters(order, older, after);
    }

    /** Defaults, then overrides, with their conflicts resolved. */
    method Resolve(defaults: Values, overrides: Values) returns (p: Values)
      requires Valid() && store == map[] && trace == []
      requires defaults.Keys == controls.Keys && SwitchTyped(hasEtm, defaults) && SwitchTyped(hasEtm, overrides)
      modifies `store
      ensures Valid() && Exclusive(hasEtm, p) && SwitchTyped(hasEtm, p) && Resolves(hasEtm, defaults, overrides, p)
      ensures store == if Displaced(hasEtm, defaults) && !BroughtBack(hasEtm, defaults, overrides)
                       then map[ExposureTime := defaults[ExposureTime]] else map[]
      ensures HasValue(p, Switch(hasEtm)) && IsOff(hasEtm, p[Switch(hasEtm)]) && !HasValue(p, ExposureTime) ==>
                ExposureTime !in store
    {
      hide Resolves, DefaultsResolved, OverridesResolved, ResolvedSwitch, BroughtBack, FramesGotPending, BatchAt, ControlsOk;
      assert RestoreCount(trace) == 0;
      var a := ResolveDefaults(defaults);
      ghost var kept := store;
      p := map n | n in a :: Override(overrides, n, a[n]);
      p := ResolveOverrides(p);
      StepsResolve(hasEtm, defaults, overrides, a, kept, p, store);
      OneStored(store, defaults);
    }

    // --------------------------------------------------------------- transaction

    method Restore(parameters: seq<Param>) returns (ps: seq<Param>)
      requires tmpStore == map[]
      modifies `tmpStore
      ensures (ps, tmpStore) == Restored(hasEtm, store, parameters)
    {
      ps := parameters;
      tmpStore := store;
      var mode := Find(ps, Switch(hasEtm));
      if mode.Some? {
        if IsOff(hasEtm, mode.value) {
          if ExposureTime in tmpStore && !IsSet(ps, ExposureTime) {
            ps := ps + [Param(ExposureTime, tmpStore[ExposureTime])];
            tmpStore := tmpStore - {ExposureTime};
          }
        } else {
          ps := ps + [Param(ExposureTime, NotSet)];
        }
      }
    }

    method StoreCommitOrRevert(commit: bool)
      modifies `store, `tmpStore
      ensures tmpStore == map[] && store == if commit then old(tmpStore) else old(store)
    {
      if commit {
        store := tmpStore;
      }
      tmpStore := map[];
    }

    /** A list is good when it does not conflict and every set control in it is accepted. */
    predicate Good(older: seq<Param>, ps: seq<Param>)
      requires ControlsOk(controls)
    {
      !Conflicts(hasEtm, older, ps) && AllAccepted(controls, ps)
    }

    method ValidateNewParameters(older: seq<Param>, ps: seq<Param>) returns (ok: bool)
      requires ControlsOk(controls)
      ensures ok == Good(older, ps)
    {
      var merged := Merge(older, ps);
      var mode := Find(merged, Switch(hasEtm));
      if mode.Some? && IsOn(hasEtm, mode.value) && IsSet(ps, ExposureTime) {
        return false;
      }
      ok := true;
      for i := 0 to |ps|
        invariant ok <==> forall k :: 0 <= k < i && IsControl(controls, ps[k]) ==> Accepted(controls[ps[k].name], ps[k].value)
      {
        if IsControl(controls, ps[i]) {
          var good := Check(controls[ps[i].name], ps[i].value);
          ok := ok && good;
        }
      }
    }

    method Check(info: ControlInfo, v: ParamValue) returns (ok: bool)
      requires InfoOk(info) && v != NotSet
      ensures ok == Accepted(info, v)
    {
      if TypeOfParam(v) != ExpectedType(info) {
        return false;
      }
      var converted := PvToCv(v, info.t);
      if converted.None? {
        return false;
      }
      var value := converted.value;
      if value.CvArray? && info.extent != DYNAMIC_EXTENT && |value.elems| != info.extent {
        return false;
      }
      var less := IsLess(value, info.lo);
      var greater := IsGreater(value, info.hi);
      return !less && !greater;
    }

    method OnSetValidate(older: seq<Param>, ps: seq<Param>) returns (ok: bool)
      requires ControlsOk(controls)
      modifies `store, `tmpStore
      ensures ok == Good(older, ps)
      ensures tmpStore == map[] && store == if ok then old(tmpStore) else old(store)
    {
      ok := ValidateNewParameters(older, ps);
      StoreCommitOrRevert(ok);
    }

    method PostSetApply(ps: seq<Param>)
      modifies `controlValues
      ensures controlValues == PendingOf(controls, ps)
    {
      controlValues := map[];
      for i := 0 to |ps|
        invariant controlValues == PendingOf(controls, ps[..i])
      {
        assert ps[..i + 1][..i] == ps[..i];
        if IsControl(controls, ps[i]) {
          var value := PvToCv(ps[i].value, controls[ps[i].name].t);
          if value.Some? {
            controlValues := controlValues[ps[i].name := value.value];
          }
        }
      }
      assert ps[..|ps|] == ps;
    }

    /** One atomic request through the three callbacks. A refused one leaves everything as it
        was; an accepted one leaves as pending controls exactly its set controls. */
    method SetParameters(request: seq<Param>, older: seq<Param>, after: Values) returns (ok: bool)
      requires Valid() && DistinctNames(request) && Shows(older, node, controls.Keys)
      requires TookOver(node, Restored(hasEtm, store, request).0, after)
      modifies this
      ensures Valid()
      ensures ok == Good(older, old(Restored(hasEtm, store, request)).0)
      ensures !ok ==> store == old(store) && controlValues == old(controlValues) && node == old(node)
      ensures ok ==>
                && node == after
                && store == old(Restored(hasEtm, store, request)).1
                && controlValues == PendingOf(controls, old(Restored(hasEtm, store, request)).0)
      ensures trace == old(trace) + [if ok then Took(controlValues, store != old(store)) else Refused]
      ensures var q := Request(request, older, after, AllAccepted(controls, old(Restored(hasEtm, store, request)).0));
              Session(store, node) == Answer(hasEtm, old(Session(store, node)), q)
    {
      ok := Callbacks(request, older, after);
      StoreShrinks(hasEtm, old(store), request);
      Record(if ok then Took(controlValues, store != old(store)) else Refused);
    }

    /** The three callbacks, with the node taking over the list between the last two. */
    method Callbacks(request: seq<Param>, older: seq<Param>, after: Values) returns (ok: bool)
      requires ControlsOk(controls) && Switch(hasEtm) in controls && tmpStore == map[] && Exclusive(hasEtm, node)
      requires DistinctNames(request) && Shows(older, node, controls.Keys)
      requires TookOver(node, Restored(hasEtm, store, request).0, after)
      modifies `store, `tmpStore, `controlValues, `node
      ensures tmpStore == map[] && Exclusive(hasEtm, node)
      ensures ok == Good(older, old(Restored(hasEtm, store, request)).0)
      ensures !ok ==> store == old(store) && controlValues == old(controlValues) && node == old(node)
      ensures ok ==>
                && node == after
                && store == old(Restored(hasEtm, store, request)).1
                && controlValues == PendingOf(controls, old(Restored(hasEtm, store, request)).0)
    {
      var ps := Restore(request);
      ok := OnSetValidate(older, ps);
      if ok {
        RequestKeepsExclusion(hasEtm, old(store), node, older, request, after, controls.Keys);
        node := after;
        PostSetApply(ps);
      }
    }

    ghost method Record(h: Happening)
      requires FramesGotPending(trace) && (h.Frame? ==> h.got == BatchAt(trace, |trace|))
      modifies `trace
      ensures trace == old(trace) + [h] && FramesGotPending(trace)
      ensures BatchAt(trace, |trace|)
           == match h case Took(b, _) => b case Refused => BatchAt(old(trace), |old(trace)|) case Frame(_) => map[]
      ensures RestoreCount(trace) == RestoreCount(old(trace)) + (match h case Took(_, true) => 1 case _ => 0)
    {
      TraceGrows(trace, h);
      BatchAfter(trace, h);
      RestoreCountAfter(trace, h);
      trace := trace + [h];
    }

    /** A frame takes the pending controls; they override those of its own request. */
    method MoveControlValues(request: Batch) returns (merged: Batch)
      requires Valid()
      modifies `controlValues, `trace
      ensures Valid() && controlValues == map[] && merged == request + old(controlValues)
      ensures trace == old(trace) + [Frame(old(controlValues))]
    {
      merged := request + controlValues;
      Record(Frame(controlValues));
      controlValues := map[];
    }
  }

  /** Restoring takes at most the stored exposure time out of the store. */
  lemma StoreShrinks(hasEtm: bool, store: Values, request: seq<Param>)
    requires store.Keys <= {ExposureTime}
    ensures var s := Restored(hasEtm, store, request).1;
            s == store || (s == map[] && store.Keys == {ExposureTime} && |store| == 1)
  {
    var s := Restored(hasEtm, store, request).1;
    if s != store {
      assert store.Keys == {ExposureTime};
      assert |store.Keys| == 1;
    }
  }
}
