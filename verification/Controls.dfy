/** Camera controls: converting between control values and parameter values, clamping to
    bounds, and the comparisons that validation uses. */
module Controls {
  import opened Basics

  const TWO_TO_31 := 0x8000_0000
  const TWO_TO_63 := 0x8000_0000_0000_0000
  type i32 = x: int | -0x8000_0000 <= x < 0x8000_0000
  type i64 = x: int | -0x8000_0000_0000_0000 <= x < 0x8000_0000_0000_0000

  /** Conversion to a signed 32-bit number keeps the low bits. */
  function ToI32(x: int): i32 {
    (x + TWO_TO_31) % TWO_TO_32 - TWO_TO_31
  }

  function ToU32(x: int): u32 {
    x % TWO_TO_32
  }

  datatype Rectangle = Rectangle(x: i32, y: i32, width: u32, height: u32)

  datatype ControlType = TypeBool | TypeInteger32 | TypeInteger64 | TypeRectangle

  datatype ControlValue =
    | CvNone
    | CvBool(b: bool)
    | CvScalar(wide: bool, value: i64)         // 64-bit if wide, else 32-bit
    | CvArray(wideElems: bool, elems: seq<i64>)
    | CvRectangle(r: Rectangle)

  datatype ParamValue =
    | NotSet
    | PvBool(pb: bool)
    | PvInteger(n: i64)
    | PvIntegerArray(ns: seq<i64>)
    | PvOther(kind: nat)

  predicate InWidth(wide: bool, x: i64) {
    wide || -TWO_TO_31 <= x < TWO_TO_31
  }

  /** The numbers of a control value have its width. */
  predicate WellSized(v: ControlValue) {
    match v
    case CvScalar(wide, x) => InWidth(wide, x)
    case CvArray(wide, xs) => forall i :: 0 <= i < |xs| ==> InWidth(wide, xs[i])
    case _ => true
  }

  function ToWidth(wide: bool, x: i64): i64 {
    if wide then x else ToI32(x)
  }

  function AllToWidth(wide: bool, xs: seq<i64>): (ys: seq<i64>)
    ensures |ys| == |xs| && forall i :: 0 <= i < |xs| ==> ys[i] == ToWidth(wide, xs[i])
  {
    if xs == [] then [] else [ToWidth(wide, xs[0])] + AllToWidth(wide, xs[1..])
  }

  // ---------------------------------------------------------------- conversion

  /** Control to parameter: one element becomes a scalar and no element nothing. */
  function CvToPv(v: ControlValue): ParamValue {
    match v
    case CvNone => NotSet
    case CvBool(b) => PvBool(b)
    case CvScalar(_, x) => PvInteger(x)
    case CvArray(_, xs) => if |xs| == 0 then NotSet else if |xs| == 1 then PvInteger(xs[0]) else PvIntegerArray(xs)
    case CvRectangle(r) => PvIntegerArray([r.x, r.y, r.width, r.height])
  }

  /** Parameter to control of a given type; None stands for the invalid conversion error. */
  function PvToCv(p: ParamValue, t: ControlType): Option<ControlValue> {
    match p
    case NotSet => Some(CvNone)
    case PvBool(b) => Some(CvBool(b))
    case PvInteger(n) => (
      match t
      case TypeBool => Some(CvBool(n != 0))
      case TypeInteger32 => Some(CvScalar(false, ToI32(n)))
      case TypeInteger64 => Some(CvScalar(true, n))
      case TypeRectangle => Some(CvNone)
    )
    case PvIntegerArray(ns) => (
      match t
      case TypeBool => None
      case TypeInteger32 => Some(CvArray(false, AllToWidth(false, ns)))
      case TypeInteger64 => Some(CvArray(true, ns))
      case TypeRectangle =>
        if |ns| != 4 then None
        else Some(CvRectangle(Rectangle(ToI32(ns[0]), ToI32(ns[1]), ToU32(ns[2]), ToU32(ns[3]))))
    )
    case PvOther(_) => None
  }

  function TypeOf(v: ControlValue): Option<ControlType> {
    match v
    case CvNone => None
    case CvBool(_) => Some(TypeBool)
    case CvScalar(wide, _) => Some(if wide then TypeInteger64 else TypeInteger32)
    case CvArray(wide, _) => Some(if wide then TypeInteger64 else TypeInteger32)
    case CvRectangle(_) => Some(TypeRectangle)
  }

  /** A control value comes back from its parameter unless it is an array of fewer than two
      elements, which turns into a scalar or nothing. */
  lemma ConversionRoundTrip(v: ControlValue, t: ControlType)
    requires WellSized(v) && TypeOf(v) == Some(t)
    ensures PvToCv(CvToPv(v), t) == Some(v) <==> !(v.CvArray? && |v.elems| < 2)
  {
    hide ToI32, ToU32;
    match v
    case CvScalar(wide, x) =>
      InSigned(x);
    case CvArray(wide, xs) =>
      if |xs| >= 2 && !wide {
        forall i | 0 <= i < |xs|
          ensures ToWidth(false, xs[i]) == xs[i]
        {
          InSigned(xs[i]);
        }
        assert AllToWidth(false, xs) == xs;
      }
    case CvRectangle(r) =>
      InSigned(r.x);
      InSigned(r.y);
      InRange(r.width);
      InRange(r.height);
    case _ =>
  }

  lemma InSigned(x: i64)
    ensures InWidth(false, x) ==> ToI32(x) == x
  {
  }

  /** The conversions by value: numbers stay themselves, rectangles are their four numbers in
      the order x, y, width, height. */
  lemma ControlsBecome(b: bool, wide: bool, x: i64, xs: seq<i64>, r: Rectangle)
    ensures CvToPv(CvNone) == NotSet && CvToPv(CvBool(b)) == PvBool(b) && CvToPv(CvScalar(wide, x)) == PvInteger(x)
    ensures CvToPv(CvArray(wide, xs)) ==
            if xs == [] then NotSet else if |xs| == 1 then PvInteger(xs[0]) else PvIntegerArray(xs)
    ensures CvToPv(CvRectangle(r)) == PvIntegerArray([r.x, r.y, r.width, r.height])
  {
  }

  /** And back: a number makes a truth value by not being 0, and wraps into 32 bits. */
  lemma ParametersBecome(b: bool, n: i64, ns: seq<i64>, kind: nat, t: ControlType)
    ensures PvToCv(NotSet, t) == Some(CvNone) && PvToCv(PvBool(b), t) == Some(CvBool(b)) && PvToCv(PvOther(kind), t) == None
    ensures PvToCv(PvInteger(n), TypeBool) == Some(CvBool(n != 0)) && PvToCv(PvInteger(n), TypeRectangle) == Some(CvNone)
    ensures PvToCv(PvInteger(n), TypeInteger64) == Some(CvScalar(true, n))
    ensures var c := PvToCv(PvInteger(n), TypeInteger32);
            && c.Some? && c.value.CvScalar? && !c.value.wide && -2147483648 <= c.value.value < 2147483648
            && (n - c.value.value as int) % 4294967296 == 0
    ensures PvToCv(PvIntegerArray(ns), TypeBool) == None
    ensures PvToCv(PvIntegerArray(ns), TypeInteger64) == Some(CvArray(true, ns))
    ensures (forall i :: 0 <= i < |ns| ==> -2147483648 <= ns[i] < 2147483648) ==>
              PvToCv(PvIntegerArray(ns), TypeInteger32) == Some(CvArray(false, ns))
    ensures |ns| != 4 ==> PvToCv(PvIntegerArray(ns), TypeRectangle) == None
    ensures |ns| == 4 && (forall i :: 0 <= i < 4 ==> 0 <= ns[i] < 2147483648) ==>
              PvToCv(PvIntegerArray(ns), TypeRectangle) == Some(CvRectangle(Rectangle(ns[0], ns[1], ns[2], ns[3])))
  {
    WrapsInto32(n);
    forall i | 0 <= i < |ns|
      ensures -2147483648 <= ns[i] < 2147483648 ==> ToI32(ns[i]) == ns[i]
    {
      InSigned(ns[i]);
    }
    if |ns| == 4 && (forall i :: 0 <= i < 4 ==> 0 <= ns[i] < 2147483648) {
      InRange(ns[2]);
      InRange(ns[3]);
    }
    if forall i :: 0 <= i < |ns| ==> -2147483648 <= ns[i] < 2147483648 {
      assert AllToWidth(false, ns) == ns;
    }
    hide ToI32, ToU32;
  }

  lemma WrapsInto32(n: i64)
    ensures var x: int := ToI32(n); -2147483648 <= x < 2147483648 && (n - x) % 4294967296 == 0
  {
    var x: int := ToI32(n);
    assert n - x == 4294967296 * ((n + 2147483648) / 4294967296);
  }

  // ------------------------------------------------------------------ clamping

  function Clamp(x: int, lo: int, hi: int): (r: int)
    requires lo <= hi
    ensures lo <= r <= hi && (lo <= x <= hi ==> r == x)
  {
    if x < lo then lo else if x > hi then hi else x
  }

  /** No number between the bounds is nearer. */
  lemma ClampIsNearest(x: int, lo: int, hi: int, y: int)
    requires lo <= y <= hi
    ensures var r := Clamp(x, lo, hi);
            && lo <= r <= hi && (x <= lo ==> r == lo) && (x >= hi ==> r == hi)
            && (if r < x then x - r else r - x) <= (if y < x then x - y else y - x)
  {
  }

  /** The bound for element i: the same for all, or one each. */
  function BoundAt(b: ControlValue, i: nat): i64
    requires b.CvScalar? || (b.CvArray? && i < |b.elems|)
  {
    if b.CvScalar? then b.value else b.elems[i]
  }

  predicate BoundsFor(n: nat, lo: ControlValue, hi: ControlValue) {
    && ((lo.CvScalar? && hi.CvScalar?) || (lo.CvArray? && hi.CvArray? && |lo.elems| == |hi.elems| == n))
    && forall i :: 0 <= i < n ==> BoundAt(lo, i) <= BoundAt(hi, i)
  }

  /** Clamps every element between its bounds. */
  method ClampArray(v: seq<i64>, lo: ControlValue, hi: ControlValue) returns (r: seq<i64>)
    requires BoundsFor(|v|, lo, hi)
    ensures |r| == |v| && forall i :: 0 <= i < |v| ==> r[i] == Clamp(v[i], BoundAt(lo, i), BoundAt(hi, i))
  {
    r := [];
    var i := 0;
    if lo.CvArray? {
      while i < |v|
        invariant 0 <= i == |r| <= |v|
        invariant forall k :: 0 <= k < i ==> r[k] == Clamp(v[k], BoundAt(lo, k), BoundAt(hi, k))
      {
        assert BoundAt(lo, i) <= BoundAt(hi, i);
        r := r + [Clamp(v[i], lo.elems[i], hi.elems[i])];
        i := i + 1;
      }
    } else {
      while i < |v|
        invariant 0 <= i == |r| <= |v|
        invariant forall k :: 0 <= k < i ==> r[k] == Clamp(v[k], BoundAt(lo, k), BoundAt(hi, k))
      {
        assert BoundAt(lo, i) <= BoundAt(hi, i);
        r := r + [Clamp(v[i], lo.value, hi.value)];
        i := i + 1;
      }
    }
  }

  /** An edge of a rectangle: a signed and an unsigned number add up to an unsigned one. */
  function Edge(at: i32, extent: u32): u32 {
    ToU32(at + extent)
  }

  /** The clamp demands ordered bounds, the far edges being compared as unsigned numbers. */
  predicate OrderedBounds(lo: Rectangle, hi: Rectangle) {
    && lo.x <= hi.x && lo.y <= hi.y
    && Edge(lo.x, lo.width) <= Edge(hi.x, hi.width)
    && Edge(lo.y, lo.height) <= Edge(hi.y, hi.height)
  }

  function ClampExtent(at: i32, extent: u32, lo: u32, hi: u32): u32
    requires lo <= hi
  {
    ToU32(Clamp(Edge(at, extent), lo, hi) - at)
  }

  function ClampRectangle(v: Rectangle, lo: Rectangle, hi: Rectangle): Rectangle
    requires OrderedBounds(lo, hi)
  {
    var x, y := Clamp(v.x, lo.x, hi.x), Clamp(v.y, lo.y, hi.y);
    Rectangle(x, y,
              ClampExtent(x, v.width, Edge(lo.x, lo.width), Edge(hi.x, hi.width)),
              ClampExtent(y, v.height, Edge(lo.y, lo.height), Edge(hi.y, hi.height)))
  }

  // ---------------------------------------------------------------- comparison

  /** "Less" means strictly inside, "greater" strictly around. */
  predicate RectangleLess(a: Rectangle, b: Rectangle) {
    a.x > b.x && a.y > b.y && Edge(a.x, a.width) < Edge(b.x, b.width) && Edge(a.y, a.height) < Edge(b.y, b.height)
  }

  predicate RectangleGreater(a: Rectangle, b: Rectangle) {
    a.x < b.x && a.y < b.y && Edge(a.x, a.width) > Edge(b.x, b.width) && Edge(a.y, a.height) > Edge(b.y, b.height)
  }

  /** A value and a bound that the operators can compare. */
  predicate Comparable(a: ControlValue, b: ControlValue) {
    match (a, b)
    case (CvNone, _) => true
    case (CvBool(_), CvBool(_)) => true
    case (CvScalar(w, _), CvScalar(w', _)) => w == w'
    case (CvScalar(w, _), CvArray(w', _)) => w == w'
    case (CvArray(w, _), CvScalar(w', _)) => w == w'
    case (CvArray(w, xs), CvArray(w', ys)) => w == w' && |xs| <= |ys|
    case (CvRectangle(_), CvRectangle(_)) => true
    case _ => false
  }

  /** Some element is below its bound. */
  predicate Less(a: ControlValue, b: ControlValue)
    requires Comparable(a, b)
  {
    match (a, b)
    case (CvBool(p), CvBool(q)) => !p && q
    case (CvScalar(_, x), CvScalar(_, y)) => x < y
    case (CvScalar(_, x), CvArray(_, ys)) => exists i :: 0 <= i < |ys| && x < ys[i]
    case (CvArray(_, xs), _) => exists i :: 0 <= i < |xs| && xs[i] < BoundAt(b, i)
    case (CvRectangle(r), CvRectangle(s)) => RectangleLess(r, s)
    case _ => false
  }

  predicate Greater(a: ControlValue, b: ControlValue)
    requires Comparable(a, b)
  {
    match (a, b)
    case (CvBool(p), CvBool(q)) => p && !q
    case (CvScalar(_, x), CvScalar(_, y)) => x > y
    case (CvScalar(_, x), CvArray(_, ys)) => exists i :: 0 <= i < |ys| && x > ys[i]
    case (CvArray(_, xs), _) => exists i :: 0 <= i < |xs| && xs[i] > BoundAt(b, i)
    case (CvRectangle(r), CvRectangle(s)) => RectangleGreater(r, s)
    case _ => false
  }

  /** The comparisons by value. Scalars and truth values compare as such; an array is less than
      a bound when some element is, and a scalar less than an array when it is less than some
      element. */
  lemma ScalarsCompare(wide: bool, x: i64, y: i64, p: bool, q: bool, ys: seq<i64>)
    ensures Less(CvScalar(wide, x), CvScalar(wide, y)) == (x < y) && Greater(CvScalar(wide, x), CvScalar(wide, y)) == (x > y)
    ensures Less(CvBool(p), CvBool(q)) == (!p && q) && Greater(CvBool(p), CvBool(q)) == (p && !q)
    ensures Less(CvScalar(wide, x), CvArray(wide, ys)) <==> exists i :: 0 <= i < |ys| && x < ys[i]
    ensures Greater(CvScalar(wide, x), CvArray(wide, ys)) <==> exists i :: 0 <= i < |ys| && x > ys[i]
  {
  }

  lemma ArraysCompare(wide: bool, xs: seq<i64>, y: i64, ys: seq<i64>)
    ensures Less(CvArray(wide, xs), CvScalar(wide, y)) <==> exists i :: 0 <= i < |xs| && xs[i] < y
    ensures Greater(CvArray(wide, xs), CvScalar(wide, y)) <==> exists i :: 0 <= i < |xs| && xs[i] > y
    ensures |xs| <= |ys| ==> (Less(CvArray(wide, xs), CvArray(wide, ys)) <==> exists i :: 0 <= i < |xs| && xs[i] < ys[i])
    ensures |xs| <= |ys| ==> (Greater(CvArray(wide, xs), CvArray(wide, ys)) <==> exists i :: 0 <= i < |xs| && xs[i] > ys[i])
  {
  }

  lemma EdgeIsSum(at: i32, extent: u32)
    requires 0 <= at + extent < 4294967296
    ensures Edge(at, extent) == at + extent
  {
  }

  /** A rectangle is less than one that it lies strictly inside. */
  lemma RectanglesCompare(r: Rectangle, b: Rectangle)
    requires 0 <= r.x + r.width < 4294967296 && 0 <= r.y + r.height < 4294967296
    requires 0 <= b.x + b.width < 4294967296 && 0 <= b.y + b.height < 4294967296
    ensures Less(CvRectangle(r), CvRectangle(b)) <==>
            r.x > b.x && r.y > b.y && r.x + r.width < b.x + b.width && r.y + r.height < b.y + b.height
    ensures Greater(CvRectangle(r), CvRectangle(b)) <==>
            r.x < b.x && r.y < b.y && r.x + r.width > b.x + b.width && r.y + r.height > b.y + b.height
  {
    hide Edge;
    EdgeIsSum(r.x, r.width);
    EdgeIsSum(r.y, r.height);
    EdgeIsSum(b.x, b.width);
    EdgeIsSum(b.y, b.height);
  }

  /** The element loop behind the array comparisons. */
  method AnyBelow(xs: seq<i64>, b: ControlValue) returns (r: bool)
    requires b.CvScalar? || (b.CvArray? && |xs| <= |b.elems|)
    ensures r <==> exists i :: 0 <= i < |xs| && xs[i] < BoundAt(b, i)
  {
    var i := 0;
    while i < |xs|
      invariant 0 <= i <= |xs| && forall k :: 0 <= k < i ==> xs[k] >= BoundAt(b, k)
    {
      if xs[i] < BoundAt(b, i) {
        return true;
      }
      i := i + 1;
    }
    return false;
  }

  method AnyAbove(xs: seq<i64>, b: ControlValue) returns (r: bool)
    requires b.CvScalar? || (b.CvArray? && |xs| <= |b.elems|)
    ensures r <==> exists i :: 0 <= i < |xs| && xs[i] > BoundAt(b, i)
  {
    var i := 0;
    while i < |xs|
      invariant 0 <= i <= |xs| && forall k :: 0 <= k < i ==> xs[k] <= BoundAt(b, k)
    {
      if xs[i] > BoundAt(b, i) {
        return true;
      }
      i := i + 1;
    }
    return false;
  }

  method IsLess(a: ControlValue, b: ControlValue) returns (r: bool)
    requires Comparable(a, b)
    ensures r == Less(a, b)
  {
    if a.CvArray? {
      r := AnyBelow(a.elems, b);
    } else if a.CvScalar? && b.CvArray? {
      r := AnyAbove(b.elems, a);
    } else {
      r := match (a, b)
           case (CvBool(p), CvBool(q)) => !p && q
           case (CvScalar(_, x), CvScalar(_, y)) => x < y
           case (CvRectangle(x), CvRectangle(y)) => RectangleLess(x, y)
           case _ => false;
    }
  }

  method IsGreater(a: ControlValue, b: ControlValue) returns (r: bool)
    requires Comparable(a, b)
    ensures r == Greater(a, b)
  {
    if a.CvArray? {
      r := AnyAbove(a.elems, b);
    } else if a.CvScalar? && b.CvArray? {
      r := AnyBelow(b.elems, a);
    } else {
      r := match (a, b)
           case (CvBool(p), CvBool(q)) => p && !q
           case (CvScalar(_, x), CvScalar(_, y)) => x > y
           case (CvRectangle(x), CvRectangle(y)) => RectangleGreater(x, y)
           case _ => false;
    }
  }

  // ----------------------------------------------------------------- agreement

  /** A value with bounds of its type that are in order. */
  predicate Bounded(v: ControlValue, lo: ControlValue, hi: ControlValue) {
    match v
    case CvScalar(w, _) => lo.CvScalar? && hi.CvScalar? && lo.wide == hi.wide == w && lo.value <= hi.value
    case CvArray(w, xs) =>
      && BoundsFor(|xs|, lo, hi)
      && (if lo.CvScalar? then lo.wide == hi.wide == w else lo.wideElems == hi.wideElems == w)
    case CvRectangle(_) => lo.CvRectangle? && hi.CvRectangle? && OrderedBounds(lo.r, hi.r)
    case _ => false
  }

  /** The clamped value. */
  ghost predicate IsClamped(c: ControlValue, v: ControlValue, lo: ControlValue, hi: ControlValue)
    requires Bounded(v, lo, hi)
  {
    match v
    case CvScalar(w, x) => c == CvScalar(w, Clamp(x, lo.value, hi.value))
    case CvArray(w, xs) =>
      && c.CvArray? && c.wideElems == w && |c.elems| == |xs|
      && forall i :: 0 <= i < |xs| ==> c.elems[i] == Clamp(xs[i], BoundAt(lo, i), BoundAt(hi, i))
    case CvRectangle(r) => c == CvRectangle(ClampRectangle(r, lo.r, hi.r))
  }

  /** The clamped value by its numbers. */
  lemma ClampedMeans(v: ControlValue, lo: ControlValue, hi: ControlValue, c: ControlValue)
    requires Bounded(v, lo, hi) && IsClamped(c, v, lo, hi)
    ensures v.CvScalar? ==> lo.CvScalar? && hi.CvScalar? && c == CvScalar(v.wide, Clamp(v.value, lo.value, hi.value))
    ensures v.CvArray? ==> c.CvArray? && c.wideElems == v.wideElems && |c.elems| == |v.elems|
    ensures v.CvArray? && lo.CvScalar? ==>
              hi.CvScalar? && forall i :: 0 <= i < |v.elems| ==>
                c.elems[i] == if v.elems[i] < lo.value then lo.value else if v.elems[i] > hi.value then hi.value else v.elems[i]
    ensures v.CvArray? && lo.CvArray? ==>
              hi.CvArray? && |lo.elems| == |hi.elems| == |v.elems| && forall i :: 0 <= i < |v.elems| ==>
                lo.elems[i] <= hi.elems[i] && c.elems[i] == Clamp(v.elems[i], lo.elems[i], hi.elems[i])
    ensures v.CvRectangle? ==> lo.CvRectangle? && hi.CvRectangle? && OrderedBounds(lo.r, hi.r)
                               && c == CvRectangle(ClampRectangle(v.r, lo.r, hi.r))
  {
    if v.CvArray? && lo.CvScalar? {
      forall i | 0 <= i < |v.elems|
        ensures c.elems[i] == if v.elems[i] < lo.value then lo.value else if v.elems[i] > hi.value then hi.value else v.elems[i]
      {
        assert BoundAt(lo, i) <= BoundAt(hi, i);
      }
    } else if v.CvArray? {
      forall i | 0 <= i < |v.elems|
        ensures lo.elems[i] <= hi.elems[i] && c.elems[i] == Clamp(v.elems[i], lo.elems[i], hi.elems[i])
      {
        assert BoundAt(lo, i) <= BoundAt(hi, i);
      }
    }
  }

  method ClampValue(v: ControlValue, lo: ControlValue, hi: ControlValue) returns (c: ControlValue)
    requires Bounded(v, lo, hi)
    ensures IsClamped(c, v, lo, hi)
  {
    match v {
      case CvScalar(w, x) => c := CvScalar(w, Clamp(x, lo.value, hi.value));
      case CvArray(w, xs) =>
        var r := ClampArray(xs, lo, hi);
        c := CvArray(w, r);
      case CvRectangle(r) => c := CvRectangle(ClampRectangle(r, lo.r, hi.r));
    }
  }

  /** Subtracting a number mod 2^32 and adding it again. */
  lemma EdgeOfExtent(at: i32, edge: u32)
    ensures Edge(at, ToU32(edge - at)) == edge
  {
    if edge - at >= TWO_TO_32 {
      assert ToU32(edge - at) == edge - at - TWO_TO_32;
    } else if edge - at < 0 {
      assert ToU32(edge - at) == edge - at + TWO_TO_32;
    }
  }

  /** A clamped rectangle comes back from its parameter, is not inside the lower bound and
      not around the upper one. */
  lemma {:induction false} ClampedRectangleIsValid(r: Rectangle, lo: Rectangle, hi: Rectangle)
    requires OrderedBounds(lo, hi)
    ensures var c := ClampRectangle(r, lo, hi);
            && PvToCv(CvToPv(CvRectangle(c)), TypeRectangle) == Some(CvRectangle(c))
            && !RectangleLess(c, lo) && !RectangleGreater(c, hi)
  {
    hide Edge, ToU32, ToI32;
    var x, y := Clamp(r.x, lo.x, hi.x), Clamp(r.y, lo.y, hi.y);
    EdgeOfExtent(x, Clamp(Edge(x, r.width), Edge(lo.x, lo.width), Edge(hi.x, hi.width)));
    EdgeOfExtent(y, Clamp(Edge(y, r.height), Edge(lo.y, lo.height), Edge(hi.y, hi.height)));
    ConversionRoundTrip(CvRectangle(ClampRectangle(r, lo, hi)), TypeRectangle);
  }

  lemma {:induction false} ClampedNumbersAreValid(v: ControlValue, lo: ControlValue, hi: ControlValue,
                                                  c: ControlValue, t: ControlType)
    requires (v.CvScalar? || (v.CvArray? && |v.elems| >= 2)) && TypeOf(v) == Some(t)
    requires Bounded(v, lo, hi) && WellSized(v) && WellSized(lo) && WellSized(hi) && IsClamped(c, v, lo, hi)
    ensures WellSized(c) && PvToCv(CvToPv(c), t) == Some(c)
    ensures Comparable(c, lo) && Comparable(c, hi) && !Less(c, lo) && !Greater(c, hi)
  {
    if v.CvArray? {
      assert forall i :: 0 <= i < |v.elems| ==> InWidth(v.wideElems, BoundAt(lo, i)) && InWidth(v.wideElems, BoundAt(hi, i));
    }
    ConversionRoundTrip(c, t);
  }

  /** Clamping and validation agree: what was clamped is well sized, survives the way into a
      parameter and back, and is neither below the lower nor above the upper bound. */
  lemma {:induction false} ClampedIsValid(v: ControlValue, lo: ControlValue, hi: ControlValue, c: ControlValue,
                                          t: ControlType)
    requires Bounded(v, lo, hi) && WellSized(v) && WellSized(lo) && WellSized(hi) && TypeOf(v) == Some(t)
    requires v.CvArray? ==> |v.elems| >= 2
    requires IsClamped(c, v, lo, hi)
    ensures WellSized(c) && PvToCv(CvToPv(c), t) == Some(c)
    ensures Comparable(c, lo) && Comparable(c, hi) && !Less(c, lo) && !Greater(c, hi)
  {
    if v.CvRectangle? {
      ClampedRectangleIsValid(v.r, lo.r, hi.r);
    } else {
      ClampedNumbersAreValid(v, lo, hi, c, t);
    }
  }

  /** No edge of a rectangle runs over. */
  predicate Plain(at: i32, extent: u32) {
    0 <= at + extent < TWO_TO_32
  }

  /** With plain edges the clamped extent is the true distance: it is not negative, nothing
      wraps, and the far edge lies between those of the bounds. */
  lemma ExtentIsTrue(at: i32, extent: u32, loAt: i32, loExtent: u32, hiAt: i32, hiExtent: u32)
    requires loAt <= at <= hiAt && Plain(at, extent) && Plain(loAt, loExtent) && Plain(hiAt, hiExtent)
    requires loAt + loExtent <= hiAt + hiExtent
    ensures var e := ClampExtent(at, extent, Edge(loAt, loExtent), Edge(hiAt, hiExtent));
            loAt + loExtent <= at + e <= hiAt + hiExtent
  {
    var far := Clamp(at + extent, loAt + loExtent, hiAt + hiExtent);
    InRange(at + extent);
    InRange(loAt + loExtent);
    InRange(hiAt + hiExtent);
    InRange(far - at);
    hide ToU32;
  }

  /** With plain edges the clamped extent ends exactly at the clamped far edge. */
  lemma ExtentClamped(at: i32, extent: u32, loAt: i32, loExtent: u32, hiAt: i32, hiExtent: u32)
    requires loAt <= at <= hiAt && loAt + loExtent <= hiAt + hiExtent
    requires 0 <= at + extent < 4294967296 && 0 <= loAt + loExtent && hiAt + hiExtent < 4294967296
    ensures Edge(loAt, loExtent) <= Edge(hiAt, hiExtent)
    ensures at + ClampExtent(at, extent, Edge(loAt, loExtent), Edge(hiAt, hiExtent))
         == Clamp(at + extent, loAt + loExtent, hiAt + hiExtent)
  {
    var far := Clamp(at + extent, loAt + loExtent, hiAt + hiExtent);
    InRange(at + extent);
    InRange(loAt + loExtent);
    InRange(hiAt + hiExtent);
    InRange(far - at);
    hide ToU32;
  }

  /** A clamped rectangle: its origin is clamped, and each far edge, as it lies from the clamped
      origin, is clamped between those of the bounds. So one that lies between them stays. */
  lemma RectangleClamped(v: Rectangle, lo: Rectangle, hi: Rectangle)
    requires OrderedBounds(lo, hi)
    requires 0 <= lo.x + lo.width <= hi.x + hi.width < 4294967296 && 0 <= lo.y + lo.height <= hi.y + hi.height < 4294967296
    requires 0 <= Clamp(v.x, lo.x, hi.x) + v.width < 4294967296 && 0 <= Clamp(v.y, lo.y, hi.y) + v.height < 4294967296
    ensures var c := ClampRectangle(v, lo, hi);
            && c.x == Clamp(v.x, lo.x, hi.x) && c.y == Clamp(v.y, lo.y, hi.y)
            && c.x + c.width == Clamp(c.x + v.width, lo.x + lo.width, hi.x + hi.width)
            && c.y + c.height == Clamp(c.y + v.height, lo.y + lo.height, hi.y + hi.height)
  {
    hide Edge, ClampExtent;
    ExtentClamped(Clamp(v.x, lo.x, hi.x), v.width, lo.x, lo.width, hi.x, hi.width);
    ExtentClamped(Clamp(v.y, lo.y, hi.y), v.height, lo.y, lo.height, hi.y, hi.height);
  }

  lemma InRange(x: int)
    requires 0 <= x < TWO_TO_32
    ensures ToU32(x) == x
  {
  }

  /** An array of one element does not come back as an array, so its default is refused. */
  lemma SingletonLost(x: i32)
    ensures PvToCv(CvToPv(CvArray(false, [x])), TypeInteger32) == Some(CvScalar(false, x))
  {
  }
}
