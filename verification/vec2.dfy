/** The two-component vector used for every position and size
    (src/vec2.rs). */
module Vectors {
  import opened Common

  datatype Vec2<T> = Vec2(x: T, y: T)

  /** `Vec2::swap`: exchanges the two components. */
  function Swap<T>(v: Vec2<T>): (r: Vec2<T>)
    ensures r.x == v.y && r.y == v.x
  {
    Vec2(v.y, v.x)
  }

  /** `Vec2::swapped`: the in-place swap, written as a method updating its
      argument's value. */
  method Swapped<T>(v: Vec2<T>) returns (v': Vec2<T>)
    ensures v' == Swap(v)
  {
    var t := v.x;
    v' := Vec2(v.y, t);
  }

  lemma SwapInvolution<T>(v: Vec2<T>)
    ensures Swap(Swap(v)) == v
  {
  }

  /** `Vec2::map`: applies `f` to each component on its own. */
  function Map<T, U>(v: Vec2<T>, f: T -> U): (r: Vec2<U>)
    ensures r.x == f(v.x) && r.y == f(v.y)
  {
    Vec2(f(v.x), f(v.y))
  }

  /** `Vec2::zip`. */
  function Zip<T, U>(a: Vec2<T>, b: Vec2<U>): (r: Vec2<(T, U)>)
    ensures r.x == (a.x, b.x) && r.y == (a.y, b.y)
  {
    Vec2((a.x, b.x), (a.y, b.y))
  }

  /** `Vec2::both_some`: `Some` exactly when both components are `Some`. */
  function BothSome<T>(v: Vec2<Option<T>>): (r: Option<Vec2<T>>)
    ensures r.Some? <==> v.x.Some? && v.y.Some?
    ensures r.Some? ==> r.value.x == v.x.value && r.value.y == v.y.value
  {
    match (v.x, v.y)
    case (Some(x), Some(y)) => Some(Vec2(x, y))
    case _ => None
  }

  /** `Vec2::min`: component-wise minimum. */
  function VMin(a: Vec2<int>, b: Vec2<int>): (r: Vec2<int>)
    ensures r.x <= a.x && r.x <= b.x && (r.x == a.x || r.x == b.x)
    ensures r.y <= a.y && r.y <= b.y && (r.y == a.y || r.y == b.y)
  {
    Vec2(Min(a.x, b.x), Min(a.y, b.y))
  }

  /** `Vec2::max`: component-wise maximum. */
  function VMax(a: Vec2<int>, b: Vec2<int>): (r: Vec2<int>)
    ensures r.x >= a.x && r.x >= b.x && (r.x == a.x || r.x == b.x)
    ensures r.y >= a.y && r.y >= b.y && (r.y == a.y || r.y == b.y)
  {
    Vec2(Max(a.x, b.x), Max(a.y, b.y))
  }

  /** `Vec2::min_max`: both extremes in one pass, by comparing per axis. */
  function MinMax(a: Vec2<int>, b: Vec2<int>): (r: (Vec2<int>, Vec2<int>))
    ensures r == (VMin(a, b), VMax(a, b))
  {
    var (minX, maxX) := if a.x <= b.x then (a.x, b.x) else (b.x, a.x);
    var (minY, maxY) := if a.y <= b.y then (a.y, b.y) else (b.y, a.y);
    (Vec2(minX, minY), Vec2(maxX, maxY))
  }

  /** Component-wise `+` on integers. */
  function Add(a: Vec2<int>, b: Vec2<int>): Vec2<int>
  {
    Vec2(a.x + b.x, a.y + b.y)
  }

  /** Component-wise `-` on integers. */
  function Sub(a: Vec2<int>, b: Vec2<int>): Vec2<int>
  {
    Vec2(a.x - b.x, a.y - b.y)
  }

  /** Addition and subtraction are inverse and addition commutes. */
  lemma AddSubInverse(a: Vec2<int>, b: Vec2<int>)
    ensures Sub(Add(a, b), b) == a
    ensures Add(Sub(a, b), b) == a
    ensures Add(a, b) == Add(b, a)
  {
  }

  /** The `(T, T)` conversions in both directions. */
  function FromTuple<T>(t: (T, T)): Vec2<T> { Vec2(t.0, t.1) }
  function ToTuple<T>(v: Vec2<T>): (T, T) { (v.x, v.y) }

  lemma TupleRoundTrip<T>(v: Vec2<T>, t: (T, T))
    ensures FromTuple(ToTuple(v)) == v
    ensures ToTuple(FromTuple(t)) == t
  {
  }

  /** `Vec2<u16>` addition as `+` evaluates it in a release build. */
  function WrapAddVec(a: Vec2<U16>, b: Vec2<U16>): (r: Vec2<U16>)
    ensures a.x + b.x <= U16_MAX ==> r.x == a.x + b.x
    ensures a.y + b.y <= U16_MAX ==> r.y == a.y + b.y
  {
    Vec2(WrapAdd(a.x, b.x), WrapAdd(a.y, b.y))
  }
}
