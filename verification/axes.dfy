/** The axis of a one-dimensional container, and the conversions between a
    vector and its (main, cross) components. */
module Axes {
  import opened Vectors

  datatype Axis = X | Y

  /** `Axis::vec`: the vector with the given main and cross components. */
  function AxisVec<T>(axis: Axis, main: T, cross: T): (v: Vec2<T>)
    ensures MainCrossOf(axis, v) == (main, cross)
  {
    match axis
    case X => Vec2(main, cross)
    case Y => Vec2(cross, main)
  }

  /** `Axis::main_cross_of`: the (main, cross) components of a vector. */
  function MainCrossOf<T>(axis: Axis, v: Vec2<T>): (mc: (T, T))
  {
    match axis
    case X => (v.x, v.y)
    case Y => (v.y, v.x)
  }

  /** `Axis::main_of`. */
  function MainOf<T>(axis: Axis, v: Vec2<T>): T
  {
    MainCrossOf(axis, v).0
  }

  /** `Axis::cross_of`. */
  function CrossOf<T>(axis: Axis, v: Vec2<T>): T
  {
    MainCrossOf(axis, v).1
  }

  /** Splitting a vector into main and cross components and joining them
      again gives the vector back. */
  lemma SplitJoin<T>(axis: Axis, v: Vec2<T>)
    ensures AxisVec(axis, MainOf(axis, v), CrossOf(axis, v)) == v
  {
  }

  /** The two axes are each other's swap: the main component along Y is the
      main component along X of the swapped vector. */
  lemma AxesAreSwapped<T>(v: Vec2<T>)
    ensures MainCrossOf(Y, v) == MainCrossOf(X, Swap(v))
    ensures AxisVec(Y, v.x, v.y) == Swap(AxisVec(X, v.x, v.y))
  {
  }
}
