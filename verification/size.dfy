/** The size filter (src/elements/filter/size.rs): overrides the ideal
    width, height or both of an element. The element is abstracted to the
    answers it would give. */
module SizeFilter {
  import opened Common
  import opened Vectors

  /** `Size`: the overridden width and height, if any. */
  datatype Size = Size(size: Vec2<Option<U16>>)

  /** An overridden axis, or the element's own answer on it. */
  function Override(over: Option<U16>, element: U16): (r: U16)
    ensures over.Some? ==> r == over.value
    ensures over.None? ==> r == element
  {
    match over
    case Some(v) => v
    case None => element
  }

  /** `Size::ideal_width`; `element` is the element's ideal width for the
      same height and maximum. */
  function IdealWidth(s: Size, element: U16): (r: U16)
    ensures s.size.x.Some? ==> r == s.size.x.value
    ensures s.size.x.None? ==> r == element
  {
    Override(s.size.x, element)
  }

  /** `Size::ideal_height`; `element` is the element's ideal height for the
      same width and maximum. */
  function IdealHeight(s: Size, element: U16): (r: U16)
    ensures s.size.y.Some? ==> r == s.size.y.value
    ensures s.size.y.None? ==> r == element
  {
    Override(s.size.y, element)
  }

  /** `Size::ideal_size`: the size, and whether the element was asked for
      its own ideal size (`element`). With both axes overridden the element
      is not consulted. */
  function IdealSize(s: Size, element: Vec2<U16>): (r: (Vec2<U16>, bool))
    ensures r.1 <==> s.size.x.None? || s.size.y.None?
    ensures s.size.x.Some? ==> r.0.x == s.size.x.value
    ensures s.size.y.Some? ==> r.0.y == s.size.y.value
    ensures s.size.x.None? ==> r.0.x == element.x
    ensures s.size.y.None? ==> r.0.y == element.y
  {
    match s.size
    case Vec2(Some(x), Some(y)) => (Vec2(x, y), false)
    case _ => (Vec2(Override(s.size.x, element.x), Override(s.size.y, element.y)), true)
  }

  /** The whole-size answer agrees with the per-axis answers whenever the
      element's own answers agree, and with both axes overridden it does not
      depend on the element at all. */
  lemma IdealSizeMatchesAxes(s: Size, element: Vec2<U16>, other: Vec2<U16>)
    ensures IdealSize(s, element).0 == Vec2(IdealWidth(s, element.x), IdealHeight(s, element.y))
    ensures !IdealSize(s, element).1 ==> IdealSize(s, element).0 == IdealSize(s, other).0
  {
  }
}
