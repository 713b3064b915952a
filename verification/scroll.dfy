/** The scroll filter (src/elements/filter/scroll.rs): on a scrolled axis
    the element is drawn at least as large as the output, and the output
    shows a window of it starting at the scroll offset. */
module ScrollFilter {
  import opened Common
  import opened Vectors
  import opened Inputs
  import opened Containers

  /** `ScrollOffset`: a distance from the start or from the end. */
  datatype ScrollOffset = FromStart(start: U16) | FromEnd(end: U16)

  /** One axis of the layout: the element's extent on it and the offset of
      the output's window into it. */
  datatype AxisScroll = AxisScroll(extent: U16, offset: U16)

  /** A scrolled axis: the element is at least as long as the output; the
      offset is the requested one, clamped so the window stays inside the
      element. */
  function ScrolledAxis(scroll: ScrollOffset, minSize: U16, output: U16): (r: AxisScroll)
    ensures r.extent == Max(minSize, output)
    ensures r.offset + output <= r.extent
    ensures scroll.FromStart? ==> r.offset == Min(scroll.start, r.extent - output)
    ensures scroll.FromEnd? ==> r.offset + output + scroll.end >= r.extent
    ensures scroll.FromEnd? && scroll.end <= r.extent - output ==> r.offset + output + scroll.end == r.extent
  {
    var extent := Max(minSize, output);
    var maximum := extent - output;
    AxisScroll(extent, match scroll case FromStart(o) => Min(o, maximum) case FromEnd(e) => SatSub(maximum, e))
  }

  /** One axis of `Scroll::layout` as it should be: an axis that is not
      scrolled gives the element the output's own length, unshifted. */
  function ScrollAxis(scroll: Option<ScrollOffset>, minSize: U16, output: U16): (r: AxisScroll)
    ensures r.offset + output <= r.extent
    ensures scroll.None? ==> r == AxisScroll(output, 0)
    ensures scroll.Some? ==> r == ScrolledAxis(scroll.value, minSize, output)
  {
    match scroll
    case None => AxisScroll(output, 0)
    case Some(o) => ScrolledAxis(o, minSize, output)
  }

  /** The output is a window onto the element: on both axes it starts at
      the offset and ends inside the element, and an unscrolled axis shows
      the whole element. */
  predicate ShowsWindow(l: Vec2<AxisScroll>, scroll: Vec2<Option<ScrollOffset>>, output: Vec2<U16>)
  {
    l.x.offset + output.x <= l.x.extent && l.y.offset + output.y <= l.y.extent
    && (scroll.x.None? ==> l.x.extent == output.x)
    && (scroll.y.None? ==> l.y.extent == output.y)
  }

  /** `Scroll::layout` as written: an unscrolled height is taken from the
      output's width. */
  function ScrollLayoutAsWritten(scroll: Vec2<Option<ScrollOffset>>, minSize: Vec2<U16>, output: Vec2<U16>): (r: Vec2<AxisScroll>)
    ensures r.x == ScrollAxis(scroll.x, minSize.x, output.x)
    ensures scroll.y.None? ==> r.y == AxisScroll(output.x, 0)
    ensures scroll.y.Some? ==> r.y == ScrollAxis(scroll.y, minSize.y, output.y)
    ensures ShowsWindow(r, scroll, output) <==> scroll.y.Some? || output.x == output.y
  {
    Vec2(ScrollAxis(scroll.x, minSize.x, output.x),
         match scroll.y case None => AxisScroll(output.x, 0) case Some(_) => ScrollAxis(scroll.y, minSize.y, output.y))
  }

  /** `Scroll::layout` with the height of an unscrolled axis taken from the
      output's height. `minSize` is the element's minimum width and height
      (each asked with no constraint on the other axis). */
  function ScrollLayout(scroll: Vec2<Option<ScrollOffset>>, minSize: Vec2<U16>, output: Vec2<U16>): (r: Vec2<AxisScroll>)
    ensures r.x == ScrollAxis(scroll.x, minSize.x, output.x) && r.y == ScrollAxis(scroll.y, minSize.y, output.y)
    ensures ShowsWindow(r, scroll, output)
  {
    Vec2(ScrollAxis(scroll.x, minSize.x, output.x), ScrollAxis(scroll.y, minSize.y, output.y))
  }

  /** The two layouts differ only when the height is not scrolled and the
      output is not square. */
  lemma ScrollLayoutsAgree(scroll: Vec2<Option<ScrollOffset>>, minSize: Vec2<U16>, output: Vec2<U16>)
    ensures ScrollLayoutAsWritten(scroll, minSize, output) == ScrollLayout(scroll, minSize, output)
            <==> scroll.y.Some? || output.x == output.y
  {
    if scroll.y.None? && output.x != output.y {
      assert ScrollLayoutAsWritten(scroll, minSize, output).y.extent != ScrollLayout(scroll, minSize, output).y.extent;
    }
  }

  /** A 5 by 3 output scrolling horizontally only: as written the element
      is drawn 5 rows tall into 3 rows of output and receives mice with
      height 5; it should be 3. */
  lemma ScrollHeightFromWidth()
    ensures var scroll := Vec2(Some(FromStart(0)), None);
      ScrollLayoutAsWritten(scroll, Vec2(10, 1), Vec2(5, 3)).y == AxisScroll(5, 0)
      && ScrollLayout(scroll, Vec2(10, 1), Vec2(5, 3)).y == AxisScroll(3, 0)
      && !ShowsWindow(ScrollLayoutAsWritten(scroll, Vec2(10, 1), Vec2(5, 3)), scroll, Vec2(5, 3))
  {
  }

  /** `Scroll::width` and `Scroll::height`: a scrolled axis fits into a
      single cell and can grow as far as the element can. */
  function ScrollRange(scrolled: bool, r: SizeRange): (s: SizeRange)
    ensures scrolled ==> s == SizeRange(1, r.max)
    ensures !scrolled ==> s == r
  {
    if scrolled then SizeRange(1, r.max) else r
  }

  /** `Scroll::handle`: keys pass through; a mouse is moved by the scroll
      offset (a plain `u16` addition) and carries the element's size. */
  function ScrollHandle(layout: Vec2<AxisScroll>, input: Input): (r: Input)
    ensures input.KeyInput? ==> r == input
    ensures input.MouseInput? ==>
      r == MouseInput(input.mouse.(at := WrapAddVec(input.mouse.at, Vec2(layout.x.offset, layout.y.offset)),
                                   size := Vec2(layout.x.extent, layout.y.extent)))
  {
    match input
    case KeyInput(_) => input
    case MouseInput(m) =>
      MouseInput(m.(at := WrapAddVec(m.at, Vec2(layout.x.offset, layout.y.offset)),
                    size := Vec2(layout.x.extent, layout.y.extent)))
  }

  /** A mouse on the output lands on the element at the cell drawn there:
      its position plus the offset, inside the element, with no
      wrap-around. */
  lemma ScrollMouseOnElement(scroll: Vec2<Option<ScrollOffset>>, minSize: Vec2<U16>, m: Mouse)
    requires m.at.x < m.size.x && m.at.y < m.size.y
    ensures var l := ScrollLayout(scroll, minSize, m.size);
      var r := ScrollHandle(l, MouseInput(m)).mouse;
      r.at == Vec2(m.at.x + l.x.offset, m.at.y + l.y.offset)
      && r.at.x < r.size.x && r.at.y < r.size.y
  {
  }
}
