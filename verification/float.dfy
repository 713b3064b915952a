/** The float filter (src/elements/filter/float.rs): the element is drawn
    at its minimum size, clipped to the output, and aligned inside the
    output on each axis. */
module FloatFilter {
  import opened Common
  import opened Vectors
  import opened Inputs
  import opened Alignments
  import opened Outputs
  import opened Styles

  /** The float's placement inside the output. */
  datatype Placement = Placement(offset: Vec2<U16>, size: Vec2<U16>)

  /** `Float::calculate_layout`. `minSize` is the element's minimum width
      and its minimum height at that width. */
  function FloatLayout(align: Vec2<Alignment>, minSize: Vec2<U16>, output: Vec2<U16>): (r: Placement)
    ensures r.size.x == Min(minSize.x, output.x) && r.size.y == Min(minSize.y, output.y)
    ensures r.offset.x + r.size.x <= output.x && r.offset.y + r.size.y <= output.y
    ensures align.x == Alignment.Start ==> r.offset.x == 0
    ensures align.y == Alignment.Start ==> r.offset.y == 0
    ensures align.x == Alignment.End ==> r.offset.x + r.size.x == output.x
    ensures align.y == Alignment.End ==> r.offset.y + r.size.y == output.y
  {
    var size := Vec2(Min(minSize.x, output.x), Min(minSize.y, output.y));
    Placement(Vec2(AlignOffset(align.x, output.x, size.x), AlignOffset(align.y, output.y, size.y)), size)
  }

  /** The area `Float::draw` gives the element. */
  function FloatArea(align: Vec2<Alignment>, minSize: Vec2<U16>, output: Vec2<U16>): (a: Area)
    ensures a.topLeft.x + a.size.x <= output.x && a.topLeft.y + a.size.y <= output.y
    ensures a.size.x <= minSize.x && a.size.y <= minSize.y
  {
    var p := FloatLayout(align, minSize, output);
    Area(p.offset, p.size)
  }

  /** Whether the mouse lies on the float's rectangle. */
  predicate OnFloat(p: Placement, at: Vec2<U16>)
  {
    p.offset.x <= at.x < p.offset.x + p.size.x && p.offset.y <= at.y < p.offset.y + p.size.y
  }

  /** `Float::handle` for a mouse: the layout is computed for the mouse's
      output size; a mouse off the float is dropped, one on it is made
      local to the float, whose size it then carries. */
  function FloatMouse(align: Vec2<Alignment>, minSize: Vec2<U16>, m: Mouse): (r: Option<Mouse>)
    ensures var p := FloatLayout(align, minSize, m.size);
      (r.Some? <==> OnFloat(p, m.at))
      && (r.Some? ==> r.value == m.(at := Vec2(m.at.x - p.offset.x, m.at.y - p.offset.y), size := p.size))
  {
    var p := FloatLayout(align, minSize, m.size);
    var local := BothSome(Vec2(
      if m.at.x >= p.offset.x then Some(m.at.x - p.offset.x) else None,
      if m.at.y >= p.offset.y then Some(m.at.y - p.offset.y) else None));
    match local
    case Some(at) => if at.x < p.size.x && at.y < p.size.y then Some(m.(at := at, size := p.size)) else None
    case None => None
  }

  /** `Float::handle`: keys pass through unchanged. */
  function FloatHandle(align: Vec2<Alignment>, minSize: Vec2<U16>, input: Input): (r: Option<Input>)
    ensures input.KeyInput? ==> r == Some(input)
    ensures input.MouseInput? ==> (r.Some? <==> OnFloat(FloatLayout(align, minSize, input.mouse.size), input.mouse.at))
  {
    match input
    case KeyInput(_) => Some(input)
    case MouseInput(m) =>
      match FloatMouse(align, minSize, m)
      case Some(local) => Some(MouseInput(local))
      case None => None
  }

  /** Drawing and mouse handling agree: a cell the element draws at local
      position `pos` lands on the output at `pos` plus the float's offset,
      and a mouse at that output cell reaches the element at `pos`. */
  lemma FloatMouseInvertsDraw(w: WidthFn, align: Vec2<Alignment>, minSize: Vec2<U16>, m: Mouse, pos: Vec2<U16>, c: char, style: Style)
    requires AreaAccepts(w, FloatArea(align, minSize, m.size), pos, c)
    requires m.at == AreaCall(w, FloatArea(align, minSize, m.size), WriteChar(pos, c, style)).value.pos
    ensures FloatMouse(align, minSize, m) == Some(m.(at := pos, size := FloatLayout(align, minSize, m.size).size))
  {
    var a := FloatArea(align, minSize, m.size);
    assert m.at == Vec2(pos.x + a.topLeft.x, pos.y + a.topLeft.y);
  }

  /** The stack test's popup: a three-column span centred in a 12 by 10
      output starts at column 5 of row 5. */
  lemma ScenarioCentredSpan()
    ensures FloatLayout(Vec2(Middle, Middle), Vec2(3, 1), Vec2(12, 10)) == Placement(Vec2(5, 5), Vec2(3, 1))
  {
  }
}
