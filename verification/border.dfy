/** The border filter (src/elements/filter/border.rs): a one-cell frame,
    optionally with one column of padding on either side, and the element's
    title set into the top and/or bottom edge. */
module BorderFilter {
  import opened Common
  import opened Vectors
  import opened Inputs
  import opened Styles
  import opened Outputs
  import opened Containers
  import opened Alignments

  /** The columns the frame takes on each side: the border, plus the
      padding column when there is one. */
  function SideColumns(padding: bool): (n: U16)
    ensures n == (if padding then 2 else 1)
  {
    if padding then 2 else 1
  }

  /** The area the element is drawn into: inside the frame and padding,
      shrunk (saturating) by both sides. */
  function InnerArea(padding: bool, output: Vec2<U16>): (a: Area)
    ensures a.topLeft == Vec2(SideColumns(padding), 1)
    ensures output.x >= 2 * SideColumns(padding) ==> a.topLeft.x + a.size.x + SideColumns(padding) == output.x
    ensures output.x < 2 * SideColumns(padding) ==> a.size.x == 0
    ensures output.y >= 2 ==> a.topLeft.y + a.size.y + 1 == output.y
    ensures output.y < 2 ==> a.size.y == 0
  {
    var side := SideColumns(padding);
    Area(Vec2(side, 1), Vec2(SatSub(output.x, 2 * side), SatSub(output.y, 2)))
  }

  /** The position of the right (or bottom) border: the last cell, when
      the output has more than one. */
  function FarEdge(dimension: U16): (r: Option<U16>)
    ensures r.Some? <==> dimension > 1
    ensures r.Some? ==> r.value == dimension - 1 && r.value >= 1
  {
    if dimension > 1 then Some(dimension - 1) else None
  }

  /** The width of a character as the title counts it: control characters
      count nothing. */
  function CharWidth(w: WidthFn, c: char): ColWidth
  {
    match w(c) case Some(n) => n case None => 0
  }

  /** The title's width, summed with `saturating_add`. */
  function TitleWidth(w: WidthFn, title: string): (r: U16)
    ensures r == Min(TextWidth(w, title), U16_MAX)
    decreases |title|
  {
    if |title| == 0 then 0 else SatAdd(CharWidth(w, title[0]), TitleWidth(w, title[1..]))
  }

  /** The column where a title starts: one past the left corner, then
      aligned within the columns between the corners. */
  function TitleStart(align: Alignment, width: U16, titleWidth: U16): (r: U16)
    ensures 1 <= r <= Max(width - 1, 1)
    ensures align == Alignment.Start ==> r == 1
    ensures titleWidth <= SatSub(width, 2) ==> r + titleWidth <= Max(width - 1, 1)
    ensures align == Alignment.End && 2 <= width && titleWidth <= width - 2 ==> r + titleWidth == width - 1
  {
    var avail := SatSub(width, 2);
    var offset := AlignOffset(align, avail, titleWidth);
    assert offset <= avail;
    1 + offset
  }

  /** One title lane (top or bottom): the column after the characters
      written so far, if this lane is drawn. */
  type Lane = Option<U16>

  /** Moving a lane past a character of width `n`: `checked_add`, then the
      check against the right border. `None` is the closure's `fmt::Error`,
      which ends the title. */
  function Advance(offset: U16, n: ColWidth, right: Option<U16>): (r: Option<U16>)
    ensures r.Some? <==> right.Some? && offset + n <= right.value
    ensures r.Some? ==> r.value == offset + n
  {
    if offset + n > U16_MAX then None
    else if right.None? || offset + n > right.value then None
    else Some(offset + n)
  }

  /** The state of the title closure: both lanes and the calls made. */
  datatype TitleState = TitleState(top: Lane, bottom: Lane, calls: seq<OutputCall>)

  /** The title closure for one character: control characters are skipped;
      otherwise the top lane, then the bottom lane (only when there is a
      bottom border) are written and advanced. The flag is false when the
      closure returns an error, after which no more characters come. */
  function TitleChar(w: WidthFn, c: char, st: TitleState, right: Option<U16>, bottomRow: Option<U16>, style: Style): (r: (TitleState, bool))
    ensures w(c).None? ==> r == (st, true)
    ensures |st.calls| <= |r.0.calls| <= |st.calls| + 2 && r.0.calls[..|st.calls|] == st.calls
  {
    match w(c)
    case None => (st, true)
    case Some(n) =>
      var (top, topOk, calls) := match st.top
        case None => (st.top, true, st.calls)
        case Some(offset) =>
          match Advance(offset, n, right)
          case None => (st.top, false, st.calls)
          case Some(after) => (Some(after), true, st.calls + [WriteChar(Vec2(offset, 0), c, style)]);
      if !topOk then (TitleState(top, st.bottom, calls), false)
      else
        match (st.bottom, bottomRow)
        case (Some(offset), Some(y)) =>
          (match Advance(offset, n, right)
           case None => (TitleState(top, st.bottom, calls), false)
           case Some(after) => (TitleState(top, Some(after), calls + [WriteChar(Vec2(offset, y), c, style)]), true))
        case _ => (TitleState(top, st.bottom, calls), true)
  }

  /** Feeding the title to the closure until it is used up or the closure
      fails. */
  function TitleRun(w: WidthFn, title: string, st: TitleState, right: Option<U16>, bottomRow: Option<U16>, style: Style): TitleState
    decreases |title|
  {
    if |title| == 0 then st
    else
      var (st', ok) := TitleChar(w, title[0], st, right, bottomRow, style);
      if ok then TitleRun(w, title[1..], st', right, bottomRow, style) else st'
  }

  /** The title's writes on `row` lie in the columns `start` to `end`,
      every glyph wholly inside. */
  predicate RowWithin(w: WidthFn, calls: seq<OutputCall>, row: U16, start: int, end: int)
  {
    forall i :: 0 <= i < |calls| && calls[i].WriteChar? && calls[i].pos.y == row ==>
      start <= calls[i].pos.x && calls[i].pos.x + CharWidth(w, calls[i].c) <= end
  }

  /** No title write on `row`. */
  predicate RowUntouched(calls: seq<OutputCall>, row: U16)
  {
    forall i :: 0 <= i < |calls| && calls[i].WriteChar? ==> calls[i].pos.y != row
  }

  /** What holds of the title closure's state at every step: each drawn
      lane has written only between its start and its current column, which
      never passes the right border; a lane not drawn has written nothing. */
  predicate LanesInside(w: WidthFn, st: TitleState, right: U16, bottomRow: U16, topStart: U16, bottomStart: U16, topOn: bool, bottomOn: bool)
  {
    (st.top.Some? <==> topOn) && (st.bottom.Some? <==> bottomOn) &&
    (forall i :: 0 <= i < |st.calls| ==> st.calls[i].WriteChar? && (st.calls[i].pos.y == 0 || st.calls[i].pos.y == bottomRow))
    && (match st.top
        case Some(t) => topStart <= t <= right && RowWithin(w, st.calls, 0, topStart, t)
        case None => RowUntouched(st.calls, 0))
    && (match st.bottom
        case Some(b) => bottomStart <= b <= right && RowWithin(w, st.calls, bottomRow, bottomStart, b)
        case None => RowUntouched(st.calls, bottomRow))
  }

  /** One character keeps the lanes inside. */
  lemma TitleCharInside(w: WidthFn, c: char, st: TitleState, right: U16, bottomRow: U16, style: Style, topStart: U16, bottomStart: U16, topOn: bool, bottomOn: bool)
    requires 0 < bottomRow
    requires LanesInside(w, st, right, bottomRow, topStart, bottomStart, topOn, bottomOn)
    ensures LanesInside(w, TitleChar(w, c, st, Some(right), Some(bottomRow), style).0, right, bottomRow, topStart, bottomStart, topOn, bottomOn)
  {
    var st' := TitleChar(w, c, st, Some(right), Some(bottomRow), style).0;
    var calls := st'.calls;
    assert calls[..|st.calls|] == st.calls;
    forall i | |st.calls| <= i < |calls|
      ensures calls[i].WriteChar?
      ensures calls[i].pos.y == 0 ==>
        st.top.Some? && st'.top.Some? && st.top.value == calls[i].pos.x && calls[i].pos.x + CharWidth(w, c) == st'.top.value
      ensures calls[i].pos.y == bottomRow ==>
        st.bottom.Some? && st'.bottom.Some? && st.bottom.value == calls[i].pos.x && calls[i].pos.x + CharWidth(w, c) == st'.bottom.value
      ensures calls[i].pos.y == 0 || calls[i].pos.y == bottomRow
    {
    }
  }

  /** The whole title keeps the lanes inside. */
  lemma {:induction false} TitleRunInside(w: WidthFn, title: string, st: TitleState, right: U16, bottomRow: U16, style: Style, topStart: U16, bottomStart: U16, topOn: bool, bottomOn: bool)
    requires 0 < bottomRow
    requires LanesInside(w, st, right, bottomRow, topStart, bottomStart, topOn, bottomOn)
    ensures LanesInside(w, TitleRun(w, title, st, Some(right), Some(bottomRow), style), right, bottomRow, topStart, bottomStart, topOn, bottomOn)
    decreases |title|
  {
    if |title| > 0 {
      TitleCharInside(w, title[0], st, right, bottomRow, style, topStart, bottomStart, topOn, bottomOn);
      var (st', ok) := TitleChar(w, title[0], st, Some(right), Some(bottomRow), style);
      if ok {
        TitleRunInside(w, title[1..], st', right, bottomRow, style, topStart, bottomStart, topOn, bottomOn);
      }
    }
  }

  /** The columns of a top or bottom edge that get a border character:
      those between the corners outside the title's span, if any. */
  predicate EdgeColumn(width: U16, span: Option<(U16, U16)>, x: int)
  {
    1 <= x < SatSub(width, 1) && (span.None? || x < span.value.0 || x >= span.value.1)
  }

  /** The edge's border characters, left to right. */
  function EdgeRow(width: U16, span: Option<(U16, U16)>, row: U16, c: char, style: Style): (calls: seq<OutputCall>)
    ensures forall i :: 0 <= i < |calls| ==>
      calls[i].WriteChar? && calls[i].pos.y == row && calls[i].c == c && EdgeColumn(width, span, calls[i].pos.x)
  {
    EdgeFrom(1, width, span, row, c, style)
  }

  /** Every edge column gets its border character. */
  lemma EdgeRowCovers(width: U16, span: Option<(U16, U16)>, row: U16, c: char, style: Style)
    ensures forall x :: EdgeColumn(width, span, x) ==>
      exists i :: 0 <= i < |EdgeRow(width, span, row, c, style)| && EdgeRow(width, span, row, c, style)[i].pos.x == x
  {
    assert EdgeRow(width, span, row, c, style) == EdgeFrom(1, width, span, row, c, style);
    forall x | EdgeColumn(width, span, x)
      ensures exists i :: 0 <= i < |EdgeFrom(1, width, span, row, c, style)| && EdgeFrom(1, width, span, row, c, style)[i].pos.x == x
    {
      EdgeFromCovers(1, x, width, span, row, c, style);
    }
  }

  lemma {:induction false} EdgeFromCovers(x: U16, x': int, width: U16, span: Option<(U16, U16)>, row: U16, c: char, style: Style)
    requires 1 <= x <= x' && EdgeColumn(width, span, x')
    ensures exists i :: 0 <= i < |EdgeFrom(x, width, span, row, c, style)| && EdgeFrom(x, width, span, row, c, style)[i].pos.x == x'
    decreases SatSub(width, 1) - x
  {
    var calls := EdgeFrom(x, width, span, row, c, style);
    assert x < SatSub(width, 1);
    var rest := EdgeFrom(x + 1, width, span, row, c, style);
    if x' == x {
      assert calls == [WriteChar(Vec2(x, row), c, style)] + rest;
      assert calls[0].pos.x == x';
    } else {
      EdgeFromCovers(x + 1, x', width, span, row, c, style);
      var i :| 0 <= i < |rest| && rest[i].pos.x == x';
      if EdgeColumn(width, span, x) {
        assert calls[i + 1] == rest[i];
      } else {
        assert calls == rest;
      }
    }
  }

  function EdgeFrom(x: U16, width: U16, span: Option<(U16, U16)>, row: U16, c: char, style: Style): (calls: seq<OutputCall>)
    requires x >= 1
    ensures forall i :: 0 <= i < |calls| ==>
      calls[i].WriteChar? && calls[i].pos.y == row && calls[i].c == c && x <= calls[i].pos.x && EdgeColumn(width, span, calls[i].pos.x)
    decreases SatSub(width, 1) - x
  {
    if x >= SatSub(width, 1) then []
    else
      var rest := EdgeFrom(x + 1, width, span, row, c, style);
      if EdgeColumn(width, span, x) then
        var calls := [WriteChar(Vec2(x, row), c, style)] + rest;
        assert forall i :: 0 < i < |calls| ==> calls[i] == rest[i - 1];
        calls
      else rest
  }

  /** The title and the edge share the top row without overlap, and the
      title sits strictly between the corners: every cell a title glyph
      covers is skipped by the top edge, and lies in columns 1 to
      width - 2. The same holds of the bottom row. */
  lemma TitleBetweenCorners(w: WidthFn, title: string, border: (Option<Alignment>, Option<Alignment>), output: Vec2<U16>, style: Style)
    requires output.x > 1 && output.y > 1
    ensures var r := TitleDraw(w, title, border, output, style);
      var st := r.0;
      forall i, x :: 0 <= i < |st.calls| && st.calls[i].WriteChar? && st.calls[i].pos.y == 0
                     && st.calls[i].pos.x <= x < st.calls[i].pos.x + CharWidth(w, st.calls[i].c)
        ==> 1 <= x < output.x - 1 && !EdgeColumn(output.x, r.1, x)
    ensures var r := TitleDraw(w, title, border, output, style);
      var st := r.0;
      forall i, x :: 0 <= i < |st.calls| && st.calls[i].WriteChar? && st.calls[i].pos.y == output.y - 1
                     && st.calls[i].pos.x <= x < st.calls[i].pos.x + CharWidth(w, st.calls[i].c)
        ==> 1 <= x < output.x - 1 && !EdgeColumn(output.x, r.2, x)
  {
    var right, bottomRow := output.x - 1, output.y - 1;
    var tw := TitleWidth(w, title);
    var topStart := match border.0 case Some(a) => TitleStart(a, output.x, tw) case None => 1;
    var bottomStart := match border.1 case Some(a) => TitleStart(a, output.x, tw) case None => 1;
    var st0 := TitleState(
      match border.0 case Some(a) => Some(TitleStart(a, output.x, tw)) case None => None,
      match border.1 case Some(a) => Some(TitleStart(a, output.x, tw)) case None => None,
      []);
    var topOn, bottomOn := border.0.Some?, border.1.Some?;
    var r := TitleDraw(w, title, border, output, style);
    assert FarEdge(output.x) == Some(right) && FarEdge(output.y) == Some(bottomRow);
    if st0.top.Some? || st0.bottom.Some? {
      assert r.0 == TitleRun(w, title, st0, Some(right), Some(bottomRow), style);
      assert LanesInside(w, st0, right, bottomRow, topStart, bottomStart, topOn, bottomOn);
      TitleRunInside(w, title, st0, right, bottomRow, style, topStart, bottomStart, topOn, bottomOn);
    } else {
      assert r.0 == st0;
    }
    var st := r.0;
    assert LanesInside(w, st, right, bottomRow, topStart, bottomStart, topOn, bottomOn);
    forall i, x | 0 <= i < |st.calls| && st.calls[i].WriteChar? && st.calls[i].pos.y == 0
                  && st.calls[i].pos.x <= x < st.calls[i].pos.x + CharWidth(w, st.calls[i].c)
      ensures 1 <= x < output.x - 1 && !EdgeColumn(output.x, r.1, x)
    {
      assert st.top.Some?;
    }
    forall i, x | 0 <= i < |st.calls| && st.calls[i].WriteChar? && st.calls[i].pos.y == output.y - 1
                  && st.calls[i].pos.x <= x < st.calls[i].pos.x + CharWidth(w, st.calls[i].c)
      ensures 1 <= x < output.x - 1 && !EdgeColumn(output.x, r.2, x)
    {
      assert st.bottom.Some?;
    }
  }

  /** The title part of `Border::draw`: both lanes start at their aligned
      columns; the title is written only when some lane is drawn. Returns
      the final state and each edge's title span (start to end column). */
  function TitleDraw(w: WidthFn, title: string, border: (Option<Alignment>, Option<Alignment>), output: Vec2<U16>, style: Style)
    : (TitleState, Option<(U16, U16)>, Option<(U16, U16)>)
  {
    var tw := TitleWidth(w, title);
    var st0 := TitleState(
      match border.0 case Some(a) => Some(TitleStart(a, output.x, tw)) case None => None,
      match border.1 case Some(a) => Some(TitleStart(a, output.x, tw)) case None => None,
      []);
    var st := if st0.top.Some? || st0.bottom.Some? then TitleRun(w, title, st0, FarEdge(output.x), FarEdge(output.y), style) else st0;
    (st,
     match (st0.top, st.top) case (Some(s), Some(e)) => Some((s, e)) case _ => None,
     match (st0.bottom, st.bottom) case (Some(s), Some(e)) => Some((s, e)) case _ => None)
  }

  /** `Border::width`: the frame and padding columns added to both bounds,
      saturating. */
  function BorderWidth(padding: bool, r: SizeRange): (s: SizeRange)
    ensures s.min == Min(r.min + 2 * SideColumns(padding), U16_MAX)
    ensures s.max == Min(r.max + 2 * SideColumns(padding), U16_MAX)
  {
    SizeRange(SatAdd(r.min, 2 * SideColumns(padding)), SatAdd(r.max, 2 * SideColumns(padding)))
  }

  /** `Border::height`: two rows added to both bounds, saturating. */
  function BorderHeight(r: SizeRange): (s: SizeRange)
    ensures s.min == Min(r.min + 2, U16_MAX) && s.max == Min(r.max + 2, U16_MAX)
  {
    SizeRange(SatAdd(r.min, 2), SatAdd(r.max, 2))
  }

  /** `Border::handle` for a mouse: dropped on the frame or the padding;
      otherwise moved into the inner area's coordinates, with its size. So
      a mouse reaches the element exactly when it lies in the inner area the
      element is drawn into, and then at the cell the element drew there. */
  function BorderMouse(padding: bool, m: Mouse): (r: Option<Mouse>)
    ensures var a := InnerArea(padding, m.size);
      r.Some? <==> a.topLeft.x <= m.at.x < a.topLeft.x + a.size.x && a.topLeft.y <= m.at.y < a.topLeft.y + a.size.y
    ensures var a := InnerArea(padding, m.size);
      r.Some? ==> r.value == m.(at := Vec2(m.at.x - a.topLeft.x, m.at.y - a.topLeft.y), size := a.size)
  {
    var side := SideColumns(padding);
    if SatAdd(m.at.x, side) >= m.size.x || SatAdd(m.at.y, 1) >= m.size.y then None
    else if m.at.x < side || m.at.y < 1 || m.size.x < 2 * side || m.size.y < 2 then None
    else Some(m.(at := Vec2(m.at.x - side, m.at.y - 1), size := Vec2(m.size.x - 2 * side, m.size.y - 2)))
  }

  /** `Border::handle`: keys pass through. */
  function BorderHandle(padding: bool, input: Input): (r: Option<Input>)
    ensures input.KeyInput? ==> r == Some(input)
    ensures input.MouseInput? ==> (r.Some? <==> BorderMouse(padding, input.mouse).Some?)
  {
    match input
    case KeyInput(_) => Some(input)
    case MouseInput(m) => match BorderMouse(padding, m) case Some(local) => Some(MouseInput(local)) case None => None
  }
}
