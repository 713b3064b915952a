/** Outputs that elements draw to (src/lib.rs, src/output.rs). An output
    is observed through the calls made on it: `write_char`, `set_title` and
    `set_cursor`. The `Area` and `MaybeFocused` adapters translate each call
    into at most one call on the output they wrap. */
module Outputs {
  import opened Common
  import opened Vectors
  import opened Styles

  /** The column width of a character, as `UnicodeWidthChar::width`
      reports it: `None` for control characters, otherwise 0, 1 or 2. */
  type ColWidth = n: nat | n <= 2

  /** The Unicode width table is a parameter of the model. */
  type WidthFn = char -> Option<ColWidth>

  /** Every width table the model is used with gives the space width 1. */
  predicate SaneWidth(w: WidthFn)
  {
    w(' ') == Some(1)
  }

  datatype CursorShape = Bar | Block | Underline

  datatype Cursor = Cursor(shape: CursorShape, blinking: bool, pos: Vec2<U16>)

  datatype OutputCall =
    | WriteChar(pos: Vec2<U16>, c: char, style: Style)
    | SetTitle(title: string)
    | SetCursor(cursor: Option<Cursor>)

  /** The width of a piece of text, with control characters counting 0. */
  function TextWidth(w: WidthFn, s: string): nat
  {
    if |s| == 0 then 0
    else (match w(s[0]) case Some(n) => n case None => 0) + TextWidth(w, s[1..])
  }

  /** The characters of `s` that have a width, in order. */
  function Printable(w: WidthFn, s: string): (p: string)
    ensures forall i :: 0 <= i < |p| ==> w(p[i]).Some?
    ensures |p| <= |s|
  {
    if |s| == 0 then []
    else (if w(s[0]).Some? then [s[0]] else []) + Printable(w, s[1..])
  }

  /** The default `Output::write`: each character with a width is written at
      the running position, which then moves right by that width with a
      plain `u16` addition; control characters are skipped without moving. */
  function Write(w: WidthFn, pos: Vec2<U16>, text: string, style: Style): (calls: seq<OutputCall>)
    ensures forall call :: call in calls ==> call.WriteChar? && call.style == style && call.pos.y == pos.y
    decreases |text|
  {
    if |text| == 0 then []
    else match w(text[0])
      case None => Write(w, pos, text[1..], style)
      case Some(n) => [WriteChar(pos, text[0], style)] + Write(w, Vec2(WrapAdd(pos.x, n), pos.y), text[1..], style)
  }

  /** A column reached by `u16` additions from zero. */
  function Wrap16(a: nat): U16
  {
    a % 0x10000
  }

  lemma WrapAddThenMod(a: U16, n: ColWidth, t: nat)
    ensures Wrap16(WrapAdd(a, n) + t) == Wrap16(a + (n + t))
  {
    if a + n > U16_MAX {
      assert WrapAdd(a, n) + t == (a + (n + t)) - 0x10000;
    }
  }

  /** The position `Output::write` gives the i-th printable character. */
  predicate PlacesEachPrintable(w: WidthFn, pos: Vec2<U16>, text: string, style: Style, calls: seq<OutputCall>)
  {
    PlacesEach(w, pos, Printable(w, text), style, calls)
  }

  /** The i-th call writes the i-th character of `p` at the starting column
      plus the width of the characters before it, modulo 2^16. */
  predicate PlacesEach(w: WidthFn, pos: Vec2<U16>, p: string, style: Style, calls: seq<OutputCall>)
  {
    |calls| == |p|
    && forall i {:trigger calls[i]} :: 0 <= i < |calls| ==>
      calls[i] == WriteChar(Vec2(Wrap16(pos.x + TextWidth(w, p[..i])), pos.y), p[i], style)
  }

  /** `Output::write` places the i-th printable character at the starting
      column plus the width of the text before it, modulo 2^16, on the
      starting row; nothing else is written. */
  lemma {:induction false} WritePlacesEachPrintable(w: WidthFn, pos: Vec2<U16>, text: string, style: Style)
    ensures PlacesEachPrintable(w, pos, text, style, Write(w, pos, text, style))
    decreases |text|
  {
    if |text| > 0 {
      var c, rest := text[0], text[1..];
      if w(c).None? {
        WritePlacesEachPrintable(w, pos, rest, style);
        WriteSkip(w, pos, text, style);
      } else {
        WritePlacesEachPrintable(w, Vec2(WrapAdd(pos.x, w(c).value), pos.y), rest, style);
        WriteStep(w, pos, text, style);
      }
    }
  }

  lemma WriteSkip(w: WidthFn, pos: Vec2<U16>, text: string, style: Style)
    requires |text| > 0 && w(text[0]).None?
    requires PlacesEachPrintable(w, pos, text[1..], style, Write(w, pos, text[1..], style))
    ensures PlacesEachPrintable(w, pos, text, style, Write(w, pos, text, style))
  {
    var c, rest := text[0], text[1..];
    assert Printable(w, text) == Printable(w, rest);
  }

  lemma WriteStep(w: WidthFn, pos: Vec2<U16>, text: string, style: Style)
    requires |text| > 0 && w(text[0]).Some?
    requires PlacesEachPrintable(w, Vec2(WrapAdd(pos.x, w(text[0]).value), pos.y), text[1..], style,
                                 Write(w, Vec2(WrapAdd(pos.x, w(text[0]).value), pos.y), text[1..], style))
    ensures PlacesEachPrintable(w, pos, text, style, Write(w, pos, text, style))
  {
    var c, rest := text[0], text[1..];
    var n := w(c).value;
    assert Printable(w, text) == [c] + Printable(w, rest);
    var pos' := Vec2(WrapAdd(pos.x, n), pos.y);
    assert Write(w, pos, text, style) == [WriteChar(pos, c, style)] + Write(w, pos', rest, style);
    PlacesCons(w, pos, c, n, Printable(w, rest), style, Write(w, pos', rest, style));
  }

  /** Placing a character of width `n` first shifts the placements of the
      rest by `n` columns. */
  lemma PlacesCons(w: WidthFn, pos: Vec2<U16>, c: char, n: ColWidth, pr: string, style: Style, tail: seq<OutputCall>)
    requires w(c) == Some(n)
    requires PlacesEach(w, Vec2(WrapAdd(pos.x, n), pos.y), pr, style, tail)
    ensures PlacesEach(w, pos, [c] + pr, style, [WriteChar(pos, c, style)] + tail)
  {
    var p := [c] + pr;
    var calls := [WriteChar(pos, c, style)] + tail;
    forall i {:trigger calls[i]} | 0 <= i < |calls|
      ensures calls[i] == WriteChar(Vec2(Wrap16(pos.x + TextWidth(w, p[..i])), pos.y), p[i], style)
    {
      if i == 0 {
        assert p[..0] == [];
      } else {
        assert calls[i] == tail[i - 1];
        WriteStepAt(w, pos, c, n, pr, style, i);
      }
    }
  }

  /** The i-th placement after the first character, seen from the first
      character's column: the column moves by that character's width. */
  lemma WriteStepAt(w: WidthFn, pos: Vec2<U16>, c: char, n: ColWidth, pr: string, style: Style, i: nat)
    requires w(c) == Some(n) && 0 < i <= |pr|
    ensures var p := [c] + pr;
      WriteChar(Vec2(Wrap16(WrapAdd(pos.x, n) + TextWidth(w, pr[..i - 1])), pos.y), pr[i - 1], style)
        == WriteChar(Vec2(Wrap16(pos.x + TextWidth(w, p[..i])), pos.y), p[i], style)
  {
    var p := [c] + pr;
    assert p[..i][0] == c && p[..i][1..] == pr[..i - 1];
    assert TextWidth(w, p[..i]) == n + TextWidth(w, pr[..i - 1]);
    WrapAddThenMod(pos.x, n, TextWidth(w, pr[..i - 1]));
  }

  /** The background-only style `Output::clear` writes with. */
  function ClearStyle(color: Color): Style
  {
    Style(DefaultColor(), color, DefaultAttributes)
  }

  /** The column `x` of a clear: rows `y .. height`, top to bottom. */
  function ClearColumn(x: U16, y: nat, height: U16, style: Style): (calls: seq<OutputCall>)
    requires y <= height
    ensures |calls| == height - y
    ensures forall i :: 0 <= i < |calls| ==> calls[i] == WriteChar(Vec2(x, y + i), ' ', style)
    decreases height - y
  {
    if y == height then [] else [WriteChar(Vec2(x, y), ' ', style)] + ClearColumn(x, y + 1, height, style)
  }

  /** The default `Output::clear` from column `x` on: columns left to
      right, each top to bottom. */
  function ClearFrom(x: nat, size: Vec2<U16>, style: Style): (calls: seq<OutputCall>)
    requires x <= size.x
    decreases size.x - x
  {
    if x == size.x then [] else ClearColumn(x, 0, size.y, style) + ClearFrom(x + 1, size, style)
  }

  /** `Output::clear`. */
  function Clear(size: Vec2<U16>, color: Color): seq<OutputCall>
  {
    ClearFrom(0, size, ClearStyle(color))
  }

  /** A clear writes a space in the clear style exactly at the in-bounds
      cells: one call per cell, and every cell is covered. */
  lemma {:induction false} ClearCoversEveryCellOnce(size: Vec2<U16>, color: Color)
    ensures |Clear(size, color)| == size.x * size.y
    ensures forall call :: call in Clear(size, color) ==>
      call.WriteChar? && call.c == ' ' && call.style == ClearStyle(color)
      && call.pos.x < size.x && call.pos.y < size.y
    ensures forall p: Vec2<U16> :: p.x < size.x && p.y < size.y ==>
      WriteChar(p, ' ', ClearStyle(color)) in Clear(size, color)
  {
    ClearFromCovers(0, size, ClearStyle(color));
  }

  lemma {:induction false} ClearFromCovers(x: nat, size: Vec2<U16>, style: Style)
    requires x <= size.x
    ensures |ClearFrom(x, size, style)| == (size.x - x) * size.y
    ensures forall call :: call in ClearFrom(x, size, style) ==>
      call.WriteChar? && call.c == ' ' && call.style == style
      && x <= call.pos.x < size.x && call.pos.y < size.y
    ensures forall p: Vec2<U16> :: x <= p.x < size.x && p.y < size.y ==>
      WriteChar(p, ' ', style) in ClearFrom(x, size, style)
    decreases size.x - x
  {
    if x < size.x {
      ClearFromCovers(x + 1, size, style);
      var col := ClearColumn(x, 0, size.y, style);
      var rest := ClearFrom(x + 1, size, style);
      assert ClearFrom(x, size, style) == col + rest;
      assert (size.x - x) * size.y == size.y + (size.x - (x + 1)) * size.y;
      forall p: Vec2<U16> | x <= p.x < size.x && p.y < size.y
        ensures WriteChar(p, ' ', style) in col + rest
      {
        if p.x == x {
          assert col[p.y] == WriteChar(p, ' ', style);
        } else {
          assert WriteChar(p, ' ', style) in rest;
        }
      }
    }
  }

  /** An output area: calls are clipped to `size` and shifted by `topLeft`. */
  datatype Area = Area(topLeft: Vec2<U16>, size: Vec2<U16>)

  /** Whether `Area::write_char` accepts a character at `pos`: inside the
      area, and not a double-width character in the area's last column. */
  predicate AreaAccepts(w: WidthFn, area: Area, pos: Vec2<U16>, c: char)
  {
    pos.x < area.size.x && pos.y < area.size.y && (pos.x < area.size.x - 1 || w(c) != Some(2))
  }

  /** `Area::set_cursor`'s translation: a cursor outside the area is hidden,
      one inside is moved by `topLeft` and keeps its shape and blinking. */
  function AreaCursor(area: Area, cursor: Option<Cursor>): (r: Option<Cursor>)
    ensures r.None? <==> cursor.None? || cursor.value.pos.x >= area.size.x || cursor.value.pos.y >= area.size.y
    ensures r.Some? ==> r.value.shape == cursor.value.shape && r.value.blinking == cursor.value.blinking
    ensures r.Some? ==> r.value.pos == WrapAddVec(cursor.value.pos, area.topLeft)
  {
    match cursor
    case Some(cur) =>
      if cur.pos.x < area.size.x && cur.pos.y < area.size.y
      then Some(cur.(pos := WrapAddVec(cur.pos, area.topLeft)))
      else None
    case None => None
  }

  /** The call an `Area` makes on its inner output for one call on itself. */
  function AreaCall(w: WidthFn, area: Area, call: OutputCall): (r: Option<OutputCall>)
    ensures call.WriteChar? ==>
      (r.Some? <==> AreaAccepts(w, area, call.pos, call.c))
    ensures call.WriteChar? && r.Some? ==>
      r.value == WriteChar(WrapAddVec(call.pos, area.topLeft), call.c, call.style)
    ensures call.SetTitle? ==> r == Some(call)
    ensures call.SetCursor? ==> r == Some(SetCursor(AreaCursor(area, call.cursor)))
  {
    match call
    case WriteChar(pos, c, style) =>
      if AreaAccepts(w, area, pos, c) then Some(WriteChar(WrapAddVec(pos, area.topLeft), c, style)) else None
    case SetTitle(_) => Some(call)
    case SetCursor(cursor) => Some(SetCursor(AreaCursor(area, cursor)))
  }

  /** When the area lies within the `u16` range, everything it writes lands
      inside the rectangle it covers on the inner output, and a double-width
      character always has its second column inside it too. */
  lemma AreaWritesStayInside(w: WidthFn, area: Area, call: OutputCall)
    requires area.topLeft.x + area.size.x <= U16_MAX + 1
    requires area.topLeft.y + area.size.y <= U16_MAX + 1
    requires AreaCall(w, area, call).Some? && AreaCall(w, area, call).value.WriteChar?
    ensures var p := AreaCall(w, area, call).value.pos;
      area.topLeft.x <= p.x < area.topLeft.x + area.size.x
      && area.topLeft.y <= p.y < area.topLeft.y + area.size.y
      && (w(call.c) == Some(2) ==> p.x + 1 < area.topLeft.x + area.size.x)
  {
  }

  /** `MaybeFocused`: writes always pass; title and cursor only when focused. */
  function FocusedCall(focused: bool, call: OutputCall): (r: Option<OutputCall>)
    ensures r.Some? ==> r.value == call
    ensures r.None? <==> !focused && !call.WriteChar?
  {
    if focused || call.WriteChar? then Some(call) else None
  }

  /** The calls that reach the inner output of a `MaybeFocused`, in order. */
  function FocusedCalls(focused: bool, calls: seq<OutputCall>): seq<OutputCall>
  {
    if |calls| == 0 then []
    else
      var last := match FocusedCall(focused, calls[|calls| - 1]) case Some(c) => [c] case None => [];
      FocusedCalls(focused, calls[..|calls| - 1]) + last
  }

  /** The writes of a call trace, in order. */
  function WritesOf(calls: seq<OutputCall>): (r: seq<OutputCall>)
    ensures forall c :: c in r ==> c.WriteChar? && c in calls
  {
    if |calls| == 0 then []
    else
      var last := if calls[|calls| - 1].WriteChar? then [calls[|calls| - 1]] else [];
      WritesOf(calls[..|calls| - 1]) + last
  }

  /** A focused output passes every call through; an unfocused one passes
      exactly the writes, in their order. */
  lemma {:induction false} FocusedCallsFilter(calls: seq<OutputCall>)
    ensures FocusedCalls(true, calls) == calls
    ensures FocusedCalls(false, calls) == WritesOf(calls)
    decreases |calls|
  {
    if |calls| > 0 {
      FocusedCallsFilter(calls[..|calls| - 1]);
      assert calls == calls[..|calls| - 1] + [calls[|calls| - 1]];
    }
  }
}
