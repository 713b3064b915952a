/** Spans of text (src/elements/span.rs): one row of text written from the
    left edge, as wide as its characters. */
module Spans {
  import opened Common
  import opened Vectors
  import opened Styles
  import opened Outputs
  import opened Containers

  datatype Span = Span(text: string, style: Style)

  /** `span(text)`: the text in the default style. */
  function NewSpan(text: string): (s: Span)
    ensures s.text == text && s.style == DefaultStyle
  {
    Span(text, DefaultStyle)
  }

  /** `Span::draw`: the characters with a width, written from column 0 of
      row 0, the column moving right by each character's width with a
      plain `u16` addition. */
  function SpanDraw(w: WidthFn, s: Span): (calls: seq<OutputCall>)
    ensures forall call :: call in calls ==> call.WriteChar? && call.pos.y == 0 && call.style == s.style
  {
    Write(w, Vec2(0, 0), s.text, s.style)
  }

  /** The running `u16` sum of character widths, control characters
      counting 0. */
  function WidthFold(w: WidthFn, text: string, acc: U16): U16
    decreases |text|
  {
    if |text| == 0 then acc
    else WidthFold(w, text[1..], WrapAdd(acc, match w(text[0]) case Some(n) => n case None => 0))
  }

  lemma {:induction false} WidthFoldIsWrapped(w: WidthFn, text: string, acc: U16)
    ensures WidthFold(w, text, acc) == Wrap16(acc + TextWidth(w, text))
    decreases |text|
  {
    if |text| > 0 {
      var n: ColWidth := match w(text[0]) case Some(n) => n case None => 0;
      WidthFoldIsWrapped(w, text[1..], WrapAdd(acc, n));
      WrapAddThenMod(acc, n, TextWidth(w, text[1..]));
    }
  }

  /** `Span::width`: the text's width as both minimum and maximum, summed
      with `u16` wrap-around. */
  function SpanWidth(w: WidthFn, s: Span): (r: SizeRange)
    ensures r.min == r.max == Wrap16(TextWidth(w, s.text))
    ensures TextWidth(w, s.text) <= U16_MAX ==> r.min == TextWidth(w, s.text)
  {
    WidthFoldIsWrapped(w, s.text, 0);
    var width := WidthFold(w, s.text, 0);
    SizeRange(width, width)
  }

  /** `Span::height`: always one row. */
  function SpanHeight(s: Span): (r: SizeRange)
    ensures r.min == 1 && r.max == 1
  {
    SizeRange(1, 1)
  }

  /** Text written from column `x` stays within `x` plus its width. */
  lemma {:induction false} WriteWithin(w: WidthFn, x: U16, y: U16, text: string, style: Style)
    requires x + TextWidth(w, text) <= U16_MAX
    ensures forall call :: call in Write(w, Vec2(x, y), text, style) ==>
      w(call.c).Some? && x <= call.pos.x && call.pos.x + w(call.c).value <= x + TextWidth(w, text)
    decreases |text|
  {
    if |text| > 0 {
      match w(text[0])
      case None => WriteWithin(w, x, y, text[1..], style);
      case Some(n) => WriteWithin(w, x + n, y, text[1..], style);
    }
  }

  /** Drawing and width agree: a span no wider than a `u16` draws every
      glyph inside the columns its width reserves. */
  lemma SpanDrawsWithinWidth(w: WidthFn, s: Span)
    requires TextWidth(w, s.text) <= U16_MAX
    ensures forall call :: call in SpanDraw(w, s) ==>
      w(call.c).Some? && call.pos.x + w(call.c).value <= SpanWidth(w, s).max
  {
    WriteWithin(w, 0, 0, s.text, s.style);
  }
}
