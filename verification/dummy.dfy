/** The dummy backend (src/backend/dummy.rs): it records every operation it
    receives and interprets it on a terminal buffer of its own, which is what
    gives the frame diff its meaning. */
module Dummy {
  import opened Common
  import opened Vectors
  import opened Styles
  import opened Inputs
  import opened Buffer
  import O = Outputs

  /** One call on a backend, as the dummy records it. */
  datatype Operation =
    | SetTitle(title: string)
    | HideCursor
    | ShowCursor
    | SetCursorShape(shape: O.CursorShape)
    | SetCursorBlinking(blinking: bool)
    | SetCursorPos(pos: Vec2<U16>)
    | SetForeground(foreground: Color)
    | SetBackground(background: Color)
    | SetIntensity(intensity: Intensity)
    | SetItalic(italic: bool)
    | SetUnderlined(underlined: bool)
    | SetBlinking(textBlinking: bool)
    | SetCrossedOut(crossedOut: bool)
    | Write(text: string)
    | Flush

  /** An event the backend delivers to the terminal. */
  datatype TerminalEvent = InputEvent(input: Input) | Resize(size: Vec2<U16>)

  /** The dummy's state. `cursorPos` is the drawing position, kept even
      while the buffer's cursor is hidden. */
  datatype DummyState = DummyState(
    operations: seq<Operation>,
    events: seq<TerminalEvent>,
    title: string,
    buffer: BufferState,
    cursorPos: Vec2<U16>,
    style: Style)

  /** `Dummy::new`: a blank grid of `size`, no cursor, drawing at the origin
      with the default style. */
  function NewDummy(size: Vec2<U16>): (d: DummyState)
    ensures d.operations == [] && d.events == [] && d.title == []
    ensures d.buffer == BufferState([], NewGrid(size), None)
    ensures d.cursorPos == Vec2(0, 0) && d.style == DefaultStyle
  {
    DummyState([], [], [], BufferState([], NewGrid(size), None), Vec2(0, 0), DefaultStyle)
  }

  /** The cursor of the buffer follows the drawing position while shown. */
  predicate CursorFollows(d: DummyState)
  {
    d.buffer.cursor.Some? ==> d.buffer.cursor.value.pos == d.cursorPos
  }

  /** `Dummy::write`: the text goes through `Output::write` at the drawing
      position, then the drawing position moves right by the text's width,
      saturating and capped at the grid width (not at width - 1). */
  function WriteText(w: O.WidthFn, d: DummyState, text: string): (r: Result<DummyState>)
    ensures r.Ok? ==> r.value.cursorPos.y == d.cursorPos.y
    ensures r.Ok? ==> r.value.cursorPos.x == Min(Min(d.cursorPos.x + O.TextWidth(w, text) % 0x10000, U16_MAX), d.buffer.grid.width)
    ensures r.Ok? ==> r.value.style == d.style && r.value.title == d.title && r.value.events == d.events
    ensures r.Ok? && d.buffer.cursor.Some? ==> r.value.buffer.cursor == Some(d.buffer.cursor.value.(pos := r.value.cursorPos))
    ensures r.Ok? && d.buffer.cursor.None? ==> r.value.buffer.cursor.None?
    ensures r.Ok? <==> BufferWrite(w, d.buffer, d.cursorPos, text, d.style).Ok?
    ensures r.Ok? ==> r.value.buffer.grid == BufferWrite(w, d.buffer, d.cursorPos, text, d.style).value.grid
  {
    match BufferWrite(w, d.buffer, d.cursorPos, text, d.style)
    case Panic => Panic
    case Ok(b) =>
      var textWidth: U16 := O.TextWidth(w, text) % 0x10000;
      var pos := Vec2(Min(SatAdd(d.cursorPos.x, textWidth), b.grid.width), d.cursorPos.y);
      var cursor := match b.cursor case Some(c) => Some(c.(pos := pos)) case None => None;
      Ok(d.(buffer := b.(cursor := cursor), cursorPos := pos))
  }

  /** The effect of one operation on everything but the operation log. An
      unwrap of a hidden cursor is a panic. */
  function Interpret(w: O.WidthFn, d: DummyState, op: Operation): Result<DummyState>
  {
    match op
    case SetTitle(t) => Ok(d.(title := t))
    case HideCursor => Ok(d.(buffer := d.buffer.(cursor := None)))
    case ShowCursor => Ok(d.(buffer := d.buffer.(cursor := Some(O.Cursor(O.Block, false, d.cursorPos)))))
    case SetCursorShape(s) =>
      if d.buffer.cursor.None? then Panic
      else Ok(d.(buffer := d.buffer.(cursor := Some(d.buffer.cursor.value.(shape := s)))))
    case SetCursorBlinking(b) =>
      if d.buffer.cursor.None? then Panic
      else Ok(d.(buffer := d.buffer.(cursor := Some(d.buffer.cursor.value.(blinking := b)))))
    case SetCursorPos(p) =>
      var cursor := match d.buffer.cursor case Some(c) => Some(c.(pos := p)) case None => None;
      Ok(d.(buffer := d.buffer.(cursor := cursor), cursorPos := p))
    case SetForeground(c) => Ok(d.(style := d.style.(foreground := c)))
    case SetBackground(c) => Ok(d.(style := d.style.(background := c)))
    case SetIntensity(i) => Ok(d.(style := d.style.(attributes := d.style.attributes.(intensity := i))))
    case SetItalic(b) => Ok(d.(style := d.style.(attributes := d.style.attributes.(italic := b))))
    case SetUnderlined(b) => Ok(d.(style := d.style.(attributes := d.style.attributes.(underlined := b))))
    case SetBlinking(b) => Ok(d.(style := d.style.(attributes := d.style.attributes.(blinking := b))))
    case SetCrossedOut(b) => Ok(d.(style := d.style.(attributes := d.style.attributes.(crossedOut := b))))
    case Write(text) => WriteText(w, d, text)
    case Flush => Ok(d)
  }

  /** One `Bound` call on the dummy: the operation is logged, then
      interpreted. */
  function Apply(w: O.WidthFn, d: DummyState, op: Operation): (r: Result<DummyState>)
    ensures r.Ok? <==> Interpret(w, d, op).Ok?
    ensures r.Ok? ==> r.value.operations == d.operations + [op]
  {
    match Interpret(w, d, op)
    case Ok(d') => Ok(d'.(operations := d.operations + [op]))
    case Panic => Panic
  }

  /** A sequence of calls, in order, stopping at the first panic. */
  function Replay(w: O.WidthFn, d: DummyState, ops: seq<Operation>): Result<DummyState>
    decreases |ops|
  {
    if |ops| == 0 then Ok(d)
    else match Apply(w, d, ops[0])
      case Ok(d') => Replay(w, d', ops[1..])
      case Panic => Panic
  }

  /** Every call appends exactly its own operation, so a replay logs the
      whole sequence in order. */
  lemma {:induction false} ReplayLogsInOrder(w: O.WidthFn, d: DummyState, ops: seq<Operation>)
    requires Replay(w, d, ops).Ok?
    ensures Replay(w, d, ops).value.operations == d.operations + ops
    decreases |ops|
  {
    if |ops| > 0 {
      var d' := Apply(w, d, ops[0]).value;
      ReplayLogsInOrder(w, d', ops[1..]);
      assert d.operations + [ops[0]] + ops[1..] == d.operations + ops;
    }
  }

  /** Replaying two sequences one after the other is replaying their
      concatenation. */
  lemma {:induction false} ReplayAppend(w: O.WidthFn, d: DummyState, a: seq<Operation>, b: seq<Operation>)
    ensures Replay(w, d, a + b) == (match Replay(w, d, a) case Ok(d') => Replay(w, d', b) case Panic => Panic)
    decreases |a|
  {
    if |a| > 0 {
      assert (a + b)[0] == a[0] && (a + b)[1..] == a[1..] + b;
      if Apply(w, d, a[0]).Ok? {
        ReplayAppend(w, Apply(w, d, a[0]).value, a[1..], b);
      }
    } else {
      assert a + b == b;
    }
  }

  /** Each style setter changes only its own field of the style, and
      nothing else of the dummy. */
  lemma StyleSettersChangeOneField(w: O.WidthFn, d: DummyState, c: Color, i: Intensity, b: bool)
    ensures Interpret(w, d, SetForeground(c)) == Ok(d.(style := d.style.(foreground := c)))
    ensures Interpret(w, d, SetBackground(c)) == Ok(d.(style := d.style.(background := c)))
    ensures Interpret(w, d, SetIntensity(i)) == Ok(d.(style := d.style.(attributes := d.style.attributes.(intensity := i))))
    ensures Interpret(w, d, SetItalic(b)) == Ok(d.(style := d.style.(attributes := d.style.attributes.(italic := b))))
    ensures Interpret(w, d, SetUnderlined(b)) == Ok(d.(style := d.style.(attributes := d.style.attributes.(underlined := b))))
    ensures Interpret(w, d, SetBlinking(b)) == Ok(d.(style := d.style.(attributes := d.style.attributes.(blinking := b))))
    ensures Interpret(w, d, SetCrossedOut(b)) == Ok(d.(style := d.style.(attributes := d.style.attributes.(crossedOut := b))))
  {
  }

  /** `set_cursor_pos` moves the drawing position, and the cursor with it
      when it is shown. */
  lemma SetCursorPosMoves(w: O.WidthFn, d: DummyState, p: Vec2<U16>)
    ensures Interpret(w, d, SetCursorPos(p)).Ok?
    ensures Interpret(w, d, SetCursorPos(p)).value.cursorPos == p
    ensures d.buffer.cursor.Some? ==> Interpret(w, d, SetCursorPos(p)).value.buffer.cursor == Some(d.buffer.cursor.value.(pos := p))
    ensures d.buffer.cursor.None? ==> Interpret(w, d, SetCursorPos(p)).value.buffer.cursor.None?
    ensures Interpret(w, d, SetCursorPos(p)).value.buffer.grid == d.buffer.grid
  {
  }

  /** `hide_cursor` removes the cursor; `show_cursor` shows a steady block
      at the drawing position; shape and blinking need a shown cursor. */
  lemma CursorVisibility(w: O.WidthFn, d: DummyState, s: O.CursorShape, b: bool)
    ensures Interpret(w, d, HideCursor) == Ok(d.(buffer := d.buffer.(cursor := None)))
    ensures Interpret(w, d, ShowCursor).Ok?
      && Interpret(w, d, ShowCursor).value.buffer.cursor == Some(O.Cursor(O.Block, false, d.cursorPos))
    ensures Interpret(w, d, SetCursorShape(s)).Ok? <==> d.buffer.cursor.Some?
    ensures Interpret(w, d, SetCursorBlinking(b)).Ok? <==> d.buffer.cursor.Some?
    ensures d.buffer.cursor.Some? ==>
      Interpret(w, d, SetCursorShape(s)).value.buffer.cursor == Some(d.buffer.cursor.value.(shape := s))
      && Interpret(w, d, SetCursorBlinking(b)).value.buffer.cursor == Some(d.buffer.cursor.value.(blinking := b))
  {
  }

  /** Every operation keeps the shown cursor at the drawing position. */
  lemma InterpretKeepsCursorFollowing(w: O.WidthFn, d: DummyState, op: Operation)
    requires CursorFollows(d) && Interpret(w, d, op).Ok?
    ensures CursorFollows(Interpret(w, d, op).value)
  {
  }

  /** The height the dummy asks the grid for on a resize, and the row to
      anchor it at. */
  datatype HeightRequest = HeightRequest(height: U16, anchor: U16)

  datatype ReadOutcome =
    | Pending
    | Ready(event: TerminalEvent, next: DummyState, heightRequest: Option<HeightRequest>)

  /** `read_event`: nothing pending without events; otherwise the front event
      is popped, and a resize resizes the grid's width to `size.x` and asks
      for height `size.x` (not `size.y`) anchored at the drawing row. The
      anchored height resize itself is not part of this model, so it is
      returned as a request. */
  function ReadEvent(d: DummyState): (r: ReadOutcome)
    ensures d.events == [] <==> r.Pending?
    ensures r.Ready? ==> r.event == d.events[0] && r.next.events == d.events[1..]
    ensures r.Ready? && r.event.InputEvent? ==> r.next == d.(events := d.events[1..]) && r.heightRequest.None?
    ensures r.Ready? && r.event.Resize? ==>
      r.next.buffer.grid == GridResizeWidth(d.buffer.grid, r.event.size.x)
      && r.heightRequest == Some(HeightRequest(r.event.size.x, d.cursorPos.y))
  {
    if |d.events| == 0 then Pending
    else
      var event := d.events[0];
      var popped := d.(events := d.events[1..]);
      match event
      case InputEvent(_) => Ready(event, popped, None)
      case Resize(size) =>
        Ready(event, popped.(buffer := popped.buffer.(grid := GridResizeWidth(popped.buffer.grid, size.x))),
              Some(HeightRequest(size.x, d.cursorPos.y)))
  }

  /** `read_event` with the resize asking for the event's own height. */
  function ReadEventCorrected(d: DummyState): (r: ReadOutcome)
    ensures d.events == [] <==> r.Pending?
    ensures r.Ready? ==> r.event == d.events[0] && r.next.events == d.events[1..]
    ensures r.Ready? && r.event.InputEvent? ==> r.next == d.(events := d.events[1..]) && r.heightRequest.None?
    ensures r.Ready? && r.event.Resize? ==>
      r.next.buffer.grid == GridResizeWidth(d.buffer.grid, r.event.size.x)
      && r.heightRequest == Some(HeightRequest(r.event.size.y, d.cursorPos.y))
  {
    match ReadEvent(d)
    case Pending => Pending
    case Ready(event, next, request) =>
      Ready(event, next, if event.Resize? then Some(HeightRequest(event.size.y, d.cursorPos.y)) else request)
  }

  /** The two agree except on a resize to a size that is not square. */
  lemma ReadEventsAgree(d: DummyState)
    ensures ReadEvent(d) == ReadEventCorrected(d)
            <==> d.events == [] || d.events[0].InputEvent? || d.events[0].size.x == d.events[0].size.y
  {
  }

  /** A dummy resized to 5 columns by 3 rows asks its grid for 5 rows. */
  lemma ReadEventHeightFromWidth()
    ensures var d := NewDummy(Vec2(5, 3)).(events := [Resize(Vec2(5, 3))]);
      ReadEvent(d).heightRequest == Some(HeightRequest(5, 0))
      && ReadEventCorrected(d).heightRequest == Some(HeightRequest(3, 0))
  {
  }
}
