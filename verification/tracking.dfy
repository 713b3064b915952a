/** A worked example of the tracked cursor going stale: two frames on a
    one-row, two-column screen. The first frame only shows the cursor at
    column 1; the second writes `a` at column 0. */
module CursorTracking {
  import opened Common
  import opened Vectors
  import opened Styles
  import opened Outputs
  import opened Buffer
  import opened Dummy
  import opened Terminal
  import R = RoundTrip

  const BlankRow: Grid := Grid(2, [[Blank, Blank]])
  const RowA: Grid := Grid(2, [[LetterA, Blank]])
  const Shown: Cursor := Cursor(Block, false, Vec2(1, 0))

  const Frame0: BufferState := BufferState([], BlankRow, None)
  const Frame1: BufferState := BufferState([], BlankRow, Some(Shown))
  const Frame2: BufferState := BufferState([], RowA, Some(Shown))

  /** The terminal's register at start-up: default style, cursor at the
      origin. */
  const Start: Tracker := Tracker(DefaultStyle, Vec2(0, 0))

  /** A dummy showing `Frame0`, drawing at the origin. */
  const Screen0: DummyState := DummyState([], [], [], Frame0, Vec2(0, 0), DefaultStyle)

  /** The operations of the first frame: the background reset, then the
      cursor shown, shaped and moved to column 1. */
  const FrameOneOps: seq<Operation> :=
    [SetBackground(Default), ShowCursor, SetCursorShape(Block), SetCursorBlinking(false), SetCursorPos(Vec2(1, 0))]

  /** The first frame sends the same operations either way; as written the
      register still says the cursor is at the origin, corrected it says
      column 1. */
  lemma FrameOne()
    ensures DiffAsWritten(Frame0, Frame1, Start) == DiffOut(FrameOneOps, Start)
    ensures Diff(Frame0, Frame1, Start) == DiffOut(FrameOneOps, Tracker(DefaultStyle, Vec2(1, 0)))
  {
    EqualGridsEmitNothing(Start, 2, BlankRow.lines, 0);
  }

  /** The dummy after the first frame: the cursor is shown at column 1, and
      that is where it draws. */
  lemma ReplayFrameOne(w: WidthFn)
    ensures Replay(w, Screen0, FrameOneOps)
      == Ok(Screen0.(operations := FrameOneOps, buffer := Frame1, cursorPos := Vec2(1, 0)))
  {
    var ops := FrameOneOps;
    var c0 := Cursor(Block, false, Vec2(0, 0));
    var d1 := Screen0.(operations := ops[..1]);
    var d2 := d1.(operations := ops[..2], buffer := Frame0.(cursor := Some(c0)));
    var d3 := d2.(operations := ops[..3]);
    var d4 := d3.(operations := ops[..4]);
    var d5 := d4.(operations := ops, buffer := Frame1, cursorPos := Vec2(1, 0));
    assert ops[..1] == [] + [ops[0]];
    assert ops[..2] == ops[..1] + [ops[1]];
    assert ops[..3] == ops[..2] + [ops[2]];
    assert ops[..4] == ops[..3] + [ops[3]];
    assert ops == ops[..4] + [ops[4]];
    assert Apply(w, d4, ops[4]) == Ok(d5);
    assert Replay(w, d4, ops[4..]) == Ok(d5) by { R.ReplayOne(w, d4, ops[4]); assert ops[4..] == [ops[4]]; }
    assert Apply(w, d3, ops[3]) == Ok(d4);
    assert Apply(w, d2, ops[2]) == Ok(d3);
    assert Apply(w, d1, ops[1]) == Ok(d2);
    assert Apply(w, Screen0, ops[0]) == Ok(d1);
    assert ops[3..][1..] == ops[4..] && ops[2..][1..] == ops[3..] && ops[1..][1..] == ops[2..] && ops[1..] == ops[1..];
  }

  /** Two frames replayed one after the other. */
  function ReplayFrames(w: WidthFn, d: DummyState, first: seq<Operation>, second: seq<Operation>): Result<DummyState>
  {
    match Replay(w, d, first)
    case Ok(e) => Replay(w, e, second)
    case Panic => Panic
  }

  /** The dummy after the first frame. */
  const Screen1: DummyState := Screen0.(operations := FrameOneOps, buffer := Frame1, cursorPos := Vec2(1, 0))

  /** The second frame as written sends only the write of `a`: the stale
      register says the cursor already stands at column 0. Corrected, the
      register says column 1, so a move to column 0 comes first. */
  lemma FrameTwo()
    ensures DiffAsWritten(Frame1, Frame2, Start).ops == [Write("a"), SetBackground(Default)]
    ensures Diff(Frame1, Frame2, Tracker(DefaultStyle, Vec2(1, 0))).ops
      == [SetCursorPos(Vec2(0, 0)), Write("a"), SetBackground(Default)]
  {
    StyleOpsOnlySetters(DefaultStyle, DefaultStyle);
    assert StyleOps(DefaultStyle, DefaultStyle) + [] == [];
    var moved := Tracker(DefaultStyle, Vec2(1, 0));
    assert CellOps(Start, 2, CellPos(0, 0), Blank, LetterA) == DiffOut([Write("a")], moved);
    assert RowOps(moved, 2, 0, [Blank, Blank], [LetterA, Blank], 1) == DiffOut([], moved);
    assert GridOps(Start, 2, BlankRow.lines, RowA.lines, 0) == DiffOut([Write("a")], moved);
  }

  /** A one-character write at the drawing position of a screen whose cursor
      follows it. */
  lemma ReplayWriteA(w: WidthFn, d: DummyState, x: nat)
    requires w('a') == Some(1) && x < 2
    requires d.buffer == Frame1.(cursor := Some(Shown.(pos := Vec2(x, 0)))) && d.cursorPos == Vec2(x, 0) && d.style == DefaultStyle
    ensures Replay(w, d, [Write("a")])
      == Ok(d.(buffer := d.buffer.(grid := Grid(2, [[Blank, Blank][x := LetterA]]),
                                   cursor := Some(Shown.(pos := Vec2(x + 1, 0)))),
               cursorPos := Vec2(x + 1, 0), operations := d.operations + [Write("a")]))
  {
    R.ReplayWriteGlyph(w, d, 'a', 1);
    var line := [Blank, Blank][x := LetterA];
    assert [[Blank, Blank]][0 := line] == [line];
    assert LineWriteChar(w, [Blank, Blank], Vec2(x, 0), 'a', DefaultStyle) == Ok([Blank, Blank][x := LetterA]);
  }

  /** The second frame as written, on the dummy after the first: `a` lands
      at column 1. */
  lemma ReplayFrameTwoAsWritten(w: WidthFn)
    requires w('a') == Some(1)
    ensures var s := Replay(w, Screen1, [Write("a"), SetBackground(Default)]);
      s.Ok? && s.value.buffer.grid == Grid(2, [[Blank, LetterA]])
  {
    var bg := [SetBackground(Default)];
    ReplayWriteA(w, Screen1, 1);
    var a1 := Replay(w, Screen1, [Write("a")]).value;
    R.ReplayOne(w, a1, SetBackground(Default));
    Dummy.ReplayAppend(w, Screen1, [Write("a")], bg);
    assert [Write("a")] + bg == [Write("a"), SetBackground(Default)];
    assert [Blank, Blank][1 := LetterA] == [Blank, LetterA];
  }

  /** The corrected second frame, on the dummy after the first: the dummy
      shows `Frame2` and draws at column 1. */
  lemma ReplayFrameTwoCorrected(w: WidthFn)
    requires w('a') == Some(1)
    ensures var s := Replay(w, Screen1, [SetCursorPos(Vec2(0, 0)), Write("a"), SetBackground(Default)]);
      s.Ok? && s.value.buffer == Frame2 && s.value.cursorPos == Vec2(1, 0)
  {
    var bg := [SetBackground(Default)];
    var m := Screen1.(buffer := Frame1.(cursor := Some(Shown.(pos := Vec2(0, 0)))), cursorPos := Vec2(0, 0),
                      operations := Screen1.operations + [SetCursorPos(Vec2(0, 0))]);
    R.ReplayOne(w, Screen1, SetCursorPos(Vec2(0, 0)));
    ReplayWriteA(w, m, 0);
    var c1 := Replay(w, m, [Write("a")]).value;
    R.ReplayOne(w, c1, SetBackground(Default));
    Dummy.ReplayAppend(w, m, [Write("a")], bg);
    Dummy.ReplayAppend(w, Screen1, [SetCursorPos(Vec2(0, 0))], [Write("a")] + bg);
    assert [SetCursorPos(Vec2(0, 0))] + ([Write("a")] + bg) == [SetCursorPos(Vec2(0, 0)), Write("a"), SetBackground(Default)];
    assert [Blank, Blank][0 := LetterA] == [LetterA, Blank];
  }

  /** The finding: replaying both frames as written draws `a` at column 1,
      where the cursor was left, instead of column 0; with the register
      corrected the dummy shows the second frame exactly, drawing where the
      register says. */
  lemma StaleTrackerMisplacesWrite(w: WidthFn)
    requires w('a') == Some(1)
    ensures var r1 := DiffAsWritten(Frame0, Frame1, Start);
      var r2 := DiffAsWritten(Frame1, Frame2, r1.tracker);
      var s := ReplayFrames(w, Screen0, r1.ops, r2.ops);
      s.Ok? && s.value.buffer.grid == Grid(2, [[Blank, LetterA]]) && s.value.buffer.grid != Frame2.grid
    ensures var r1 := Diff(Frame0, Frame1, Start);
      var r2 := Diff(Frame1, Frame2, r1.tracker);
      var s := ReplayFrames(w, Screen0, r1.ops, r2.ops);
      s.Ok? && s.value.buffer == Frame2 && s.value.cursorPos == r2.tracker.cursorPos
  {
    FrameOne();
    FrameTwo();
    ReplayFrameOne(w);
    ReplayFrameTwoAsWritten(w);
    ReplayFrameTwoCorrected(w);
    assert Grid(2, [[Blank, LetterA]]).lines[0][0] != Frame2.grid.lines[0][0];
  }
}
