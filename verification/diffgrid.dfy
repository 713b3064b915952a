/** The frame diff of the grid test in src/terminal.rs: a 16 by 8 screen
    on which `a` appears at the end of row 2 (the rest of `abcd` is cut
    off), `foo` overwrites the start of `Hello World!` in row 5, and a
    wide smiling face in row 6 moves one column to the right. The cells
    are written out as the grid writes leave them. */
module DiffGridScenario {
  import opened Common
  import opened Vectors
  import opened Styles
  import opened Buffer
  import opened Dummy
  import opened Terminal

  /** U+1F603, a double-width smiling face. */
  const Grin: char := '\U{1F603}'

  /** Red on blue, bold and underlined: the style of `abcd`. */
  const Bold: Style := Style(Red, Blue, Attributes(Intensity.Bold, false, true, false, false))

  /** The same in green: the style of `foo` and the moved face. */
  const Green: Style := Style(Color.Green, Blue, Attributes(Intensity.Bold, false, true, false, false))

  const BlankRow: seq<Cell> := [Blank, Blank, Blank, Blank, Blank, Blank, Blank, Blank,
     Blank, Blank, Blank, Blank, Blank, Blank, Blank, Blank]

  const HelloRow: seq<Cell> := [Blank, Blank, Char("H", false, DefaultStyle), Char("e", false, DefaultStyle), Char("l", false, DefaultStyle), Char("l", false, DefaultStyle), Char("o", false, DefaultStyle), Blank,
     Char("W", false, DefaultStyle), Char("o", false, DefaultStyle), Char("r", false, DefaultStyle), Char("l", false, DefaultStyle), Char("d", false, DefaultStyle), Char("!", false, DefaultStyle), Blank, Blank]

  const OldFaceRow: seq<Cell> := [Blank, Blank, Blank, Char([Grin], true, DefaultStyle), Continuation, Blank, Blank, Blank,
     Blank, Blank, Blank, Blank, Blank, Blank, Blank, Blank]

  const CutRow: seq<Cell> := [Blank, Blank, Blank, Blank, Blank, Blank, Blank, Blank,
     Blank, Blank, Blank, Blank, Blank, Blank, Blank, Char("a", false, Bold)]

  const FooRow: seq<Cell> := [Blank, Char("f", false, Green), Char("o", false, Green), Char("o", false, Green), Char("l", false, DefaultStyle), Char("l", false, DefaultStyle), Char("o", false, DefaultStyle), Blank,
     Char("W", false, DefaultStyle), Char("o", false, DefaultStyle), Char("r", false, DefaultStyle), Char("l", false, DefaultStyle), Char("d", false, DefaultStyle), Char("!", false, DefaultStyle), Blank, Blank]

  /** The face written at column 4 over the old continuation: the old face
      at column 3 becomes a space. */
  const NewFaceRow: seq<Cell> := [Blank, Blank, Blank, Blank, Char([Grin], true, Green), Continuation, Blank, Blank,
     Blank, Blank, Blank, Blank, Blank, Blank, Blank, Blank]

  const OldGrid: Grid := Grid(16, [BlankRow, BlankRow, BlankRow, BlankRow, BlankRow, HelloRow, OldFaceRow, BlankRow])

  const NewGrid: Grid := Grid(16, [BlankRow, BlankRow, CutRow, BlankRow, BlankRow, FooRow, NewFaceRow, BlankRow])

  /** `Buffer::from` a grid: no title and no cursor. */
  const OldBuffer: BufferState := BufferState([], OldGrid, None)

  const NewBuffer: BufferState := BufferState([], NewGrid, None)

  /** The register after `Terminal::new`: default style, cursor at the
      origin. */
  const Start: Tracker := Tracker(DefaultStyle, Vec2(0, 0))

  /** The operations of each changed run of cells, in the order the test
      lists them. */
  const BoldSetters: seq<Operation> :=
    [SetForeground(Red), SetBackground(Blue), SetIntensity(Intensity.Bold), SetUnderlined(true)]

  const CutOps: seq<Operation> := BoldSetters + [SetCursorPos(Vec2(15, 2)), Write("a")]

  const FOps: seq<Operation> := [SetForeground(Color.Green), SetCursorPos(Vec2(1, 5)), Write("f")]

  const FooOps: seq<Operation> := FOps + [Write("o"), Write("o")]

  const DefaultSetters: seq<Operation> :=
    [SetForeground(Default), SetBackground(Default), SetIntensity(Normal), SetUnderlined(false)]

  const SpaceOps: seq<Operation> := DefaultSetters + [SetCursorPos(Vec2(3, 6)), Write(" ")]

  const GreenSetters: seq<Operation> :=
    [SetForeground(Color.Green), SetBackground(Blue), SetIntensity(Intensity.Bold), SetUnderlined(true)]

  const FaceOps: seq<Operation> := GreenSetters + [Write([Grin])]

  /** The operations the test expects, in order: the runs above, then the
      reset of the background. */
  const ExpectedOps: seq<Operation> := CutOps + FooOps + SpaceOps + FaceOps + [SetBackground(Default)]

  /** The cell operations of the test, one changed cell each. */
  lemma CutCell()
    ensures CellOps(Start, 16, Vec2(15, 2), Blank, Char("a", false, Bold)) == DiffOut(CutOps, Tracker(Bold, Vec2(15, 2)))
  {
    assert StyleOps(DefaultStyle, Bold) == BoldSetters;
  }

  lemma FCell()
    ensures CellOps(Tracker(Bold, Vec2(15, 2)), 16, Vec2(1, 5), Blank, Char("f", false, Green))
      == DiffOut(FOps, Tracker(Green, Vec2(2, 5)))
  {
    assert StyleOps(Bold, Green) == [SetForeground(Color.Green)];
  }

  lemma OCell(x: nat, prev: char)
    requires x == 2 || x == 3
    requires prev != 'o'
    ensures CellOps(Tracker(Green, Vec2(x, 5)), 16, Vec2(x, 5), Char([prev], false, DefaultStyle), Char("o", false, Green))
      == DiffOut([Write("o")], Tracker(Green, Vec2(x + 1, 5)))
  {
    assert StyleOps(Green, Green) == [];
  }

  lemma SpaceCell()
    ensures CellOps(Tracker(Green, Vec2(4, 5)), 16, Vec2(3, 6), Char([Grin], true, DefaultStyle), Blank)
      == DiffOut(SpaceOps, Tracker(DefaultStyle, Vec2(4, 6)))
  {
    assert StyleOps(Green, DefaultStyle) == DefaultSetters;
  }

  lemma FaceCell()
    ensures CellOps(Tracker(DefaultStyle, Vec2(4, 6)), 16, Vec2(4, 6), Continuation, Char([Grin], true, Green))
      == DiffOut(FaceOps, Tracker(Green, Vec2(6, 6)))
  {
    assert StyleOps(DefaultStyle, Green) == GreenSetters;
  }

  /** Row 2 of the test: only the last cell changes, to `a`. */
  predicate CutRows(o: seq<Cell>, n: seq<Cell>)
  {
    |o| == 16 && |n| == 16 && (forall i :: 0 <= i < 15 ==> o[i] == n[i])
    && o[15] == Blank && n[15] == Char("a", false, Bold)
  }

  /** Row 5 of the test: `foo` over ` He`, nothing else changed. */
  predicate FooRows(o: seq<Cell>, n: seq<Cell>)
  {
    |o| == 16 && |n| == 16 && o[0] == n[0] && (forall i :: 4 <= i < 16 ==> o[i] == n[i])
    && o[1] == Blank && n[1] == Char("f", false, Green)
    && o[2] == Char("H", false, DefaultStyle) && n[2] == Char("o", false, Green)
    && o[3] == Char("e", false, DefaultStyle) && n[3] == Char("o", false, Green)
  }

  /** Row 6 of the test: the face at column 3 moved to column 4. */
  predicate FaceRows(o: seq<Cell>, n: seq<Cell>)
  {
    |o| == 16 && |n| == 16 && (forall i :: 0 <= i < 3 ==> o[i] == n[i]) && (forall i :: 6 <= i < 16 ==> o[i] == n[i])
    && o[3] == Char([Grin], true, DefaultStyle) && n[3] == Blank
    && o[4] == Continuation && n[4] == Char([Grin], true, Green)
    && n[5] == Continuation
  }

  /** The test's rows have those shapes. */
  lemma CutScenarioRows()
    ensures CutRows(BlankRow, CutRow)
  {
  }

  lemma FooScenarioRows()
    ensures FooRows(HelloRow, FooRow)
  {
  }

  lemma FaceScenarioRows()
    ensures FaceRows(OldFaceRow, NewFaceRow)
  {
  }

  /** Row 2: the four setters of the new style, a move to column 15 and the
      write of `a`; the tracked position stops at the last column. */
  lemma CutRowOps(o: seq<Cell>, n: seq<Cell>)
    requires CutRows(o, n)
    ensures RowOps(Start, 16, 2, o, n, 0) == DiffOut(CutOps, Tracker(Bold, Vec2(15, 2)))
  {
    var t := Tracker(Bold, Vec2(15, 2));
    assert RowOps(Start, 16, 2, o, n, 15) == DiffOut(CutOps, t) by {
      CutCell();
      RowOpsCons(Start, 16, 2, o, n, 15, DiffOut(CutOps, t), DiffOut([], t));
      assert CutOps + [] == CutOps;
    }
    SameCellsEmitNothing(Start, 16, 2, o, n, 0, 15);
  }

  /** Column 3 on of row 5: the second `o`, where the first left the
      tracked position. */
  lemma SecondOOps(o: seq<Cell>, n: seq<Cell>)
    requires FooRows(o, n)
    ensures RowOps(Tracker(Green, Vec2(3, 5)), 16, 5, o, n, 3) == DiffOut([Write("o")], Tracker(Green, Vec2(4, 5)))
  {
    var t3 := Tracker(Green, Vec2(4, 5));
    SameCellsEmitNothing(t3, 16, 5, o, n, 4, 16);
    OCell(3, 'e');
    RowOpsCons(Tracker(Green, Vec2(3, 5)), 16, 5, o, n, 3, DiffOut([Write("o")], t3), DiffOut([], t3));
  }

  /** Column 2 on of row 5: both `o`s. */
  lemma OoOps(o: seq<Cell>, n: seq<Cell>)
    requires FooRows(o, n)
    ensures RowOps(Tracker(Green, Vec2(2, 5)), 16, 5, o, n, 2) == DiffOut([Write("o"), Write("o")], Tracker(Green, Vec2(4, 5)))
  {
    SecondOOps(o, n);
    OCell(2, 'H');
    RowOpsCons(Tracker(Green, Vec2(2, 5)), 16, 5, o, n, 2,
      DiffOut([Write("o")], Tracker(Green, Vec2(3, 5))), DiffOut([Write("o")], Tracker(Green, Vec2(4, 5))));
  }

  /** Column 1 on of row 5: the three letters. */
  lemma LettersOps(o: seq<Cell>, n: seq<Cell>)
    requires FooRows(o, n)
    ensures RowOps(Tracker(Bold, Vec2(15, 2)), 16, 5, o, n, 1) == DiffOut(FooOps, Tracker(Green, Vec2(4, 5)))
  {
    var t3 := Tracker(Green, Vec2(4, 5));
    OoOps(o, n);
    FCell();
    RowOpsCons(Tracker(Bold, Vec2(15, 2)), 16, 5, o, n, 1,
      DiffOut(FOps, Tracker(Green, Vec2(2, 5))), DiffOut([Write("o"), Write("o")], t3));
  }

  /** Row 5: one setter, a move to column 1, and the three letters. */
  lemma FooRowOps(o: seq<Cell>, n: seq<Cell>)
    requires FooRows(o, n)
    ensures RowOps(Tracker(Bold, Vec2(15, 2)), 16, 5, o, n, 0) == DiffOut(FooOps, Tracker(Green, Vec2(4, 5)))
  {
    LettersOps(o, n);
    SameCellsEmitNothing(Tracker(Bold, Vec2(15, 2)), 16, 5, o, n, 0, 1);
  }

  /** Column 5 on of row 6: the face's continuation and the unchanged cells
      need nothing. */
  lemma AfterFaceOps(o: seq<Cell>, n: seq<Cell>)
    requires FaceRows(o, n)
    ensures RowOps(Tracker(Green, Vec2(6, 6)), 16, 6, o, n, 5) == DiffOut([], Tracker(Green, Vec2(6, 6)))
  {
    var t2 := Tracker(Green, Vec2(6, 6));
    SameCellsEmitNothing(t2, 16, 6, o, n, 6, 16);
    RowOpsCons(t2, 16, 6, o, n, 5, DiffOut([], t2), DiffOut([], t2));
  }

  /** Column 4 on of row 6: the face in the new style, with no move. */
  lemma MovedFaceOps(o: seq<Cell>, n: seq<Cell>)
    requires FaceRows(o, n)
    ensures RowOps(Tracker(DefaultStyle, Vec2(4, 6)), 16, 6, o, n, 4) == DiffOut(FaceOps, Tracker(Green, Vec2(6, 6)))
  {
    var t2 := Tracker(Green, Vec2(6, 6));
    AfterFaceOps(o, n);
    FaceCell();
    RowOpsCons(Tracker(DefaultStyle, Vec2(4, 6)), 16, 6, o, n, 4, DiffOut(FaceOps, t2), DiffOut([], t2));
    assert FaceOps + [] == FaceOps;
  }

  /** Row 6: the space left by the old face is written in the default style
      after a move, then the face in the new style with no move. */
  lemma FaceRowOps(o: seq<Cell>, n: seq<Cell>)
    requires FaceRows(o, n)
    ensures RowOps(Tracker(Green, Vec2(4, 5)), 16, 6, o, n, 0) == DiffOut(SpaceOps + FaceOps, Tracker(Green, Vec2(6, 6)))
  {
    var t0 := Tracker(Green, Vec2(4, 5));
    var t2 := Tracker(Green, Vec2(6, 6));
    MovedFaceOps(o, n);
    SpaceCell();
    RowOpsCons(t0, 16, 6, o, n, 3, DiffOut(SpaceOps, Tracker(DefaultStyle, Vec2(4, 6))), DiffOut(FaceOps, t2));
    SameCellsEmitNothing(t0, 16, 6, o, n, 0, 3);
  }

  /** Rows 5 on: the letters, then the face. */
  lemma LowerRowsOps()
    ensures GridOps(Tracker(Bold, Vec2(15, 2)), 16, OldGrid.lines, NewGrid.lines, 5)
      == DiffOut(FooOps + (SpaceOps + FaceOps), Tracker(Green, Vec2(6, 6)))
  {
    var o, n := OldGrid.lines, NewGrid.lines;
    var t5 := Tracker(Green, Vec2(4, 5));
    var t6 := Tracker(Green, Vec2(6, 6));
    FooScenarioRows();
    FaceScenarioRows();
    assert GridOps(t5, 16, o, n, 6) == DiffOut(SpaceOps + FaceOps, t6) by {
      SameRowsEmitNothing(t6, 16, o, n, 7, 8);
      FaceRowOps(OldFaceRow, NewFaceRow);
      GridOpsCons(t5, 16, o, n, 6, DiffOut(SpaceOps + FaceOps, t6), DiffOut([], t6));
      assert SpaceOps + FaceOps + [] == SpaceOps + FaceOps;
    }
    FooRowOps(HelloRow, FooRow);
    GridOpsCons(Tracker(Bold, Vec2(15, 2)), 16, o, n, 5, DiffOut(FooOps, t5), DiffOut(SpaceOps + FaceOps, t6));
  }

  /** The diff of the test's buffers sends exactly the operations the test
      expects, and, as no cursor is shown, leaves the tracked position just
      after the face. */
  lemma DiffGridOps()
    ensures DiffAsWritten(OldBuffer, NewBuffer, Start).ops == ExpectedOps
    ensures Diff(OldBuffer, NewBuffer, Start) == DiffAsWritten(OldBuffer, NewBuffer, Start)
    ensures DiffAsWritten(OldBuffer, NewBuffer, Start).tracker == Tracker(Green.(background := Default), Vec2(6, 6))
  {
    var o, n := OldGrid.lines, NewGrid.lines;
    var t2 := Tracker(Bold, Vec2(15, 2));
    var t6 := Tracker(Green, Vec2(6, 6));
    var lower := FooOps + (SpaceOps + FaceOps);
    assert GridOps(Start, 16, o, n, 2) == DiffOut(CutOps + lower, t6) by {
      LowerRowsOps();
      SameRowsEmitNothing(t2, 16, o, n, 3, 5);
      CutScenarioRows();
      CutRowOps(BlankRow, CutRow);
      GridOpsCons(Start, 16, o, n, 2, DiffOut(CutOps, t2), DiffOut(lower, t6));
    }
    SameRowsEmitNothing(Start, 16, o, n, 0, 2);
    assert CutOps + lower + [SetBackground(Default)] == ExpectedOps;
  }
}
