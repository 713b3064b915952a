/** A worked example of the double-width write of src/buffer.rs:309-320
    reaching the frame diff: a four-column row in which a wide face moves
    one column to the left. The diff sends two writes and no move; the line
    write as written panics on the second, the corrected one rebuilds the
    new row. */
module WideOrphan {
  import opened Common
  import opened Vectors
  import opened Styles
  import opened Buffer
  import opened Dummy
  import opened Terminal

  const RedStyle: Style := DefaultStyle.(foreground := Red)

  /** `a`, a red wide face, its continuation, `d`. */
  const OldRow: seq<Cell> := [LetterA, Char([Face], true, RedStyle), Continuation, Char("d", false, DefaultStyle)]

  /** The face at column 0, then `c`, `d`. */
  const NewRow: seq<Cell> := [WideFace, Continuation, Char("c", false, DefaultStyle), Char("d", false, DefaultStyle)]

  const Start: Tracker := Tracker(DefaultStyle, Vec2(0, 0))

  /** The diff of the row writes the face from the origin and then `c`,
      which the tracked position already points at, so no move is sent. */
  lemma OrphanRowOps()
    ensures RowOps(Start, 4, 0, OldRow, NewRow, 0)
      == DiffOut([Write([Face]), Write("c")], Tracker(DefaultStyle, Vec2(3, 0)))
  {
    assert StyleOps(DefaultStyle, DefaultStyle) == [];
    var t2 := Tracker(DefaultStyle, Vec2(2, 0));
    var t3 := Tracker(DefaultStyle, Vec2(3, 0));
    assert RowOps(t3, 4, 0, OldRow, NewRow, 3) == DiffOut([], t3);
    assert CellOps(t2, 4, CellPos(2, 0), OldRow[2], NewRow[2]) == DiffOut([Write("c")], t3);
    assert RowOps(t2, 4, 0, OldRow, NewRow, 2) == DiffOut([Write("c")], t3);
    assert RowOps(t2, 4, 0, OldRow, NewRow, 1) == DiffOut([Write("c")], t3);
    assert CellOps(Start, 4, CellPos(0, 0), OldRow[0], NewRow[0]) == DiffOut([Write([Face])], t2);
  }

  /** Replayed with the line write as written, the face leaves a space at
      column 1 and an orphaned continuation at column 2, and the write of
      `c` onto the orphan reaches `unreachable!()`. Replayed with the
      corrected write, the two writes give the new row. */
  lemma OrphanReplayPanics()
    ensures var w := ExampleWidth;
      var mid := LineWriteCharAsWritten(w, OldRow, Vec2(0, 0), Face, DefaultStyle);
      mid == Ok([WideFace, Char(" ", false, RedStyle), Continuation, Char("d", false, DefaultStyle)])
      && LineWriteCharAsWritten(w, mid.value, Vec2(2, 0), 'c', DefaultStyle) == Panic
    ensures var w := ExampleWidth;
      var mid := LineWriteChar(w, OldRow, Vec2(0, 0), Face, DefaultStyle);
      mid.Ok? && LineWriteChar(w, mid.value, Vec2(2, 0), 'c', DefaultStyle) == Ok(NewRow)
  {
    var w := ExampleWidth;
    assert w(Face) == Some(2) && w('c') == Some(1);
    var placed := [WideFace, Continuation, Continuation, Char("d", false, DefaultStyle)];
    assert OldRow[1 := Continuation][0 := Char([Face], true, DefaultStyle)] == placed;
    assert PlaceWide(OldRow, 0, Face, DefaultStyle) == Ok(placed);
    var mid := [WideFace, Char(" ", false, RedStyle), Continuation, Char("d", false, DefaultStyle)];
    assert placed[1 := Char(" ", false, RedStyle)] == mid;
    assert WriteWideAsWritten(OldRow, 0, Face, DefaultStyle) == Ok(mid);
    assert WriteNarrow(mid, 2, 'c', DefaultStyle) == Panic;
    var fixed := [WideFace, Continuation, Char(" ", false, RedStyle), Char("d", false, DefaultStyle)];
    assert placed[2 := Char(" ", false, RedStyle)] == fixed;
    assert WriteWide(OldRow, 0, Face, DefaultStyle) == Ok(fixed);
    assert fixed[2 := Char("c", false, DefaultStyle)] == NewRow;
    assert WriteNarrow(fixed, 2, 'c', DefaultStyle) == Ok(NewRow);
  }
}
