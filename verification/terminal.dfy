/** The frame diff of the terminal (src/terminal.rs): the old and the new
    buffer are compared cell by cell, and the differences become backend
    operations, threaded through a register of the style last written with
    and the tracked cursor position. */
module Terminal {
  import opened Common
  import opened Vectors
  import opened Styles
  import opened Buffer
  import opened Dummy
  import O = Outputs

  /** What the terminal remembers about the backend between operations. */
  datatype Tracker = Tracker(style: Style, cursorPos: Vec2<U16>)

  /** The operations of a diff and the tracker after them. */
  datatype DiffOut = DiffOut(ops: seq<Operation>, tracker: Tracker)

  /** A style setter call, for any field. */
  predicate IsStyleOp(op: Operation)
  {
    op.SetForeground? || op.SetBackground? || op.SetIntensity? || op.SetItalic?
    || op.SetUnderlined? || op.SetBlinking? || op.SetCrossedOut?
  }

  /** A one-operation sequence if `b` holds, and nothing otherwise. */
  function Setter(b: bool, op: Operation): (ops: seq<Operation>)
    ensures b ==> ops == [op]
    ensures !b ==> ops == []
  {
    if b then [op] else []
  }

  /** The setters a cell needs: one per field of `st` that differs from the
      register, in the order foreground, background, intensity, italic,
      underlined, blinking, crossed out. */
  function StyleOps(reg: Style, st: Style): (ops: seq<Operation>)
  {
    var a, b := reg.attributes, st.attributes;
    Setter(reg.foreground != st.foreground, SetForeground(st.foreground))
    + Setter(reg.background != st.background, SetBackground(st.background))
    + Setter(a.intensity != b.intensity, SetIntensity(b.intensity))
    + Setter(a.italic != b.italic, SetItalic(b.italic))
    + Setter(a.underlined != b.underlined, SetUnderlined(b.underlined))
    + Setter(a.blinking != b.blinking, SetBlinking(b.blinking))
    + Setter(a.crossedOut != b.crossedOut, SetCrossedOut(b.crossedOut))
  }

  lemma InSeven(x: Operation, s1: seq<Operation>, s2: seq<Operation>, s3: seq<Operation>, s4: seq<Operation>,
                s5: seq<Operation>, s6: seq<Operation>, s7: seq<Operation>)
    ensures x in s1 + s2 + s3 + s4 + s5 + s6 + s7 <==>
      x in s1 || x in s2 || x in s3 || x in s4 || x in s5 || x in s6 || x in s7
  {
  }

  /** What an operation is in `StyleOps`: a setter of a field that
      differs. */
  lemma StyleOpsMembers(reg: Style, st: Style, x: Operation)
    ensures var a, b := reg.attributes, st.attributes;
      x in StyleOps(reg, st) <==>
        (reg.foreground != st.foreground && x == SetForeground(st.foreground))
        || (reg.background != st.background && x == SetBackground(st.background))
        || (a.intensity != b.intensity && x == SetIntensity(b.intensity))
        || (a.italic != b.italic && x == SetItalic(b.italic))
        || (a.underlined != b.underlined && x == SetUnderlined(b.underlined))
        || (a.blinking != b.blinking && x == SetBlinking(b.blinking))
        || (a.crossedOut != b.crossedOut && x == SetCrossedOut(b.crossedOut))
  {
    var a, b := reg.attributes, st.attributes;
    InSeven(x, Setter(reg.foreground != st.foreground, SetForeground(st.foreground)),
      Setter(reg.background != st.background, SetBackground(st.background)),
      Setter(a.intensity != b.intensity, SetIntensity(b.intensity)),
      Setter(a.italic != b.italic, SetItalic(b.italic)),
      Setter(a.underlined != b.underlined, SetUnderlined(b.underlined)),
      Setter(a.blinking != b.blinking, SetBlinking(b.blinking)),
      Setter(a.crossedOut != b.crossedOut, SetCrossedOut(b.crossedOut)));
  }

  /** A setter is emitted exactly for each field that differs, carrying the
      new value. */
  lemma StyleOpsSetters(reg: Style, st: Style)
    ensures var ops := StyleOps(reg, st);
      (SetForeground(st.foreground) in ops <==> reg.foreground != st.foreground)
      && (SetBackground(st.background) in ops <==> reg.background != st.background)
      && (SetIntensity(st.attributes.intensity) in ops <==> reg.attributes.intensity != st.attributes.intensity)
      && (SetItalic(st.attributes.italic) in ops <==> reg.attributes.italic != st.attributes.italic)
      && (SetUnderlined(st.attributes.underlined) in ops <==> reg.attributes.underlined != st.attributes.underlined)
      && (SetBlinking(st.attributes.blinking) in ops <==> reg.attributes.blinking != st.attributes.blinking)
      && (SetCrossedOut(st.attributes.crossedOut) in ops <==> reg.attributes.crossedOut != st.attributes.crossedOut)
  {
    StyleOpsMembers(reg, st, SetForeground(st.foreground));
    StyleOpsMembers(reg, st, SetBackground(st.background));
    StyleOpsMembers(reg, st, SetIntensity(st.attributes.intensity));
    StyleOpsMembers(reg, st, SetItalic(st.attributes.italic));
    StyleOpsMembers(reg, st, SetUnderlined(st.attributes.underlined));
    StyleOpsMembers(reg, st, SetBlinking(st.attributes.blinking));
    StyleOpsMembers(reg, st, SetCrossedOut(st.attributes.crossedOut));
  }

  /** Nothing but style setters is emitted, and nothing at all when the
      register already holds the style. */
  lemma StyleOpsOnlySetters(reg: Style, st: Style)
    ensures forall op :: op in StyleOps(reg, st) ==> IsStyleOp(op)
    ensures reg == st ==> StyleOps(reg, st) == []
  {
    forall op | op in StyleOps(reg, st) ensures IsStyleOp(op) {
      StyleOpsMembers(reg, st, op);
    }
  }

  /** The style after one setter; other operations leave it alone. */
  function StyleStep(s: Style, op: Operation): Style
  {
    var a := s.attributes;
    match op
    case SetForeground(c) => s.(foreground := c)
    case SetBackground(c) => s.(background := c)
    case SetIntensity(i) => s.(attributes := a.(intensity := i))
    case SetItalic(b) => s.(attributes := a.(italic := b))
    case SetUnderlined(b) => s.(attributes := a.(underlined := b))
    case SetBlinking(b) => s.(attributes := a.(blinking := b))
    case SetCrossedOut(b) => s.(attributes := a.(crossedOut := b))
    case _ => s
  }

  /** The style a sequence of setters leaves, starting from `s`. */
  function StyleAfter(s: Style, ops: seq<Operation>): Style
    decreases |ops|
  {
    if |ops| == 0 then s else StyleAfter(StyleStep(s, ops[0]), ops[1..])
  }

  lemma {:induction false} StyleAfterAppend(s: Style, a: seq<Operation>, b: seq<Operation>)
    ensures StyleAfter(s, a + b) == StyleAfter(StyleAfter(s, a), b)
    decreases |a|
  {
    if |a| == 0 {
      assert a + b == b;
    } else {
      assert (a + b)[0] == a[0] && (a + b)[1..] == a[1..] + b;
      StyleAfterAppend(StyleStep(s, a[0]), a[1..], b);
    }
  }

  /** Appending a setter applies it last. */
  lemma StyleAfterSetter(s: Style, ops: seq<Operation>, b: bool, op: Operation)
    ensures StyleAfter(s, ops + Setter(b, op)) == if b then StyleStep(StyleAfter(s, ops), op) else StyleAfter(s, ops)
  {
    StyleAfterAppend(s, ops, Setter(b, op));
    var t := StyleAfter(s, ops);
    if b {
      assert StyleAfter(t, [op]) == StyleAfter(StyleStep(t, op), []);
    }
  }

  /** The first four setters of `StyleOps`: colours, intensity, italic. */
  function ColorOps(reg: Style, st: Style): seq<Operation>
  {
    var a, b := reg.attributes, st.attributes;
    Setter(reg.foreground != st.foreground, SetForeground(st.foreground))
    + Setter(reg.background != st.background, SetBackground(st.background))
    + Setter(a.intensity != b.intensity, SetIntensity(b.intensity))
    + Setter(a.italic != b.italic, SetItalic(b.italic))
  }

  lemma ColorOpsReach(reg: Style, st: Style)
    ensures StyleAfter(reg, ColorOps(reg, st))
      == reg.(foreground := st.foreground, background := st.background,
              attributes := reg.attributes.(intensity := st.attributes.intensity, italic := st.attributes.italic))
  {
    var a, b := reg.attributes, st.attributes;
    var p1 := Setter(reg.foreground != st.foreground, SetForeground(st.foreground));
    var p2 := p1 + Setter(reg.background != st.background, SetBackground(st.background));
    var p3 := p2 + Setter(a.intensity != b.intensity, SetIntensity(b.intensity));
    var p4 := p3 + Setter(a.italic != b.italic, SetItalic(b.italic));
    var t1 := reg.(foreground := st.foreground);
    var t2 := t1.(background := st.background);
    var t3 := t2.(attributes := t2.attributes.(intensity := b.intensity));
    assert StyleAfter(reg, p1) == t1 by {
      StyleAfterSetter(reg, [], reg.foreground != st.foreground, SetForeground(st.foreground));
      assert [] + p1 == p1;
    }
    assert StyleAfter(reg, p2) == t2 by {
      StyleAfterSetter(reg, p1, reg.background != st.background, SetBackground(st.background));
    }
    assert StyleAfter(reg, p3) == t3 by {
      StyleAfterSetter(reg, p2, a.intensity != b.intensity, SetIntensity(b.intensity));
    }
    StyleAfterSetter(reg, p3, a.italic != b.italic, SetItalic(b.italic));
  }

  /** The setters take the register to the cell's style. */
  lemma StyleOpsReachStyle(reg: Style, st: Style)
    ensures StyleAfter(reg, StyleOps(reg, st)) == st
  {
    var a, b := reg.attributes, st.attributes;
    var p4 := ColorOps(reg, st);
    var p5 := p4 + Setter(a.underlined != b.underlined, SetUnderlined(b.underlined));
    var p6 := p5 + Setter(a.blinking != b.blinking, SetBlinking(b.blinking));
    var p7 := p6 + Setter(a.crossedOut != b.crossedOut, SetCrossedOut(b.crossedOut));
    var t4 := reg.(foreground := st.foreground, background := st.background,
                   attributes := a.(intensity := b.intensity, italic := b.italic));
    assert StyleAfter(reg, p4) == t4 by { ColorOpsReach(reg, st); }
    var t5 := t4.(attributes := t4.attributes.(underlined := b.underlined));
    var t6 := t5.(attributes := t5.attributes.(blinking := b.blinking));
    var t7 := t6.(attributes := t6.attributes.(crossedOut := b.crossedOut));
    assert StyleAfter(reg, p5) == t5 by {
      StyleAfterSetter(reg, p4, a.underlined != b.underlined, SetUnderlined(b.underlined));
    }
    assert StyleAfter(reg, p6) == t6 by {
      StyleAfterSetter(reg, p5, a.blinking != b.blinking, SetBlinking(b.blinking));
    }
    assert StyleAfter(reg, p7) == t7 by {
      StyleAfterSetter(reg, p6, a.crossedOut != b.crossedOut, SetCrossedOut(b.crossedOut));
    }
    assert t7 == st;
    assert p7 == StyleOps(reg, st);
  }

  /** Replaying style setters on the dummy changes only its style, to the
      one `StyleAfter` computes, and logs them. */
  lemma {:induction false} ReplayStyleOps(w: O.WidthFn, d: DummyState, ops: seq<Operation>)
    requires forall op :: op in ops ==> IsStyleOp(op)
    ensures Replay(w, d, ops) == Ok(d.(style := StyleAfter(d.style, ops), operations := d.operations + ops))
    decreases |ops|
  {
    if |ops| > 0 {
      assert ops[0] in ops;
      var d' := d.(style := StyleStep(d.style, ops[0]), operations := d.operations + [ops[0]]);
      assert Apply(w, d, ops[0]) == Ok(d');
      assert Replay(w, d, ops) == Replay(w, d', ops[1..]);
      assert forall op :: op in ops[1..] ==> op in ops;
      ReplayStyleOps(w, d', ops[1..]);
      assert d.operations + [ops[0]] + ops[1..] == d.operations + ops;
      assert StyleAfter(d.style, ops) == StyleAfter(d'.style, ops[1..]);
      assert Replay(w, d', ops[1..]) == Ok(d'.(style := StyleAfter(d'.style, ops[1..]), operations := d'.operations + ops[1..]));
      assert d'.(style := StyleAfter(d'.style, ops[1..]), operations := d'.operations + ops[1..])
        == d.(style := StyleAfter(d.style, ops), operations := d.operations + ops);
    } else {
      assert d.operations + ops == d.operations;
    }
  }

  /** The columns a cell takes. */
  function CellWidth(double: bool): U16
  {
    if double then 2 else 1
  }

  /** The tracked cursor after writing a cell at `pos`: just past the cell,
      but never beyond the last column (`width - 1`, wrapping for an empty
      grid as a release build does). */
  function CursorAfter(pos: Vec2<U16>, double: bool, width: U16): (r: Vec2<U16>)
    ensures r.y == pos.y
    ensures r.x <= WrapSub(width, 1)
    ensures pos.x + CellWidth(double) <= U16_MAX ==> r.x == Min(pos.x + CellWidth(double), WrapSub(width, 1))
  {
    Vec2(Min(WrapAdd(pos.x, CellWidth(double)), WrapSub(width, 1)), pos.y)
  }

  /** The operations for one pair of cells at `pos`. Equal cells and a new
      `Continuation` need none. Otherwise: the style setters, a cursor move
      if the tracked position is elsewhere, and the write of the contents;
      the register becomes the cell's style. */
  function CellOps(tr: Tracker, width: U16, pos: Vec2<U16>, oldCell: Cell, newCell: Cell): (r: DiffOut)
  {
    if newCell == oldCell then DiffOut([], tr)
    else match newCell
      case Continuation => DiffOut([], tr)
      case Char(contents, double, st) =>
        var move := if tr.cursorPos != pos then [SetCursorPos(pos)] else [];
        DiffOut(StyleOps(tr.style, st) + move + [Write(contents)], Tracker(st, CursorAfter(pos, double, width)))
  }

  /** Equal cells and new continuation cells emit nothing. A changed cell
      ends with the write of its contents, moves the cursor only if the
      tracked position is elsewhere, emits nothing but setters besides, and
      leaves the register at its style and the tracked cursor just past it. */
  lemma CellOpsEmits(tr: Tracker, width: U16, pos: Vec2<U16>, oldCell: Cell, newCell: Cell)
    ensures var r := CellOps(tr, width, pos, oldCell, newCell);
      newCell == oldCell || newCell.Continuation? ==> r == DiffOut([], tr)
    ensures var r := CellOps(tr, width, pos, oldCell, newCell);
      newCell != oldCell && newCell.Char? ==>
      |r.ops| > 0 && r.ops[|r.ops| - 1] == Write(newCell.contents)
      && r.tracker == Tracker(newCell.style, CursorAfter(pos, newCell.double, width))
      && (SetCursorPos(pos) in r.ops <==> tr.cursorPos != pos)
      && (forall op :: op in r.ops ==> IsStyleOp(op) || op == SetCursorPos(pos) || op == Write(newCell.contents))
  {
    if newCell != oldCell && newCell.Char? {
      var st := newCell.style;
      var move := if tr.cursorPos != pos then [SetCursorPos(pos)] else [];
      var ops := StyleOps(tr.style, st) + move + [Write(newCell.contents)];
      assert CellOps(tr, width, pos, oldCell, newCell) == DiffOut(ops, Tracker(st, CursorAfter(pos, newCell.double, width)));
      WriteOpsEmit(tr.style, st, move, pos, newCell.contents);
    }
  }

  /** The setters, an optional cursor move and a write: the write comes
      last, the move occurs exactly when it was asked for, and nothing else
      occurs. */
  lemma WriteOpsEmit(reg: Style, st: Style, move: seq<Operation>, pos: Vec2<U16>, contents: string)
    requires move == [] || move == [SetCursorPos(pos)]
    ensures var ops := StyleOps(reg, st) + move + [Write(contents)];
      |ops| > 0 && ops[|ops| - 1] == Write(contents)
      && (SetCursorPos(pos) in ops <==> move != [])
      && (forall op :: op in ops ==> IsStyleOp(op) || op == SetCursorPos(pos) || op == Write(contents))
  {
    var sops := StyleOps(reg, st);
    StyleOpsOnlySetters(reg, st);
    var ops := sops + move + [Write(contents)];
    assert SetCursorPos(pos) !in sops;
    assert forall op :: op in ops <==> op in sops || op in move || op == Write(contents);
  }

  /** The position the diff uses for cell `x` of row `y`: both indices cast
      with `as u16`, which truncates. */
  function CellPos(x: nat, y: nat): (p: Vec2<U16>)
    ensures x <= U16_MAX && y <= U16_MAX ==> p == Vec2(x, y)
  {
    Vec2(x % 0x10000, y % 0x10000)
  }

  /** The cells of row `y` from column `x` on, over the columns both rows
      have. */
  function RowOps(tr: Tracker, width: U16, y: nat, oldRow: seq<Cell>, newRow: seq<Cell>, x: nat): (r: DiffOut)
    decreases |oldRow| - x, |newRow| - x
  {
    if x >= |oldRow| || x >= |newRow| then DiffOut([], tr)
    else
      var cell := CellOps(tr, width, CellPos(x, y), oldRow[x], newRow[x]);
      var rest := RowOps(cell.tracker, width, y, oldRow, newRow, x + 1);
      DiffOut(cell.ops + rest.ops, rest.tracker)
  }

  /** The rows from row `y` on, over the rows both grids have. */
  function GridOps(tr: Tracker, width: U16, oldLines: seq<seq<Cell>>, newLines: seq<seq<Cell>>, y: nat): (r: DiffOut)
    decreases |oldLines| - y, |newLines| - y
  {
    if y >= |oldLines| || y >= |newLines| then DiffOut([], tr)
    else
      var row := RowOps(tr, width, y, oldLines[y], newLines[y], 0);
      var rest := GridOps(row.tracker, width, oldLines, newLines, y + 1);
      DiffOut(row.ops + rest.ops, rest.tracker)
  }

  /** The cursor operations at the end of a diff, given the tracked
      position. */
  function CursorOps(oldCursor: Option<O.Cursor>, newCursor: Option<O.Cursor>, tracked: Vec2<U16>): (ops: seq<Operation>)
    ensures forall op :: op in ops ==> op.ShowCursor? || op.HideCursor? || op.SetCursorShape? || op.SetCursorBlinking? || op.SetCursorPos?
  {
    match newCursor
    case Some(nc) =>
      (if oldCursor.None? then [ShowCursor] else [])
      + (if oldCursor.None? || oldCursor.value.shape != nc.shape then [SetCursorShape(nc.shape)] else [])
      + (if oldCursor.None? || oldCursor.value.blinking != nc.blinking then [SetCursorBlinking(nc.blinking)] else [])
      + (if tracked != nc.pos then [SetCursorPos(nc.pos)] else [])
    case None => if oldCursor.Some? then [HideCursor] else []
  }

  /** The cursor is shown when it appears and hidden when it disappears;
      its shape, blinking and position are sent only when they differ
      from what the backend has, and nothing else is sent. */
  lemma CursorOpsSendDifferences(oldCursor: Option<O.Cursor>, newCursor: Option<O.Cursor>, tracked: Vec2<U16>)
    ensures var ops := CursorOps(oldCursor, newCursor, tracked);
      (ShowCursor in ops <==> oldCursor.None? && newCursor.Some?)
      && (HideCursor in ops <==> oldCursor.Some? && newCursor.None?)
      && (newCursor.None? ==> ops == (if oldCursor.Some? then [HideCursor] else []))
    ensures var ops := CursorOps(oldCursor, newCursor, tracked);
      newCursor.Some? ==>
      (SetCursorShape(newCursor.value.shape) in ops <==>
         oldCursor.None? || oldCursor.value.shape != newCursor.value.shape)
      && (SetCursorBlinking(newCursor.value.blinking) in ops <==>
         oldCursor.None? || oldCursor.value.blinking != newCursor.value.blinking)
      && (SetCursorPos(newCursor.value.pos) in ops <==> tracked != newCursor.value.pos)
      && (forall op :: op in ops ==> op in [ShowCursor, SetCursorShape(newCursor.value.shape),
            SetCursorBlinking(newCursor.value.blinking), SetCursorPos(newCursor.value.pos)])
    ensures oldCursor == newCursor && (newCursor.Some? ==> tracked == newCursor.value.pos) ==>
      CursorOps(oldCursor, newCursor, tracked) == []
  {
  }

  /** `Terminal::diff` as written: the title if it changed, the cells, a
      reset of the background, and the cursor. The returned tracker keeps
      the position after the last cell write even when the cursor
      operations have just moved the backend's cursor elsewhere. */
  function DiffAsWritten(oldBuf: BufferState, newBuf: BufferState, tr: Tracker): (r: DiffOut)
  {
    var titleOps := if oldBuf.title != newBuf.title then [SetTitle(newBuf.title)] else [];
    var cells := GridOps(tr, newBuf.grid.width, oldBuf.grid.lines, newBuf.grid.lines, 0);
    var tracker := cells.tracker.(style := cells.tracker.style.(background := DefaultColor()));
    DiffOut(titleOps + cells.ops + [SetBackground(DefaultColor())] + CursorOps(oldBuf.cursor, newBuf.cursor, tracker.cursorPos),
            tracker)
  }

  /** `Terminal::diff` with the tracked position brought up to date: the
      same operations, but a shown cursor leaves the tracked position where
      the cursor operations put the backend's cursor. */
  function Diff(oldBuf: BufferState, newBuf: BufferState, tr: Tracker): (r: DiffOut)
  {
    var r := DiffAsWritten(oldBuf, newBuf, tr);
    match newBuf.cursor
    case Some(c) => DiffOut(r.ops, r.tracker.(cursorPos := c.pos))
    case None => r
  }

  /** The corrected diff sends the same operations as the diff as written;
      only the tracked position differs, following a shown cursor. */
  lemma DiffCorrectsOnlyTracker(oldBuf: BufferState, newBuf: BufferState, tr: Tracker)
    ensures Diff(oldBuf, newBuf, tr).ops == DiffAsWritten(oldBuf, newBuf, tr).ops
    ensures Diff(oldBuf, newBuf, tr).tracker.style == DiffAsWritten(oldBuf, newBuf, tr).tracker.style
    ensures Diff(oldBuf, newBuf, tr).tracker.cursorPos
      == if newBuf.cursor.Some? then newBuf.cursor.value.pos else DiffAsWritten(oldBuf, newBuf, tr).tracker.cursorPos
  {
  }

  /** The four parts of a diff, in order. */
  lemma DiffParts(oldBuf: BufferState, newBuf: BufferState, tr: Tracker)
    ensures var cells := GridOps(tr, newBuf.grid.width, oldBuf.grid.lines, newBuf.grid.lines, 0);
      var tracker := cells.tracker.(style := cells.tracker.style.(background := DefaultColor()));
      var titleOps := if oldBuf.title != newBuf.title then [SetTitle(newBuf.title)] else [];
      Diff(oldBuf, newBuf, tr).ops
        == titleOps + (cells.ops + [SetBackground(DefaultColor())] + CursorOps(oldBuf.cursor, newBuf.cursor, tracker.cursorPos))
  {
  }

  lemma TitleOnlyFirst(titleOps: seq<Operation>, rest: seq<Operation>)
    requires |titleOps| <= 1 && |rest| > 0
    requires forall op :: op in rest ==> !op.SetTitle?
    ensures |titleOps| == 1 ==> (titleOps + rest)[0] == titleOps[0]
    ensures |titleOps| == 0 ==> !(titleOps + rest)[0].SetTitle?
    ensures forall i :: 0 < i < |titleOps + rest| ==> !(titleOps + rest)[i].SetTitle?
  {
    if |titleOps| == 0 {
      assert rest[0] in rest;
    }
  }

  /** A title operation is emitted exactly when the titles differ, as the
      first operation, and nowhere else. */
  lemma DiffTitle(oldBuf: BufferState, newBuf: BufferState, tr: Tracker)
    ensures var ops := Diff(oldBuf, newBuf, tr).ops;
      (oldBuf.title != newBuf.title <==> |ops| > 0 && ops[0] == SetTitle(newBuf.title))
      && (forall i :: 0 < i < |ops| ==> !ops[i].SetTitle?)
  {
    var cells := GridOps(tr, newBuf.grid.width, oldBuf.grid.lines, newBuf.grid.lines, 0);
    var tracker := cells.tracker.(style := cells.tracker.style.(background := DefaultColor()));
    var cursorOps := CursorOps(oldBuf.cursor, newBuf.cursor, tracker.cursorPos);
    var rest := cells.ops + [SetBackground(DefaultColor())] + cursorOps;
    var titleOps := if oldBuf.title != newBuf.title then [SetTitle(newBuf.title)] else [];
    assert Diff(oldBuf, newBuf, tr).ops == titleOps + rest by { DiffParts(oldBuf, newBuf, tr); }
    assert forall op :: op in rest ==> !op.SetTitle? by {
      GridOpsKinds(tr, newBuf.grid.width, oldBuf.grid.lines, newBuf.grid.lines, 0);
      forall op | op in rest ensures !op.SetTitle? {
        assert op in cells.ops || op == SetBackground(DefaultColor()) || op in cursorOps;
      }
    }
    TitleOnlyFirst(titleOps, rest);
  }

  /** Cell operations are style setters, cursor moves and writes only. */
  predicate IsCellOp(op: Operation)
  {
    IsStyleOp(op) || op.SetCursorPos? || op.Write?
  }

  lemma {:induction false} RowOpsKinds(tr: Tracker, width: U16, y: nat, oldRow: seq<Cell>, newRow: seq<Cell>, x: nat)
    ensures forall op :: op in RowOps(tr, width, y, oldRow, newRow, x).ops ==> IsCellOp(op)
    decreases |oldRow| - x, |newRow| - x
  {
    if x < |oldRow| && x < |newRow| {
      var cell := CellOps(tr, width, CellPos(x, y), oldRow[x], newRow[x]);
      CellOpsEmits(tr, width, CellPos(x, y), oldRow[x], newRow[x]);
      RowOpsKinds(cell.tracker, width, y, oldRow, newRow, x + 1);
    }
  }

  lemma {:induction false} GridOpsKinds(tr: Tracker, width: U16, oldLines: seq<seq<Cell>>, newLines: seq<seq<Cell>>, y: nat)
    ensures forall op :: op in GridOps(tr, width, oldLines, newLines, y).ops ==> IsCellOp(op)
    decreases |oldLines| - y, |newLines| - y
  {
    if y < |oldLines| && y < |newLines| {
      var row := RowOps(tr, width, y, oldLines[y], newLines[y], 0);
      RowOpsKinds(tr, width, y, oldLines[y], newLines[y], 0);
      GridOpsKinds(row.tracker, width, oldLines, newLines, y + 1);
    }
  }

  /** Identical rows need no operation and leave the tracker as it was. */
  lemma {:induction false} EqualRowsEmitNothing(tr: Tracker, width: U16, y: nat, row: seq<Cell>, x: nat)
    ensures RowOps(tr, width, y, row, row, x) == DiffOut([], tr)
    decreases |row| - x
  {
    if x < |row| {
      CellOpsEmits(tr, width, CellPos(x, y), row[x], row[x]);
      EqualRowsEmitNothing(tr, width, y, row, x + 1);
    }
  }

  /** One step of a row: the cell's operations, then those of the rest of
      the row from the tracker the cell leaves. */
  lemma RowOpsCons(tr: Tracker, width: U16, y: nat, oldRow: seq<Cell>, newRow: seq<Cell>, x: nat, cell: DiffOut, rest: DiffOut)
    requires x < |oldRow| && x < |newRow|
    requires CellOps(tr, width, CellPos(x, y), oldRow[x], newRow[x]) == cell
    requires RowOps(cell.tracker, width, y, oldRow, newRow, x + 1) == rest
    ensures RowOps(tr, width, y, oldRow, newRow, x) == DiffOut(cell.ops + rest.ops, rest.tracker)
  {
  }

  /** One step of a grid: the row's operations, then those of the rows
      after it from the tracker the row leaves. */
  lemma GridOpsCons(tr: Tracker, width: U16, oldLines: seq<seq<Cell>>, newLines: seq<seq<Cell>>, y: nat, row: DiffOut, rest: DiffOut)
    requires y < |oldLines| && y < |newLines|
    requires RowOps(tr, width, y, oldLines[y], newLines[y], 0) == row
    requires GridOps(row.tracker, width, oldLines, newLines, y + 1) == rest
    ensures GridOps(tr, width, oldLines, newLines, y) == DiffOut(row.ops + rest.ops, rest.tracker)
  {
  }

  /** A run of unchanged cells needs no operation and leaves the tracker as
      it was: the row's operations are those from the end of the run. */
  lemma {:induction false} SameCellsEmitNothing(tr: Tracker, width: U16, y: nat, oldRow: seq<Cell>, newRow: seq<Cell>, x: nat, k: nat)
    requires x <= k <= |oldRow| && k <= |newRow|
    requires forall i :: x <= i < k ==> oldRow[i] == newRow[i]
    ensures RowOps(tr, width, y, oldRow, newRow, x) == RowOps(tr, width, y, oldRow, newRow, k)
    decreases k - x
  {
    if x < k {
      assert CellOps(tr, width, CellPos(x, y), oldRow[x], newRow[x]) == DiffOut([], tr);
      var rest := RowOps(tr, width, y, oldRow, newRow, x + 1);
      assert [] + rest.ops == rest.ops;
      SameCellsEmitNothing(tr, width, y, oldRow, newRow, x + 1, k);
    }
  }

  /** The same for a run of unchanged rows. */
  lemma {:induction false} SameRowsEmitNothing(tr: Tracker, width: U16, oldLines: seq<seq<Cell>>, newLines: seq<seq<Cell>>, y: nat, k: nat)
    requires y <= k <= |oldLines| && k <= |newLines|
    requires forall j :: y <= j < k ==> oldLines[j] == newLines[j]
    ensures GridOps(tr, width, oldLines, newLines, y) == GridOps(tr, width, oldLines, newLines, k)
    decreases k - y
  {
    if y < k {
      SameRowEmitsNothing(tr, width, oldLines, newLines, y);
      SameRowsEmitNothing(tr, width, oldLines, newLines, y + 1, k);
    }
  }

  /** One row equal in both grids adds nothing to the grid's diff. */
  lemma SameRowEmitsNothing(tr: Tracker, width: U16, oldLines: seq<seq<Cell>>, newLines: seq<seq<Cell>>, y: nat)
    requires y < |oldLines| && y < |newLines| && oldLines[y] == newLines[y]
    ensures GridOps(tr, width, oldLines, newLines, y) == GridOps(tr, width, oldLines, newLines, y + 1)
  {
    EqualRowsEmitNothing(tr, width, y, oldLines[y], 0);
    var rest := GridOps(tr, width, oldLines, newLines, y + 1);
    GridOpsCons(tr, width, oldLines, newLines, y, DiffOut([], tr), rest);
    assert [] + rest.ops == rest.ops;
  }

  lemma {:induction false} EqualGridsEmitNothing(tr: Tracker, width: U16, lines: seq<seq<Cell>>, y: nat)
    ensures GridOps(tr, width, lines, lines, y) == DiffOut([], tr)
    decreases |lines| - y
  {
    if y < |lines| {
      EqualRowsEmitNothing(tr, width, y, lines[y], 0);
      EqualGridsEmitNothing(tr, width, lines, y + 1);
    }
  }

  /** Diffing a buffer against itself is not silent: exactly one
      `SetBackground(Default)` is emitted, and the register's background is
      reset. */
  lemma DiffOfEqualBuffers(b: BufferState, tr: Tracker)
    requires b.cursor.Some? ==> b.cursor.value.pos == tr.cursorPos
    ensures Diff(b, b, tr) == DiffOut([SetBackground(DefaultColor())], tr.(style := tr.style.(background := DefaultColor())))
  {
    EqualGridsEmitNothing(tr, b.grid.width, b.grid.lines, 0);
  }

  /** After the cells, exactly one `SetBackground(Default)` follows, and the
      returned register has the default background; the tracked position
      is the shown cursor's, or else the one after the last cell write. */
  lemma DiffResetsBackground(oldBuf: BufferState, newBuf: BufferState, tr: Tracker)
    ensures var cells := GridOps(tr, newBuf.grid.width, oldBuf.grid.lines, newBuf.grid.lines, 0);
      var t := if oldBuf.title != newBuf.title then 1 else 0;
      var r := Diff(oldBuf, newBuf, tr);
      r.ops[t + |cells.ops|] == SetBackground(DefaultColor())
      && r.ops[t..t + |cells.ops|] == cells.ops
      && r.tracker.style == cells.tracker.style.(background := DefaultColor())
      && r.tracker.cursorPos == (if newBuf.cursor.Some? then newBuf.cursor.value.pos else cells.tracker.cursorPos)
  {
    var cells := GridOps(tr, newBuf.grid.width, oldBuf.grid.lines, newBuf.grid.lines, 0);
    var titleOps := if oldBuf.title != newBuf.title then [SetTitle(newBuf.title)] else [];
    var r := Diff(oldBuf, newBuf, tr);
    var rest := CursorOps(oldBuf.cursor, newBuf.cursor, cells.tracker.cursorPos);
    assert r.ops == titleOps + cells.ops + [SetBackground(DefaultColor())] + rest;
    PartsAt(titleOps, cells.ops, SetBackground(DefaultColor()), rest);
  }

  /** Where the parts of `a + b + [x] + d` sit. */
  lemma PartsAt(a: seq<Operation>, b: seq<Operation>, x: Operation, d: seq<Operation>)
    ensures (a + b + [x] + d)[|a| + |b|] == x
    ensures (a + b + [x] + d)[|a|..|a| + |b|] == b
  {
    var s := a + b + [x] + d;
    assert s[|a|..|a| + |b|] == b by {
      forall k | 0 <= k < |b| ensures s[|a|..|a| + |b|][k] == b[k] {
        assert s[|a| + k] == b[k];
      }
    }
  }

  /** The cursor clamp after a resize (src/terminal.rs:135-136): each
      coordinate is capped at the last row or column of the new size. */
  function ClampCursor(pos: Vec2<U16>, size: Vec2<U16>): (r: Vec2<U16>)
    ensures size.x > 0 ==> r.x == Min(pos.x, size.x - 1)
    ensures size.y > 0 ==> r.y == Min(pos.y, size.y - 1)
  {
    Vec2(Min(pos.x, WrapSub(size.x, 1)), Min(pos.y, WrapSub(size.y, 1)))
  }

  /** On a non-empty size the clamped cursor is inside the grid, a cursor
      already inside does not move, and clamping twice is clamping once. */
  lemma ClampCursorInside(pos: Vec2<U16>, size: Vec2<U16>)
    requires size.x > 0 && size.y > 0
    ensures ClampCursor(pos, size).x < size.x && ClampCursor(pos, size).y < size.y
    ensures pos.x < size.x && pos.y < size.y ==> ClampCursor(pos, size) == pos
    ensures ClampCursor(ClampCursor(pos, size), size) == ClampCursor(pos, size)
  {
  }
}
