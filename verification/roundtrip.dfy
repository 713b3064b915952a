/** Replaying a frame diff on the dummy backend: the dummy, holding the old
    grid and in step with the terminal's tracker, ends up holding the new
    grid, title and cursor. */
module RoundTrip {
  import opened Common
  import opened Vectors
  import opened Styles
  import opened Outputs
  import opened Buffer
  import opened LineSync
  import opened Dummy
  import opened Terminal

  /** The shown cursor moved to `p`, or no cursor. */
  function MoveCursor(c: Option<Cursor>, p: Vec2<U16>): Option<Cursor>
  {
    match c case Some(k) => Some(k.(pos := p)) case None => None
  }

  /** A replay of one operation is its application. */
  lemma ReplayOne(w: WidthFn, d: DummyState, op: Operation)
    ensures Replay(w, d, [op]) == Apply(w, d, op)
  {
    if Apply(w, d, op).Ok? {
      assert [op][1..] == [];
    }
  }

  /** The dummy's write of a one-character text of width `k` at its drawing
      position: the grid row gets the character, and the drawing position
      (and a shown cursor) moves `k` columns right. */
  lemma ReplayWriteGlyph(w: WidthFn, d: DummyState, c: char, k: nat)
    requires w(c) == Some(k) && d.cursorPos.y < |d.buffer.grid.lines|
    requires d.cursorPos.x + k <= d.buffer.grid.width
    requires LineWriteChar(w, d.buffer.grid.lines[d.cursorPos.y], Vec2(d.cursorPos.x, 0), c, d.style).Ok?
    ensures var line := LineWriteChar(w, d.buffer.grid.lines[d.cursorPos.y], Vec2(d.cursorPos.x, 0), c, d.style).value;
      var p := Vec2(d.cursorPos.x + k, d.cursorPos.y);
      Replay(w, d, [Write([c])])
        == Ok(d.(buffer := d.buffer.(grid := d.buffer.grid.(lines := d.buffer.grid.lines[d.cursorPos.y := line]),
                                     cursor := MoveCursor(d.buffer.cursor, p)),
                 cursorPos := p, operations := d.operations + [Write([c])]))
  {
    ReplayOne(w, d, Write([c]));
    var line := LineWriteChar(w, d.buffer.grid.lines[d.cursorPos.y], Vec2(d.cursorPos.x, 0), c, d.style).value;
    var p := Vec2(d.cursorPos.x + k, d.cursorPos.y);
    var b := d.buffer.(grid := d.buffer.grid.(lines := d.buffer.grid.lines[d.cursorPos.y := line]));
    var e := d.(buffer := b.(cursor := MoveCursor(d.buffer.cursor, p)), cursorPos := p);
    WriteTextGlyph(w, d, c, k, line);
    assert Interpret(w, d, Write([c])) == Ok(e);
  }

  /** A one-character text takes its character's width. */
  lemma TextWidthOne(w: WidthFn, c: char, k: nat)
    requires w(c) == Some(k)
    ensures TextWidth(w, [c]) == k
  {
    assert [c][1..] == [] && [c][0] == c;
  }

  /** `Dummy::write` of a one-character text with a width. */
  lemma WriteTextGlyph(w: WidthFn, d: DummyState, c: char, k: nat, line: seq<Cell>)
    requires w(c) == Some(k) && d.cursorPos.y < |d.buffer.grid.lines|
    requires d.cursorPos.x + k <= d.buffer.grid.width
    requires LineWriteChar(w, d.buffer.grid.lines[d.cursorPos.y], Vec2(d.cursorPos.x, 0), c, d.style) == Ok(line)
    ensures var p := Vec2(d.cursorPos.x + k, d.cursorPos.y);
      WriteText(w, d, [c])
        == Ok(d.(buffer := d.buffer.(grid := d.buffer.grid.(lines := d.buffer.grid.lines[d.cursorPos.y := line]),
                                     cursor := MoveCursor(d.buffer.cursor, p)),
                 cursorPos := p))
  {
    BufferWriteGlyph(w, d.buffer, d.cursorPos, c, k, d.style, line);
    TextWidthOne(w, c, k);
    var p := Vec2(d.cursorPos.x + k, d.cursorPos.y);
    assert Min(SatAdd(d.cursorPos.x, k % 0x10000), d.buffer.grid.width) == p.x;
  }

  /** The buffer's write of a one-character text with a width puts the
      character into the row it is written on and changes nothing else. */
  lemma BufferWriteGlyph(w: WidthFn, b: BufferState, pos: Vec2<U16>, c: char, k: nat, st: Style, line: seq<Cell>)
    requires w(c) == Some(k) && pos.y < |b.grid.lines|
    requires LineWriteChar(w, b.grid.lines[pos.y], Vec2(pos.x, 0), c, st) == Ok(line)
    ensures BufferWrite(w, b, pos, [c], st) == Ok(b.(grid := b.grid.(lines := b.grid.lines[pos.y := line])))
  {
    var calls := Outputs.Write(w, pos, [c], st);
    assert [c][1..] == [] && [c][0] == c;
    assert Outputs.Write(w, Vec2(WrapAdd(pos.x, k), pos.y), [], st) == [];
    assert calls == [WriteChar(pos, c, st)];
    var b' := b.(grid := b.grid.(lines := b.grid.lines[pos.y := line]));
    assert ApplyCall(w, b, calls[0]) == Ok(b');
    assert ApplyCalls(w, b, calls) == ApplyCalls(w, b', calls[1..]);
  }

  /** No write is still to come at column `width - 1` of row `y0` once the
      replay has reached column `i` of row `y` of the new row `n`. */
  predicate Stale(y0: int, y: nat, i: nat, n: seq<Cell>, width: nat)
  {
    y0 < y || (y0 == y && (i >= width || (i + 1 == width && i < |n| && n[i].Continuation?)))
  }

  /** The dummy is in step with the terminal's tracker: the style register
      is the dummy's style, and the tracked position is the dummy's drawing
      position, except after a write that ended at the right edge, where
      the dummy stands one column further right (it caps at the width, the
      terminal at the last column) until the next cursor move. */
  predicate Agree(d: DummyState, tr: Tracker, width: U16, y: nat, i: nat, n: seq<Cell>)
  {
    d.style == tr.style && CursorFollows(d)
    && (d.cursorPos == tr.cursorPos
        || (width > 0 && tr.cursorPos.x == width - 1 && d.cursorPos == Vec2(width, tr.cursorPos.y)
            && Stale(tr.cursorPos.y, y, i, n, width)))
  }

  /** Two cursors that are both hidden, or both shown with the same shape and
      blinking. */
  predicate SameLook(a: Option<Cursor>, b: Option<Cursor>)
  {
    a.Some? == b.Some? && (a.Some? ==> a.value.shape == b.value.shape && a.value.blinking == b.value.blinking)
  }

  /** What replaying cell operations leaves alone. */
  predicate Keeps(d: DummyState, e: DummyState)
  {
    e.title == d.title && e.events == d.events && e.buffer.title == d.buffer.title
    && SameLook(d.buffer.cursor, e.buffer.cursor)
    && e.buffer.grid.width == d.buffer.grid.width && |e.buffer.grid.lines| == |d.buffer.grid.lines|
  }

  /** What one cell's replay needs: a valid grid of the new row's width
      holding at row `y` a dummy row that satisfies the row invariant at
      column `x`, and a dummy in step with the tracker. */
  predicate CellReady(w: WidthFn, d: DummyState, tr: Tracker, y: nat, x: nat, o: seq<Cell>, n: seq<Cell>)
  {
    SaneWidth(w) && ValidGrid(w, d.buffer.grid) && y < |d.buffer.grid.lines|
    && |n| == d.buffer.grid.width && ValidLine(w, n) && SingleGlyphs(n)
    && RowInv(d.buffer.grid.lines[y], o, n, x)
    && Agree(d, tr, d.buffer.grid.width, y, x, n)
  }

  /** The cursor move the diff emits before a write at `pos`. */
  function MoveOps(tr: Tracker, pos: Vec2<U16>): seq<Operation>
  {
    if tr.cursorPos != pos then [SetCursorPos(pos)] else []
  }

  /** Replaying the setters and the cursor move of a cell leaves the dummy
      with the cell's style, drawing at the cell. */
  lemma ReplaySetup(w: WidthFn, d: DummyState, tr: Tracker, st: Style, pos: Vec2<U16>)
    requires d.style == tr.style && CursorFollows(d) && (tr.cursorPos == pos ==> d.cursorPos == pos)
    ensures var ops := StyleOps(tr.style, st) + MoveOps(tr, pos);
      Replay(w, d, ops)
        == Ok(d.(style := st, buffer := d.buffer.(cursor := MoveCursor(d.buffer.cursor, pos)), cursorPos := pos,
                 operations := d.operations + ops))
  {
    var sops := StyleOps(tr.style, st);
    var move := MoveOps(tr, pos);
    StyleOpsOnlySetters(tr.style, st);
    StyleOpsReachStyle(tr.style, st);
    ReplayStyleOps(w, d, sops);
    var d1 := d.(style := st, operations := d.operations + sops);
    ReplayMove(w, d1, tr, pos);
    ReplayAppend(w, d, sops, move);
    assert d1.operations + move == d.operations + (sops + move);
  }

  /** Replaying the cursor move of a cell leaves the dummy drawing at the
      cell; when no move is sent the dummy is already there. */
  lemma ReplayMove(w: WidthFn, d: DummyState, tr: Tracker, pos: Vec2<U16>)
    requires CursorFollows(d) && (tr.cursorPos == pos ==> d.cursorPos == pos)
    ensures Replay(w, d, MoveOps(tr, pos))
      == Ok(d.(buffer := d.buffer.(cursor := MoveCursor(d.buffer.cursor, pos)), cursorPos := pos,
               operations := d.operations + MoveOps(tr, pos)))
  {
    if tr.cursorPos == pos {
      assert d.operations + [] == d.operations;
    } else {
      ReplayOne(w, d, SetCursorPos(pos));
    }
  }

  /** A cell the diff skips: no operation, and the row invariant moves on. */
  lemma ReplaySkipCell(w: WidthFn, d: DummyState, tr: Tracker, y: nat, x: nat, o: seq<Cell>, n: seq<Cell>)
    requires CellReady(w, d, tr, y, x, o, n) && x < |n| && (n[x] == o[x] || n[x].Continuation?)
    ensures CellReady(w, d, tr, y, x + 1, o, n)
  {
    SkipCell(w, d.buffer.grid.lines[y], o, n, x);
  }

  /** The whole replay of a written cell: setters, cursor move, and the
      write of its one character. */
  lemma ReplayWriteOps(w: WidthFn, d: DummyState, tr: Tracker, st: Style, pos: Vec2<U16>, c: char, k: nat, line: seq<Cell>)
    requires d.style == tr.style && CursorFollows(d) && (tr.cursorPos == pos ==> d.cursorPos == pos)
    requires w(c) == Some(k) && pos.y < |d.buffer.grid.lines| && pos.x + k <= d.buffer.grid.width
    requires LineWriteChar(w, d.buffer.grid.lines[pos.y], Vec2(pos.x, 0), c, st) == Ok(line)
    ensures var ops := StyleOps(tr.style, st) + MoveOps(tr, pos) + [Write([c])];
      var p := Vec2(pos.x + k, pos.y);
      Replay(w, d, ops)
        == Ok(d.(style := st,
                 buffer := d.buffer.(grid := d.buffer.grid.(lines := d.buffer.grid.lines[pos.y := line]),
                                     cursor := MoveCursor(d.buffer.cursor, p)),
                 cursorPos := p, operations := d.operations + ops))
  {
    var setup := StyleOps(tr.style, st) + MoveOps(tr, pos);
    var write := [Write([c])];
    var p := Vec2(pos.x + k, pos.y);
    var d2 := d.(style := st, buffer := d.buffer.(cursor := MoveCursor(d.buffer.cursor, pos)), cursorPos := pos,
                 operations := d.operations + setup);
    var lines := d.buffer.grid.lines[pos.y := line];
    var e2 := d2.(buffer := d2.buffer.(grid := d2.buffer.grid.(lines := lines), cursor := MoveCursor(d2.buffer.cursor, p)),
                  cursorPos := p, operations := d2.operations + write);
    assert Replay(w, d, setup) == Ok(d2) by {
      ReplaySetup(w, d, tr, st, pos);
    }
    assert Replay(w, d, setup + write) == Replay(w, d2, write) by {
      ReplayAppend(w, d, setup, write);
    }
    assert Replay(w, d2, write) == Ok(e2) by {
      assert d2.buffer.grid == d.buffer.grid && d2.cursorPos == pos && d2.style == st;
      ReplayWriteGlyph(w, d2, c, k);
    }
    assert MoveCursor(MoveCursor(d.buffer.cursor, pos), p) == MoveCursor(d.buffer.cursor, p);
    assert d2.operations + write == d.operations + (setup + write);
  }

  /** A cell the diff writes: the dummy's row gets the cell, and the dummy
      ends up drawing just right of it, in step with the tracker. */
  lemma ReplayWriteCell(w: WidthFn, d: DummyState, tr: Tracker, y: nat, x: nat, o: seq<Cell>, n: seq<Cell>)
    requires CellReady(w, d, tr, y, x, o, n) && x < |n| && n[x] != o[x] && n[x].Char?
    ensures var r := CellOps(tr, d.buffer.grid.width, CellPos(x, y), o[x], n[x]);
      var res := Replay(w, d, r.ops);
      res.Ok? && res.value.operations == d.operations + r.ops && Keeps(d, res.value)
      && res.value.buffer.grid.lines == d.buffer.grid.lines[y := res.value.buffer.grid.lines[y]]
      && CellReady(w, res.value, r.tracker, y, x + 1, o, n)
  {
    var r := CellOps(tr, d.buffer.grid.width, CellPos(x, y), o[x], n[x]);
    WrittenCellFits(w, d, tr, y, x, o, n);
    var line := LineWriteChar(w, d.buffer.grid.lines[y], Vec2(x, 0), Glyph(n[x]), n[x].style).value;
    var e := AfterWrite(d, n[x].style, y, line, Vec2(x + (if n[x].double then 2 else 1), y), r.ops);
    assert Replay(w, d, r.ops) == Ok(e) by {
      AgreeAt(d, tr, d.buffer.grid.width, y, x, n);
      assert x <= U16_MAX && y <= U16_MAX;
      ReplayWrittenCell(w, d, tr, y, x, o[x], n[x]);
    }
    WrittenCellReady(w, d, tr, y, x, o, n, r.ops);
  }

  /** The dummy after the replay of a written cell: the cell's style, the
      written row, and the drawing position just right of the cell. */
  function AfterWrite(d: DummyState, st: Style, y: nat, line: seq<Cell>, p: Vec2<U16>, ops: seq<Operation>): DummyState
    requires y < |d.buffer.grid.lines|
  {
    d.(style := st,
       buffer := d.buffer.(grid := d.buffer.grid.(lines := d.buffer.grid.lines[y := line]),
                           cursor := MoveCursor(d.buffer.cursor, p)),
       cursorPos := p, operations := d.operations + ops)
  }

  /** The replay of a written cell's operations writes the cell's glyph
      into its row, in its style, and leaves the dummy drawing just right
      of it. */
  lemma ReplayWrittenCell(w: WidthFn, d: DummyState, tr: Tracker, y: nat, x: nat, oldCell: Cell, newCell: Cell)
    requires x <= U16_MAX && y <= U16_MAX && y < |d.buffer.grid.lines|
    requires newCell != oldCell && newCell.Char? && |newCell.contents| == 1
    requires w(Glyph(newCell)) == Some(if newCell.double then 2 else 1)
    requires x + (if newCell.double then 2 else 1) <= d.buffer.grid.width
    requires LineWriteChar(w, d.buffer.grid.lines[y], Vec2(x, 0), Glyph(newCell), newCell.style).Ok?
    requires d.style == tr.style && CursorFollows(d) && (tr.cursorPos == Vec2(x, y) ==> d.cursorPos == Vec2(x, y))
    ensures var ops := CellOps(tr, d.buffer.grid.width, CellPos(x, y), oldCell, newCell).ops;
      var line := LineWriteChar(w, d.buffer.grid.lines[y], Vec2(x, 0), Glyph(newCell), newCell.style).value;
      Replay(w, d, ops) == Ok(AfterWrite(d, newCell.style, y, line, Vec2(x + (if newCell.double then 2 else 1), y), ops))
  {
    var pos := CellPos(x, y);
    assert pos == Vec2(x, y);
    var c := Glyph(newCell);
    var k: nat := if newCell.double then 2 else 1;
    WrittenCellOps(tr, d.buffer.grid.width, x, y, oldCell, newCell);
    var line := LineWriteChar(w, d.buffer.grid.lines[y], Vec2(x, 0), c, newCell.style).value;
    ReplayWriteOps(w, d, tr, newCell.style, pos, c, k, line);
  }

  /** The operations of a changed single-glyph cell. */
  lemma WrittenCellOps(tr: Tracker, width: U16, x: nat, y: nat, oldCell: Cell, newCell: Cell)
    requires newCell != oldCell && newCell.Char? && |newCell.contents| == 1
    ensures CellOps(tr, width, CellPos(x, y), oldCell, newCell).ops
      == StyleOps(tr.style, newCell.style) + MoveOps(tr, CellPos(x, y)) + [Write([Glyph(newCell)])]
  {
    assert newCell.contents == [Glyph(newCell)];
  }

  /** A changed cell of the new row fits in the row, and writing its glyph
      at its column succeeds. */
  lemma WrittenCellFits(w: WidthFn, d: DummyState, tr: Tracker, y: nat, x: nat, o: seq<Cell>, n: seq<Cell>)
    requires CellReady(w, d, tr, y, x, o, n) && x < |n| && n[x] != o[x] && n[x].Char?
    ensures n[x].contents == [Glyph(n[x])]
    ensures w(Glyph(n[x])) == Some(if n[x].double then 2 else 1)
    ensures x + (if n[x].double then 2 else 1) <= d.buffer.grid.width
    ensures LineWriteChar(w, d.buffer.grid.lines[y], Vec2(x, 0), Glyph(n[x]), n[x].style).Ok?
  {
    ContinuationAt(w, n, x);
    if n[x].double {
      WriteWideCell(w, d.buffer.grid.lines[y], o, n, x);
    } else {
      WriteNarrowCell(w, d.buffer.grid.lines[y], o, n, x);
    }
  }

  /** Where the tracker stands at a character cell, the dummy stands too. */
  lemma AgreeAt(d: DummyState, tr: Tracker, width: U16, y: nat, x: nat, n: seq<Cell>)
    requires Agree(d, tr, width, y, x, n) && x < |n| == width && n[x].Char?
    ensures d.style == tr.style && CursorFollows(d)
    ensures tr.cursorPos == Vec2(x, y) ==> d.cursorPos == Vec2(x, y)
  {
  }

  /** After a written cell the dummy is ready for the next one: the row
      invariant holds one column further, the grid stays valid, and the
      dummy is in step with the tracker the diff moves on with. */
  lemma WrittenCellReady(w: WidthFn, d: DummyState, tr: Tracker, y: nat, x: nat, o: seq<Cell>, n: seq<Cell>, ops: seq<Operation>)
    requires CellReady(w, d, tr, y, x, o, n) && x < |n| && n[x] != o[x] && n[x].Char?
    ensures var written := LineWriteChar(w, d.buffer.grid.lines[y], Vec2(x, 0), Glyph(n[x]), n[x].style);
      written.Ok?
      && var e := AfterWrite(d, n[x].style, y, written.value, Vec2(x + (if n[x].double then 2 else 1), y), ops);
      Keeps(d, e) && CellReady(w, e, CellOps(tr, d.buffer.grid.width, CellPos(x, y), o[x], n[x]).tracker, y, x + 1, o, n)
      && e.operations == d.operations + ops
      && e.buffer.grid.lines == d.buffer.grid.lines[y := e.buffer.grid.lines[y]]
  {
    var width := d.buffer.grid.width;
    var lines := d.buffer.grid.lines;
    var st := n[x].style;
    var c := Glyph(n[x]);
    var k: nat := if n[x].double then 2 else 1;
    ContinuationAt(w, n, x);
    var written := LineWriteChar(w, lines[y], Vec2(x, 0), c, st);
    assert written.Ok? && ValidLine(w, written.value) && RowInv(written.value, o, n, x + 1) by {
      if n[x].double {
        WriteWideCell(w, lines[y], o, n, x);
      } else {
        WriteNarrowCell(w, lines[y], o, n, x);
      }
    }
    var p := Vec2(x + k, y);
    var e := AfterWrite(d, st, y, written.value, p, ops);
    assert ValidGrid(w, e.buffer.grid) by {
      ValidGridUpdate(w, d.buffer.grid, y, written.value);
    }
    assert CellPos(x, y) == Vec2(x, y);
    assert CellOps(tr, width, CellPos(x, y), o[x], n[x]).tracker == Tracker(st, CursorAfter(Vec2(x, y), n[x].double, width));
    assert Agree(e, Tracker(st, CursorAfter(Vec2(x, y), n[x].double, width)), width, y, x + 1, n) by {
      AgreeAfterWrite(d, st, y, x, written.value, ops, n);
    }
  }

  /** Replacing one row of a valid grid by a valid row of the grid's width
      keeps the grid valid. */
  lemma ValidGridUpdate(w: WidthFn, g: Grid, y: nat, line: seq<Cell>)
    requires ValidGrid(w, g) && y < |g.lines| && |line| == g.width && ValidLine(w, line)
    ensures ValidGrid(w, g.(lines := g.lines[y := line]))
  {
  }

  /** After writing cell `x` of the new row, the dummy stands just right of
      it, and the tracker there too or, at the right edge, on the last
      column with nothing left to write on that column. */
  lemma AgreeAfterWrite(d: DummyState, st: Style, y: nat, x: nat, line: seq<Cell>, ops: seq<Operation>, n: seq<Cell>)
    requires y < |d.buffer.grid.lines| <= U16_MAX && x < |n| == d.buffer.grid.width && n[x].Char?
    requires n[x].double ==> x + 1 < |n| && n[x + 1].Continuation?
    ensures var k := if n[x].double then 2 else 1;
      var width := d.buffer.grid.width;
      Agree(AfterWrite(d, st, y, line, Vec2(x + k, y), ops), Tracker(st, CursorAfter(Vec2(x, y), n[x].double, width)), width, y, x + 1, n)
  {
  }

  /** Replaying the operations of cell `x` keeps the dummy in step, writes
      only row `y`, and advances the row invariant to column `x + 1`. */
  lemma ReplayCell(w: WidthFn, d: DummyState, tr: Tracker, y: nat, x: nat, o: seq<Cell>, n: seq<Cell>)
    requires CellReady(w, d, tr, y, x, o, n) && x < |n|
    ensures var r := CellOps(tr, d.buffer.grid.width, CellPos(x, y), o[x], n[x]);
      var res := Replay(w, d, r.ops);
      res.Ok? && res.value.operations == d.operations + r.ops && Keeps(d, res.value)
      && res.value.buffer.grid.lines == d.buffer.grid.lines[y := res.value.buffer.grid.lines[y]]
      && CellReady(w, res.value, r.tracker, y, x + 1, o, n)
  {
    var pos := CellPos(x, y);
    CellOpsEmits(tr, d.buffer.grid.width, pos, o[x], n[x]);
    if n[x] == o[x] || n[x].Continuation? {
      ReplaySkipCell(w, d, tr, y, x, o, n);
      assert d.buffer.grid.lines[y := d.buffer.grid.lines[y]] == d.buffer.grid.lines;
      assert d.operations + [] == d.operations;
    } else {
      ReplayWriteCell(w, d, tr, y, x, o, n);
    }
  }

  lemma AppendAssoc(a: seq<Operation>, b: seq<Operation>, c: seq<Operation>)
    ensures a + b + c == a + (b + c)
  {
  }

  lemma KeepsTransitive(a: DummyState, b: DummyState, c: DummyState)
    requires Keeps(a, b) && Keeps(b, c)
    ensures Keeps(a, c)
  {
  }

  /** Replaying the operations of row `y` from column `x` on turns the
      dummy's row into the new row and touches no other row. */
  lemma {:induction false} ReplayRow(w: WidthFn, d: DummyState, tr: Tracker, y: nat, x: nat, o: seq<Cell>, n: seq<Cell>)
    requires CellReady(w, d, tr, y, x, o, n)
    ensures var r := RowOps(tr, d.buffer.grid.width, y, o, n, x);
      var res := Replay(w, d, r.ops);
      res.Ok? && res.value.operations == d.operations + r.ops && Keeps(d, res.value)
      && res.value.buffer.grid.lines == d.buffer.grid.lines[y := n]
      && CellReady(w, res.value, r.tracker, y, |n|, o, n)
    decreases |n| - x
  {
    var width := d.buffer.grid.width;
    if x < |n| {
      var cell := CellOps(tr, width, CellPos(x, y), o[x], n[x]);
      ReplayCell(w, d, tr, y, x, o, n);
      var d1 := Replay(w, d, cell.ops).value;
      assert d1.buffer.grid.width == width;
      ReplayRow(w, d1, cell.tracker, y, x + 1, o, n);
      var rest := RowOps(cell.tracker, width, y, o, n, x + 1);
      var d2 := Replay(w, d1, rest.ops).value;
      assert RowOps(tr, width, y, o, n, x) == DiffOut(cell.ops + rest.ops, rest.tracker);
      assert Replay(w, d, cell.ops + rest.ops) == Ok(d2) by {
        ReplayAppend(w, d, cell.ops, rest.ops);
      }
      assert Keeps(d, d2) by {
        KeepsTransitive(d, d1, d2);
      }
      assert d2.operations == d.operations + (cell.ops + rest.ops) by {
        AppendAssoc(d.operations, cell.ops, rest.ops);
      }
      assert d2.buffer.grid.lines == d.buffer.grid.lines[y := n] by {
        assert d1.buffer.grid.lines[y := n] == d.buffer.grid.lines[y := n];
      }
    } else {
      RowInvEnd(d.buffer.grid.lines[y], o, n);
      assert d.buffer.grid.lines[y := n] == d.buffer.grid.lines;
      assert d.operations + [] == d.operations;
    }
  }

  /** What the replay of the rows from `y` on needs: rows above `y` are the
      new ones, rows from `y` on the old ones, and the dummy is in step. */
  predicate GridReady(w: WidthFn, d: DummyState, tr: Tracker, y: nat, oldGrid: Grid, newGrid: Grid)
  {
    var lines := d.buffer.grid.lines;
    SaneWidth(w) && ValidGrid(w, d.buffer.grid) && ValidGrid(w, newGrid)
    && d.buffer.grid.width == newGrid.width
    && |oldGrid.lines| == |newGrid.lines| && |lines| == |newGrid.lines| && y <= |lines|
    && (forall j :: 0 <= j < y ==> lines[j] == newGrid.lines[j])
    && (forall j :: y <= j < |lines| ==> lines[j] == oldGrid.lines[j])
    && (forall j :: 0 <= j < |lines| ==> SingleGlyphs(newGrid.lines[j]))
    && Agree(d, tr, d.buffer.grid.width, y, 0, [])
  }

  /** A row of a grid ready for its replay is ready for its cells' replay. */
  lemma GridRowStart(w: WidthFn, d: DummyState, tr: Tracker, y: nat, oldGrid: Grid, newGrid: Grid)
    requires GridReady(w, d, tr, y, oldGrid, newGrid) && y < |newGrid.lines|
    ensures CellReady(w, d, tr, y, 0, oldGrid.lines[y], newGrid.lines[y])
  {
    RowInvStart(oldGrid.lines[y], newGrid.lines[y]);
  }

  /** Once row `y` holds the new row, the grid is ready for row `y + 1`. */
  lemma GridRowDone(w: WidthFn, d: DummyState, tr: Tracker, y: nat, oldGrid: Grid, newGrid: Grid, d1: DummyState, tr1: Tracker)
    requires GridReady(w, d, tr, y, oldGrid, newGrid) && y < |newGrid.lines|
    requires Keeps(d, d1) && d1.buffer.grid.lines == d.buffer.grid.lines[y := newGrid.lines[y]]
    requires CellReady(w, d1, tr1, y, |newGrid.lines[y]|, oldGrid.lines[y], newGrid.lines[y])
    ensures GridReady(w, d1, tr1, y + 1, oldGrid, newGrid)
  {
  }

  /** Replaying the rows from `y` on leaves the dummy holding the new
      grid. */
  lemma {:induction false} ReplayGrid(w: WidthFn, d: DummyState, tr: Tracker, y: nat, oldGrid: Grid, newGrid: Grid)
    requires GridReady(w, d, tr, y, oldGrid, newGrid)
    ensures var r := GridOps(tr, newGrid.width, oldGrid.lines, newGrid.lines, y);
      var res := Replay(w, d, r.ops);
      res.Ok? && res.value.operations == d.operations + r.ops && Keeps(d, res.value)
      && res.value.buffer.grid == newGrid
      && Agree(res.value, r.tracker, newGrid.width, |newGrid.lines|, 0, [])
    decreases |newGrid.lines| - y
  {
    var width := newGrid.width;
    var lines := d.buffer.grid.lines;
    if y < |newGrid.lines| {
      var o, n := oldGrid.lines[y], newGrid.lines[y];
      GridRowStart(w, d, tr, y, oldGrid, newGrid);
      ReplayRow(w, d, tr, y, 0, o, n);
      var row := RowOps(tr, width, y, o, n, 0);
      var d1 := Replay(w, d, row.ops).value;
      GridRowDone(w, d, tr, y, oldGrid, newGrid, d1, row.tracker);
      ReplayGrid(w, d1, row.tracker, y + 1, oldGrid, newGrid);
      var rest := GridOps(row.tracker, width, oldGrid.lines, newGrid.lines, y + 1);
      ReplayAppend(w, d, row.ops, rest.ops);
      var d2 := Replay(w, d1, rest.ops).value;
      KeepsTransitive(d, d1, d2);
      AppendAssoc(d.operations, row.ops, rest.ops);
    } else {
      assert lines == newGrid.lines;
      assert d.operations + [] == d.operations;
    }
  }

  /** Replaying at most one operation. */
  lemma ReplayMaybe(w: WidthFn, e: DummyState, b: bool, op: Operation)
    ensures Replay(w, e, if b then [op] else []) == if b then Apply(w, e, op) else Ok(e)
  {
    if b {
      ReplayOne(w, e, op);
    }
  }

  /** The first three cursor operations for a shown new cursor: show it if
      it was hidden, then set shape and blinking where they differ. */
  lemma ReplayCursorLook(w: WidthFn, e: DummyState, oldCursor: Option<Cursor>, nc: Cursor)
    requires SameLook(oldCursor, e.buffer.cursor)
    ensures var show := if oldCursor.None? then [ShowCursor] else [];
      var shape := if oldCursor.None? || oldCursor.value.shape != nc.shape then [SetCursorShape(nc.shape)] else [];
      var blink := if oldCursor.None? || oldCursor.value.blinking != nc.blinking then [SetCursorBlinking(nc.blinking)] else [];
      var res := Replay(w, e, show + shape + blink);
      res.Ok? && res.value.operations == e.operations + (show + shape + blink)
      && res.value.buffer.cursor.Some?
      && res.value == e.(buffer := e.buffer.(cursor := Some(nc.(pos := res.value.buffer.cursor.value.pos))),
                         operations := res.value.operations)
      && (e.buffer.cursor.Some? ==> res.value.buffer.cursor.value.pos == e.buffer.cursor.value.pos)
      && (e.buffer.cursor.None? ==> res.value.buffer.cursor.value.pos == e.cursorPos)
  {
    var show := if oldCursor.None? then [ShowCursor] else [];
    var shape := if oldCursor.None? || oldCursor.value.shape != nc.shape then [SetCursorShape(nc.shape)] else [];
    var blink := if oldCursor.None? || oldCursor.value.blinking != nc.blinking then [SetCursorBlinking(nc.blinking)] else [];
    ReplayMaybe(w, e, oldCursor.None?, ShowCursor);
    var e1 := Replay(w, e, show).value;
    ReplayMaybe(w, e1, oldCursor.None? || oldCursor.value.shape != nc.shape, SetCursorShape(nc.shape));
    var e2 := Replay(w, e1, shape).value;
    ReplayMaybe(w, e2, oldCursor.None? || oldCursor.value.blinking != nc.blinking, SetCursorBlinking(nc.blinking));
    ReplayAppend(w, e, show, shape);
    ReplayAppend(w, e, show + shape, blink);
    assert e.operations + show + shape + blink == e.operations + (show + shape + blink);
  }

  /** Replaying the cursor operations on a dummy whose cursor looks like the
      old cursor and follows the drawing position: the dummy ends with the
      new cursor, which stands at the new position if the tracked position
      differed from it, and at the dummy's drawing position otherwise. */
  lemma ReplayCursorOps(w: WidthFn, e: DummyState, oldCursor: Option<Cursor>, newCursor: Option<Cursor>, tracked: Vec2<U16>)
    requires SameLook(oldCursor, e.buffer.cursor) && CursorFollows(e)
    ensures var ops := CursorOps(oldCursor, newCursor, tracked);
      var res := Replay(w, e, ops);
      res.Ok? && res.value.operations == e.operations + ops
      && res.value.buffer.grid == e.buffer.grid && res.value.title == e.title && res.value.style == e.style
      && (newCursor.None? ==> res.value.buffer.cursor.None? && res.value.cursorPos == e.cursorPos)
      && (newCursor.Some? ==>
            res.value.buffer.cursor == Some(newCursor.value.(pos := res.value.cursorPos))
            && res.value.cursorPos == (if tracked != newCursor.value.pos then newCursor.value.pos else e.cursorPos))
  {
    match newCursor
    case None =>
      ReplayMaybe(w, e, oldCursor.Some?, HideCursor);
    case Some(nc) =>
      var look := (if oldCursor.None? then [ShowCursor] else [])
        + (if oldCursor.None? || oldCursor.value.shape != nc.shape then [SetCursorShape(nc.shape)] else [])
        + (if oldCursor.None? || oldCursor.value.blinking != nc.blinking then [SetCursorBlinking(nc.blinking)] else []);
      var move := if tracked != nc.pos then [SetCursorPos(nc.pos)] else [];
      assert CursorOps(oldCursor, newCursor, tracked) == look + move;
      ReplayCursorLook(w, e, oldCursor, nc);
      var e1 := Replay(w, e, look).value;
      ReplayMaybe(w, e1, tracked != nc.pos, SetCursorPos(nc.pos));
      ReplayAppend(w, e, look, move);
      assert e.operations + look + move == e.operations + (look + move);
  }

  /** Where the dummy's drawing position may stand relative to the tracked
      one after a diff: on it, or one column right of it at the right
      edge. */
  predicate InStep(pos: Vec2<U16>, tracked: Vec2<U16>, width: U16)
  {
    pos == tracked || (width > 0 && tracked.x == width - 1 && pos == Vec2(width, tracked.y))
  }

  /** The cells, the background reset and the cursor operations of a diff,
      replayed on a dummy that holds the old grid. */
  lemma ReplayAfterTitle(w: WidthFn, d: DummyState, tr: Tracker, oldBuf: BufferState, newBuf: BufferState)
    requires GridReady(w, d, tr, 0, oldBuf.grid, newBuf.grid) && SameLook(oldBuf.cursor, d.buffer.cursor)
    ensures var cells := GridOps(tr, newBuf.grid.width, oldBuf.grid.lines, newBuf.grid.lines, 0);
      var tracked := cells.tracker.cursorPos;
      var ops := cells.ops + [SetBackground(DefaultColor())] + CursorOps(oldBuf.cursor, newBuf.cursor, tracked);
      var res := Replay(w, d, ops);
      var width := newBuf.grid.width;
      res.Ok? && res.value.operations == d.operations + ops
      && res.value.buffer.grid == newBuf.grid && res.value.title == d.title
      && res.value.style == cells.tracker.style.(background := DefaultColor())
      && CursorFollows(res.value)
      && (newBuf.cursor.None? ==> res.value.buffer.cursor.None? && InStep(res.value.cursorPos, tracked, width))
      && (newBuf.cursor.Some? ==>
            res.value.buffer.cursor == Some(newBuf.cursor.value.(pos := res.value.cursorPos))
            && InStep(res.value.cursorPos, newBuf.cursor.value.pos, width))
  {
    var width := newBuf.grid.width;
    var cells := GridOps(tr, width, oldBuf.grid.lines, newBuf.grid.lines, 0);
    var tracked := cells.tracker.cursorPos;
    var bg := [SetBackground(DefaultColor())];
    var cur := CursorOps(oldBuf.cursor, newBuf.cursor, tracked);
    ReplayGrid(w, d, tr, 0, oldBuf.grid, newBuf.grid);
    var d2 := Replay(w, d, cells.ops).value;
    ReplayOne(w, d2, SetBackground(DefaultColor()));
    var d3 := Apply(w, d2, SetBackground(DefaultColor())).value;
    assert d3 == d2.(style := d2.style.(background := DefaultColor()), operations := d2.operations + bg);
    assert InStep(d3.cursorPos, tracked, width);
    ReplayCursorOps(w, d3, oldBuf.cursor, newBuf.cursor, tracked);
    ReplayAppend(w, d, cells.ops, bg);
    ReplayAppend(w, d, cells.ops + bg, cur);
    AppendAssoc(d.operations, cells.ops, bg);
    AppendAssoc(d.operations, cells.ops + bg, cur);
  }

  /** What the round trip needs: valid grids of one size, new cells of one
      character each, and a dummy holding the old title, grid and cursor
      look, in step with the tracker. */
  predicate ReplayReady(w: WidthFn, d: DummyState, tr: Tracker, oldBuf: BufferState, newBuf: BufferState)
  {
    SaneWidth(w) && ValidGrid(w, oldBuf.grid) && ValidGrid(w, newBuf.grid)
    && oldBuf.grid.width == newBuf.grid.width && |oldBuf.grid.lines| == |newBuf.grid.lines|
    && (forall j :: 0 <= j < |newBuf.grid.lines| ==> SingleGlyphs(newBuf.grid.lines[j]))
    && d.title == oldBuf.title && d.buffer.grid == oldBuf.grid && SameLook(oldBuf.cursor, d.buffer.cursor)
    && CursorFollows(d) && d.style == tr.style && d.cursorPos == tr.cursorPos
  }

  /** The round trip of a frame: replaying the diff on a dummy that shows
      the old frame shows the new one. The dummy logs exactly the diff's
      operations and ends with the new grid and title and the tracker's
      style. Its cursor is the new cursor, except that where the last write
      ended at the right edge the dummy, which caps its drawing position at
      the width rather than at the last column, shows it one column further
      right; its drawing position is in step with the returned tracker in
      the same sense. */
  lemma DiffRoundTrip(w: WidthFn, d: DummyState, tr: Tracker, oldBuf: BufferState, newBuf: BufferState)
    requires ReplayReady(w, d, tr, oldBuf, newBuf)
    ensures var r := Diff(oldBuf, newBuf, tr);
      var res := Replay(w, d, r.ops);
      var width := newBuf.grid.width;
      res.Ok? && res.value.operations == d.operations + r.ops
      && res.value.buffer.grid == newBuf.grid && res.value.title == newBuf.title
      && res.value.style == r.tracker.style
      && InStep(res.value.cursorPos, r.tracker.cursorPos, width)
      && (match newBuf.cursor
          case None => res.value.buffer.cursor.None?
          case Some(c) => res.value.buffer.cursor == Some(c.(pos := res.value.cursorPos)))
  {
    var width := newBuf.grid.width;
    var cells := GridOps(tr, width, oldBuf.grid.lines, newBuf.grid.lines, 0);
    var tracked := cells.tracker.cursorPos;
    var rest := cells.ops + [SetBackground(DefaultColor())] + CursorOps(oldBuf.cursor, newBuf.cursor, tracked);
    var titleOps := if oldBuf.title != newBuf.title then [Operation.SetTitle(newBuf.title)] else [];
    DiffParts(oldBuf, newBuf, tr);
    ReplayMaybe(w, d, oldBuf.title != newBuf.title, Operation.SetTitle(newBuf.title));
    var d1 := Replay(w, d, titleOps).value;
    assert d1 == d.(title := newBuf.title, operations := d.operations + titleOps);
    assert GridReady(w, d1, tr, 0, oldBuf.grid, newBuf.grid);
    ReplayAfterTitle(w, d1, tr, oldBuf, newBuf);
    ReplayAppend(w, d, titleOps, rest);
    AppendAssoc(d.operations, titleOps, rest);
  }
}
