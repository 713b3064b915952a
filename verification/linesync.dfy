/** How the cells of one row of the dummy's grid approach the new row while
    the diff's operations for that row are replayed. The row's cells are
    written left to right; a cell already written equals the new one, and a
    cell not yet reached is either the old one or an orphaned half of a wide
    glyph that a write to its left turned into a space. */
module LineSync {
  import opened Common
  import opened Vectors
  import opened Styles
  import opened Outputs
  import opened Buffer

  /** Every character cell holds exactly one character, and not NUL: the
      cells the diff can reproduce with a single write. */
  predicate SingleGlyphs(cells: seq<Cell>)
  {
    forall i :: 0 <= i < |cells| && cells[i].Char? ==> |cells[i].contents| == 1 && cells[i].contents[0] != '\0'
  }

  /** Cell `j`, not yet reached at column `i`, of the dummy's row `d`
      against the old row `o` and the new row `n`. */
  predicate Pending(d: seq<Cell>, o: seq<Cell>, n: seq<Cell>, i: nat, j: nat)
    requires j < |d| && j < |o| && j < |n|
  {
    d[j] == o[j]
    || (o[j].Continuation? && d[j].Char? && !d[j].double && !n[j].Continuation?)
    || (j == i && n[j].Continuation? && d[j].Continuation?)
  }

  /** The row invariant at column `i`: cells left of `i` are the new ones,
      the others are pending. */
  predicate RowInv(d: seq<Cell>, o: seq<Cell>, n: seq<Cell>, i: nat)
  {
    |d| == |n| && |o| == |n| && i <= |n|
    && (forall j :: 0 <= j < i ==> d[j] == n[j])
    && (forall j :: i <= j < |n| ==> Pending(d, o, n, i, j))
  }

  /** Before any write the dummy's row is the old row. */
  lemma RowInvStart(o: seq<Cell>, n: seq<Cell>)
    requires |o| == |n|
    ensures RowInv(o, o, n, 0)
  {
  }

  /** At the end of the row the dummy's row is the new row. */
  lemma RowInvEnd(d: seq<Cell>, o: seq<Cell>, n: seq<Cell>)
    requires RowInv(d, o, n, |n|)
    ensures d == n
  {
  }

  /** On two valid rows that agree left of `i`, the cell at `i` is a
      continuation in one exactly when it is in the other. */
  lemma ContinuationsAgree(w: WidthFn, d: seq<Cell>, o: seq<Cell>, n: seq<Cell>, i: nat)
    requires RowInv(d, o, n, i) && ValidLine(w, d) && ValidLine(w, n) && i < |n|
    ensures d[i].Continuation? <==> n[i].Continuation?
  {
    ContinuationAt(w, d, i);
    ContinuationAt(w, n, i);
    if i > 0 {
      assert d[i - 1] == n[i - 1];
    }
  }

  /** A cell the diff skips (equal to the old cell, or a continuation)
      already holds the new cell. */
  lemma SkipCell(w: WidthFn, d: seq<Cell>, o: seq<Cell>, n: seq<Cell>, i: nat)
    requires RowInv(d, o, n, i) && ValidLine(w, d) && ValidLine(w, n) && i < |n|
    requires n[i] == o[i] || n[i].Continuation?
    ensures d[i] == n[i]
    ensures RowInv(d, o, n, i + 1)
  {
    ContinuationsAgree(w, d, o, n, i);
    assert Pending(d, o, n, i, i);
    var k := i + 1;
    forall j | k <= j < |n| ensures Pending(d, o, n, k, j) {
      assert Pending(d, o, n, i, j);
    }
  }

  /** The character the diff writes for a cell. */
  function Glyph(cell: Cell): char
    requires cell.Char? && |cell.contents| > 0
  {
    cell.contents[0]
  }

  /** Writing a changed narrow cell: the written cell becomes the new cell,
      and a wide glyph it overwrites leaves an orphaned space to its
      right. */
  lemma WriteNarrowCell(w: WidthFn, d: seq<Cell>, o: seq<Cell>, n: seq<Cell>, i: nat)
    requires SaneWidth(w) && RowInv(d, o, n, i) && ValidLine(w, d) && ValidLine(w, n) && SingleGlyphs(n)
    requires i < |n| && n[i] != o[i] && n[i].Char? && !n[i].double
    ensures var r := LineWriteChar(w, d, Vec2(i, 0), Glyph(n[i]), n[i].style);
      r.Ok? && ValidLine(w, r.value) && RowInv(r.value, o, n, i + 1)
  {
    var c := Glyph(n[i]);
    ContinuationsAgree(w, d, o, n, i);
    ContinuationAt(w, d, i);
    ContinuationAt(w, n, i);
    assert n[i] == Char([c], false, n[i].style);
    assert w(c) == Some(1);
    LineWriteCharPreservesValid(w, d, Vec2(i, 0), c, n[i].style);
    var r := WriteNarrow(d, i, c, n[i].style).value;
    if IsDouble(d[i]) {
      ContinuationAt(w, d, i);
      ContinuationAt(w, n, i + 1);
      assert Pending(d, o, n, i, i + 1);
      assert r[i + 1] == Char(" ", false, d[i].style);
      assert Pending(r, o, n, i + 1, i + 1);
    }
    var k := i + 1;
    forall j | k <= j < |n| ensures Pending(r, o, n, k, j) {
      assert Pending(d, o, n, i, j);
    }
  }

  /** Writing a changed wide cell: the written cell becomes the new cell,
      its right half a continuation (which the new row also has), and a
      wide glyph it overlaps on the right leaves an orphaned space. */
  lemma WriteWideCell(w: WidthFn, d: seq<Cell>, o: seq<Cell>, n: seq<Cell>, i: nat)
    requires SaneWidth(w) && RowInv(d, o, n, i) && ValidLine(w, d) && ValidLine(w, n) && SingleGlyphs(n)
    requires i < |n| && n[i] != o[i] && n[i].Char? && n[i].double
    ensures var r := LineWriteChar(w, d, Vec2(i, 0), Glyph(n[i]), n[i].style);
      r.Ok? && ValidLine(w, r.value) && RowInv(r.value, o, n, i + 1)
  {
    var c := Glyph(n[i]);
    ContinuationsAgree(w, d, o, n, i);
    ContinuationAt(w, n, i);
    assert n[i] == Char([c], true, n[i].style);
    assert w(c) == Some(2);
    LineWriteCharPreservesValid(w, d, Vec2(i, 0), c, n[i].style);
    var r := WriteWide(d, i, c, n[i].style).value;
    assert r[i + 1] == Continuation && n[i + 1].Continuation?;
    assert Pending(r, o, n, i + 1, i + 1);
    if IsDouble(d[i + 1]) {
      ContinuationAt(w, d, i + 1);
      ContinuationAt(w, n, i + 1);
      ContinuationAt(w, n, i + 2);
      assert Pending(d, o, n, i, i + 2);
      assert Pending(r, o, n, i + 1, i + 2);
    }
    var k := i + 1;
    forall j | k <= j < |n| ensures Pending(r, o, n, k, j) {
      assert Pending(d, o, n, i, j);
    }
    if i > 0 {
      assert r[i - 1] == d[i - 1];
    }
  }
}
