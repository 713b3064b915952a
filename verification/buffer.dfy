/** The in-memory terminal (src/buffer.rs): a grid of lines of cells that
    obeys the double-width rules. */
module Buffer {
  import opened Common
  import opened Vectors
  import opened Styles
  import opened Outputs

  /** A cell holds a 1- or 2-column character followed by zero-width marks,
      or is the second column of the double-width cell before it. */
  datatype Cell = Char(contents: string, double: bool, style: Style) | Continuation

  /** The cell that fills new space. */
  const Blank: Cell := Char(" ", false, DefaultStyle)

  predicate IsDouble(cell: Cell)
  {
    cell.Char? && cell.double
  }

  /** A cell turned into a single space, keeping its style: what is left of
      a double-width cell that lost its other half. */
  function Demote(cell: Cell): (r: Cell)
    requires cell.Char?
    ensures r.Char? && r.contents == " " && !r.double && r.style == cell.style
  {
    cell.(contents := " ", double := false)
  }

  /** The contents of a `Char` cell: a first character as wide as the cell,
      then only zero-width characters. */
  predicate ValidContents(w: WidthFn, contents: string, double: bool)
  {
    |contents| > 0
    && w(contents[0]) == Some(if double then 2 else 1)
    && forall i :: 1 <= i < |contents| ==> w(contents[i]) == Some(0)
  }

  /** Cell `i` is a `Continuation` exactly when it follows a double cell. */
  predicate ContinuationRule(cells: seq<Cell>, i: int)
    requires 0 <= i < |cells|
  {
    cells[i].Continuation? <==> i > 0 && IsDouble(cells[i - 1])
  }

  /** The line invariant: at most `u16::MAX` cells, a `Continuation` exactly
      after every double cell, no double cell last, and valid contents. */
  predicate ValidLine(w: WidthFn, cells: seq<Cell>)
  {
    |cells| <= U16_MAX
    && (forall i :: 0 <= i < |cells| ==> ContinuationRule(cells, i))
    && (forall i :: 0 <= i < |cells| && IsDouble(cells[i]) ==> i + 1 < |cells|)
    && (forall i :: 0 <= i < |cells| && cells[i].Char? ==> ValidContents(w, cells[i].contents, cells[i].double))
  }

  /** The `Continuation` rule of the invariant at one index. */
  lemma ContinuationAt(w: WidthFn, cells: seq<Cell>, i: nat)
    requires ValidLine(w, cells) && i < |cells|
    ensures cells[i].Continuation? <==> i > 0 && IsDouble(cells[i - 1])
    ensures IsDouble(cells[i]) ==> i + 1 < |cells| && cells[i + 1].Continuation?
  {
    assert ContinuationRule(cells, i);
    if IsDouble(cells[i]) {
      assert ContinuationRule(cells, i + 1);
    }
  }

  /** `Line::resize`: truncate or pad with blank cells, then turn a double
      cell left in the last position into a space. */
  function Resize(cells: seq<Cell>, newLen: U16): (r: seq<Cell>)
    ensures |r| == newLen
    ensures forall i :: 0 <= i < newLen && i < |cells| && !(i == newLen - 1 && IsDouble(cells[i])) ==> r[i] == cells[i]
    ensures forall i :: |cells| <= i < newLen ==> r[i] == Blank
    ensures newLen > 0 && newLen <= |cells| && IsDouble(cells[newLen - 1]) ==> r[newLen - 1] == Demote(cells[newLen - 1])
    ensures newLen > 0 ==> !IsDouble(r[newLen - 1])
  {
    var padded := if newLen <= |cells| then cells[..newLen] else cells + seq(newLen - |cells|, _ => Blank);
    if newLen > 0 && IsDouble(padded[newLen - 1]) then padded[newLen - 1 := Demote(padded[newLen - 1])]
    else padded
  }

  /** `Line::new`. */
  function NewLine(len: U16): (r: seq<Cell>)
    ensures |r| == len && forall i :: 0 <= i < len ==> r[i] == Blank
  {
    Resize([], len)
  }

  /** Resizing keeps the line invariant. */
  lemma ResizePreservesValid(w: WidthFn, cells: seq<Cell>, newLen: U16)
    requires SaneWidth(w) && ValidLine(w, cells)
    ensures ValidLine(w, Resize(cells, newLen))
  {
    var r := Resize(cells, newLen);
    forall i | 0 <= i < |r|
      ensures ContinuationRule(r, i)
    {
      if i < |cells| {
        ContinuationAt(w, cells, i);
      }
      if 0 < i && i - 1 < |cells| {
        ContinuationAt(w, cells, i - 1);
      }
    }
  }

  lemma NewLineValid(w: WidthFn, len: U16)
    requires SaneWidth(w)
    ensures ValidLine(w, NewLine(len))
  {
  }

  /** A zero-width character joins the `Char` cell at `x`; on a
      `Continuation` or past the end it is dropped. */
  function WriteZeroWidth(cells: seq<Cell>, x: nat, c: char): (r: seq<Cell>)
    ensures |r| == |cells|
    ensures forall i :: 0 <= i < |r| && i != x ==> r[i] == cells[i]
    ensures x < |cells| && cells[x].Char? ==>
      r[x] == Char(cells[x].contents + [c], cells[x].double, cells[x].style)
    ensures x < |cells| && cells[x].Continuation? ==> r == cells
  {
    if x < |cells| && cells[x].Char? then cells[x := cells[x].(contents := cells[x].contents + [c])] else cells
  }

  /** A single-width character replaces the cell at `x`. The other half of a
      double-width character it lands on becomes a space: the cell after a
      double cell keeps the double cell's style, the cell before a
      `Continuation` keeps its own. A `Continuation` after anything but a
      double cell is `unreachable!()`. */
  function WriteNarrow(cells: seq<Cell>, x: nat, c: char, style: Style): (r: Result<seq<Cell>>)
    ensures x >= |cells| ==> r == Ok(cells)
    ensures r.Ok? ==> |r.value| == |cells|
    ensures r.Ok? ==> forall i :: 0 <= i < |cells| && i != x - 1 && i != x && i != x + 1 ==> r.value[i] == cells[i]
    ensures r.Ok? && x < |cells| ==> r.value[x] == Char([c], false, style)
    ensures x < |cells| && IsDouble(cells[x]) && x + 1 < |cells| ==>
      r == Ok(cells[x := Char([c], false, style)][x + 1 := Char(" ", false, cells[x].style)])
    ensures x < |cells| && cells[x].Continuation? && x > 0 && IsDouble(cells[x - 1]) ==>
      r == Ok(cells[x := Char([c], false, style)][x - 1 := Demote(cells[x - 1])])
    ensures x < |cells| && cells[x].Continuation? && !(x > 0 && IsDouble(cells[x - 1])) ==> r == Panic
    ensures x < |cells| && cells[x].Char? && !cells[x].double ==> r == Ok(cells[x := Char([c], false, style)])
  {
    if x >= |cells| then Ok(cells)
    else
      var oldCell := cells[x];
      var placed := cells[x := Char([c], false, style)];
      match oldCell
      case Char(_, double, oldStyle) =>
        if !double then Ok(placed)
        else if x + 1 < |placed| then Ok(placed[x + 1 := Char(" ", false, oldStyle)])
        else Panic
      case Continuation =>
        if x > 0 && IsDouble(placed[x - 1]) then Ok(placed[x - 1 := Demote(placed[x - 1])]) else Panic
  }

  /** The first half of a double-width write, shared by the code as written
      and the corrected version: `x + 1` becomes a `Continuation`, `x` the
      double cell, and if `x` was a `Continuation` the cell before it (a
      `Char`, else `unreachable!()`) becomes a space. */
  function PlaceWide(cells: seq<Cell>, x: nat, c: char, style: Style): (r: Result<seq<Cell>>)
    requires x + 1 < |cells|
    ensures r.Ok? ==> |r.value| == |cells|
    ensures r.Ok? ==> r.value[x] == Char([c], true, style) && r.value[x + 1] == Continuation
    ensures r.Ok? ==> forall i :: 0 <= i < |cells| && i != x - 1 && i != x && i != x + 1 ==> r.value[i] == cells[i]
    ensures !cells[x].Continuation? ==> r.Ok? && (x > 0 ==> r.value[x - 1] == cells[x - 1])
    ensures cells[x].Continuation? && x > 0 && cells[x - 1].Char? ==> r.Ok? && r.value[x - 1] == Demote(cells[x - 1])
    ensures cells[x].Continuation? && !(x > 0 && cells[x - 1].Char?) ==> r == Panic
  {
    var placed := cells[x + 1 := Continuation][x := Char([c], true, style)];
    if !cells[x].Continuation? then Ok(placed)
    else if x > 0 && placed[x - 1].Char? then Ok(placed[x - 1 := Demote(placed[x - 1])])
    else Panic
  }

  /** The double-width write as src/buffer.rs:309-320 writes it: when the
      old cell at `x + 1` was itself double, the `Continuation` just placed
      at `x + 1` is overwritten by a space, and the old `Continuation` at
      `x + 2` is left behind. */
  function WriteWideAsWritten(cells: seq<Cell>, x: nat, c: char, style: Style): (r: Result<seq<Cell>>)
    ensures x + 1 >= |cells| ==> r == Ok(cells)
    ensures r.Ok? ==> |r.value| == |cells|
    ensures x + 1 < |cells| && !IsDouble(cells[x + 1]) ==> r == PlaceWide(cells, x, c, style)
    ensures x + 1 < |cells| && IsDouble(cells[x + 1]) && PlaceWide(cells, x, c, style).Ok? ==>
      r.Ok? && r.value[x + 1] == Char(" ", false, cells[x + 1].style)
  {
    if x + 1 >= |cells| then Ok(cells)
    else
      match PlaceWide(cells, x, c, style)
      case Panic => Panic
      case Ok(placed) =>
        if IsDouble(cells[x + 1]) then Ok(placed[x + 1 := Char(" ", false, cells[x + 1].style)]) else Ok(placed)
  }

  /** The double-width write as intended: the other half of a double cell
      at `x + 1`, which is `x + 2`, becomes a space with that cell's style. */
  function WriteWide(cells: seq<Cell>, x: nat, c: char, style: Style): (r: Result<seq<Cell>>)
    ensures x + 1 >= |cells| ==> r == Ok(cells)
    ensures x + 1 < |cells| && !IsDouble(cells[x + 1]) ==> r == PlaceWide(cells, x, c, style)
    ensures r.Ok? ==> |r.value| == |cells|
    ensures r.Ok? && x + 1 < |cells| ==> r.value[x] == Char([c], true, style) && r.value[x + 1] == Continuation
    ensures r.Ok? && x + 2 < |cells| && IsDouble(cells[x + 1]) ==> r.value[x + 2] == Char(" ", false, cells[x + 1].style)
    ensures r.Ok? ==> forall i :: 0 <= i < |cells| && (i < x - 1 || i > x + 2) ==> r.value[i] == cells[i]
  {
    if x + 1 >= |cells| then Ok(cells)
    else
      match PlaceWide(cells, x, c, style)
      case Panic => Panic
      case Ok(placed) =>
        if !IsDouble(cells[x + 1]) then Ok(placed)
        else if x + 2 < |placed| then Ok(placed[x + 2 := Char(" ", false, cells[x + 1].style)])
        else Panic
  }

  /** Whether a write leaves a line untouched whatever it holds: a row other
      than 0, the NUL character, or a control character. */
  predicate Ignored(w: WidthFn, pos: Vec2<U16>, c: char)
  {
    pos.y != 0 || c == '\0' || w(c).None?
  }

  /** `Line::write_char` with the double-width write corrected. */
  function LineWriteChar(w: WidthFn, cells: seq<Cell>, pos: Vec2<U16>, c: char, style: Style): (r: Result<seq<Cell>>)
    ensures Ignored(w, pos, c) ==> r == Ok(cells)
    ensures !Ignored(w, pos, c) && w(c) == Some(0) ==> r == Ok(WriteZeroWidth(cells, pos.x, c))
    ensures !Ignored(w, pos, c) && w(c) == Some(1) ==> r == WriteNarrow(cells, pos.x, c, style)
    ensures !Ignored(w, pos, c) && w(c) == Some(2) ==> r == WriteWide(cells, pos.x, c, style)
  {
    if pos.y != 0 || c == '\0' then Ok(cells)
    else match w(c)
      case None => Ok(cells)
      case Some(n) =>
        if n == 0 then Ok(WriteZeroWidth(cells, pos.x, c))
        else if n == 1 then WriteNarrow(cells, pos.x, c, style)
        else WriteWide(cells, pos.x, c, style)
  }

  /** Whether a write takes the path src/buffer.rs:309-320 gets wrong: a
      double-width character written so that its second column lands on
      the first column of another double-width character. */
  predicate OnBugPath(w: WidthFn, cells: seq<Cell>, pos: Vec2<U16>, c: char)
  {
    !Ignored(w, pos, c) && w(c) == Some(2) && pos.x + 1 < |cells| && IsDouble(cells[pos.x + 1])
  }

  /** `Line::write_char` exactly as written. */
  function LineWriteCharAsWritten(w: WidthFn, cells: seq<Cell>, pos: Vec2<U16>, c: char, style: Style): (r: Result<seq<Cell>>)
    ensures !Ignored(w, pos, c) && w(c) == Some(2) ==> r == WriteWideAsWritten(cells, pos.x, c, style)
  {
    if !Ignored(w, pos, c) && w(c) == Some(2) then WriteWideAsWritten(cells, pos.x, c, style)
    else LineWriteChar(w, cells, pos, c, style)
  }

  /** Off the faulty path the code as written and the corrected write agree. */
  lemma AsWrittenAgreesOffBugPath(w: WidthFn, cells: seq<Cell>, pos: Vec2<U16>, c: char, style: Style)
    requires !OnBugPath(w, cells, pos, c)
    ensures LineWriteCharAsWritten(w, cells, pos, c, style) == LineWriteChar(w, cells, pos, c, style)
  {
  }

  /** A write of a character of width `w(c)` keeps the line invariant and
      never panics on a valid line. */
  lemma LineWriteCharPreservesValid(w: WidthFn, cells: seq<Cell>, pos: Vec2<U16>, c: char, style: Style)
    requires SaneWidth(w) && ValidLine(w, cells)
    ensures LineWriteChar(w, cells, pos, c, style).Ok?
    ensures ValidLine(w, LineWriteChar(w, cells, pos, c, style).value)
  {
    if !Ignored(w, pos, c) {
      var x := pos.x;
      if w(c) == Some(0) {
        ZeroWidthPreservesValid(w, cells, x, c);
      } else if w(c) == Some(1) {
        NarrowPreservesValid(w, cells, x, c, style);
      } else {
        WidePreservesValid(w, cells, x, c, style);
      }
    }
  }

  /** The invariant for the code as written, away from the faulty path. */
  lemma LineWriteCharAsWrittenPreservesValid(w: WidthFn, cells: seq<Cell>, pos: Vec2<U16>, c: char, style: Style)
    requires SaneWidth(w) && ValidLine(w, cells) && !OnBugPath(w, cells, pos, c)
    ensures LineWriteCharAsWritten(w, cells, pos, c, style).Ok?
    ensures ValidLine(w, LineWriteCharAsWritten(w, cells, pos, c, style).value)
  {
    AsWrittenAgreesOffBugPath(w, cells, pos, c, style);
    LineWriteCharPreservesValid(w, cells, pos, c, style);
  }

  lemma ZeroWidthPreservesValid(w: WidthFn, cells: seq<Cell>, x: nat, c: char)
    requires ValidLine(w, cells) && w(c) == Some(0)
    ensures ValidLine(w, WriteZeroWidth(cells, x, c))
  {
    var r := WriteZeroWidth(cells, x, c);
    if x < |cells| && cells[x].Char? {
      var s := cells[x].contents + [c];
      assert ValidContents(w, cells[x].contents, cells[x].double);
      assert forall i :: 1 <= i < |s| ==> w(s[i]) == Some(0) by {
        forall i | 1 <= i < |s| ensures w(s[i]) == Some(0) {
          if i < |cells[x].contents| {
            assert s[i] == cells[x].contents[i];
          }
        }
      }
      assert ValidContents(w, s, cells[x].double);
      forall i | 0 <= i < |r|
        ensures ContinuationRule(r, i)
      {
        ContinuationAt(w, cells, i);
      }
    }
  }

  lemma NarrowPreservesValid(w: WidthFn, cells: seq<Cell>, x: nat, c: char, style: Style)
    requires SaneWidth(w) && ValidLine(w, cells) && w(c) == Some(1)
    ensures WriteNarrow(cells, x, c, style).Ok?
    ensures ValidLine(w, WriteNarrow(cells, x, c, style).value)
  {
    if x < |cells| {
      ContinuationAt(w, cells, x);
      var r := WriteNarrow(cells, x, c, style).value;
      forall i | 0 <= i < |r|
        ensures ContinuationRule(r, i)
      {
        ContinuationAt(w, cells, i);
        if i > 0 {
          ContinuationAt(w, cells, i - 1);
        }
      }
      forall i | 0 <= i < |r| && r[i].Char?
        ensures ValidContents(w, r[i].contents, r[i].double)
      {
        if i != x && i != x - 1 && i != x + 1 {
          assert r[i] == cells[i];
        }
      }
    }
  }

  lemma WidePreservesValid(w: WidthFn, cells: seq<Cell>, x: nat, c: char, style: Style)
    requires SaneWidth(w) && ValidLine(w, cells) && w(c) == Some(2)
    ensures WriteWide(cells, x, c, style).Ok?
    ensures ValidLine(w, WriteWide(cells, x, c, style).value)
  {
    if x + 1 < |cells| {
      ContinuationAt(w, cells, x);
      if IsDouble(cells[x + 1]) {
        assert x + 2 < |cells|;
      }
      var r := WriteWide(cells, x, c, style).value;
      forall i | 0 <= i < |r|
        ensures ContinuationRule(r, i)
      {
        ContinuationAt(w, cells, i);
        if i > 0 {
          ContinuationAt(w, cells, i - 1);
        }
      }
      forall i | 0 <= i < |r| && IsDouble(r[i])
        ensures i + 1 < |r|
      {
        if i != x {
          ContinuationAt(w, cells, i);
        }
      }
      forall i | 0 <= i < |r| && r[i].Char?
        ensures ValidContents(w, r[i].contents, r[i].double)
      {
        if i < x - 1 || i > x + 2 {
          assert r[i] == cells[i];
        }
      }
    }
  }

  /** A width table for the worked examples below: ASCII controls have no
      width, U+0301 (combining acute) is zero-width, U+1F60A (a smiling
      face) is double-width, and everything else is single-width. */
  function ExampleWidth(c: char): Option<ColWidth>
  {
    if c < ' ' || c == '\U{7F}' then None
    else if c == '\U{301}' then Some(0)
    else if c == '\U{1F60A}' then Some(2)
    else Some(1)
  }

  /** The text a line shows: the contents of its `Char` cells in order. */
  function LineContents(cells: seq<Cell>): string
  {
    if |cells| == 0 then []
    else (match cells[0] case Char(s, _, _) => s case Continuation => []) + LineContents(cells[1..])
  }

  /** The faulty path breaks the invariant: writing a double-width character
      at column 0 of `a`, wide face, `d` leaves a double cell followed by a
      space and an orphaned `Continuation`, and a later single-width write
      onto that orphan reaches `unreachable!()`. The corrected write turns
      the orphan into a space with the old double cell's style instead. */
  lemma AsWrittenBreaksInvariant()
    ensures var w := ExampleWidth;
      var face := Face;
      var st := DefaultStyle.(foreground := Red);
      var line := [Char("a", false, DefaultStyle), Char([face], true, st), Continuation, Char("d", false, DefaultStyle)];
      var r := LineWriteCharAsWritten(w, line, Vec2(0, 0), face, DefaultStyle);
      var f := LineWriteChar(w, line, Vec2(0, 0), face, DefaultStyle);
      SaneWidth(w) && ValidLine(w, line) && OnBugPath(w, line, Vec2(0, 0), face)
      && r.Ok? && |r.value| == 4 && IsDouble(r.value[0])
      && r.value[1] == Char(" ", false, st) && r.value[2] == Continuation
      && !ValidLine(w, r.value)
      && LineWriteCharAsWritten(w, r.value, Vec2(2, 0), 'e', DefaultStyle) == Panic
      && f.Ok? && f.value[1] == Continuation && f.value[2] == Char(" ", false, st) && ValidLine(w, f.value)
  {
    var w := ExampleWidth;
    var face := Face;
    var st := DefaultStyle.(foreground := Red);
    var line := [Char("a", false, DefaultStyle), Char([face], true, st), Continuation, Char("d", false, DefaultStyle)];
    assert ValidLine(w, line) by {
      forall i | 0 <= i < |line|
        ensures ContinuationRule(line, i)
      {
        if i == 2 {
          assert IsDouble(line[1]);
        }
      }
    }
    var r := LineWriteCharAsWritten(w, line, Vec2(0, 0), face, DefaultStyle).value;
    assert !ContinuationRule(r, 2);
    assert WriteNarrow(r, 2, 'e', DefaultStyle) == Panic;
    LineWriteCharPreservesValid(w, line, Vec2(0, 0), face, DefaultStyle);
  }

  /** The double-width character of the examples. */
  const Face: char := '\U{1F60A}'

  const WideFace: Cell := Char([Face], true, DefaultStyle)

  const LetterA: Cell := Char("a", false, DefaultStyle)

  /** The steps of the line test in src/buffer.rs, one lemma each. */
  lemma ScenarioResize()
    ensures Resize(NewLine(0), 5) == [Blank, Blank, Blank, Blank, Blank]
  {
  }

  lemma ScenarioWideAt0()
    ensures LineWriteChar(ExampleWidth, [Blank, Blank, Blank, Blank, Blank], Vec2(0, 0), Face, DefaultStyle)
      == Ok([WideFace, Continuation, Blank, Blank, Blank])
  {
    var r := LineWriteChar(ExampleWidth, [Blank, Blank, Blank, Blank, Blank], Vec2(0, 0), Face, DefaultStyle);
    assert r.value == [WideFace, Continuation, Blank, Blank, Blank];
  }

  lemma ScenarioWideOverWide()
    ensures LineWriteChar(ExampleWidth, [WideFace, Continuation, Blank, Blank, Blank], Vec2(1, 0), Face, DefaultStyle)
      == Ok([Blank, WideFace, Continuation, Blank, Blank])
  {
    var r := LineWriteChar(ExampleWidth, [WideFace, Continuation, Blank, Blank, Blank], Vec2(1, 0), Face, DefaultStyle);
    assert r.value == [Blank, WideFace, Continuation, Blank, Blank];
  }

  lemma ScenarioWideAtEdge()
    ensures LineWriteChar(ExampleWidth, [Blank, WideFace, Continuation, Blank, Blank], Vec2(4, 0), Face, DefaultStyle)
      == Ok([Blank, WideFace, Continuation, Blank, Blank])
  {
  }

  lemma ScenarioNarrowOverWide()
    ensures LineWriteChar(ExampleWidth, [Blank, WideFace, Continuation, Blank, Blank], Vec2(2, 0), 'a', DefaultStyle)
      == Ok([Blank, Blank, LetterA, Blank, Blank])
  {
    var r := LineWriteChar(ExampleWidth, [Blank, WideFace, Continuation, Blank, Blank], Vec2(2, 0), 'a', DefaultStyle);
    assert r.value == [Blank, Blank, LetterA, Blank, Blank];
  }

  lemma ScenarioWideNextToNarrow()
    ensures LineWriteChar(ExampleWidth, [Blank, Blank, LetterA, Blank, Blank], Vec2(3, 0), Face, DefaultStyle)
      == Ok([Blank, Blank, LetterA, WideFace, Continuation])
  {
    var r := LineWriteChar(ExampleWidth, [Blank, Blank, LetterA, Blank, Blank], Vec2(3, 0), Face, DefaultStyle);
    assert r.value == [Blank, Blank, LetterA, WideFace, Continuation];
  }

  lemma ScenarioShrink()
    ensures Resize([Blank, Blank, LetterA, WideFace, Continuation], 4) == [Blank, Blank, LetterA, Blank]
  {
    var r := Resize([Blank, Blank, LetterA, WideFace, Continuation], 4);
    assert r == [Blank, Blank, LetterA, Blank];
  }

  /** What the lines of the scenario show. */
  lemma ScenarioContents()
    ensures LineContents([Blank, Blank, Blank, Blank, Blank]) == "     "
    ensures LineContents([WideFace, Continuation, Blank, Blank, Blank]) == [Face] + "   "
    ensures LineContents([Blank, WideFace, Continuation, Blank, Blank]) == " " + [Face] + "  "
    ensures LineContents([Blank, Blank, LetterA, Blank, Blank]) == "  a  "
    ensures LineContents([Blank, Blank, LetterA, WideFace, Continuation]) == "  a" + [Face]
    ensures LineContents([Blank, Blank, LetterA, Blank]) == "  a "
  {
    FaceLineContents();
    LetterLineContents();
  }

  /** The blank line and the lines holding only the face. */
  lemma FaceLineContents()
    ensures LineContents([Blank, Blank, Blank, Blank, Blank]) == "     "
    ensures LineContents([WideFace, Continuation, Blank, Blank, Blank]) == [Face] + "   "
    ensures LineContents([Blank, WideFace, Continuation, Blank, Blank]) == " " + [Face] + "  "
  {
    var sp, d := Blank, WideFace;
    ContentsCons(sp, [sp, sp, sp, sp]);
    ContentsCons(sp, [sp, sp, sp]);
    ContentsCons(sp, [sp, sp]);
    ContentsCons(sp, [sp]);
    ContentsCons(sp, []);
    ContentsCons(d, [Continuation, sp, sp, sp]);
    ContentsCons(Continuation, [sp, sp, sp]);
    ContentsCons(sp, [d, Continuation, sp, sp]);
    ContentsCons(d, [Continuation, sp, sp]);
    ContentsCons(Continuation, [sp, sp]);
  }

  /** The lines holding the letter `a`. */
  lemma LetterLineContents()
    ensures LineContents([Blank, Blank, LetterA, Blank, Blank]) == "  a  "
    ensures LineContents([Blank, Blank, LetterA, WideFace, Continuation]) == "  a" + [Face]
    ensures LineContents([Blank, Blank, LetterA, Blank]) == "  a "
  {
    var sp, a, d := Blank, LetterA, WideFace;
    ContentsCons(sp, []);
    ContentsCons(sp, [sp]);
    ContentsCons(sp, [sp, sp]);
    ContentsCons(sp, [sp, a, sp, sp]);
    ContentsCons(sp, [a, sp, sp]);
    ContentsCons(a, [sp, sp]);
    ContentsCons(sp, [sp, a, d, Continuation]);
    ContentsCons(sp, [a, d, Continuation]);
    ContentsCons(a, [d, Continuation]);
    ContentsCons(d, [Continuation]);
    ContentsCons(Continuation, []);
    ContentsCons(sp, [sp, a, sp]);
    ContentsCons(sp, [a, sp]);
    ContentsCons(a, [sp]);
  }

  lemma ContentsCons(cell: Cell, rest: seq<Cell>)
    ensures LineContents([cell] + rest)
      == (match cell case Char(s, _, _) => s case Continuation => []) + LineContents(rest)
  {
    assert ([cell] + rest)[1..] == rest;
  }

  /** The grid: a width and its lines. */
  datatype Grid = Grid(width: U16, lines: seq<seq<Cell>>)

  /** At most `u16::MAX` lines, each `width` cells long and valid. */
  predicate ValidGrid(w: WidthFn, g: Grid)
  {
    |g.lines| <= U16_MAX
    && forall y :: 0 <= y < |g.lines| ==> |g.lines[y]| == g.width && ValidLine(w, g.lines[y])
  }

  /** `Grid::size`. */
  function GridSize(g: Grid): (r: Vec2<U16>)
    requires |g.lines| <= U16_MAX
    ensures r.x == g.width && r.y == |g.lines|
  {
    Vec2(g.width, |g.lines|)
  }

  /** `Grid::resize_width`: every line resized to the new width. */
  function GridResizeWidth(g: Grid, newWidth: U16): (r: Grid)
    ensures r.width == newWidth && |r.lines| == |g.lines|
    ensures forall y :: 0 <= y < |r.lines| ==> r.lines[y] == Resize(g.lines[y], newWidth)
  {
    Grid(newWidth, seq(|g.lines|, y requires 0 <= y < |g.lines| => Resize(g.lines[y], newWidth)))
  }

  /** `Grid::resize_height`: lines cut off at the bottom or blank lines of
      the current width added. */
  function GridResizeHeight(g: Grid, newHeight: U16): (r: Grid)
    ensures r.width == g.width && |r.lines| == newHeight
    ensures forall y :: 0 <= y < newHeight && y < |g.lines| ==> r.lines[y] == g.lines[y]
    ensures forall y :: |g.lines| <= y < newHeight ==> r.lines[y] == NewLine(g.width)
  {
    var lines := if newHeight <= |g.lines| then g.lines[..newHeight]
                 else g.lines + seq(newHeight - |g.lines|, _ => NewLine(g.width));
    Grid(g.width, lines)
  }

  /** `Grid::new`: the empty grid resized to `size`. */
  function NewGrid(size: Vec2<U16>): Grid
  {
    GridResizeHeight(GridResizeWidth(Grid(0, []), size.x), size.y)
  }

  /** Resizing keeps a grid valid, and a new grid is valid, blank and of the
      requested size. */
  lemma GridResizePreservesValid(w: WidthFn, g: Grid, newWidth: U16, newHeight: U16)
    requires SaneWidth(w) && ValidGrid(w, g)
    ensures ValidGrid(w, GridResizeWidth(g, newWidth))
    ensures ValidGrid(w, GridResizeHeight(g, newHeight))
  {
    forall y | 0 <= y < |g.lines| ensures ValidLine(w, Resize(g.lines[y], newWidth)) {
      ResizePreservesValid(w, g.lines[y], newWidth);
    }
    NewLineValid(w, g.width);
  }

  lemma NewGridValid(w: WidthFn, size: Vec2<U16>)
    requires SaneWidth(w)
    ensures ValidGrid(w, NewGrid(size))
    ensures GridSize(NewGrid(size)) == size
    ensures forall y, x :: 0 <= y < size.y && 0 <= x < size.x ==> NewGrid(size).lines[y][x] == Blank
  {
    GridResizePreservesValid(w, GridResizeWidth(Grid(0, []), size.x), size.x, size.y);
  }

  /** `Grid::write_char`: a write to a row that exists goes to that line at
      row 0; a write below the grid is dropped. */
  function GridWriteChar(w: WidthFn, g: Grid, pos: Vec2<U16>, c: char, style: Style): (r: Result<Grid>)
    ensures pos.y >= |g.lines| ==> r == Ok(g)
    ensures r.Ok? ==> r.value.width == g.width && |r.value.lines| == |g.lines|
    ensures r.Ok? ==> forall y :: 0 <= y < |g.lines| && y != pos.y ==> r.value.lines[y] == g.lines[y]
    ensures pos.y < |g.lines| ==>
      (r.Ok? <==> LineWriteChar(w, g.lines[pos.y], Vec2(pos.x, 0), c, style).Ok?)
    ensures r.Ok? && pos.y < |g.lines| ==>
      r.value.lines[pos.y] == LineWriteChar(w, g.lines[pos.y], Vec2(pos.x, 0), c, style).value
  {
    if pos.y < |g.lines| then
      match LineWriteChar(w, g.lines[pos.y], Vec2(pos.x, 0), c, style)
      case Ok(line) => Ok(g.(lines := g.lines[pos.y := line]))
      case Panic => Panic
    else Ok(g)
  }

  lemma GridWriteCharPreservesValid(w: WidthFn, g: Grid, pos: Vec2<U16>, c: char, style: Style)
    requires SaneWidth(w) && ValidGrid(w, g)
    ensures GridWriteChar(w, g, pos, c, style).Ok?
    ensures ValidGrid(w, GridWriteChar(w, g, pos, c, style).value)
  {
    if pos.y < |g.lines| {
      LineWriteCharPreservesValid(w, g.lines[pos.y], Vec2(pos.x, 0), c, style);
    }
  }

  /** A whole terminal state. */
  datatype BufferState = BufferState(title: string, grid: Grid, cursor: Option<Cursor>)

  /** The `Output` impl of `Buffer`: writes go to the grid, the title and
      cursor are stored. */
  function ApplyCall(w: WidthFn, b: BufferState, call: OutputCall): (r: Result<BufferState>)
    ensures call.SetTitle? ==> r == Ok(b.(title := call.title))
    ensures call.SetCursor? ==> r == Ok(b.(cursor := call.cursor))
    ensures call.WriteChar? ==>
      (r.Ok? <==> GridWriteChar(w, b.grid, call.pos, call.c, call.style).Ok?)
      && (r.Ok? ==> r.value == b.(grid := GridWriteChar(w, b.grid, call.pos, call.c, call.style).value))
  {
    match call
    case WriteChar(pos, c, style) =>
      (match GridWriteChar(w, b.grid, pos, c, style) case Ok(g) => Ok(b.(grid := g)) case Panic => Panic)
    case SetTitle(t) => Ok(b.(title := t))
    case SetCursor(cur) => Ok(b.(cursor := cur))
  }

  /** A sequence of calls applied in order, stopping at the first panic. */
  function ApplyCalls(w: WidthFn, b: BufferState, calls: seq<OutputCall>): Result<BufferState>
    decreases |calls|
  {
    if |calls| == 0 then Ok(b)
    else match ApplyCall(w, b, calls[0])
      case Ok(b') => ApplyCalls(w, b', calls[1..])
      case Panic => Panic
  }

  /** On a valid grid calls never panic; writes keep the grid valid and the
      same size. */
  lemma {:induction false} ApplyCallsPreservesValid(w: WidthFn, b: BufferState, calls: seq<OutputCall>)
    requires SaneWidth(w) && ValidGrid(w, b.grid)
    ensures ApplyCalls(w, b, calls).Ok?
    ensures ValidGrid(w, ApplyCalls(w, b, calls).value.grid)
    ensures ApplyCalls(w, b, calls).value.grid.width == b.grid.width
    ensures |ApplyCalls(w, b, calls).value.grid.lines| == |b.grid.lines|
    decreases |calls|
  {
    if |calls| > 0 {
      if calls[0].WriteChar? {
        GridWriteCharPreservesValid(w, b.grid, calls[0].pos, calls[0].c, calls[0].style);
      }
      ApplyCallsPreservesValid(w, ApplyCall(w, b, calls[0]).value, calls[1..]);
    }
  }

  /** Writes alone leave the title, the cursor and the grid's shape alone. */
  lemma {:induction false} WritesKeepTitleAndCursor(w: WidthFn, b: BufferState, calls: seq<OutputCall>)
    requires forall call :: call in calls ==> call.WriteChar?
    requires ApplyCalls(w, b, calls).Ok?
    ensures ApplyCalls(w, b, calls).value.title == b.title
    ensures ApplyCalls(w, b, calls).value.cursor == b.cursor
    ensures ApplyCalls(w, b, calls).value.grid.width == b.grid.width
    ensures |ApplyCalls(w, b, calls).value.grid.lines| == |b.grid.lines|
    decreases |calls|
  {
    if |calls| > 0 {
      assert calls[0] in calls;
      assert forall call :: call in calls[1..] ==> call in calls;
      WritesKeepTitleAndCursor(w, ApplyCall(w, b, calls[0]).value, calls[1..]);
    }
  }

  /** `Buffer::write`, the default `Output::write` on a buffer. */
  function BufferWrite(w: WidthFn, b: BufferState, pos: Vec2<U16>, text: string, style: Style): (r: Result<BufferState>)
    ensures r.Ok? ==> r.value.title == b.title && r.value.cursor == b.cursor
    ensures r.Ok? ==> r.value.grid.width == b.grid.width && |r.value.grid.lines| == |b.grid.lines|
  {
    var calls := Write(w, pos, text, style);
    if ApplyCalls(w, b, calls).Ok? then WritesKeepTitleAndCursor(w, b, calls); ApplyCalls(w, b, calls)
    else ApplyCalls(w, b, calls)
  }
}
