/** The tile filter (src/elements/filter/tile.rs): on each tiled axis the
    element is repeated at its minimum size, shifted by an offset; an
    untiled axis gives the element the whole output. */
module TileFilter {
  import opened Common
  import opened Vectors
  import opened Inputs
  import opened Containers

  /** One axis of `Tile::layout`: the tile's offset and size. */
  datatype AxisTile = AxisTile(offset: U16, size: U16)

  /** An untiled axis covers the output once; a tiled one uses the
      element's minimum size, at least one cell, and the requested offset
      reduced modulo that size. */
  function TileAxis(tiled: Option<U16>, minSize: U16, output: U16): (r: AxisTile)
    ensures tiled.None? ==> r == AxisTile(0, output)
    ensures tiled.Some? ==> r.size == Max(minSize, 1) && r.offset < r.size
    ensures tiled.Some? ==> r.offset == tiled.value % r.size
  {
    match tiled
    case None => AxisTile(0, output)
    case Some(offset) =>
      var size := Max(minSize, 1);
      AxisTile(offset % size, size)
  }

  /** `Tile::layout`: the width is chosen first; the height is the
      element's minimum height at that width (`minHeightAt`). */
  function TileLayout(offset: Vec2<Option<U16>>, minWidth: U16, minHeightAt: U16 -> U16, output: Vec2<U16>): (r: Vec2<AxisTile>)
    ensures r.x == TileAxis(offset.x, minWidth, output.x)
    ensures r.y == TileAxis(offset.y, minHeightAt(r.x.size), output.y)
  {
    var x := TileAxis(offset.x, minWidth, output.x);
    Vec2(x, TileAxis(offset.y, minHeightAt(x.size), output.y))
  }

  /** The tile indices `Tile::draw` visits on one axis: from -1 when the
      first tile starts left of the output (0 otherwise) up to the number
      of tiles the output holds, rounded up. */
  function TileIndices(t: AxisTile, output: U16): (r: (int, int))
    requires t.size > 0
    ensures r.0 == (if t.offset == 0 then 0 else -1)
    ensures r.1 * t.size >= output && (r.1 - 1) * t.size < output
  {
    var whole := output / t.size;
    assert output == whole * t.size + output % t.size;
    assert (whole + 1) * t.size == whole * t.size + t.size;
    assert (whole - 1) * t.size == whole * t.size - t.size;
    (if t.offset == 0 then 0 else -1, if output % t.size == 0 then whole else whole + 1)
  }

  /** The output coordinate where tile `i` starts. */
  function Origin(t: AxisTile, i: int): int
  {
    i * t.size + t.offset
  }

  /** The tile origins `Tile::draw` uses on one axis, in drawing order;
      none when the output is empty. */
  function TileOrigins(t: AxisTile, output: U16): (r: seq<int>)
    requires t.size > 0
    ensures output == 0 ==> r == []
    ensures output > 0 ==> |r| == TileIndices(t, output).1 - TileIndices(t, output).0
    ensures forall k :: 0 <= k < |r| ==> r[k] == Origin(t, TileIndices(t, output).0 + k)
  {
    if output == 0 then []
    else
      var ix := TileIndices(t, output);
      if ix.1 <= ix.0 then [] else seq(ix.1 - ix.0, k => Origin(t, ix.0 + k))
  }

  /** Tiles tile: when the offset is below the size (as `TileAxis` makes
      it), every cell of a non-empty output lies in a drawn tile, at
      position `(cell - offset) mod size` inside it. */
  lemma TilesCover(t: AxisTile, output: U16, cell: int)
    requires 0 < t.size && t.offset < t.size
    requires 0 <= cell < output
    ensures var o := TileOrigins(t, output);
      exists k :: 0 <= k < |o| && o[k] <= cell < o[k] + t.size && cell - o[k] == (cell - t.offset) % t.size
  {
    var o := TileOrigins(t, output);
    var first, last := TileIndices(t, output).0, TileIndices(t, output).1;
    var i := (cell - t.offset) / t.size;
    var m := (cell - t.offset) % t.size;
    ModUnique(cell - t.offset, t.size, i, m);
    assert first <= i by {
      if i < first {
        if t.offset == 0 {
          MulMonotone(i, -1, t.size);
        } else {
          MulMonotone(i, -2, t.size);
        }
      }
    }
    assert i < last by {
      if last <= i {
        MulMonotone(last, i, t.size);
      }
    }
    assert o[i - first] == Origin(t, i);
  }

  /** No cell lies in two drawn tiles. */
  lemma TilesDisjoint(t: AxisTile, output: U16, cell: int)
    requires 0 < t.size
    ensures var o := TileOrigins(t, output);
      forall k, l :: 0 <= k < |o| && 0 <= l < |o| && o[k] <= cell < o[k] + t.size && o[l] <= cell < o[l] + t.size ==> k == l
  {
    var o := TileOrigins(t, output);
    forall k, l | 0 <= k < |o| && 0 <= l < |o| && o[k] <= cell < o[k] + t.size && o[l] <= cell < o[l] + t.size
      ensures k == l
    {
      var first := TileIndices(t, output).0;
      if k < l {
        OriginsApart(t, first + k, first + l);
      } else if l < k {
        OriginsApart(t, first + l, first + k);
      }
    }
  }

  /** No drawn tile lies wholly left of the output, and none starts further
      right than the offset past the output's end: the index range is
      worked out from the output size alone, so with an offset the last
      tile can fall entirely outside (where the area clips it away). */
  lemma TilesNearOutput(t: AxisTile, output: U16)
    requires 0 < t.size && t.offset < t.size
    ensures var o := TileOrigins(t, output);
      forall k :: 0 <= k < |o| ==> o[k] - t.offset < output && 0 < o[k] + t.size
  {
    var o := TileOrigins(t, output);
    forall k | 0 <= k < |o| ensures o[k] - t.offset < output && 0 < o[k] + t.size {
      var first, last := TileIndices(t, output).0, TileIndices(t, output).1;
      var j := first + k;
      assert o[k] == j * t.size + t.offset;
      MulMonotone(j, last - 1, t.size);
      MulMonotone(first, j, t.size);
    }
  }

  /** Two different tiles never share a cell. */
  lemma OriginsApart(t: AxisTile, i: int, j: int)
    requires 0 < t.size
    requires i < j
    ensures Origin(t, i) + t.size <= Origin(t, j)
  {
    MulMonotone(i + 1, j, t.size);
    assert (i + 1) * t.size == i * t.size + t.size;
  }

  lemma MulMonotone(a: int, b: int, s: nat)
    requires a <= b
    ensures a * s <= b * s
  {
    assert b * s - a * s == (b - a) * s;
  }

  /** The remainder is the unique one: `x = q * s + m` with `0 <= m < s`
      fixes `m` as `x % s`. */
  lemma ModUnique(x: int, s: int, q: int, m: int)
    requires 0 < s && 0 <= m < s && x == q * s + m
    ensures x % s == m && x / s == q
  {
    var q', m' := x / s, x % s;
    assert x == q' * s + m';
    if q' < q {
      MulMonotone(q' + 1, q, s);
    } else if q < q' {
      MulMonotone(q + 1, q', s);
    }
  }

  /** One axis of `Tile::handle`'s mouse remapping: `at - offset` if that
      does not underflow, otherwise `at + (size - offset)`, then modulo the
      size. */
  function TileLocal(at: U16, t: AxisTile): (r: U16)
    requires 0 < t.size && t.offset < t.size
    ensures r < t.size
    ensures r == (at - t.offset) % t.size
  {
    if at >= t.offset then (at - t.offset) % t.size
    else
      ModUnique(at - t.offset, t.size, -1, at + (t.size - t.offset));
      ModUnique(at + (t.size - t.offset), t.size, 0, at + (t.size - t.offset));
      (at + (t.size - t.offset)) % t.size
  }

  /** The tile size for an output, when both of its sides are non-zero. */
  function TileSizeOf(offset: Vec2<Option<U16>>, minWidth: U16, minHeightAt: U16 -> U16, output: Vec2<U16>): Option<Vec2<U16>>
  {
    var l := TileLayout(offset, minWidth, minHeightAt, output);
    if l.x.size == 0 || l.y.size == 0 then None else Some(Vec2(l.x.size, l.y.size))
  }

  /** `Tile::handle`: keys pass through; a mouse is given the tile's size
      and its position inside the tile it lies on. The layout is computed
      for the mouse's output size. An untiled axis of a mouse's output with
      no extent takes a remainder by zero, which panics. */
  function TileHandle(offset: Vec2<Option<U16>>, minWidth: U16, minHeightAt: U16 -> U16, input: Input): (r: Result<Input>)
    ensures input.KeyInput? ==> r == Ok(input)
    ensures input.MouseInput? ==> (r.Panic? <==> TileSizeOf(offset, minWidth, minHeightAt, input.mouse.size) == None)
    ensures input.MouseInput? && r.Ok? ==>
      r.value.MouseInput? && Some(r.value.mouse.size) == TileSizeOf(offset, minWidth, minHeightAt, input.mouse.size)
    ensures input.MouseInput? && r.Ok? ==>
      r.value.mouse.at.x < r.value.mouse.size.x && r.value.mouse.at.y < r.value.mouse.size.y
    ensures input.MouseInput? && r.Ok? ==>
      r.value.mouse.kind == input.mouse.kind && r.value.mouse.modifiers == input.mouse.modifiers
  {
    match input
    case KeyInput(_) => Ok(input)
    case MouseInput(m) =>
      var l := TileLayout(offset, minWidth, minHeightAt, m.size);
      if l.x.size == 0 || l.y.size == 0 then Panic
      else Ok(MouseInput(m.(size := Vec2(l.x.size, l.y.size), at := Vec2(TileLocal(m.at.x, l.x), TileLocal(m.at.y, l.y)))))
  }

  /** A mouse on an output cell reaches the element at the position the
      tile drawn over that cell gives it. */
  lemma TileMouseMatchesDraw(t: AxisTile, output: U16, at: U16)
    requires 0 < t.size && t.offset < t.size
    requires at < output
    ensures var o := TileOrigins(t, output);
      exists k :: 0 <= k < |o| && o[k] <= at < o[k] + t.size && at - o[k] == TileLocal(at, t)
  {
    TilesCover(t, output, at);
  }

  /** `Tile::width` and `Tile::height`: the minimum is the element's, and
      a tiled axis can grow without bound. */
  function TileRange(tiled: bool, r: SizeRange): (t: SizeRange)
    ensures t.min == r.min
    ensures tiled ==> t.max == U16_MAX
    ensures !tiled ==> t == r
  {
    SizeRange(r.min, if tiled then U16_MAX else r.max)
  }

  /** The column of the element shown at `cell` on a tiled axis. */
  function ShownAt(t: AxisTile, cell: U16): U16
    requires 0 < t.size && t.offset < t.size
  {
    TileLocal(cell, t)
  }

  /** The tests' first row: "abc" tiled with offset 2 over twelve columns
      reads "bcabcabcabca", from five tiles starting at column -1. */
  lemma ScenarioTileX()
    ensures TileAxis(Some(2), 3, 12) == AxisTile(2, 3)
    ensures TileOrigins(AxisTile(2, 3), 12) == [-1, 2, 5, 8, 11]
    ensures seq(12, (c: int) requires 0 <= c < 12 => "abc"[ShownAt(AxisTile(2, 3), c)]) == "bcabcabcabca"
  {
    assert TileIndices(AxisTile(2, 3), 12) == (-1, 4);
    var o := TileOrigins(AxisTile(2, 3), 12);
    assert |o| == 5 && o[0] == -1 && o[1] == 2 && o[2] == 5 && o[3] == 8 && o[4] == 11;
  }

  /** Offset 3 on a three-column element is no offset at all. */
  lemma ScenarioTileXAligned()
    ensures TileAxis(Some(3), 3, 12) == AxisTile(0, 3)
    ensures TileOrigins(AxisTile(0, 3), 12) == [0, 3, 6, 9]
  {
    assert Max(3, 1) == 3 && 3 % 3 == 0;
    assert TileIndices(AxisTile(0, 3), 12) == (0, 4);
    var o := TileOrigins(AxisTile(0, 3), 12);
    assert |o| == 4 && o[0] == 0 && o[1] == 3 && o[2] == 6 && o[3] == 9;
  }

  /** The two-row element tiled down six rows with offset 1 starts with its
      second row, and with offset 2 with its first. */
  lemma ScenarioTileY()
    ensures seq(6, (r: int) requires 0 <= r < 6 => ShownAt(TileAxis(Some(1), 2, 6), r)) == [1, 0, 1, 0, 1, 0]
    ensures seq(6, (r: int) requires 0 <= r < 6 => ShownAt(TileAxis(Some(2), 2, 6), r)) == [0, 1, 0, 1, 0, 1]
  {
  }
}
