/** The stretch layout of one-dimensional containers: one element, the
    stretched one, takes whatever space the others leave. The iterator takes
    elements from the front up to the stretched one, then from the back down
    to it, and gives the stretched element the gap between the two ends. */
module StretchLayout {
  import opened Common
  import opened Containers
  import S = StaticLayout

  /** `usize::MAX` on a 64-bit target. */
  const USIZE_MAX: nat := 0xFFFF_FFFF_FFFF_FFFF

  /** `n - 1` on a `usize` as a release build evaluates it. */
  function WrapDec(n: nat): (r: nat)
    ensures n > 0 ==> r == n - 1
    ensures n == 0 ==> r == USIZE_MAX
  {
    if n == 0 then USIZE_MAX else n - 1
  }

  /** The fields of the stretch `Layout` iterator: the index counter `i`,
      where free space starts and ends, and the part `[front, back)` of the
      elements the double-ended element iterator has not yet yielded. */
  datatype Cursor = Cursor(i: nat, start: U16, end: U16, front: nat, back: nat)

  /** What the stretch `Layout` iterator yields from `c` on. */
  function StretchFrom(sizes: seq<U16>, stretched: nat, c: Cursor): seq<Placed>
    requires c.front <= c.back <= |sizes|
    decreases c.back - c.front
  {
    if c.start >= c.end then []
    else if c.i < stretched then
      // Before the stretched element: place from the front, then jump the
      // counter to the last element once the stretched one is next.
      var i := if c.i + 1 == stretched then WrapDec(|sizes|) else c.i + 1;
      if c.front >= c.back then []
      else
        var size := sizes[c.front];
        [Placed(c.i, c.start, size)]
          + StretchFrom(sizes, stretched, Cursor(i, SatAdd(c.start, size), c.end, c.front + 1, c.back))
    else if c.i == stretched then
      // The stretched element fills the gap left between the two ends.
      if c.front >= c.back then []
      else [Placed(c.i, c.start, c.end - c.start)] + StretchFrom(sizes, stretched, c.(front := c.front + 1))
    else
      // After the stretched element: place from the back, never past the
      // start of the free space.
      if c.front >= c.back then []
      else
        var size := Min(sizes[c.back - 1], c.end - c.start);
        [Placed(c.i, c.end - size, size)]
          + StretchFrom(sizes, stretched, Cursor(c.i - 1, c.start, c.end - size, c.front, c.back - 1))
  }

  /** `Stretch::layout` over the elements' main-axis sizes. */
  function StretchLayout(sizes: seq<U16>, stretched: nat, main: U16): seq<Placed>
  {
    StretchFrom(sizes, stretched, Cursor(if stretched == 0 then WrapDec(|sizes|) else 0, 0, main, 0, |sizes|))
  }

  /** The sizes with the stretched element's counted as zero. */
  function ZeroAt(sizes: seq<U16>, stretched: nat): (z: seq<U16>)
    ensures |z| == |sizes|
    ensures forall i :: 0 <= i < |sizes| ==> z[i] == if i == stretched then 0 else sizes[i]
  {
    seq(|sizes|, i requires 0 <= i < |sizes| => if i == stretched then 0 else sizes[i])
  }

  /** The sum of all sizes except the stretched element's. */
  function Others(sizes: seq<U16>, stretched: nat): nat
  {
    if stretched < |sizes| then Sum(sizes[..stretched]) + Sum(sizes[stretched + 1..]) else Sum(sizes)
  }

  lemma {:induction false} SumZeroAt(sizes: seq<U16>, stretched: nat)
    ensures Sum(ZeroAt(sizes, stretched)) == Others(sizes, stretched)
  {
    var z := ZeroAt(sizes, stretched);
    if stretched < |sizes| {
      SumAround(z, stretched);
      SumAround(sizes, stretched);
      assert z[..stretched] == sizes[..stretched];
      assert z[stretched + 1..] == sizes[stretched + 1..];
    } else {
      assert z == sizes;
    }
  }

  /** `Stretch::main_axis_size`: the other elements' sizes added up with
      `.sum()` (wrapping in a release build) as the minimum, no maximum. */
  function StretchMainAxisSize(sizes: seq<U16>, stretched: nat): (r: SizeRange)
    ensures r.min == Others(sizes, stretched) % 0x10000
    ensures r.max == U16_MAX
  {
    WrapSumIsSumModulo(ZeroAt(sizes, stretched));
    SumZeroAt(sizes, stretched);
    SizeRange(WrapSum(ZeroAt(sizes, stretched)), U16_MAX)
  }

  /** Where the `j`-th placement of a stretch layout that has room for all
      elements goes: first the elements before the stretched one from the
      start, each after the ones before it; then the elements after it from
      the end backwards, each flush against the ones after it; last the
      stretched element, filling exactly the gap between. */
  predicate ExpectedAt(sizes: seq<U16>, stretched: nat, main: U16, j: nat, p: Placed)
    requires stretched < |sizes|
  {
    if j < stretched then
      p.index == j && p.position == Sum(sizes[..j]) && p.size == sizes[j]
    else if j < |sizes| - 1 then
      var k := |sizes| - 1 - (j - stretched);
      p.index == k && p.position + Sum(sizes[k..]) == main && p.size == sizes[k]
    else
      p.index == stretched && p.position == Sum(sizes[..stretched])
      && p.position + p.size + Sum(sizes[stretched + 1..]) == main
  }

  /** One step of the iterator after the stretched element. */
  lemma StepBack(sizes: seq<U16>, stretched: nat, c: Cursor)
    requires c.front < c.back <= |sizes| && c.start < c.end && stretched < c.i
    requires sizes[c.back - 1] <= c.end - c.start
    ensures StretchFrom(sizes, stretched, c)
      == [Placed(c.i, c.end - sizes[c.back - 1], sizes[c.back - 1])]
         + StretchFrom(sizes, stretched, Cursor(c.i - 1, c.start, c.end - sizes[c.back - 1], c.front, c.back - 1))
  {
  }

  /** One step of the iterator before the stretched element. */
  lemma StepFront(sizes: seq<U16>, stretched: nat, c: Cursor)
    requires c.front < c.back <= |sizes| && c.start < c.end && c.i < stretched
    ensures StretchFrom(sizes, stretched, c)
      == [Placed(c.i, c.start, sizes[c.front])]
         + StretchFrom(sizes, stretched, Cursor(if c.i + 1 == stretched then WrapDec(|sizes|) else c.i + 1,
                                                 SatAdd(c.start, sizes[c.front]), c.end, c.front + 1, c.back))
  {
  }

  /** The sums the back half keeps below the main size. */
  lemma BackRoom(sizes: seq<U16>, stretched: nat, main: U16, back: nat)
    requires stretched < back <= |sizes|
    requires Others(sizes, stretched) < main
    ensures Sum(sizes[..stretched]) + Sum(sizes[back..]) < main
    ensures stretched + 1 < back ==>
      Sum(sizes[back - 1..]) == sizes[back - 1] + Sum(sizes[back..])
      && Sum(sizes[..stretched]) + Sum(sizes[back - 1..]) < main
  {
    var n := |sizes|;
    SumSplit(sizes, stretched + 1, back, n);
    assert sizes[stretched + 1..] == sizes[stretched + 1..n] && sizes[back..] == sizes[back..n];
    if stretched + 1 < back {
      SumSplit(sizes, stretched + 1, back - 1, n);
      SumSplit(sizes, back - 1, back, n);
      assert sizes[back - 1..back] == [sizes[back - 1]] && sizes[back - 1..] == sizes[back - 1..n];
      SumOne(sizes[back - 1]);
    }
  }

  /** The sums the front half keeps below the main size. */
  lemma FrontRoom(sizes: seq<U16>, stretched: nat, main: U16, front: nat)
    requires front < stretched < |sizes|
    requires Others(sizes, stretched) < main
    ensures Sum(sizes[..front + 1]) == Sum(sizes[..front]) + sizes[front]
    ensures Sum(sizes[..front + 1]) <= Sum(sizes[..stretched]) < main
  {
    SumSplit(sizes, 0, front, front + 1);
    SumSplit(sizes, 0, front + 1, stretched);
    assert sizes[front..front + 1] == [sizes[front]];
    SumOne(sizes[front]);
    assert sizes[0..front] == sizes[..front] && sizes[0..front + 1] == sizes[..front + 1];
    assert sizes[0..stretched] == sizes[..stretched];
  }

  /** The stretched element, once every other has been placed, takes the
      whole gap and ends the layout. */
  lemma StretchedLast(sizes: seq<U16>, stretched: nat, c: Cursor)
    requires c.front + 1 == c.back <= |sizes| && c.start < c.end && c.i == stretched
    ensures StretchFrom(sizes, stretched, c) == [Placed(stretched, c.start, c.end - c.start)]
  {
    assert StretchFrom(sizes, stretched, c.(front := c.front + 1)) == [];
  }

  /** The back half when only the stretched element is left: it takes the
      gap between the elements before it and those after it. */
  lemma BackLast(sizes: seq<U16>, stretched: nat, main: U16)
    requires stretched < |sizes|
    requires Others(sizes, stretched) < main
    ensures Sum(sizes[..stretched]) + Sum(sizes[stretched + 1..]) < main
    ensures StretchFrom(sizes, stretched, Cursor(stretched, Sum(sizes[..stretched]), main - Sum(sizes[stretched + 1..]), stretched, stretched + 1))
      == [Placed(stretched, Sum(sizes[..stretched]), main - Sum(sizes[stretched + 1..]) - Sum(sizes[..stretched]))]
  {
    var before, after := Sum(sizes[..stretched]), Sum(sizes[stretched + 1..]);
    assert before + after < main;
    var c := Cursor(stretched, before, main - after, stretched, stretched + 1);
    assert c.start < c.end && c.end - c.start == main - after - before;
    StretchedLast(sizes, stretched, c);
    assert [Placed(stretched, c.start, c.end - c.start)] == [Placed(stretched, before, main - after - before)];
  }

  /** Every placement of `r` is the one expected at its position counted
      from `base`. */
  predicate ExpectedFrom(sizes: seq<U16>, stretched: nat, main: U16, base: nat, r: seq<Placed>)
    requires stretched < |sizes|
  {
    forall j :: 0 <= j < |r| ==> ExpectedAt(sizes, stretched, main, base + j, r[j])
  }

  /** Placements expected from position `base + 1` on, preceded by the one
      expected at `base`, are expected from `base` on. */
  lemma ExpectedShift(sizes: seq<U16>, stretched: nat, main: U16, base: nat, head: Placed, rest: seq<Placed>, r: seq<Placed>)
    requires stretched < |sizes|
    requires ExpectedAt(sizes, stretched, main, base, head)
    requires ExpectedFrom(sizes, stretched, main, base + 1, rest)
    requires r == [head] + rest
    ensures |r| == |rest| + 1 && ExpectedFrom(sizes, stretched, main, base, r)
  {
    forall j | 0 < j < |r| ensures ExpectedAt(sizes, stretched, main, base + j, r[j]) {
      assert r[j] == rest[j - 1];
      assert ExpectedAt(sizes, stretched, main, base + 1 + (j - 1), rest[j - 1]);
    }
  }

  /** The back half: from element `back - 1` down to the stretched one. */
  lemma {:induction false} BackPhase(sizes: seq<U16>, stretched: nat, main: U16, back: nat)
    requires stretched < back <= |sizes|
    requires Others(sizes, stretched) < main
    ensures Sum(sizes[..stretched]) + Sum(sizes[back..]) < main
    ensures var c := Cursor(back - 1, Sum(sizes[..stretched]), main - Sum(sizes[back..]), stretched, back);
      |StretchFrom(sizes, stretched, c)| == back - stretched
      && ExpectedFrom(sizes, stretched, main, stretched + (|sizes| - back), StretchFrom(sizes, stretched, c))
    decreases back, 1
  {
    if back - 1 == stretched {
      BackLast(sizes, stretched, main);
      var before, after := Sum(sizes[..stretched]), Sum(sizes[stretched + 1..]);
      var p := Placed(stretched, before, main - after - before);
      assert ExpectedAt(sizes, stretched, main, |sizes| - 1, p);
      assert ExpectedFrom(sizes, stretched, main, |sizes| - 1, [p]);
    } else {
      BackMore(sizes, stretched, main, back);
    }
  }

  /** The back half while elements after the stretched one are left. */
  lemma {:induction false} BackMore(sizes: seq<U16>, stretched: nat, main: U16, back: nat)
    requires stretched + 1 < back <= |sizes|
    requires Others(sizes, stretched) < main
    ensures Sum(sizes[..stretched]) + Sum(sizes[back..]) < main
    ensures var c := Cursor(back - 1, Sum(sizes[..stretched]), main - Sum(sizes[back..]), stretched, back);
      |StretchFrom(sizes, stretched, c)| == back - stretched
      && ExpectedFrom(sizes, stretched, main, stretched + (|sizes| - back), StretchFrom(sizes, stretched, c))
    decreases back, 0
  {
    BackRoom(sizes, stretched, main, back);
    var start := Sum(sizes[..stretched]);
    var c := Cursor(back - 1, start, main - Sum(sizes[back..]), stretched, back);
    var next := Cursor(back - 2, start, main - Sum(sizes[back - 1..]), stretched, back - 1);
    BackStep(sizes, stretched, main, back);
    BackPhase(sizes, stretched, main, back - 1);
    BackCompose(sizes, stretched, main, back, StretchFrom(sizes, stretched, c), StretchFrom(sizes, stretched, next));
  }

  /** One step of the back half, in terms of the sums after the cursor. */
  lemma BackStep(sizes: seq<U16>, stretched: nat, main: U16, back: nat)
    requires stretched + 1 < back <= |sizes|
    requires Sum(sizes[back - 1..]) == sizes[back - 1] + Sum(sizes[back..])
    requires Sum(sizes[..stretched]) + Sum(sizes[back - 1..]) < main
    ensures StretchFrom(sizes, stretched, Cursor(back - 1, Sum(sizes[..stretched]), main - Sum(sizes[back..]), stretched, back))
      == [Placed(back - 1, main - Sum(sizes[back - 1..]), sizes[back - 1])]
         + StretchFrom(sizes, stretched, Cursor(back - 2, Sum(sizes[..stretched]), main - Sum(sizes[back - 1..]), stretched, back - 1))
  {
    StepBack(sizes, stretched, Cursor(back - 1, Sum(sizes[..stretched]), main - Sum(sizes[back..]), stretched, back));
  }

  /** The placement of element `back - 1` in front of the placements the
      back half makes from `back - 1` on is what the back half makes from
      `back` on. */
  lemma BackCompose(sizes: seq<U16>, stretched: nat, main: U16, back: nat, r: seq<Placed>, rest: seq<Placed>)
    requires stretched + 1 < back <= |sizes|
    requires Others(sizes, stretched) < main && Sum(sizes[back - 1..]) <= main
    requires r == [Placed(back - 1, main - Sum(sizes[back - 1..]), sizes[back - 1])] + rest
    requires |rest| == back - 1 - stretched
    requires ExpectedFrom(sizes, stretched, main, stretched + (|sizes| - (back - 1)), rest)
    ensures |r| == back - stretched && ExpectedFrom(sizes, stretched, main, stretched + (|sizes| - back), r)
  {
    BackRoom(sizes, stretched, main, back);
    BackHead(sizes, stretched, main, back);
    var base := stretched + (|sizes| - back);
    assert base + 1 == stretched + (|sizes| - (back - 1));
    ExpectedShift(sizes, stretched, main, base, Placed(back - 1, main - Sum(sizes[back - 1..]), sizes[back - 1]), rest, r);
  }

  /** The element the back half places at `back - 1` ends where the sizes
      after it begin. */
  lemma BackHead(sizes: seq<U16>, stretched: nat, main: U16, back: nat)
    requires stretched + 1 < back <= |sizes|
    requires Sum(sizes[back - 1..]) == sizes[back - 1] + Sum(sizes[back..]) && Sum(sizes[back - 1..]) < main
    ensures ExpectedAt(sizes, stretched, main, stretched + (|sizes| - back),
                       Placed(back - 1, main - Sum(sizes[back - 1..]), sizes[back - 1]))
  {
  }

  /** The front half: from element `front` up to just before the stretched
      one, then on to the back half. */
  lemma {:induction false} FrontPhase(sizes: seq<U16>, stretched: nat, main: U16, front: nat)
    requires front < stretched < |sizes|
    requires Others(sizes, stretched) < main
    ensures Sum(sizes[..front]) < main
    ensures var c := Cursor(front, Sum(sizes[..front]), main, front, |sizes|);
      |StretchFrom(sizes, stretched, c)| == |sizes| - front
      && ExpectedFrom(sizes, stretched, main, front, StretchFrom(sizes, stretched, c))
    decreases stretched - front
  {
    var n := |sizes|;
    FrontRoom(sizes, stretched, main, front);
    var c := Cursor(front, Sum(sizes[..front]), main, front, n);
    StepFront(sizes, stretched, c);
    var head := Placed(front, c.start, sizes[front]);
    assert ExpectedAt(sizes, stretched, main, front, head);
    if front + 1 == stretched {
      BackPhase(sizes, stretched, main, n);
      assert sizes[n..] == [];
      var rest := StretchFrom(sizes, stretched, Cursor(n - 1, Sum(sizes[..stretched]), main - Sum(sizes[n..]), stretched, n));
      assert StretchFrom(sizes, stretched, c) == [head] + rest;
      assert stretched + (n - n) == front + 1;
      ExpectedShift(sizes, stretched, main, front, head, rest, StretchFrom(sizes, stretched, c));
    } else {
      FrontPhase(sizes, stretched, main, front + 1);
      var rest := StretchFrom(sizes, stretched, Cursor(front + 1, Sum(sizes[..front + 1]), main, front + 1, n));
      assert StretchFrom(sizes, stretched, c) == [head] + rest;
      ExpectedShift(sizes, stretched, main, front, head, rest, StretchFrom(sizes, stretched, c));
    }
  }

  /** When the elements other than the stretched one leave some room, every
      element is placed: those before the stretched element from the start,
      those after it from the end, and the stretched element exactly fills
      the space between. */
  lemma StretchFills(sizes: seq<U16>, stretched: nat, main: U16)
    requires stretched < |sizes|
    requires Others(sizes, stretched) < main
    ensures |StretchLayout(sizes, stretched, main)| == |sizes|
    ensures forall j :: 0 <= j < |sizes| ==> ExpectedAt(sizes, stretched, main, j, StretchLayout(sizes, stretched, main)[j])
  {
    assert sizes[..0] == [];
    if stretched == 0 {
      BackPhase(sizes, stretched, main, |sizes|);
      assert sizes[|sizes|..] == [];
    } else {
      FrontPhase(sizes, stretched, main, 0);
    }
    assert ExpectedFrom(sizes, stretched, main, 0, StretchLayout(sizes, stretched, main));
  }

  /** The static layout from element `index` on, where the stretched index
      is never reached. */
  lemma {:induction false} StaticFromOutOfRange(sizes: seq<U16>, stretched: nat, main: U16, index: nat, offset: U16)
    requires |sizes| <= stretched && index <= |sizes|
    ensures var i := if index == |sizes| && index == stretched then WrapDec(|sizes|) else index;
      StretchFrom(sizes, stretched, Cursor(i, offset, main, index, |sizes|))
      == S.StaticFrom(sizes, main, index, offset)
    decreases |sizes| - index
  {
    if index < |sizes| && offset < main {
      StaticFromOutOfRange(sizes, stretched, main, index + 1, SatAdd(offset, sizes[index]));
    }
  }

  /** A stretched index past the last element stretches nothing: the
      elements are laid out as the static layout lays them out. */
  lemma StretchOutOfRange(sizes: seq<U16>, stretched: nat, main: U16)
    requires |sizes| <= stretched
    ensures StretchLayout(sizes, stretched, main) == S.StaticLayout(sizes, main)
  {
    if stretched == 0 {
      assert |sizes| == 0;
    } else {
      StaticFromOutOfRange(sizes, stretched, main, 0, 0);
    }
  }

  /** Three one-line elements in a column of height 5, stretching an index
      that does not exist: they stack from the top. */
  lemma ScenarioOutOfRange()
    ensures StretchLayout([1, 1, 1], 5, 5) == [Placed(0, 0, 1), Placed(1, 1, 1), Placed(2, 2, 1)]
  {
    StretchOutOfRange([1, 1, 1], 5, 5);
  }

  /** Stretching the middle of three one-line elements in height 5: it
      grows to three lines. */
  lemma ScenarioGrow()
    ensures StretchLayout([1, 1, 1], 1, 5) == [Placed(0, 0, 1), Placed(2, 4, 1), Placed(1, 1, 3)]
  {
  }

  /** The same in height 2: the last element takes the second line and the
      stretched one gets nothing. */
  lemma ScenarioShrink()
    ensures StretchLayout([1, 1, 1], 1, 2) == [Placed(0, 0, 1), Placed(2, 1, 1)]
  {
    var sizes: seq<U16> := [1, 1, 1];
    assert StretchFrom(sizes, 1, Cursor(1, 1, 1, 1, 2)) == [];
    StepBack(sizes, 1, Cursor(2, 1, 2, 1, 3));
    StepFront(sizes, 1, Cursor(0, 0, 2, 0, 3));
  }
}
