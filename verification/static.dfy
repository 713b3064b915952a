/** The static layout of one-dimensional containers: every element gets its
    own size, one after the other, until the main axis is used up. The two
    generations of the container code share the algorithm; the newer sizes
    elements by their ideal size, the older by the minimum of their range. */
module StaticLayout {
  import opened Common
  import opened Containers

  /** The static `Layout` iterator from element `index` at `offset`: it
      stops once the offset reaches the main size or the elements run out,
      and the offset advances by a saturating add. */
  function StaticFrom(sizes: seq<U16>, main: U16, index: nat, offset: U16): seq<Placed>
    decreases |sizes| - index
  {
    if offset >= main || index >= |sizes| then []
    else [Placed(index, offset, sizes[index])] + StaticFrom(sizes, main, index + 1, SatAdd(offset, sizes[index]))
  }

  /** `Static::layout` over the elements' main-axis sizes. */
  function StaticLayout(sizes: seq<U16>, main: U16): seq<Placed>
  {
    StaticFrom(sizes, main, 0, 0)
  }

  /** Element `i` as the static layout places it: its own index and size,
      at the saturating sum of the sizes before it, which lies before the
      main size. */
  predicate PlacedInTurn(sizes: seq<U16>, main: U16, i: nat, p: Placed)
  {
    i < |sizes| && p == Placed(i, SatSum(sizes[..i]), sizes[i]) && SatSum(sizes[..i]) < main
  }

  /** The elements placed by an iterator started at element `index`, each
      in its turn. */
  predicate PlacedInTurnFrom(sizes: seq<U16>, main: U16, index: nat, r: seq<Placed>)
  {
    forall k :: 0 <= k < |r| ==> PlacedInTurn(sizes, main, index + k, r[k])
  }

  /** Placing element `index` in its turn before elements placed in theirs
      from `index + 1` places all of them in turn. */
  lemma PlacedInTurnCons(sizes: seq<U16>, main: U16, index: nat, p: Placed, rest: seq<Placed>)
    requires PlacedInTurn(sizes, main, index, p) && PlacedInTurnFrom(sizes, main, index + 1, rest)
    ensures PlacedInTurnFrom(sizes, main, index, [p] + rest)
  {
    var r := [p] + rest;
    forall k | 0 < k < |r| ensures PlacedInTurn(sizes, main, index + k, r[k]) {
      assert r[k] == rest[k - 1];
      assert PlacedInTurn(sizes, main, index + 1 + (k - 1), rest[k - 1]);
    }
  }

  lemma {:induction false} StaticFromPlaces(sizes: seq<U16>, main: U16, index: nat)
    requires index <= |sizes|
    ensures PlacedInTurnFrom(sizes, main, index, StaticFrom(sizes, main, index, SatSum(sizes[..index])))
    ensures var n := |StaticFrom(sizes, main, index, SatSum(sizes[..index]))|;
      index + n <= |sizes| && (index + n == |sizes| || main <= SatSum(sizes[..index + n]))
    decreases |sizes| - index
  {
    var offset := SatSum(sizes[..index]);
    if !(offset >= main || index >= |sizes|) {
      assert SatAdd(offset, sizes[index]) == SatSum(sizes[..index + 1]) by {
        assert sizes[..index + 1][..index] == sizes[..index];
      }
      StaticFromPlaces(sizes, main, index + 1);
      var rest := StaticFrom(sizes, main, index + 1, SatSum(sizes[..index + 1]));
      assert StaticFrom(sizes, main, index, offset) == [Placed(index, offset, sizes[index])] + rest;
      PlacedInTurnCons(sizes, main, index, Placed(index, offset, sizes[index]), rest);
    }
  }

  /** The static layout, exactly: element `k` is placed at the saturating
      sum of the sizes before it with its own size, as long as that sum is
      below the main size; the first element starting at or beyond the main
      size, and everything after it, is left out. */
  lemma StaticLayoutPlaces(sizes: seq<U16>, main: U16)
    ensures var r := StaticLayout(sizes, main);
      |r| <= |sizes|
      && (|r| == |sizes| || main <= SatSum(sizes[..|r|]))
      && forall k :: 0 <= k < |r| ==> PlacedInTurn(sizes, main, k, r[k])
  {
    assert sizes[..0] == [];
    StaticFromPlaces(sizes, main, 0);
  }

  /** `Static::main_axis_size` of the older generation: the minima added up
      with `.sum()` (wrapping in a release build), as both bounds. */
  function OldStaticMainAxisSize(ranges: seq<SizeRange>): (r: SizeRange)
    ensures r.min == r.max == Sum(Mins(ranges)) % 0x10000
  {
    WrapSumIsSumModulo(Mins(ranges));
    var total := WrapSum(Mins(ranges));
    SizeRange(total, total)
  }

  /** The older static layout: the static layout of the minima. */
  function OldStaticLayout(ranges: seq<SizeRange>, main: U16): (r: seq<Placed>)
    ensures r == StaticLayout(Mins(ranges), main)
  {
    StaticFrom(Mins(ranges), main, 0, 0)
  }

  /** A column of height 3 holding a one-line text, an empty element, a
      two-line column and another one-line text: the last text would start
      at row 3 and is not drawn. */
  lemma ScenarioStatic()
    ensures StaticLayout([1, 0, 2, 1], 3) == [Placed(0, 0, 1), Placed(1, 1, 0), Placed(2, 1, 2)]
  {
  }
}
