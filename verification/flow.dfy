/** The flow layout of one-dimensional containers: every element gets its
    ideal size plus an equal share of the space left over; with a bias the
    remainder goes one column (or row) each to the elements at one end. */
module Flow {
  import opened Common
  import opened Containers

  /** `End`: the end of the container a flow is biased towards. */
  datatype End = AtStart | AtEnd

  /** `calculate_layout`: the space left over after the ideal sizes (a
      saturating sum, saturating-subtracted from the main size) is split
      evenly; the growth is the quotient and the dividing point the
      remainder. No elements give (0, 0). */
  function CalculateLayout(main: U16, sizes: seq<U16>): (r: (U16, nat))
    ensures |sizes| == 0 ==> r == (0, 0)
    ensures |sizes| > 0 ==>
      r.0 * |sizes| + r.1 == SatSub(main, SatSum(sizes)) && r.1 < |sizes|
  {
    if |sizes| == 0 then (0, 0)
    else
      var extra := SatSub(main, SatSum(sizes));
      var n := |sizes|;
      assert extra / n <= extra by { DivShrinks(extra, n); }
      (extra / n, extra % n)
  }

  lemma DivShrinks(a: nat, n: nat)
    requires n > 0
    ensures a / n <= a
  {
    var q := a / n;
    assert q * n + a % n == a;
    MulGrows(q, n);
  }

  lemma {:induction false} MulGrows(q: nat, n: nat)
    requires n > 0
    ensures q <= q * n
  {
    if n > 1 {
      MulGrows(q, n - 1);
      assert q * n == q * (n - 1) + q;
    }
  }

  /** Whether the element at `index` of `n` gets one more than the growth:
      with a start bias the first `dividing` elements do, with an end bias
      the last `dividing`, without a bias none. */
  function GrowthIsMore(bias: Option<End>, n: nat, dividing: nat, index: nat): (more: bool)
    requires index < n
    ensures bias == Some(AtStart) ==> (more <==> index < dividing)
    ensures bias == Some(AtEnd) ==> (more <==> n - dividing <= index)
    ensures bias.None? ==> !more
  {
    match bias
    case Some(AtStart) => index < dividing
    case Some(AtEnd) => n - index - 1 < dividing
    case None => false
  }

  /** The growth the element at `index` gets, with the `+ 1` a plain `u16`
      addition. */
  function GrowthAt(bias: Option<End>, n: nat, growth: U16, dividing: nat, index: nat): U16
    requires index < n
  {
    if GrowthIsMore(bias, n, dividing, index) then WrapAdd(growth, 1) else growth
  }

  /** The `Layout` iterator from element `index` on, with the position
      accumulator at `acc`: it stops once the accumulator reaches the main
      size or the elements run out; each element gets its ideal size plus
      its growth, and the accumulator advances by that size (plain `u16`
      additions). */
  function FlowFrom(sizes: seq<U16>, growth: U16, dividing: nat, bias: Option<End>, main: U16, index: nat, acc: U16): seq<Placed>
    decreases |sizes| - index
  {
    if acc >= main || index >= |sizes| then []
    else
      var size := WrapAdd(sizes[index], GrowthAt(bias, |sizes|, growth, dividing, index));
      [Placed(index, acc, size)] + FlowFrom(sizes, growth, dividing, bias, main, index + 1, WrapAdd(acc, size))
  }

  /** `Flow::layout` over the elements' ideal main-axis sizes. */
  function FlowLayout(bias: Option<End>, sizes: seq<U16>, main: U16): seq<Placed>
  {
    var (growth, dividing) := CalculateLayout(main, sizes);
    FlowFrom(sizes, growth, dividing, bias, main, 0, 0)
  }

  /** Element `i` placed as the iterator places it: with its own index, of
      its ideal size plus its growth, starting before the main size. */
  predicate PlacedAsGrown(sizes: seq<U16>, growth: U16, dividing: nat, bias: Option<End>, main: U16, i: nat, p: Placed)
  {
    i < |sizes| && p.index == i && p.position < main
    && p.size == WrapAdd(sizes[i], GrowthAt(bias, |sizes|, growth, dividing, i))
  }

  /** The iterator's output, element by element: consecutive indices from
      `index`, each of its ideal size plus its growth, each starting before
      the main size. */
  lemma {:induction false} FlowFromElements(sizes: seq<U16>, growth: U16, dividing: nat, bias: Option<End>, main: U16, index: nat, acc: U16)
    ensures forall k :: 0 <= k < |FlowFrom(sizes, growth, dividing, bias, main, index, acc)| ==>
      PlacedAsGrown(sizes, growth, dividing, bias, main, index + k, FlowFrom(sizes, growth, dividing, bias, main, index, acc)[k])
    decreases |sizes| - index
  {
    if !(acc >= main || index >= |sizes|) {
      var size := WrapAdd(sizes[index], GrowthAt(bias, |sizes|, growth, dividing, index));
      var rest := FlowFrom(sizes, growth, dividing, bias, main, index + 1, WrapAdd(acc, size));
      FlowFromElements(sizes, growth, dividing, bias, main, index + 1, WrapAdd(acc, size));
      var r := [Placed(index, acc, size)] + rest;
      forall k | 0 < k < |r| ensures PlacedAsGrown(sizes, growth, dividing, bias, main, index + k, r[k]) {
        assert r[k] == rest[k - 1];
        assert PlacedAsGrown(sizes, growth, dividing, bias, main, index + 1 + (k - 1), rest[k - 1]);
      }
    }
  }

  /** Each element starts where the previous one ended, the first at the
      accumulator; when the iterator stops before the last element, the
      accumulator has reached the main size. */
  lemma {:induction false} FlowFromContiguous(sizes: seq<U16>, growth: U16, dividing: nat, bias: Option<End>, main: U16, index: nat, acc: U16)
    ensures var r := FlowFrom(sizes, growth, dividing, bias, main, index, acc);
      (|r| > 0 ==> r[0].position == acc)
      && (forall k :: 0 <= k < |r| - 1 ==> r[k + 1].position == WrapAdd(r[k].position, r[k].size))
    ensures var r := FlowFrom(sizes, growth, dividing, bias, main, index, acc);
      index + |r| < |sizes| ==>
        main <= (if |r| == 0 then acc else WrapAdd(r[|r| - 1].position, r[|r| - 1].size))
    decreases |sizes| - index
  {
    if !(acc >= main || index >= |sizes|) {
      var size := WrapAdd(sizes[index], GrowthAt(bias, |sizes|, growth, dividing, index));
      var rest := FlowFrom(sizes, growth, dividing, bias, main, index + 1, WrapAdd(acc, size));
      FlowFromContiguous(sizes, growth, dividing, bias, main, index + 1, WrapAdd(acc, size));
      var r := [Placed(index, acc, size)] + rest;
      assert forall k :: 0 < k < |r| ==> r[k] == rest[k - 1];
    }
  }

  /** The sum of the sizes of placed elements. */
  function TotalSize(r: seq<Placed>): nat
  {
    if |r| == 0 then 0 else r[0].size + TotalSize(r[1..])
  }

  /** Element `i`'s size with its growth, in unbounded arithmetic. */
  function Grown(sizes: seq<U16>, growth: U16, dividing: nat, bias: Option<End>, i: nat): nat
    requires i < |sizes|
  {
    sizes[i] + growth + (if GrowthIsMore(bias, |sizes|, dividing, i) then 1 else 0)
  }

  /** The sizes with growth of the first `k` elements, added up. */
  function GrownPrefix(sizes: seq<U16>, growth: U16, dividing: nat, bias: Option<End>, k: nat): nat
    requires k <= |sizes|
  {
    if k == 0 then 0 else GrownPrefix(sizes, growth, dividing, bias, k - 1) + Grown(sizes, growth, dividing, bias, k - 1)
  }

  /** How many of the first `k` elements get one more. */
  function MoreCount(bias: Option<End>, n: nat, dividing: nat, k: nat): nat
    requires k <= n
  {
    if k == 0 then 0 else MoreCount(bias, n, dividing, k - 1) + (if GrowthIsMore(bias, n, dividing, k - 1) then 1 else 0)
  }

  /** The first `k` elements hold `min(k, dividing)` extra units with a
      start bias, and what of the last `dividing` elements they include
      with an end bias; so all elements together hold `dividing` with a
      bias and none without. */
  lemma {:induction false} MoreCountValue(bias: Option<End>, n: nat, dividing: nat, k: nat)
    requires k <= n && dividing <= n
    ensures bias == Some(AtStart) ==> MoreCount(bias, n, dividing, k) == Min(k, dividing)
    ensures bias == Some(AtEnd) ==> MoreCount(bias, n, dividing, k) == Max(0, k - (n - dividing))
    ensures bias.None? ==> MoreCount(bias, n, dividing, k) == 0
  {
    if k > 0 {
      MoreCountValue(bias, n, dividing, k - 1);
    }
  }

  /** The grown prefix is the ideal sizes, `k` growths and the extra units
      of the first `k` elements. */
  lemma {:induction false} GrownPrefixSplit(sizes: seq<U16>, growth: U16, dividing: nat, bias: Option<End>, k: nat)
    requires k <= |sizes|
    ensures GrownPrefix(sizes, growth, dividing, bias, k) == Sum(sizes[..k]) + k * growth + MoreCount(bias, |sizes|, dividing, k)
  {
    if k > 0 {
      GrownPrefixSplit(sizes, growth, dividing, bias, k - 1);
      assert sizes[..k][..k - 1] == sizes[..k - 1];
      assert k * growth == (k - 1) * growth + growth;
    }
  }

  lemma {:induction false} GrownPrefixGrows(sizes: seq<U16>, growth: U16, dividing: nat, bias: Option<End>, k: nat, m: nat)
    requires k <= m <= |sizes|
    ensures GrownPrefix(sizes, growth, dividing, bias, k) <= GrownPrefix(sizes, growth, dividing, bias, m)
    decreases m - k
  {
    if k < m {
      GrownPrefixGrows(sizes, growth, dividing, bias, k, m - 1);
    }
  }

  /** While the grown sizes of all elements fit in the main size, nothing
      wraps: the iterator started at element `k` at the grown prefix of `k`
      places sizes adding up to the rest of the grown sizes. */
  lemma {:induction false} FlowFromTotal(sizes: seq<U16>, growth: U16, dividing: nat, bias: Option<End>, main: U16, k: nat)
    requires k <= |sizes| && GrownPrefix(sizes, growth, dividing, bias, |sizes|) <= main
    ensures GrownPrefix(sizes, growth, dividing, bias, k) <= U16_MAX
    ensures TotalSize(FlowFrom(sizes, growth, dividing, bias, main, k, GrownPrefix(sizes, growth, dividing, bias, k)))
      == GrownPrefix(sizes, growth, dividing, bias, |sizes|) - GrownPrefix(sizes, growth, dividing, bias, k)
    decreases |sizes| - k
  {
    var n := |sizes|;
    var acc := GrownPrefix(sizes, growth, dividing, bias, k);
    GrownPrefixGrows(sizes, growth, dividing, bias, k, n);
    if acc >= main {
    } else if k < n {
      GrownPrefixGrows(sizes, growth, dividing, bias, k + 1, n);
      var next := GrownPrefix(sizes, growth, dividing, bias, k + 1);
      var size := WrapAdd(sizes[k], GrowthAt(bias, n, growth, dividing, k));
      assert size == Grown(sizes, growth, dividing, bias, k);
      assert WrapAdd(acc, size) == next;
      FlowFromTotal(sizes, growth, dividing, bias, main, k + 1);
    }
  }

  /** With the ideal sizes fitting, the grown sizes of all elements add up
      to the main size less the extra units nobody gets: none with a bias,
      the remainder without. */
  lemma {:induction false} GrownTotal(bias: Option<End>, sizes: seq<U16>, main: U16)
    requires |sizes| > 0 && Sum(sizes) <= main
    ensures CalculateLayout(main, sizes).1 < |sizes|
    ensures GrownPrefix(sizes, CalculateLayout(main, sizes).0, CalculateLayout(main, sizes).1, bias, |sizes|)
      == main - (if bias.Some? then 0 else CalculateLayout(main, sizes).1)
  {
    var n := |sizes|;
    var (growth, dividing) := CalculateLayout(main, sizes);
    assert SatSum(sizes) == Sum(sizes) by { SatSumIsCappedSum(sizes); }
    assert growth * n + dividing == main - Sum(sizes);
    GrownPrefixSplit(sizes, growth, dividing, bias, n);
    assert sizes[..n] == sizes;
    assert MoreCount(bias, n, dividing, n) == (if bias.Some? then dividing else 0) by {
      MoreCountValue(bias, n, dividing, n);
    }
    assert n * growth == growth * n;
  }

  /** A biased flow whose ideal sizes fit fills the main axis exactly: the
      sizes it gives out add up to the main size. */
  lemma BiasedFlowFills(bias: Option<End>, sizes: seq<U16>, main: U16)
    requires bias.Some? && |sizes| > 0 && Sum(sizes) <= main
    ensures TotalSize(FlowLayout(bias, sizes, main)) == main
  {
    var (growth, dividing) := CalculateLayout(main, sizes);
    GrownTotal(bias, sizes, main);
    FlowFromTotal(sizes, growth, dividing, bias, main, 0);
  }

  /** Without a bias, a flow whose ideal sizes fit gives every element the
      same growth and leaves exactly the remainder, fewer than one unit per
      element, unused. */
  lemma UnbiasedFlowLeavesRemainder(sizes: seq<U16>, main: U16)
    requires |sizes| > 0 && Sum(sizes) <= main
    ensures TotalSize(FlowLayout(None, sizes, main)) == main - CalculateLayout(main, sizes).1
    ensures CalculateLayout(main, sizes).1 < |sizes|
  {
    var (growth, dividing) := CalculateLayout(main, sizes);
    GrownTotal(None, sizes, main);
    FlowFromTotal(sizes, growth, dividing, None, main, 0);
  }

  /** The growth and leftover of the too-large column. */
  lemma ScenarioTooLargeLayout()
    ensures CalculateLayout(6, [1, 1, 1, 1, 1, 1, 1]) == (0, 0)
  {
    var s: seq<U16> := [1, 1, 1, 1, 1, 1, 1];
    SatSumPrefixes(s);
    assert SatSum(s[..1]) == 1;
    assert SatSum(s[..2]) == 2;
    assert SatSum(s[..3]) == 3;
    assert SatSum(s[..4]) == 4;
    assert SatSum(s[..5]) == 5;
    assert SatSum(s[..6]) == 6;
    assert SatSum(s[..7]) == 7;
    assert CalculateLayout(6, s) == (0, 0);
  }

  /** Seven one-line elements in a column of height 6: the leftover space
      is 0 and the iterator stops after the sixth. */
  lemma ScenarioTooLarge()
    ensures FlowLayout(None, [1, 1, 1, 1, 1, 1, 1], 6)
      == [Placed(0, 0, 1), Placed(1, 1, 1), Placed(2, 2, 1), Placed(3, 3, 1), Placed(4, 4, 1), Placed(5, 5, 1)]
  {
    ScenarioTooLargeLayout();
  }

  /** The growth and leftover of the biased column. */
  lemma ScenarioBiasesLayout()
    ensures CalculateLayout(6, [1, 0, 1, 0, 1]) == (0, 3)
  {
    var s: seq<U16> := [1, 0, 1, 0, 1];
    SatSumPrefixes(s);
    assert SatSum(s[..1]) == 1;
    assert SatSum(s[..2]) == 1;
    assert SatSum(s[..3]) == 2;
    assert SatSum(s[..4]) == 2;
    assert SatSum(s[..5]) == 3;
    assert CalculateLayout(6, s) == (0, 3);
  }

  /** Three one-line elements separated by two empty ones in a column of
      height 6: three rows are left over, one for each of three elements.
      Without a bias nobody gets them; with a start bias the first three
      elements do, with an end bias the last three. */
  lemma ScenarioBiases()
    ensures FlowLayout(None, [1, 0, 1, 0, 1], 6)
      == [Placed(0, 0, 1), Placed(1, 1, 0), Placed(2, 1, 1), Placed(3, 2, 0), Placed(4, 2, 1)]
    ensures FlowLayout(Some(AtStart), [1, 0, 1, 0, 1], 6)
      == [Placed(0, 0, 2), Placed(1, 2, 1), Placed(2, 3, 2), Placed(3, 5, 0), Placed(4, 5, 1)]
    ensures FlowLayout(Some(AtEnd), [1, 0, 1, 0, 1], 6)
      == [Placed(0, 0, 1), Placed(1, 1, 0), Placed(2, 1, 2), Placed(3, 3, 1), Placed(4, 4, 2)]
  {
    ScenarioBiasesLayout();
  }

  /** The growth and leftover of the cut row. */
  lemma ScenarioCutRowLayout()
    ensures CalculateLayout(5, [0, 1, 0, 0, 1, 0, 2, 1, 0, 1, 0]) == (0, 0)
  {
    var s: seq<U16> := [0, 1, 0, 0, 1, 0, 2, 1, 0, 1, 0];
    SatSumPrefixes(s);
    assert SatSum(s[..1]) == 0;
    assert SatSum(s[..2]) == 1;
    assert SatSum(s[..3]) == 1;
    assert SatSum(s[..4]) == 1;
    assert SatSum(s[..5]) == 2;
    assert SatSum(s[..6]) == 2;
    assert SatSum(s[..7]) == 4;
    assert SatSum(s[..8]) == 5;
    assert SatSum(s[..9]) == 5;
    assert SatSum(s[..10]) == 6;
    assert SatSum(s[..11]) == 6;
    assert CalculateLayout(5, s) == (0, 0);
  }

  /** A row of width 5 whose elements need 6 columns: nothing is left
      over, and the element that would start at column 5 is not placed. */
  lemma ScenarioCutRow()
    ensures FlowLayout(Some(AtStart), [0, 1, 0, 0, 1, 0, 2, 1, 0, 1, 0], 5)
      == [Placed(0, 0, 0), Placed(1, 0, 1), Placed(2, 1, 0), Placed(3, 1, 0), Placed(4, 1, 1), Placed(5, 2, 0),
          Placed(6, 2, 2), Placed(7, 4, 1)]
  {
    ScenarioCutRowLayout();
  }
}
