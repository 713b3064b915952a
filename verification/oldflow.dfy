/** The flow layout of the older generation of one-dimensional containers:
    every element gets its minimum size plus a common growth, capped at its
    maximum. With a bias the growth is handed out one unit at a time, round
    after round, in the bias's order until the space is used up; without a
    bias the growth is the largest that every element can take at once. */
module OldFlow {
  import opened Common
  import opened Containers
  import Flow

  /** `max - min` for an element, a plain `u16` subtraction. */
  function Growable(r: SizeRange): U16
  {
    WrapSub(r.max, r.min)
  }

  /** `elements_biased_order`: front to back for a start bias, back to
      front for an end bias. */
  function BiasedOrder(ranges: seq<SizeRange>, bias: Flow.End): (order: seq<SizeRange>)
    ensures |order| == |ranges|
    ensures bias == Flow.AtStart ==> order == ranges
    ensures bias == Flow.AtEnd ==> forall i :: 0 <= i < |ranges| ==> order[i] == ranges[|ranges| - 1 - i]
  {
    if bias == Flow.AtStart then ranges else Reverse(ranges)
  }

  /** How a round of the biased search ends: the space ran out at position
      `dividing` of the biased order, or the round is over with `extra`
      space left and `grew` telling whether any element took a unit. */
  datatype Round = Finished(growth: U16, dividing: nat) | Continue(extra: U16, grew: bool)

  /** One round of the biased search from position `i` on: every element
      whose range reaches `growth` takes one unit of the extra space, and
      the search ends as soon as none is left. */
  function RoundFrom(order: seq<SizeRange>, growth: U16, extra: U16, i: nat, grew: bool): (r: Round)
    requires extra > 0
    ensures r.Finished? ==> r.growth == growth && i <= r.dividing < |order| && Growable(order[r.dividing]) >= growth
    ensures r.Continue? ==> 0 < r.extra <= extra && (r.grew <==> grew || r.extra < extra)
    decreases |order| - i
  {
    if i >= |order| then Continue(extra, grew)
    else if Growable(order[i]) >= growth then
      if extra - 1 == 0 then Finished(growth, i)
      else RoundFrom(order, growth, extra - 1, i + 1, true)
    else RoundFrom(order, growth, extra, i + 1, grew)
  }

  /** How the biased search ends: the space ran out in round `growth` at
      position `dividing` of the biased order, or in round `round` no
      element could grow. */
  datatype Search = Divided(growth: U16, dividing: nat) | Stuck(round: nat)

  /** The biased search from round `growth` on. Each round that continues
      uses up space, so the rounds never outnumber the space there was. */
  function BiasedSearch(order: seq<SizeRange>, growth: nat, extra: U16): (r: Search)
    requires 0 < extra && 1 <= growth && growth + extra <= 0x10000
    ensures r.Divided? ==> growth <= r.growth && r.dividing < |order| && Growable(order[r.dividing]) >= r.growth
    ensures r.Stuck? ==> growth <= r.round
    decreases extra
  {
    var round := RoundFrom(order, growth, extra, 0, false);
    if round.Finished? then Divided(round.growth, round.dividing)
    else if !round.grew then Stuck(growth)
    else BiasedSearch(order, growth + 1, round.extra)
  }

  /** The biased search's result as `calculate_layout` returns it: a search
      in which no element could grow gives (`u16::MAX`, 0). */
  function BiasedLayout(order: seq<SizeRange>, extra: U16): (r: (U16, nat))
    requires 0 < extra
  {
    match BiasedSearch(order, 1, extra)
    case Divided(growth, dividing) => (growth, dividing)
    case Stuck(_) => (U16_MAX, 0)
  }

  /** The check the unbiased search makes of one growth, from element `i`
      on: each element's share is the smaller of its range and the growth,
      taken from the space with a checked subtraction; the growth fits when
      no subtraction fails and some element's range reaches it. */
  function FitsFrom(ranges: seq<SizeRange>, growth: nat, extra: U16, i: nat, grew: bool): bool
    decreases |ranges| - i
  {
    if i >= |ranges| then grew
    else
      var range := Growable(ranges[i]);
      var share := Min(range, growth);
      if extra < share then false
      else FitsFrom(ranges, growth, extra - share, i + 1, grew || range >= growth)
  }

  function Fits(ranges: seq<SizeRange>, growth: nat, extra: U16): bool
  {
    FitsFrom(ranges, growth, extra, 0, false)
  }

  /** The unbiased search from `growth` on: `(1..).take_while(fits).last()`.
      Yielding `u16::MAX` from the `u16` range makes it step past the
      largest `u16`, which panics in a debug build (a release build wraps
      back to 0 and never stops). */
  function UnbiasedSearch(ranges: seq<SizeRange>, growth: nat, extra: U16): (r: Result<U16>)
    requires 1 <= growth <= U16_MAX
    ensures r.Ok? ==> r.value < U16_MAX - 1 && growth - 1 <= r.value
    decreases U16_MAX - growth
  {
    if growth == U16_MAX then Panic
    else if Fits(ranges, growth, extra) then UnbiasedSearch(ranges, growth + 1, extra)
    else Ok(growth - 1)
  }

  /** `calculate_layout`: the space left after the minimum sizes (a
      saturating sum, saturating-subtracted from the main size); with none
      left, no growth and a dividing point past every element. */
  function CalculateLayout(bias: Option<Flow.End>, main: U16, ranges: seq<SizeRange>): (r: Result<(U16, nat)>)
    ensures SatSub(main, SatSum(Mins(ranges))) == 0 ==> r == Ok((0, |ranges|))
    ensures bias.Some? ==> r.Ok?
    ensures r.Ok? && bias.None? ==> r.value.1 == 0 || r.value == (0, |ranges|)
  {
    var extra := SatSub(main, SatSum(Mins(ranges)));
    if extra == 0 then Ok((0, |ranges|))
    else match bias
      case Some(end) => Ok(BiasedLayout(BiasedOrder(ranges, end), extra))
      case None =>
        match UnbiasedSearch(ranges, 1, extra)
        case Ok(growth) => Ok((growth, 0))
        case Panic => Panic
  }

  /** Whether the element at `index` gets one less than the growth: past
      the dividing point counted from the biased end. */
  function GrowthIsLess(bias: Option<Flow.End>, n: nat, dividing: nat, index: nat): (less: bool)
    requires index < n
    ensures bias == Some(Flow.AtStart) ==> (less <==> dividing < index)
    ensures bias == Some(Flow.AtEnd) ==> (less <==> index + dividing + 1 < n)
    ensures bias.None? ==> !less
  {
    match bias
    case Some(AtStart) => index > dividing
    case Some(AtEnd) => n - index - 1 > dividing
    case None => false
  }

  /** The size `Flow::layout` gives an element as written: the minimum plus
      the growth (less one past the dividing point) with plain `u16`
      operations, capped at the maximum. */
  function SizeAsWritten(r: SizeRange, less: bool, growth: U16): U16
  {
    Min(r.max, WrapAdd(r.min, if less then WrapSub(growth, 1) else growth))
  }

  /** The size with the addition saturating, as the search's `u16::MAX`
      ("grow as far as you like") evidently intends. */
  function SizeCorrected(r: SizeRange, less: bool, growth: U16): (size: U16)
    ensures r.min <= r.max ==> r.min <= size <= r.max
  {
    Min(r.max, SatAdd(r.min, if less then WrapSub(growth, 1) else growth))
  }

  /** The layout iterator from element `index` on: every element is placed,
      one after the other with a plain `u16` position accumulator. */
  function LayoutFrom(ranges: seq<SizeRange>, bias: Option<Flow.End>, growth: U16, dividing: nat,
                      corrected: bool, index: nat, acc: U16): seq<Placed>
    decreases |ranges| - index
  {
    if index >= |ranges| then []
    else
      var less := GrowthIsLess(bias, |ranges|, dividing, index);
      var size := if corrected then SizeCorrected(ranges[index], less, growth)
                  else SizeAsWritten(ranges[index], less, growth);
      [Placed(index, acc, size)] + LayoutFrom(ranges, bias, growth, dividing, corrected, index + 1, WrapAdd(acc, size))
  }

  /** `Flow::layout` as written. */
  function LayoutAsWritten(bias: Option<Flow.End>, main: U16, ranges: seq<SizeRange>): Result<seq<Placed>>
  {
    match CalculateLayout(bias, main, ranges)
    case Ok((growth, dividing)) => Ok(LayoutFrom(ranges, bias, growth, dividing, false, 0, 0))
    case Panic => Panic
  }

  /** `Flow::layout` with the saturating addition. */
  function Layout(bias: Option<Flow.End>, main: U16, ranges: seq<SizeRange>): Result<seq<Placed>>
  {
    match CalculateLayout(bias, main, ranges)
    case Ok((growth, dividing)) => Ok(LayoutFrom(ranges, bias, growth, dividing, true, 0, 0))
    case Panic => Panic
  }

  /** Each element's share of a growth: its range, capped at the growth. */
  function Shares(ranges: seq<SizeRange>, growth: nat): (s: seq<nat>)
    ensures |s| == |ranges| && forall k :: 0 <= k < |ranges| ==> s[k] == Min(Growable(ranges[k]), growth)
  {
    seq(|ranges|, k requires 0 <= k < |ranges| => Min(Growable(ranges[k]), growth))
  }

  lemma {:induction false} FitsFromMeans(ranges: seq<SizeRange>, growth: nat, extra: U16, i: nat, grew: bool)
    requires i <= |ranges|
    ensures FitsFrom(ranges, growth, extra, i, grew) <==>
      (grew || exists k :: i <= k < |ranges| && Growable(ranges[k]) >= growth)
      && Sum(Shares(ranges, growth)[i..]) <= extra
    decreases |ranges| - i
  {
    var shares := Shares(ranges, growth);
    if i < |ranges| {
      SumHead(shares[i..]);
      assert shares[i..][1..] == shares[i + 1..];
      var share := Min(Growable(ranges[i]), growth);
      if extra >= share {
        FitsFromMeans(ranges, growth, extra - share, i + 1, grew || Growable(ranges[i]) >= growth);
        if exists k :: i <= k < |ranges| && Growable(ranges[k]) >= growth {
          var k :| i <= k < |ranges| && Growable(ranges[k]) >= growth;
          if k > i {
            assert i + 1 <= k;
          }
        }
      }
    } else {
      assert shares[i..] == [];
    }
  }

  /** A growth fits exactly when some element's range reaches it and all
      the elements' shares of it add up to no more than the space. */
  lemma FitsMeans(ranges: seq<SizeRange>, growth: nat, extra: U16)
    ensures Fits(ranges, growth, extra) <==>
      (exists k :: 0 <= k < |ranges| && Growable(ranges[k]) >= growth)
      && Sum(Shares(ranges, growth)) <= extra
  {
    FitsFromMeans(ranges, growth, extra, 0, false);
    assert Shares(ranges, growth)[0..] == Shares(ranges, growth);
  }

  /** A growth that fits lets every smaller positive growth fit. */
  lemma FitsDownward(ranges: seq<SizeRange>, growth: nat, smaller: nat, extra: U16)
    requires 1 <= smaller <= growth
    requires Fits(ranges, growth, extra)
    ensures Fits(ranges, smaller, extra)
  {
    FitsMeans(ranges, growth, extra);
    FitsMeans(ranges, smaller, extra);
    SumMonotone(Shares(ranges, smaller), Shares(ranges, growth));
  }

  lemma {:induction false} UnbiasedSearchFrom(ranges: seq<SizeRange>, growth: nat, extra: U16)
    requires 1 <= growth <= U16_MAX
    ensures UnbiasedSearch(ranges, growth, extra).Ok? ==>
      var g := UnbiasedSearch(ranges, growth, extra).value;
      (forall h :: growth <= h <= g ==> Fits(ranges, h, extra)) && !Fits(ranges, g + 1, extra)
    ensures UnbiasedSearch(ranges, growth, extra).Panic? ==>
      forall h :: growth <= h < U16_MAX ==> Fits(ranges, h, extra)
    decreases U16_MAX - growth
  {
    if growth < U16_MAX && Fits(ranges, growth, extra) {
      UnbiasedSearchFrom(ranges, growth + 1, extra);
    }
  }

  /** The unbiased growth is the largest that fits: every growth above it
      does not, and every positive one up to it does. The search panics
      exactly when every growth below `u16::MAX` fits. */
  lemma UnbiasedGrowthIsLargest(ranges: seq<SizeRange>, extra: U16)
    ensures UnbiasedSearch(ranges, 1, extra).Ok? ==>
      var g := UnbiasedSearch(ranges, 1, extra).value;
      (forall h :: 1 <= h <= g ==> Fits(ranges, h, extra))
      && (forall h: nat :: g < h ==> !Fits(ranges, h, extra))
    ensures UnbiasedSearch(ranges, 1, extra).Panic? <==> Fits(ranges, U16_MAX - 1, extra)
  {
    UnbiasedSearchFrom(ranges, 1, extra);
    var r := UnbiasedSearch(ranges, 1, extra);
    if r.Ok? {
      forall h: nat | r.value < h ensures !Fits(ranges, h, extra) {
        if Fits(ranges, h, extra) {
          FitsDownward(ranges, h, r.value + 1, extra);
        }
      }
    }
  }

  /** Element `i` sized as the layout sizes it. */
  predicate SizedAt(ranges: seq<SizeRange>, bias: Option<Flow.End>, growth: U16, dividing: nat, corrected: bool, i: nat, p: Placed)
  {
    i < |ranges| && p.index == i
    && p.size == (if corrected then SizeCorrected(ranges[i], GrowthIsLess(bias, |ranges|, dividing, i), growth)
                  else SizeAsWritten(ranges[i], GrowthIsLess(bias, |ranges|, dividing, i), growth))
  }

  lemma {:induction false} LayoutFromPlaces(ranges: seq<SizeRange>, bias: Option<Flow.End>, growth: U16, dividing: nat,
                                            corrected: bool, index: nat, acc: U16)
    requires index <= |ranges|
    ensures |LayoutFrom(ranges, bias, growth, dividing, corrected, index, acc)| == |ranges| - index
    ensures forall k :: 0 <= k < |ranges| - index ==>
      SizedAt(ranges, bias, growth, dividing, corrected, index + k, LayoutFrom(ranges, bias, growth, dividing, corrected, index, acc)[k])
    ensures index < |ranges| ==> LayoutFrom(ranges, bias, growth, dividing, corrected, index, acc)[0].position == acc
    ensures forall k :: 0 < k < |ranges| - index ==>
      LayoutFrom(ranges, bias, growth, dividing, corrected, index, acc)[k].position
      == WrapAdd(LayoutFrom(ranges, bias, growth, dividing, corrected, index, acc)[k - 1].position,
                 LayoutFrom(ranges, bias, growth, dividing, corrected, index, acc)[k - 1].size)
    decreases |ranges| - index
  {
    if index < |ranges| {
      var r := LayoutFrom(ranges, bias, growth, dividing, corrected, index, acc);
      var size := r[0].size;
      LayoutFromPlaces(ranges, bias, growth, dividing, corrected, index + 1, WrapAdd(acc, size));
      var rest := LayoutFrom(ranges, bias, growth, dividing, corrected, index + 1, WrapAdd(acc, size));
      assert r == [r[0]] + rest;
      forall k | 0 < k < |ranges| - index
        ensures SizedAt(ranges, bias, growth, dividing, corrected, index + k, r[k])
        ensures r[k].position == WrapAdd(r[k - 1].position, r[k - 1].size)
      {
        assert r[k] == rest[k - 1];
        assert SizedAt(ranges, bias, growth, dividing, corrected, index + 1 + (k - 1), rest[k - 1]);
        if k > 1 {
          assert r[k - 1] == rest[k - 2];
        }
      }
    }
  }

  /** With the saturating addition every element is placed, in order, one
      after the other from 0, with a size inside its range. */
  lemma LayoutSizesInRange(bias: Option<Flow.End>, main: U16, ranges: seq<SizeRange>, r: seq<Placed>)
    requires forall k :: 0 <= k < |ranges| ==> ranges[k].min <= ranges[k].max
    requires Layout(bias, main, ranges) == Ok(r)
    ensures |r| == |ranges|
    ensures |r| > 0 ==> r[0].position == 0
    ensures forall k :: 0 < k < |r| ==> r[k].position == WrapAdd(r[k - 1].position, r[k - 1].size)
    ensures forall k :: 0 <= k < |r| ==> r[k].index == k && ranges[k].min <= r[k].size <= ranges[k].max
  {
    var (growth, dividing) := CalculateLayout(bias, main, ranges).value;
    assert r == LayoutFrom(ranges, bias, growth, dividing, true, 0, 0);
    LayoutFromInRange(ranges, bias, growth, dividing, r);
  }

  /** The corrected iterator from the first element places every element
      in order from 0 with a size inside its range. */
  lemma LayoutFromInRange(ranges: seq<SizeRange>, bias: Option<Flow.End>, growth: U16, dividing: nat, r: seq<Placed>)
    requires forall k :: 0 <= k < |ranges| ==> ranges[k].min <= ranges[k].max
    requires r == LayoutFrom(ranges, bias, growth, dividing, true, 0, 0)
    ensures |r| == |ranges|
    ensures |r| > 0 ==> r[0].position == 0
    ensures forall k :: 0 < k < |r| ==> r[k].position == WrapAdd(r[k - 1].position, r[k - 1].size)
    ensures forall k :: 0 <= k < |r| ==> r[k].index == k && ranges[k].min <= r[k].size <= ranges[k].max
  {
    LayoutFromPlaces(ranges, bias, growth, dividing, true, 0, 0);
    forall k | 0 <= k < |r| ensures r[k].index == k && ranges[k].min <= r[k].size <= ranges[k].max {
      SizedInRange(ranges, bias, growth, dividing, k, r[k]);
    }
  }

  /** A corrected size lies in its element's range. */
  lemma SizedInRange(ranges: seq<SizeRange>, bias: Option<Flow.End>, growth: U16, dividing: nat, k: nat, p: Placed)
    requires SizedAt(ranges, bias, growth, dividing, true, 0 + k, p)
    requires ranges[k].min <= ranges[k].max
    ensures p.index == k && ranges[k].min <= p.size <= ranges[k].max
  {
  }

  /** With a start bias, a column of height 5 holding one element of fixed
      height 1 leaves 4 lines no element can take, so the search ends with
      `u16::MAX`; as written the element's size is `1 + u16::MAX`, which
      wraps to 0, below its minimum. With the saturating addition it gets
      its height of 1. */
  lemma BiasedOverflow()
    ensures CalculateLayout(Some(Flow.AtStart), 5, [SizeRange(1, 1)]) == Ok((U16_MAX, 0))
    ensures LayoutAsWritten(Some(Flow.AtStart), 5, [SizeRange(1, 1)]) == Ok([Placed(0, 0, 0)])
    ensures Layout(Some(Flow.AtStart), 5, [SizeRange(1, 1)]) == Ok([Placed(0, 0, 1)])
  {
    var ranges := [SizeRange(1, 1)];
    assert Mins(ranges) == [1];
    assert SatSum([1]) == 1 by { assert [1][..0] == []; }
    assert RoundFrom(ranges, 1, 4, 0, false) == Continue(4, false);
    var bias := Some(Flow.AtStart);
    assert LayoutFrom(ranges, bias, U16_MAX, 0, false, 1, 0) == [];
    assert LayoutFrom(ranges, bias, U16_MAX, 0, true, 1, 1) == [];
    assert SizeAsWritten(ranges[0], false, U16_MAX) == 0;
    assert LayoutFrom(ranges, bias, U16_MAX, 0, false, 0, 0) == [Placed(0, 0, 0)];
    assert LayoutFrom(ranges, bias, U16_MAX, 0, true, 0, 0) == [Placed(0, 0, 1)];
  }

  /** Which elements of the biased order take a unit in the round for
      `growth`: those whose range reaches it. */
  function Indicator(order: seq<SizeRange>, growth: nat): (s: seq<nat>)
    ensures |s| == |order| && forall k :: 0 <= k < |order| ==> s[k] == if Growable(order[k]) >= growth then 1 else 0
  {
    seq(|order|, k requires 0 <= k < |order| => if Growable(order[k]) >= growth then 1 else 0)
  }

  /** The units handed out in full rounds `first` up to (not including) `last`. */
  function RoundsTotal(order: seq<SizeRange>, first: nat, last: nat): nat
    decreases if last <= first then 0 else last - first
  {
    if last <= first then 0 else RoundsTotal(order, first, last - 1) + Sum(Indicator(order, last - 1))
  }

  lemma {:induction false} RoundsTotalFront(order: seq<SizeRange>, first: nat, last: nat)
    requires first < last
    ensures RoundsTotal(order, first, last) == Sum(Indicator(order, first)) + RoundsTotal(order, first + 1, last)
    decreases last
  {
    if first + 1 < last {
      RoundsTotalFront(order, first, last - 1);
    }
  }

  /** A round hands out one unit per element whose range reaches the
      growth, until the space runs out. */
  lemma {:induction false} RoundFromCounts(order: seq<SizeRange>, growth: U16, extra: U16, i: nat, grew: bool)
    requires extra > 0 && i <= |order|
    ensures RoundFrom(order, growth, extra, i, grew).Finished? ==>
      Sum(Indicator(order, growth)[i..RoundFrom(order, growth, extra, i, grew).dividing + 1]) == extra
    ensures RoundFrom(order, growth, extra, i, grew).Continue? ==>
      RoundFrom(order, growth, extra, i, grew).extra + Sum(Indicator(order, growth)[i..]) == extra
      && (RoundFrom(order, growth, extra, i, grew).grew <==> grew || Sum(Indicator(order, growth)[i..]) > 0)
    decreases |order| - i, 1
  {
    var ind := Indicator(order, growth);
    if i < |order| {
      if Growable(order[i]) >= growth && extra - 1 == 0 {
        assert ind[i..i + 1] == [1];
        SumOne(1);
      } else {
        RoundStep(order, growth, extra, i, grew);
      }
    } else {
      assert ind[i..] == [];
    }
  }

  /** A slice of the indicators is its first element's indicator and the
      rest. */
  lemma IndicatorHead(order: seq<SizeRange>, growth: U16, i: nat, j: nat)
    requires i < j <= |order|
    ensures Sum(Indicator(order, growth)[i..j])
      == (if Growable(order[i]) >= growth then 1 else 0) + Sum(Indicator(order, growth)[i + 1..j])
  {
    var ind := Indicator(order, growth);
    SumHead(ind[i..j]);
    assert ind[i..j][1..] == ind[i + 1..j];
  }

  /** A round's step past position `i` when the space does not run out
      there. */
  lemma {:induction false} RoundStep(order: seq<SizeRange>, growth: U16, extra: U16, i: nat, grew: bool)
    requires extra > 0 && i < |order|
    requires !(Growable(order[i]) >= growth && extra - 1 == 0)
    ensures RoundFrom(order, growth, extra, i, grew).Finished? ==>
      Sum(Indicator(order, growth)[i..RoundFrom(order, growth, extra, i, grew).dividing + 1]) == extra
    ensures RoundFrom(order, growth, extra, i, grew).Continue? ==>
      RoundFrom(order, growth, extra, i, grew).extra + Sum(Indicator(order, growth)[i..]) == extra
      && (RoundFrom(order, growth, extra, i, grew).grew <==> grew || Sum(Indicator(order, growth)[i..]) > 0)
    decreases |order| - i, 0
  {
    var extra' := if Growable(order[i]) >= growth then extra - 1 else extra;
    var grew' := grew || Growable(order[i]) >= growth;
    RoundFromCounts(order, growth, extra', i + 1, grew');
    var r := RoundFrom(order, growth, extra', i + 1, grew');
    RoundFromStep(order, growth, extra, i, grew);
    StepCombine(order, growth, i, extra, extra', grew, grew', r);
  }

  /** Past an element where the space does not run out, the round goes on
      from the next element with that element's unit taken. */
  lemma RoundFromStep(order: seq<SizeRange>, growth: U16, extra: U16, i: nat, grew: bool)
    requires extra > 0 && i < |order|
    requires !(Growable(order[i]) >= growth && extra - 1 == 0)
    ensures RoundFrom(order, growth, extra, i, grew)
      == RoundFrom(order, growth, if Growable(order[i]) >= growth then extra - 1 else extra, i + 1,
                   grew || Growable(order[i]) >= growth)
  {
  }

  /** The counts of a round from `i + 1` on, with the indicator of element
      `i` added, are the counts of the round from `i`. */
  lemma StepCombine(order: seq<SizeRange>, growth: U16, i: nat, extra: nat, extra': nat, grew: bool, grew': bool, r: Round)
    requires i < |order|
    requires extra == extra' + (if Growable(order[i]) >= growth then 1 else 0)
    requires grew' == (grew || Growable(order[i]) >= growth)
    requires r.Finished? ==> i < r.dividing < |order| && Sum(Indicator(order, growth)[i + 1..r.dividing + 1]) == extra'
    requires r.Continue? ==>
      r.extra + Sum(Indicator(order, growth)[i + 1..]) == extra'
      && (r.grew <==> grew' || Sum(Indicator(order, growth)[i + 1..]) > 0)
    ensures r.Finished? ==> Sum(Indicator(order, growth)[i..r.dividing + 1]) == extra
    ensures r.Continue? ==>
      r.extra + Sum(Indicator(order, growth)[i..]) == extra
      && (r.grew <==> grew || Sum(Indicator(order, growth)[i..]) > 0)
  {
    var ind := Indicator(order, growth);
    if r.Finished? {
      IndicatorHead(order, growth, i, r.dividing + 1);
    } else {
      IndicatorHead(order, growth, i, |order|);
      assert ind[i..] == ind[i..|order|];
      assert ind[i + 1..] == ind[i + 1..|order|];
    }
  }

  /** The biased search hands out exactly the space there was: the units
      of the full rounds before the last, and those of the last round up
      to the dividing point. A search that gets stuck does so in a round
      no element can take a unit in, with space still left. */
  lemma {:induction false} BiasedSearchCounts(order: seq<SizeRange>, growth: nat, extra: U16)
    requires 0 < extra && 1 <= growth && growth + extra <= 0x10000
    ensures BiasedSearch(order, growth, extra).Divided? ==>
      extra == RoundsTotal(order, growth, BiasedSearch(order, growth, extra).growth)
               + Sum(Indicator(order, BiasedSearch(order, growth, extra).growth)[..BiasedSearch(order, growth, extra).dividing + 1])
    ensures BiasedSearch(order, growth, extra).Stuck? ==>
      Sum(Indicator(order, BiasedSearch(order, growth, extra).round)) == 0
      && RoundsTotal(order, growth, BiasedSearch(order, growth, extra).round) < extra
    decreases extra
  {
    var ind := Indicator(order, growth);
    RoundFromCounts(order, growth, extra, 0, false);
    assert ind[0..] == ind;
    var round := RoundFrom(order, growth, extra, 0, false);
    if round.Finished? {
      assert ind[..round.dividing + 1] == ind[0..round.dividing + 1];
    } else if round.grew {
      BiasedSearchCounts(order, growth + 1, round.extra);
      var r := BiasedSearch(order, growth + 1, round.extra);
      if r.Divided? {
        RoundsTotalFront(order, growth, r.growth);
      } else {
        RoundsTotalFront(order, growth, r.round);
      }
    }
  }

  /** Handing out the units of rounds 1 to `m` one by one gives every
      element its range capped at `m`. */
  lemma {:induction false} RoundsAreShares(order: seq<SizeRange>, m: nat)
    ensures RoundsTotal(order, 1, m + 1) == Sum(Shares(order, m))
    decreases m
  {
    if m == 0 {
      SumMonotone(Shares(order, 0), seq(|order|, k => 0));
      SumZeros(|order|);
    } else {
      RoundsAreShares(order, m - 1);
      SumPointwiseAdd(Shares(order, m - 1), Indicator(order, m), Shares(order, m));
    }
  }

  function Growables(ranges: seq<SizeRange>): (s: seq<nat>)
    ensures |s| == |ranges| && forall k :: 0 <= k < |ranges| ==> s[k] == Growable(ranges[k])
  {
    seq(|ranges|, k requires 0 <= k < |ranges| => Growable(ranges[k]))
  }

  /** What each position of the biased order gets beyond its minimum when
      the search divides at (`growth`, `dividing`): its range capped at one
      less than the growth, plus the unit of the last round up to the
      dividing point. */
  function OrderGets(order: seq<SizeRange>, growth: nat, dividing: nat): (s: seq<nat>)
    requires growth >= 1
    ensures |s| == |order|
    ensures forall p :: 0 <= p < |order| ==>
      s[p] == Min(Growable(order[p]), growth - 1) + if p <= dividing && Growable(order[p]) >= growth then 1 else 0
  {
    seq(|order|, p requires 0 <= p < |order| =>
      Min(Growable(order[p]), growth - 1) + if p <= dividing && Growable(order[p]) >= growth then 1 else 0)
  }

  /** A search that divides has handed out exactly the space there was. */
  lemma DividedHandsOutExtra(order: seq<SizeRange>, extra: U16)
    requires 0 < extra && BiasedSearch(order, 1, extra).Divided?
    ensures Sum(OrderGets(order, BiasedSearch(order, 1, extra).growth, BiasedSearch(order, 1, extra).dividing)) == extra
  {
    var n := |order|;
    var Divided(g, d) := BiasedSearch(order, 1, extra);
    var ind := Indicator(order, g);
    assert extra == RoundsTotal(order, 1, g) + Sum(ind[..d + 1]) by {
      BiasedSearchCounts(order, 1, extra);
    }
    assert RoundsTotal(order, 1, g) == Sum(Shares(order, g - 1)) by {
      RoundsAreShares(order, g - 1);
    }
    var prefix := KeepUpTo(ind, d);
    assert Sum(prefix) == Sum(ind[..d + 1]) by { KeepUpToSum(ind, d); }
    var gets := OrderGets(order, g, d);
    var shares := Shares(order, g - 1);
    assert forall i :: 0 <= i < n ==> gets[i] == shares[i] + prefix[i];
    SumPointwiseAdd(shares, prefix, gets);
  }

  /** The elements of `s` up to and including position `d`, and zeros
      after it. */
  function KeepUpTo(s: seq<nat>, d: nat): (r: seq<nat>)
    ensures |r| == |s| && forall p :: 0 <= p < |s| ==> r[p] == if p <= d then s[p] else 0
  {
    seq(|s|, p requires 0 <= p < |s| => if p <= d then s[p] else 0)
  }

  lemma KeepUpToSum(s: seq<nat>, d: nat)
    requires d < |s|
    ensures Sum(KeepUpTo(s, d)) == Sum(s[..d + 1])
  {
    var n := |s|;
    var prefix := KeepUpTo(s, d);
    SumSplit(prefix, 0, d + 1, n);
    assert prefix[0..d + 1] == s[..d + 1];
    assert prefix[d + 1..n] == seq(n - (d + 1), k => 0);
    SumZeros(n - (d + 1));
    assert prefix[0..n] == prefix;
  }

  /** A search that gets stuck had more space than all the elements of the
      order together can grow. */
  lemma StuckOutgrowsRanges(order: seq<SizeRange>, extra: U16)
    requires 0 < extra && BiasedSearch(order, 1, extra).Stuck?
    ensures Sum(Growables(order)) < extra
  {
    var h := BiasedSearch(order, 1, extra).round;
    BiasedSearchCounts(order, 1, extra);
    RoundsAreShares(order, h - 1);
    var ind := Indicator(order, h);
    forall k | 0 <= k < |order| ensures Shares(order, h - 1)[k] == Growables(order)[k] {
      SumAround(ind, k);
    }
    assert Shares(order, h - 1) == Growables(order);
  }

  /** What element `k` gets beyond its minimum in a layout with (`growth`,
      `dividing`): its range capped at its growth. */
  function GetsOf(ranges: seq<SizeRange>, bias: Option<Flow.End>, growth: U16, dividing: nat): (s: seq<nat>)
    ensures |s| == |ranges|
    ensures forall k :: 0 <= k < |ranges| ==>
      s[k] == Min(Growable(ranges[k]), if GrowthIsLess(bias, |ranges|, dividing, k) then WrapSub(growth, 1) else growth)
  {
    seq(|ranges|, k requires 0 <= k < |ranges| =>
      Min(Growable(ranges[k]), if GrowthIsLess(bias, |ranges|, dividing, k) then WrapSub(growth, 1) else growth))
  }

  function SizesOf(r: seq<Placed>): (s: seq<nat>)
    ensures |s| == |r| && forall k :: 0 <= k < |r| ==> s[k] == r[k].size
  {
    seq(|r|, k requires 0 <= k < |r| => r[k].size)
  }

  lemma {:induction false} TotalSizeIsSum(r: seq<Placed>)
    ensures Flow.TotalSize(r) == Sum(SizesOf(r))
    decreases |r|
  {
    if |r| > 0 {
      TotalSizeIsSum(r[1..]);
      SumHead(SizesOf(r));
      assert SizesOf(r)[1..] == SizesOf(r[1..]);
    }
  }

  /** With the saturating addition each element's size is its minimum plus
      what it gets. */
  lemma LayoutSizes(ranges: seq<SizeRange>, bias: Option<Flow.End>, growth: U16, dividing: nat)
    requires forall k :: 0 <= k < |ranges| ==> ranges[k].min <= ranges[k].max
    ensures Flow.TotalSize(LayoutFrom(ranges, bias, growth, dividing, true, 0, 0))
      == Sum(Mins(ranges)) + Sum(GetsOf(ranges, bias, growth, dividing))
  {
    var r := LayoutFrom(ranges, bias, growth, dividing, true, 0, 0);
    LayoutFromPlaces(ranges, bias, growth, dividing, true, 0, 0);
    forall k | 0 <= k < |ranges| ensures SizesOf(r)[k] == Mins(ranges)[k] + GetsOf(ranges, bias, growth, dividing)[k] {
      assert SizedAt(ranges, bias, growth, dividing, true, 0 + k, r[k]);
    }
    SumPointwiseAdd(Mins(ranges), GetsOf(ranges, bias, growth, dividing), SizesOf(r));
    TotalSizeIsSum(r);
  }

  lemma MinStep(range: nat, growth: nat)
    requires growth >= 1
    ensures Min(range, growth) == Min(range, growth - 1) + if range >= growth then 1 else 0
  {
  }

  /** Element by element, what the layout gives is what the search handed
      out to the element's position in the biased order. */
  lemma GetsFollowOrder(ranges: seq<SizeRange>, end: Flow.End, growth: U16, dividing: nat)
    requires growth >= 1
    ensures Sum(GetsOf(ranges, Some(end), growth, dividing)) == Sum(OrderGets(BiasedOrder(ranges, end), growth, dividing))
  {
    if end == Flow.AtStart {
      GetsFollowStart(ranges, growth, dividing);
    } else {
      GetsFollowEnd(ranges, growth, dividing);
      SumReverse(OrderGets(BiasedOrder(ranges, end), growth, dividing));
    }
  }

  lemma GetsFollowStart(ranges: seq<SizeRange>, growth: U16, dividing: nat)
    requires growth >= 1
    ensures GetsOf(ranges, Some(Flow.AtStart), growth, dividing) == OrderGets(ranges, growth, dividing)
  {
    var gets := GetsOf(ranges, Some(Flow.AtStart), growth, dividing);
    var orderGets := OrderGets(ranges, growth, dividing);
    forall k | 0 <= k < |ranges| ensures gets[k] == orderGets[k] {
      MinStep(Growable(ranges[k]), growth);
    }
  }

  lemma GetsFollowEnd(ranges: seq<SizeRange>, growth: U16, dividing: nat)
    requires growth >= 1
    ensures GetsOf(ranges, Some(Flow.AtEnd), growth, dividing)
      == Reverse(OrderGets(BiasedOrder(ranges, Flow.AtEnd), growth, dividing))
  {
    var n := |ranges|;
    var gets := GetsOf(ranges, Some(Flow.AtEnd), growth, dividing);
    var order := BiasedOrder(ranges, Flow.AtEnd);
    var orderGets := OrderGets(order, growth, dividing);
    forall k | 0 <= k < n ensures gets[k] == Reverse(orderGets)[k] {
      assert order[n - 1 - k] == ranges[k];
      MinStep(Growable(ranges[k]), growth);
    }
  }

  /** The biased order holds the same ranges, so the same total growth. */
  lemma OrderGrowables(ranges: seq<SizeRange>, end: Flow.End)
    ensures Sum(Growables(BiasedOrder(ranges, end))) == Sum(Growables(ranges))
  {
    if end == Flow.AtEnd {
      var n := |ranges|;
      assert Growables(BiasedOrder(ranges, end)) == Reverse(Growables(ranges));
      SumReverse(Growables(ranges));
    }
  }

  /** Maxima are minima plus ranges. */
  lemma MaxesAreMinsPlusRanges(ranges: seq<SizeRange>)
    requires forall k :: 0 <= k < |ranges| ==> ranges[k].min <= ranges[k].max
    ensures Sum(Maxes(ranges)) == Sum(Mins(ranges)) + Sum(Growables(ranges))
  {
    SumPointwiseAdd(Mins(ranges), Growables(ranges), Maxes(ranges));
  }

  /** With a bias, a flow whose elements' minima fit and whose maxima
      reach the main size fills it exactly (with the saturating addition). */
  lemma BiasedFlowFills(end: Flow.End, main: U16, ranges: seq<SizeRange>)
    requires forall k :: 0 <= k < |ranges| ==> ranges[k].min <= ranges[k].max
    requires Sum(Mins(ranges)) <= main <= Sum(Maxes(ranges))
    ensures Layout(Some(end), main, ranges).Ok?
    ensures Flow.TotalSize(Layout(Some(end), main, ranges).value) == main
  {
    SatSumIsCappedSum(Mins(ranges));
    var extra := SatSub(main, SatSum(Mins(ranges)));
    var (growth, dividing) := CalculateLayout(Some(end), main, ranges).value;
    LayoutSizes(ranges, Some(end), growth, dividing);
    if extra == 0 {
      assert GetsOf(ranges, Some(end), growth, dividing) == seq(|ranges|, k => 0);
      SumZeros(|ranges|);
    } else {
      assert extra <= Sum(Growables(ranges)) by { MaxesAreMinsPlusRanges(ranges); }
      BiasedGetsExtra(end, ranges, extra);
    }
  }

  /** When the elements can grow by the extra space, the biased search
      divides and the elements get exactly that space. */
  lemma BiasedGetsExtra(end: Flow.End, ranges: seq<SizeRange>, extra: U16)
    requires 0 < extra <= Sum(Growables(ranges))
    ensures var (growth, dividing) := BiasedLayout(BiasedOrder(ranges, end), extra);
      Sum(GetsOf(ranges, Some(end), growth, dividing)) == extra
  {
    var order := BiasedOrder(ranges, end);
    OrderGrowables(ranges, end);
    if BiasedSearch(order, 1, extra).Stuck? {
      StuckOutgrowsRanges(order, extra);
      assert false;
    }
    var (growth, dividing) := BiasedLayout(order, extra);
    DividedHandsOutExtra(order, extra);
    GetsFollowOrder(ranges, end, growth, dividing);
  }

  /** With more space than the elements can grow, the biased search gets
      stuck. */
  lemma ShortSearchGetsStuck(order: seq<SizeRange>, extra: U16)
    requires 0 < extra && Sum(Growables(order)) < extra
    ensures BiasedSearch(order, 1, extra).Stuck?
  {
    if BiasedSearch(order, 1, extra).Divided? {
      DividedHandsOutExtra(order, extra);
      var Divided(g, d) := BiasedSearch(order, 1, extra);
      SumMonotone(OrderGets(order, g, d), Growables(order));
    }
  }

  /** With the growth `u16::MAX`, every element whose range is below it
      takes its maximum. */
  lemma UnboundedGrowthTakesMaxima(ranges: seq<SizeRange>, bias: Option<Flow.End>)
    requires forall k :: 0 <= k < |ranges| ==> ranges[k].min <= ranges[k].max && Growable(ranges[k]) < U16_MAX
    ensures var r := LayoutFrom(ranges, bias, U16_MAX, 0, true, 0, 0);
      |r| == |ranges| && forall k :: 0 <= k < |r| ==> r[k].size == ranges[k].max
  {
    var r := LayoutFrom(ranges, bias, U16_MAX, 0, true, 0, 0);
    LayoutFromPlaces(ranges, bias, U16_MAX, 0, true, 0, 0);
    forall k | 0 <= k < |r| ensures r[k].size == ranges[k].max {
      assert SizedAt(ranges, bias, U16_MAX, 0, true, 0 + k, r[k]);
    }
  }

  /** With a bias, a flow whose elements' maxima do not reach the main
      size gives every element its maximum (with the saturating addition). */
  lemma BiasedFlowTakesMaxima(end: Flow.End, main: U16, ranges: seq<SizeRange>)
    requires forall k :: 0 <= k < |ranges| ==> ranges[k].min <= ranges[k].max
    requires Sum(Maxes(ranges)) < main
    ensures Layout(Some(end), main, ranges).Ok?
    ensures var r := Layout(Some(end), main, ranges).value;
      |r| == |ranges| && forall k :: 0 <= k < |r| ==> r[k].size == ranges[k].max
  {
    MaxesAreMinsPlusRanges(ranges);
    SatSumIsCappedSum(Mins(ranges));
    var extra := SatSub(main, SatSum(Mins(ranges)));
    var order := BiasedOrder(ranges, end);
    OrderGrowables(ranges, end);
    ShortSearchGetsStuck(order, extra);
    assert CalculateLayout(Some(end), main, ranges) == Ok((U16_MAX, 0));
    forall k | 0 <= k < |ranges| ensures Growable(ranges[k]) < U16_MAX {
      SumAround(Growables(ranges), k);
    }
    UnboundedGrowthTakesMaxima(ranges, Some(end));
  }

  /** Without a bias, a flow whose elements' minima fit never overflows
      the main size (with the saturating addition), unless the search
      panics. */
  lemma UnbiasedFlowWithin(main: U16, ranges: seq<SizeRange>)
    requires forall k :: 0 <= k < |ranges| ==> ranges[k].min <= ranges[k].max
    requires Sum(Mins(ranges)) <= main
    requires Layout(None, main, ranges).Ok?
    ensures Flow.TotalSize(Layout(None, main, ranges).value) <= main
  {
    SatSumIsCappedSum(Mins(ranges));
    var extra := SatSub(main, SatSum(Mins(ranges)));
    var (growth, dividing) := CalculateLayout(None, main, ranges).value;
    LayoutSizes(ranges, None, growth, dividing);
    assert GetsOf(ranges, None, growth, dividing) == Shares(ranges, growth);
    if growth == 0 {
      assert Shares(ranges, 0) == seq(|ranges|, k => 0);
      SumZeros(|ranges|);
    } else {
      UnbiasedGrowthIsLargest(ranges, extra);
      FitsMeans(ranges, growth, extra);
    }
  }
}
