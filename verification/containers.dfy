/** What the one-dimensional containers share, independent of the layout
    algorithm: combining the size ranges of their elements, the builders,
    the title, and the routing of inputs to elements. Elements are
    abstracted to what the container asks of them: their sizes, titles and
    positions. */
module Containers {
  import opened Common
  import opened Vectors
  import opened Inputs
  import opened Axes

  /** The (minimum, maximum) sizes an element can take along one axis. */
  datatype SizeRange = SizeRange(min: U16, max: U16)

  function Mins(rs: seq<SizeRange>): (m: seq<U16>)
    ensures |m| == |rs| && forall i :: 0 <= i < |rs| ==> m[i] == rs[i].min
  {
    seq(|rs|, i requires 0 <= i < |rs| => rs[i].min)
  }

  function Maxes(rs: seq<SizeRange>): (m: seq<U16>)
    ensures |m| == |rs| && forall i :: 0 <= i < |rs| ==> m[i] == rs[i].max
  {
    seq(|rs|, i requires 0 <= i < |rs| => rs[i].max)
  }

  /** `combine_main_axes`: the ranges of elements laid end to end. The
      minima are added with a plain `+` (which wraps in a release build),
      the maxima with a saturating add. */
  function CombineMainAxes(rs: seq<SizeRange>): (r: SizeRange)
    ensures r.min == Sum(Mins(rs)) % 0x10000
    ensures r.max == Min(Sum(Maxes(rs)), U16_MAX)
    decreases |rs|
  {
    if |rs| == 0 then SizeRange(0, 0)
    else
      var init := rs[..|rs| - 1];
      var acc := CombineMainAxes(init);
      assert Mins(init) == Mins(rs)[..|rs| - 1];
      assert Maxes(init) == Maxes(rs)[..|rs| - 1];
      SizeRange(WrapAdd(acc.min, rs[|rs| - 1].min), SatAdd(acc.max, rs[|rs| - 1].max))
  }

  /** `combine_cross_axes`: the ranges of elements side by side; each bound
      is the largest of the elements' bounds, 0 for no elements. */
  function CombineCrossAxes(rs: seq<SizeRange>): (r: SizeRange)
    ensures r.min == MaxOf(Mins(rs)) && r.max == MaxOf(Maxes(rs))
    decreases |rs|
  {
    if |rs| == 0 then SizeRange(0, 0)
    else
      var init := rs[..|rs| - 1];
      var acc := CombineCrossAxes(init);
      var last := rs[|rs| - 1];
      assert Mins(init) == Mins(rs)[..|rs| - 1];
      assert Maxes(init) == Maxes(rs)[..|rs| - 1];
      SizeRange(if acc.min <= last.min then last.min else acc.min,
                if acc.max <= last.max then last.max else acc.max)
  }

  /** `InnerElement`: an element placed by a layout, by its index. */
  datatype Placed = Placed(index: nat, position: U16, size: U16)

  /** A container's own settings; the elements and the layout algorithm are
      passed separately. */
  datatype Container = Container(axis: Axis, broadcastKeys: bool, focused: Option<nat>)

  /** `row(layout, elements)`. */
  function Row(): (c: Container)
    ensures c.axis == X && !c.broadcastKeys && c.focused.None?
  {
    Container(X, false, None)
  }

  /** `column(layout, elements)`. */
  function Column(): (c: Container)
    ensures c.axis == Y && !c.broadcastKeys && c.focused.None?
  {
    Container(Y, false, None)
  }

  /** `Container1D::broadcast_keys`. */
  function BroadcastKeys(c: Container): (r: Container)
    ensures r.broadcastKeys && r.axis == c.axis && r.focused == c.focused
  {
    c.(broadcastKeys := true)
  }

  /** `Container1D::focus`. */
  function Focus(c: Container, i: nat): (r: Container)
    ensures r.focused == Some(i) && r.axis == c.axis && r.broadcastKeys == c.broadcastKeys
  {
    c.(focused := Some(i))
  }

  /** The builders touch separate fields, so their order does not matter;
      broadcasting twice is broadcasting once, and the last focus wins. */
  lemma BuildersIndependent(c: Container, i: nat, j: nat)
    ensures Focus(BroadcastKeys(c), i) == BroadcastKeys(Focus(c, i))
    ensures BroadcastKeys(BroadcastKeys(c)) == BroadcastKeys(c)
    ensures Focus(Focus(c, i), j) == Focus(c, j)
  {
  }

  /** The focused element's index, if that element exists. */
  function FocusedIn(c: Container, count: nat): (r: Option<nat>)
    ensures r.Some? <==> c.focused.Some? && c.focused.value < count
    ensures r.Some? ==> r.value == c.focused.value
  {
    if c.focused.Some? && c.focused.value < count then c.focused else None
  }

  /** `Container1D::title`: the focused element's title when that element
      exists, and nothing written otherwise. */
  function Title(c: Container, titles: seq<string>): (t: string)
    ensures FocusedIn(c, |titles|).None? ==> t == []
    ensures FocusedIn(c, |titles|).Some? ==> t == titles[c.focused.value]
  {
    match FocusedIn(c, |titles|)
    case Some(i) => titles[i]
    case None => []
  }

  /** The title depends only on the focused element's own title. */
  lemma TitleOnlyFromFocused(c: Container, titles: seq<string>, titles': seq<string>)
    requires |titles| == |titles'|
    requires forall i :: 0 <= i < |titles| && c.focused == Some(i) ==> titles[i] == titles'[i]
    ensures Title(c, titles) == Title(c, titles')
  {
  }

  /** An input handed to the element with the given index. */
  datatype Delivery = Delivery(index: nat, input: Input)

  /** Whether a mouse at main coordinate `at` lies on a placed element. */
  predicate Covers(inner: Placed, at: U16)
  {
    inner.position <= at < inner.position + inner.size
  }

  /** `checked_sub(position).filter(|pos| pos < size)`: the mouse's main
      coordinate relative to a placed element, if the element covers it.
      The test is on the difference, so it does not overflow. */
  function LocalMain(inner: Placed, at: U16): (r: Option<U16>)
    ensures r.Some? <==> Covers(inner, at)
    ensures r.Some? ==> inner.position + r.value == at && r.value < inner.size
  {
    if at >= inner.position && at - inner.position < inner.size then Some(at - inner.position) else None
  }

  /** The mouse input an element receives: local coordinates, and the
      element's own size on the main axis. */
  function LocalMouse(axis: Axis, inner: Placed, m: Mouse, local: U16): Mouse
  {
    m.(at := AxisVec(axis, local, CrossOf(axis, m.at)), size := AxisVec(axis, inner.size, CrossOf(axis, m.size)))
  }

  /** The mouse branch of `Container1D::handle`: the first placed element
      that covers the mouse gets it, and no other. `layout` is what the
      container's layout yields for the mouse's size. */
  function HitTest(axis: Axis, layout: seq<Placed>, m: Mouse): seq<Delivery>
    decreases |layout|
  {
    if |layout| == 0 then []
    else match LocalMain(layout[0], MainOf(axis, m.at))
      case Some(local) => [Delivery(layout[0].index, MouseInput(LocalMouse(axis, layout[0], m, local)))]
      case None => HitTest(axis, layout[1..], m)
  }

  /** `k` is the first placed element covering main coordinate `at`. */
  predicate FirstCover(layout: seq<Placed>, at: U16, k: int)
  {
    0 <= k < |layout| && Covers(layout[k], at) && forall j :: 0 <= j < k ==> !Covers(layout[j], at)
  }

  /** The mouse reaches at most one element, and none exactly when no
      placed element covers it. */
  lemma {:induction false} HitTestNone(axis: Axis, layout: seq<Placed>, m: Mouse)
    ensures |HitTest(axis, layout, m)| <= 1
    ensures |HitTest(axis, layout, m)| == 0 <==> forall k :: 0 <= k < |layout| ==> !Covers(layout[k], MainOf(axis, m.at))
    decreases |layout|
  {
    if |layout| > 0 {
      var at := MainOf(axis, m.at);
      HitTestNone(axis, layout[1..], m);
      if !Covers(layout[0], at) {
        forall k | 0 < k < |layout| ensures layout[k] == layout[1..][k - 1] { }
      }
    }
  }

  /** When the mouse reaches an element, that element is the first one
      covering it, and it gets the mouse in its own coordinates. */
  lemma {:induction false} HitTestReaches(axis: Axis, layout: seq<Placed>, m: Mouse)
    requires |HitTest(axis, layout, m)| > 0
    ensures exists k ::
      FirstCover(layout, MainOf(axis, m.at), k)
      && HitTest(axis, layout, m)[0]
         == Delivery(layout[k].index, MouseInput(LocalMouse(axis, layout[k], m, MainOf(axis, m.at) - layout[k].position)))
    decreases |layout|
  {
    var at := MainOf(axis, m.at);
    if Covers(layout[0], at) {
      assert FirstCover(layout, at, 0);
    } else {
      HitTestReaches(axis, layout[1..], m);
      var k :| FirstCover(layout[1..], at, k)
        && HitTest(axis, layout[1..], m)[0]
           == Delivery(layout[1..][k].index, MouseInput(LocalMouse(axis, layout[1..][k], m, at - layout[1..][k].position)));
      assert layout[1..][k] == layout[k + 1];
      forall j | 0 < j < k + 1 ensures !Covers(layout[j], at) {
        assert layout[j] == layout[1..][j - 1];
      }
      assert FirstCover(layout, at, k + 1);
    }
  }

  /** The mouse reaches nothing exactly when no placed element covers it;
      otherwise it reaches only the first one that does, with coordinates
      local to it. */
  lemma HitTestFirstCover(axis: Axis, layout: seq<Placed>, m: Mouse)
    ensures var r := HitTest(axis, layout, m);
      |r| <= 1
      && (|r| == 0 <==> forall k :: 0 <= k < |layout| ==> !Covers(layout[k], MainOf(axis, m.at)))
    ensures var r := HitTest(axis, layout, m);
      var at := MainOf(axis, m.at);
      |r| == 1 ==>
        exists k :: FirstCover(layout, at, k)
          && r[0] == Delivery(layout[k].index, MouseInput(LocalMouse(axis, layout[k], m, at - layout[k].position)))
  {
    HitTestNone(axis, layout, m);
    if |HitTest(axis, layout, m)| == 1 {
      HitTestReaches(axis, layout, m);
    }
  }

  /** `Container1D::handle`: a key goes to every element with key
      broadcasting, else to the focused element if it exists; a mouse goes
      through `HitTest`. */
  function Handle(c: Container, count: nat, layout: seq<Placed>, input: Input): (r: seq<Delivery>)
  {
    match input
    case KeyInput(_) =>
      if c.broadcastKeys then seq(count, (i: int) requires 0 <= i < count => Delivery(i, input))
      else (match FocusedIn(c, count) case Some(i) => [Delivery(i, input)] case None => [])
    case MouseInput(m) => HitTest(c.axis, layout, m)
  }

  /** Keys reach the elements unchanged: with broadcasting every element in
      order, without it the focused element alone and nothing when it does
      not exist. */
  lemma HandleKeys(c: Container, count: nat, layout: seq<Placed>, input: Input)
    requires input.KeyInput?
    ensures var r := Handle(c, count, layout, input);
      (forall d :: d in r ==> d.input == input && d.index < count)
      && (c.broadcastKeys ==> |r| == count && forall i :: 0 <= i < count ==> r[i].index == i)
      && (!c.broadcastKeys ==>
            |r| <= 1 && (|r| == 1 <==> FocusedIn(c, count).Some?) && (|r| == 1 ==> Some(r[0].index) == c.focused))
  {
  }

  /** `Container1D::ideal_size` (the variant over ideal sizes): the elements'
      ideal sizes added up along the axis with a plain `+` and maximised
      across it. */
  function IdealSize(axis: Axis, sizes: seq<Vec2<U16>>): (r: Vec2<U16>)
    ensures MainOf(axis, r) == Sum(Mains(axis, sizes)) % 0x10000
    ensures CrossOf(axis, r) == MaxOf(Crosses(axis, sizes))
    decreases |sizes|
  {
    if |sizes| == 0 then Vec2(0, 0)
    else
      var init := sizes[..|sizes| - 1];
      var acc := IdealSize(axis, init);
      var last := sizes[|sizes| - 1];
      assert Mains(axis, init) == Mains(axis, sizes)[..|sizes| - 1];
      assert Crosses(axis, init) == Crosses(axis, sizes)[..|sizes| - 1];
      var cross := if CrossOf(axis, acc) <= CrossOf(axis, last) then CrossOf(axis, last) else CrossOf(axis, acc);
      AxisVec(axis, WrapAdd(MainOf(axis, acc), MainOf(axis, last)), cross)
  }

  function Mains(axis: Axis, sizes: seq<Vec2<U16>>): (m: seq<U16>)
    ensures |m| == |sizes| && forall i :: 0 <= i < |sizes| ==> m[i] == MainOf(axis, sizes[i])
  {
    seq(|sizes|, i requires 0 <= i < |sizes| => MainOf(axis, sizes[i]))
  }

  function Crosses(axis: Axis, sizes: seq<Vec2<U16>>): (m: seq<U16>)
    ensures |m| == |sizes| && forall i :: 0 <= i < |sizes| ==> m[i] == CrossOf(axis, sizes[i])
  {
    seq(|sizes|, i requires 0 <= i < |sizes| => CrossOf(axis, sizes[i]))
  }

  /** `Container1D::ideal_width`: along a row the elements' ideal widths
      added up, across a column the largest. */
  function IdealWidth(axis: Axis, widths: seq<U16>): (r: U16)
    ensures axis == X ==> r == Sum(widths) % 0x10000
    ensures axis == Y ==> r == MaxOf(widths)
  {
    match axis
    case X => WrapSumIsSumModulo(widths); WrapSum(widths)
    case Y => MaxOf(widths)
  }

  /** `Container1D::ideal_height`: the same with the axes exchanged. */
  function IdealHeight(axis: Axis, heights: seq<U16>): (r: U16)
    ensures axis == Y ==> r == Sum(heights) % 0x10000
    ensures axis == X ==> r == MaxOf(heights)
  {
    match axis
    case Y => WrapSumIsSumModulo(heights); WrapSum(heights)
    case X => MaxOf(heights)
  }
}
