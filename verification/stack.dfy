/** The stack container (src/elements/containers/stack.rs): elements drawn
    one over another in collection order; inputs go to the topmost element,
    or to all of them when broadcasting. Elements are abstracted to the calls
    they make when drawn and to their size ranges. */
module StackContainer {
  import opened Common
  import opened Inputs
  import opened Outputs
  import opened Containers

  datatype Stack = Stack(broadcastInputs: bool)

  /** `stack()`: inputs are not broadcast. */
  function NewStack(): (s: Stack)
    ensures !s.broadcastInputs
  {
    Stack(false)
  }

  /** `Stack::broadcast_inputs`. */
  function BroadcastInputs(s: Stack): (r: Stack)
    ensures r.broadcastInputs
  {
    s.(broadcastInputs := true)
  }

  /** `Stack::width` / `Stack::height`: the elements share the whole area,
      so the stack needs room for the most demanding of them and can grow
      as far as the most permissive. */
  function StackRange(ranges: seq<SizeRange>): (r: SizeRange)
    ensures forall i :: 0 <= i < |ranges| ==> ranges[i].min <= r.min && ranges[i].max <= r.max
    ensures |ranges| == 0 ==> r == SizeRange(0, 0)
    ensures |ranges| > 0 ==> exists i :: 0 <= i < |ranges| && ranges[i].min == r.min
    ensures |ranges| > 0 ==> exists i :: 0 <= i < |ranges| && ranges[i].max == r.max
  {
    var r := CombineCrossAxes(ranges);
    assert forall i :: 0 <= i < |ranges| ==> Mins(ranges)[i] == ranges[i].min && Maxes(ranges)[i] == ranges[i].max;
    r
  }

  /** `Stack::draw`: each element draws onto the same output, in order. */
  function StackDraw(draws: seq<seq<OutputCall>>): seq<OutputCall>
    decreases |draws|
  {
    if |draws| == 0 then [] else StackDraw(draws[..|draws| - 1]) + draws[|draws| - 1]
  }

  /** The number of calls each element makes. */
  function CallCounts(draws: seq<seq<OutputCall>>): (n: seq<nat>)
    ensures |n| == |draws| && forall i :: 0 <= i < |draws| ==> n[i] == |draws[i]|
  {
    seq(|draws|, i requires 0 <= i < |draws| => |draws[i]|)
  }

  /** The stack makes exactly the calls its elements make. */
  lemma {:induction false} StackDrawLength(draws: seq<seq<OutputCall>>)
    ensures |StackDraw(draws)| == Sum(CallCounts(draws))
    decreases |draws|
  {
    if |draws| > 0 {
      var init := draws[..|draws| - 1];
      StackDrawLength(init);
      assert CallCounts(init) == CallCounts(draws)[..|draws| - 1];
    }
  }

  /** The stack's calls are the elements' calls in collection order: the
      k-th call of element i comes right after all calls of the elements
      before it. */
  lemma {:induction false} StackDrawAt(draws: seq<seq<OutputCall>>, i: nat, k: nat)
    requires i < |draws| && k < |draws[i]|
    ensures Sum(CallCounts(draws)[..i]) + k < |StackDraw(draws)|
    ensures StackDraw(draws)[Sum(CallCounts(draws)[..i]) + k] == draws[i][k]
    decreases |draws|
  {
    var init := draws[..|draws| - 1];
    var counts := CallCounts(draws);
    assert CallCounts(init) == counts[..|draws| - 1];
    StackDrawLength(init);
    if i < |draws| - 1 {
      StackDrawAt(init, i, k);
      assert counts[..i] == CallCounts(init)[..i];
    } else {
      assert counts[..i] == CallCounts(init);
    }
  }

  /** The last element draws last, so its calls end the stack's. */
  lemma TopDrawsLast(draws: seq<seq<OutputCall>>)
    requires |draws| > 0
    ensures var all := StackDraw(draws);
      |draws[|draws| - 1]| <= |all| && all[|all| - |draws[|draws| - 1]|..] == draws[|draws| - 1]
  {
  }

  /** `Stack::handle`: with broadcasting every element, in order, gets the
      input; otherwise only the last element, and nothing when the stack is
      empty. */
  function StackHandle(s: Stack, count: nat, input: Input): (r: seq<Delivery>)
    ensures forall d :: d in r ==> d.input == input && d.index < count
    ensures s.broadcastInputs ==> |r| == count && forall i :: 0 <= i < count ==> r[i].index == i
    ensures !s.broadcastInputs ==> |r| == (if count == 0 then 0 else 1)
    ensures !s.broadcastInputs && count > 0 ==> r[0].index == count - 1
  {
    if s.broadcastInputs then seq(count, (i: int) requires 0 <= i < count => Delivery(i, input))
    else if count == 0 then []
    else [Delivery(count - 1, input)]
  }
}
