/** Primitive types shared by the whole model: optional values, panicking
    results and the 16-bit unsigned arithmetic the library uses for every
    coordinate and size. */
module Common {

  /** Rust's `Option`. */
  datatype Option<+T> = None | Some(value: T)

  /** The outcome of an operation that may hit a Rust panic
      (`unreachable!()`, an out-of-range index, an integer underflow). */
  datatype Result<+T> = Ok(value: T) | Panic

  /** A `u16`. */
  type U16 = x: int | 0 <= x <= 0xFFFF

  const U16_MAX: U16 := 0xFFFF

  function Min(a: int, b: int): int { if a <= b then a else b }
  function Max(a: int, b: int): int { if a <= b then b else a }

  /** `u16::saturating_add`. */
  function SatAdd(a: U16, b: U16): (r: U16)
    ensures a + b <= U16_MAX ==> r == a + b
    ensures a + b > U16_MAX ==> r == U16_MAX
  {
    if a + b <= U16_MAX then a + b else U16_MAX
  }

  /** `u16::saturating_sub`. */
  function SatSub(a: U16, b: U16): (r: U16)
    ensures b <= a ==> r == a - b
    ensures a < b ==> r == 0
  {
    if b <= a then a - b else 0
  }

  /** The plain `+` on `u16` as a release build evaluates it: wrapping
      modulo 2^16 (a debug build panics instead). */
  function WrapAdd(a: U16, b: U16): (r: U16)
    ensures a + b <= U16_MAX ==> r == a + b
    ensures a + b > U16_MAX ==> r == a + b - 0x10000
  {
    (a + b) % 0x10000
  }

  /** The plain `-` on `u16` as a release build evaluates it: wrapping
      modulo 2^16 (a debug build panics instead). */
  function WrapSub(a: U16, b: U16): (r: U16)
    ensures b <= a ==> r == a - b
    ensures a < b ==> r == a - b + 0x10000
  {
    (a - b) % 0x10000
  }

  /** The sum of a sequence of naturals. */
  function Sum(s: seq<nat>): nat
  {
    if |s| == 0 then 0 else Sum(s[..|s| - 1]) + s[|s| - 1]
  }

  lemma {:induction false} SumAppend(s: seq<nat>, t: seq<nat>)
    ensures Sum(s + t) == Sum(s) + Sum(t)
    decreases |t|
  {
    if |t| == 0 {
      assert s + t == s;
    } else {
      assert (s + t)[..|s + t| - 1] == s + t[..|t| - 1];
      SumAppend(s, t[..|t| - 1]);
    }
  }

  /** `fold(0, u16::saturating_add)` over a sequence of u16 values. */
  function SatSum(s: seq<U16>): (r: U16)
  {
    if |s| == 0 then 0 else SatAdd(SatSum(s[..|s| - 1]), s[|s| - 1])
  }

  /** A saturating sum is the exact sum capped at `u16::MAX`. */
  lemma {:induction false} SatSumIsCappedSum(s: seq<U16>)
    ensures SatSum(s) == Min(Sum(s), U16_MAX)
    decreases |s|
  {
    if |s| > 0 {
      SatSumIsCappedSum(s[..|s| - 1]);
    }
  }

  /** `.sum()` over u16 values: wrapping addition in a release build. */
  function WrapSum(s: seq<U16>): (r: U16)
  {
    if |s| == 0 then 0 else WrapAdd(WrapSum(s[..|s| - 1]), s[|s| - 1])
  }

  /** A wrapping sum is the exact sum modulo 2^16. */
  lemma {:induction false} WrapSumIsSumModulo(s: seq<U16>)
    ensures WrapSum(s) == Sum(s) % 0x10000
    decreases |s|
  {
    if |s| > 0 {
      WrapSumIsSumModulo(s[..|s| - 1]);
    }
  }

  /** `max().unwrap_or_default()` (or a fold of `cmp::max` from 0) over u16
      values: the least upper bound, 0 for none. */
  function MaxOf(s: seq<U16>): (r: U16)
    ensures forall i :: 0 <= i < |s| ==> s[i] <= r
    ensures |s| == 0 ==> r == 0
    ensures |s| > 0 ==> exists i :: 0 <= i < |s| && s[i] == r
  {
    if |s| == 0 then 0
    else
      var m := MaxOf(s[..|s| - 1]);
      assert forall i :: 0 <= i < |s| - 1 ==> s[..|s| - 1][i] == s[i];
      if m <= s[|s| - 1] then s[|s| - 1] else m
  }

  /** A saturating sum grows one prefix at a time; with this a concrete sum
      can be evaluated step by step. */
  lemma SatSumPrefixes(s: seq<U16>)
    ensures forall k :: 0 < k <= |s| ==> SatSum(s[..k]) == SatAdd(SatSum(s[..k - 1]), s[k - 1])
    ensures SatSum(s[..0]) == 0 && s[..|s|] == s
  {
    forall k | 0 < k <= |s| ensures SatSum(s[..k]) == SatAdd(SatSum(s[..k - 1]), s[k - 1]) {
      assert s[..k][..k - 1] == s[..k - 1];
    }
  }

  lemma SumOne(x: nat)
    ensures Sum([x]) == x
  {
    assert [x][..0] == [];
  }

  /** A sum splits at any point. */
  lemma SumSplit(s: seq<nat>, i: nat, j: nat, k: nat)
    requires i <= j <= k <= |s|
    ensures Sum(s[i..k]) == Sum(s[i..j]) + Sum(s[j..k])
  {
    assert s[i..k] == s[i..j] + s[j..k];
    SumAppend(s[i..j], s[j..k]);
  }

  /** Removing one element removes its value from the sum. */
  lemma SumAround(s: seq<nat>, k: nat)
    requires k < |s|
    ensures Sum(s) == Sum(s[..k]) + s[k] + Sum(s[k + 1..])
  {
    SumSplit(s, 0, k, |s|);
    SumSplit(s, k, k + 1, |s|);
    assert s[k..k + 1] == [s[k]];
    SumOne(s[k]);
    assert s[0..|s|] == s;
  }

  /** A sum is its first element plus the sum of the rest. */
  lemma SumHead(s: seq<nat>)
    requires |s| > 0
    ensures Sum(s) == s[0] + Sum(s[1..])
  {
    SumSplit(s, 0, 1, |s|);
    assert s[0..1] == [s[0]] && s[0..|s|] == s;
    SumOne(s[0]);
  }

  /** A sum of pointwise smaller elements is smaller. */
  lemma {:induction false} SumMonotone(a: seq<nat>, b: seq<nat>)
    requires |a| == |b| && forall i :: 0 <= i < |a| ==> a[i] <= b[i]
    ensures Sum(a) <= Sum(b)
    decreases |a|
  {
    if |a| > 0 {
      SumMonotone(a[..|a| - 1], b[..|b| - 1]);
    }
  }

  /** A sum of pointwise sums is the sum of the two sums. */
  lemma {:induction false} SumPointwiseAdd(a: seq<nat>, b: seq<nat>, c: seq<nat>)
    requires |a| == |b| == |c| && forall i :: 0 <= i < |c| ==> c[i] == a[i] + b[i]
    ensures Sum(c) == Sum(a) + Sum(b)
    decreases |c|
  {
    if |c| > 0 {
      SumPointwiseAdd(a[..|a| - 1], b[..|b| - 1], c[..|c| - 1]);
    }
  }

  /** A sequence back to front. */
  function Reverse<T>(s: seq<T>): (r: seq<T>)
    ensures |r| == |s| && forall i :: 0 <= i < |s| ==> r[i] == s[|s| - 1 - i]
  {
    seq(|s|, i requires 0 <= i < |s| => s[|s| - 1 - i])
  }

  /** Reversing does not change a sum. */
  lemma {:induction false} SumReverse(s: seq<nat>)
    ensures Sum(Reverse(s)) == Sum(s)
    decreases |s|
  {
    if |s| > 0 {
      var init := s[..|s| - 1];
      SumReverse(init);
      assert Reverse(s) == [s[|s| - 1]] + Reverse(init);
      SumAppend([s[|s| - 1]], Reverse(init));
      SumOne(s[|s| - 1]);
    }
  }

  lemma {:induction false} SumZeros(n: nat)
    ensures Sum(seq(n, k => 0)) == 0
    decreases n
  {
    if n > 0 {
      assert seq(n, k => 0)[..n - 1] == seq(n - 1, k => 0);
      SumZeros(n - 1);
    }
  }
}
