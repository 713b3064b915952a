/** Alignment of a run of cells inside a larger run, shared by the float
    filter (src/elements/filter/float.rs) and the border title
    (src/elements/filter/border.rs). */
module Alignments {
  import opened Common

  datatype Alignment = Start | Middle | End

  /** Where a run of `size` cells starts inside `total` cells:
      flush left, centred (half the total minus half the size, each halved
      by integer division, saturating) or flush right (saturating). */
  function AlignOffset(align: Alignment, total: U16, size: U16): (r: U16)
    ensures align == Start ==> r == 0
    ensures r <= total
    ensures size <= total ==> r + size <= total
    ensures total < size ==> r == 0
  {
    match align
    case Start => 0
    case Middle => SatSub(total / 2, size / 2)
    case End => SatSub(total, size)
  }

  /** When the run fits, flush right leaves no gap after it, and centring
      leaves gaps before and after that differ by at most one cell. */
  lemma AlignOffsetGaps(total: U16, size: U16)
    requires size <= total
    ensures AlignOffset(End, total, size) + size == total
    ensures var before := AlignOffset(Middle, total, size);
      var after := total - size - before;
      -1 <= after - before <= 1
  {
    var a, p := total / 2, total % 2;
    var b, q := size / 2, size % 2;
    assert total == 2 * a + p && size == 2 * b + q;
    assert b <= a;
  }
}
