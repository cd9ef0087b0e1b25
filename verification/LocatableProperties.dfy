/**
 * Properties of the `Locatable` interval contract: the GA4GH view against
 * the 1-based one, overlap as a shared position, symmetry and monotonicity
 * of overlap, and containment as a preorder that implies overlap.
 */
module LocatableProperties {
  import opened Wrappers
  import opened JavaLang
  import opened Locatable

  /** The interval widened by `margin` bases on each side covers `p`. */
  predicate Near(l: Loc, margin: int, p: int) {
    l.start - margin <= p <= l.end + margin
  }

  // ---------------------------------------------------------------------
  // Size and the GA4GH view
  // ---------------------------------------------------------------------

  /** The size is the number of positions covered (for an empty or proper interval). */
  lemma {:induction false} SizeCountsPositions(l: Loc)
    requires l.start <= l.end + 1
    requires InInt32(l.end - l.start + 1)
    ensures |Positions(l)| == Size(l)
    decreases l.end - l.start
  {
    if l.start > l.end {
      assert Positions(l) == {};
    } else if l.start == l.end {
      assert Positions(l) == {l.start};
    } else {
      var shorter := l.(end := l.end - 1);
      SizeCountsPositions(shorter);
      assert Positions(l) == Positions(shorter) + {l.end};
    }
  }

  /** The 0-based half-open GA4GH bounds span exactly `size()` bases. */
  lemma GA4GHSpanIsSize(l: Loc)
    requires InInt32(l.start - 1) && InInt32(l.end - l.start + 1)
    ensures GA4GHEnd(l) - GA4GHStart(l) == Size(l)
  {
  }

  /** A 1-based position `p` is covered exactly when its 0-based index `p - 1` is in `[GA4GHStart, GA4GHEnd)`. */
  lemma GA4GHIsHalfOpen(l: Loc, p: int)
    requires InInt32(l.start - 1)
    ensures Covers(l, p) <==> GA4GHStart(l) <= p - 1 < GA4GHEnd(l)
  {
  }

  // ---------------------------------------------------------------------
  // Overlap
  // ---------------------------------------------------------------------

  /** A null `other`, or one with a null contig, overlaps and is contained by nothing, for every receiver. */
  lemma UnmappedOtherNeverMatches(loc: Loc, other: Option<Loc>, margin: Int32)
    requires other.None? || other.value.contig.None?
    ensures !OverlapsWithMargin(loc, other, margin)
    ensures !Overlaps(loc, other)
    ensures !Contains(loc, other)
  {
  }

  /** `overlaps` is `overlapsWithMargin` at margin 0. */
  lemma OverlapsIsMarginZero(loc: Loc, other: Option<Loc>)
    requires ComparesContigs(other) ==> loc.contig.Some?
    ensures Overlaps(loc, other) == OverlapsWithMargin(loc, other, 0)
  {
  }

  /**
   * With both contigs present, overlap within `margin` means a common
   * position: one covered by the receiver and by `other` widened by
   * `margin`, provided neither of the two is empty.
   */
  lemma {:induction false} OverlapMeansSharedPosition(loc: Loc, other: Loc, margin: Int32)
    requires loc.contig.Some? && other.contig.Some?
    requires MarginInRange(other, margin)
    requires loc.start <= loc.end && other.start - margin <= other.end + margin
    ensures OverlapsWithMargin(loc, Some(other), margin)
        <==> loc.contig == other.contig && exists p :: Covers(loc, p) && Near(other, margin, p)
  {
    if OverlapsWithMargin(loc, Some(other), margin) {
      var p := if loc.start < other.start - margin then other.start - margin else loc.start;
      assert Covers(loc, p) && Near(other, margin, p);
    }
  }

  /** Overlap within a margin is symmetric. */
  lemma OverlapsWithMarginSymmetric(a: Loc, b: Loc, margin: Int32)
    requires a.contig.Some? && b.contig.Some?
    requires MarginInRange(a, margin) && MarginInRange(b, margin)
    ensures OverlapsWithMargin(a, Some(b), margin) == OverlapsWithMargin(b, Some(a), margin)
  {
  }

  /** `overlaps` is symmetric. */
  lemma OverlapsSymmetric(a: Loc, b: Loc)
    requires a.contig.Some? && b.contig.Some?
    ensures Overlaps(a, Some(b)) == Overlaps(b, Some(a))
  {
  }

  /** A wider margin never loses an overlap. */
  lemma OverlapsMonotoneInMargin(loc: Loc, other: Loc, m1: Int32, m2: Int32)
    requires loc.contig.Some? && other.contig.Some?
    requires m1 <= m2
    requires MarginInRange(other, m1) && MarginInRange(other, m2)
    ensures OverlapsWithMargin(loc, Some(other), m1) ==> OverlapsWithMargin(loc, Some(other), m2)
  {
  }

  // ---------------------------------------------------------------------
  // Containment
  // ---------------------------------------------------------------------

  /**
   * For a non-empty `other`, containment means every position `other`
   * covers is covered by the receiver, on the same contig.
   */
  lemma {:induction false} ContainsMeansCovering(loc: Loc, other: Loc)
    requires loc.contig.Some? && other.contig.Some?
    requires other.start <= other.end
    ensures Contains(loc, Some(other))
        <==> loc.contig == other.contig && forall p :: Covers(other, p) ==> Covers(loc, p)
  {
    if loc.contig == other.contig && forall p :: Covers(other, p) ==> Covers(loc, p) {
      assert Covers(other, other.start) && Covers(other, other.end);
    }
  }

  lemma ContainsReflexive(l: Loc)
    requires l.contig.Some?
    ensures Contains(l, Some(l))
  {
  }

  lemma ContainsTransitive(a: Loc, b: Loc, c: Loc)
    requires a.contig.Some? && b.contig.Some?
    requires Contains(a, Some(b)) && Contains(b, Some(c))
    ensures Contains(a, Some(c))
  {
  }

  /** Containment is not symmetric: [100, 200] contains [120, 150] on one contig, but not the other way round. */
  lemma ContainsNotSymmetric()
    ensures Contains(Loc(Some("chr1"), 100, 200), Some(Loc(Some("chr1"), 120, 150)))
    ensures !Contains(Loc(Some("chr1"), 120, 150), Some(Loc(Some("chr1"), 100, 200)))
  {
  }

  /** Containing a non-empty interval implies overlapping it. */
  lemma ContainsImpliesOverlaps(a: Loc, b: Loc)
    requires a.contig.Some?
    requires b.start <= b.end
    requires Contains(a, Some(b))
    ensures Overlaps(a, Some(b))
  {
  }

  /** [100, 200] and [201, 210] on one contig: adjacent, so they overlap only with a margin of 1. */
  lemma AdjacentIntervals()
    ensures !Overlaps(Loc(Some("chr1"), 100, 200), Some(Loc(Some("chr1"), 201, 210)))
    ensures OverlapsWithMargin(Loc(Some("chr1"), 100, 200), Some(Loc(Some("chr1"), 201, 210)), 1)
    ensures !Contains(Loc(Some("chr1"), 100, 200), Some(Loc(Some("chr1"), 201, 210)))
    ensures Size(Loc(Some("chr1"), 100, 200)) == 101
  {
  }
}
