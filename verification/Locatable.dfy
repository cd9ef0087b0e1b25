/**
 * The interval contract of `htsjdk.samtools.util.Locatable`: a closed,
 * 1-based interval `[start, end]` on a named contig, with the derived size,
 * 0-based half-open (GA4GH) bounds, overlap and containment.
 *
 * Coordinates are Java `int`s. The Java sums wrap on overflow; here each
 * operation instead requires that its sums stay in the 32-bit range.
 */
module Locatable {
  import opened Wrappers
  import opened JavaLang

  /** A located thing: `contig` is `None` when there is no unique mapping. */
  datatype Loc = Loc(contig: Option<string>, start: Int32, end: Int32)

  /** Position `p` (1-based) lies within the closed interval, contig aside. */
  predicate Covers(l: Loc, p: int) {
    l.start <= p <= l.end
  }

  /** The 1-based positions the interval covers. */
  function Positions(l: Loc): set<int> {
    set p | l.start <= p <= l.end && Covers(l, p)
  }

  /** `getGA4GHStart`: the 0-based start, computed in `int` before widening. */
  function GA4GHStart(l: Loc): (s: int)
    requires InInt32(l.start - 1)
    ensures s < l.start && Covers(l, s + 1) == (l.start <= l.end)
  {
    l.start - 1
  }

  /** `getGA4GHEnd`: the exclusive 0-based end, which is the 1-based closed end. */
  function GA4GHEnd(l: Loc): (e: int)
    ensures l.start <= l.end ==> Covers(l, e) && !Covers(l, e + 1)
  {
    l.end
  }

  /** `size`: the number of bases covered. Not checked to be positive. */
  function Size(l: Loc): (n: int)
    requires InInt32(l.end - l.start + 1)
    ensures n > 0 <==> l.start <= l.end
    ensures l.start <= l.end ==> Covers(l, l.start + n - 1) && !Covers(l, l.start + n)
  {
    l.end - l.start + 1
  }

  /** The call compares contigs, and so dereferences the receiver's: `other` and its contig are non-null. */
  predicate ComparesContigs(other: Option<Loc>) {
    other.Some? && other.value.contig.Some?
  }

  /** Widening `other` by `margin` on both sides stays in the `int` range. */
  predicate MarginInRange(other: Loc, margin: int) {
    InInt32(other.end + margin) && InInt32(other.start - margin)
  }

  /**
   * `overlapsWithMargin`: false for a null `other` or a null other contig;
   * otherwise the contigs are equal and the intervals come within `margin`
   * bases of each other. A receiver with a null contig would be
   * dereferenced, hence the first precondition.
   */
  function OverlapsWithMargin(loc: Loc, other: Option<Loc>, margin: Int32): (r: bool)
    requires ComparesContigs(other) ==> loc.contig.Some?
    requires ComparesContigs(other) && loc.contig == other.value.contig ==> MarginInRange(other.value, margin)
    ensures r ==> ComparesContigs(other) && loc.contig == other.value.contig
    ensures r ==> loc.start - margin <= other.value.end && other.value.start <= loc.end + margin
  {
    if other.None? || other.value.contig.None? then false
    else
      loc.contig.value == other.value.contig.value
      && loc.start <= other.value.end + margin
      && other.value.start - margin <= loc.end
  }

  /** `overlaps`: overlap with no margin. */
  function Overlaps(loc: Loc, other: Option<Loc>): (r: bool)
    requires ComparesContigs(other) ==> loc.contig.Some?
    ensures r ==> ComparesContigs(other) && loc.contig == other.value.contig
    ensures r ==> loc.start <= other.value.end && other.value.start <= loc.end
  {
    OverlapsWithMargin(loc, other, 0)
  }

  /**
   * `contains`: false for a null `other` or a null other contig; otherwise
   * the contigs are equal and `other` lies within the receiver's bounds.
   */
  function Contains(loc: Loc, other: Option<Loc>): (r: bool)
    requires ComparesContigs(other) ==> loc.contig.Some?
    ensures r ==> ComparesContigs(other) && loc.contig == other.value.contig
    ensures r ==> forall p :: Covers(other.value, p) ==> Covers(loc, p)
  {
    if other.None? || other.value.contig.None? then false
    else
      loc.contig.value == other.value.contig.value
      && loc.start <= other.value.start
      && loc.end >= other.value.end
  }
}
