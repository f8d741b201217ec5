/**
 * Points, envelopes and the two matching operators the graph queries use:
 * `&&` (bounding boxes intersect) and `=` (geometries equal).
 * Ordinates and the tolerance are integers in place of doubles.
 */
module Geometry {
  import opened Wrappers

  /** A point of a LINESTRING or LINESTRING Z column; `z` is None for a 2D point. */
  datatype Point = Point(x: int, y: int, z: Option<int>)

  /** A closed axis-aligned rectangle. */
  datatype Envelope = Envelope(minX: int, minY: int, maxX: int, maxY: int)

  /** The bounding box of a single point. */
  function Bounds(p: Point): (e: Envelope)
    ensures e.minX == e.maxX == p.x && e.minY == e.maxY == p.y
  {
    Envelope(p.x, p.y, p.x, p.y)
  }

  /** ST_Expand(p, tol): the point's bounding box grown by `tol` on every side. */
  function Expand(p: Point, tol: int): (e: Envelope)
    ensures e.minX + e.maxX == 2 * p.x && e.minY + e.maxY == 2 * p.y
    ensures e.maxX - e.minX == 2 * tol && e.maxY - e.minY == 2 * tol
  {
    Envelope(p.x - tol, p.y - tol, p.x + tol, p.y + tol)
  }

  /** The `&&` operator: the two closed rectangles share at least one point. */
  predicate Overlaps(a: Envelope, b: Envelope)
  {
    a.minX <= b.maxX && b.minX <= a.maxX && a.minY <= b.maxY && b.minY <= a.maxY
  }

  /**
   * The condition under which two (possibly NULL) points match in the node and
   * edge queries: with a positive tolerance their expanded envelopes overlap
   * (`A.AREA && B.AREA`); otherwise `A && B AND A = B`. A NULL operand never
   * matches, not even itself. With a positive tolerance, two points match iff
   * both ordinates differ by at most 2 * tol.
   */
  predicate Matches(tol: int, a: Option<Point>, b: Option<Point>): (m: bool)
    ensures m ==> a.Some? && b.Some?
    ensures tol > 0 && a.Some? && b.Some? ==>
              (m <==> && -2 * tol <= a.value.x - b.value.x <= 2 * tol
                      && -2 * tol <= a.value.y - b.value.y <= 2 * tol)
  {
    && a.Some? && b.Some?
    && if tol > 0 then Overlaps(Expand(a.value, tol), Expand(b.value, tol))
       else Overlaps(Bounds(a.value), Bounds(b.value)) && a.value == b.value
  }

  /** With tolerance zero, matching is plain equality of non-NULL points. */
  lemma ZeroToleranceMatch(tol: int, a: Option<Point>, b: Option<Point>)
    requires tol <= 0
    ensures Matches(tol, a, b) <==> a.Some? && a == b
  {
  }

  /** Every non-NULL point matches itself; NULL matches nothing. */
  lemma MatchesReflexive(tol: int, a: Option<Point>)
    ensures Matches(tol, a, a) <==> a.Some?
  {
  }

  lemma MatchesSymmetric(tol: int, a: Option<Point>, b: Option<Point>)
    ensures Matches(tol, a, b) <==> Matches(tol, b, a)
  {
  }

  /** Equality is transitive, so at tolerance zero matching is an equivalence on non-NULL points. */
  lemma ZeroToleranceMatchTransitive(tol: int, a: Option<Point>, b: Option<Point>, c: Option<Point>)
    requires tol <= 0 && Matches(tol, a, b) && Matches(tol, b, c)
    ensures Matches(tol, a, c)
  {
  }

  /** Overlap of expanded envelopes is not transitive: a chain of three points 2 * tol apart. */
  lemma PositiveToleranceMatchNotTransitive()
    ensures var a, b, c := Some(Point(0, 0, None)), Some(Point(2, 0, None)), Some(Point(4, 0, None));
            Matches(1, a, b) && Matches(1, b, c) && !Matches(1, a, c)
  {
  }
}
