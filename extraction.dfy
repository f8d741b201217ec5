/**
 * Endpoint extraction (`firstFirstLastLast`): one row per input line holding
 * the line's primary key, the first point of its first part and the last
 * point of its last part.
 */
module Extraction {
  import opened Wrappers
  import opened Geometry

  /** A (multi-)line geometry as its parts; a LINESTRING is a single part. */
  type LineGeometry = seq<seq<Point>>

  /** A row of the input table: its integer primary key and its line geometry. */
  datatype InputRow = InputRow(pk: int, geom: LineGeometry)

  /** A row of the scratch coordinates table: EDGE_ID, START_POINT, END_POINT. */
  datatype EndpointRow = EndpointRow(edgeId: int, startPoint: Option<Point>, endPoint: Option<Point>)

  /** ST_NumGeometries. */
  function NumGeometries(g: LineGeometry): nat
  {
    |g|
  }

  /** ST_GeometryN with a 1-based index; NULL when out of range. */
  function GeometryN(g: LineGeometry, n: int): Option<seq<Point>>
  {
    if 1 <= n <= |g| then Some(g[n - 1]) else None
  }

  /** ST_NumPoints; of a NULL line it is taken as 0, which leads to the same NULL point below. */
  function NumPoints(line: Option<seq<Point>>): nat
  {
    if line.Some? then |line.value| else 0
  }

  /** ST_PointN with a 1-based index; NULL for a NULL line or an index out of range. */
  function PointN(line: Option<seq<Point>>, n: int): Option<Point>
  {
    if line.Some? && 1 <= n <= |line.value| then Some(line.value[n - 1]) else None
  }

  /** The start point as the query computes it: ST_PointN(ST_GeometryN(g, 1), 1). */
  function StartPoint(g: LineGeometry): (p: Option<Point>)
    ensures p.Some? <==> |g| > 0 && |g[0]| > 0
    ensures p.Some? ==> p.value == g[0][0]
  {
    PointN(GeometryN(g, 1), 1)
  }

  /** The end point as the query computes it: the last point of ST_GeometryN(g, ST_NumGeometries(g)). */
  function EndPoint(g: LineGeometry): (p: Option<Point>)
    ensures p.Some? <==> |g| > 0 && |g[|g| - 1]| > 0
    ensures p.Some? ==> var last := g[|g| - 1]; p.value == last[|last| - 1]
  {
    var lastGeom := GeometryN(g, NumGeometries(g));
    PointN(lastGeom, NumPoints(lastGeom))
  }

  /** The endpoints the coordinates table is meant to hold for one input row. */
  ghost predicate EndpointsOf(row: InputRow, e: EndpointRow)
  {
    var g := row.geom;
    && e.edgeId == row.pk
    && e.startPoint == (if |g| > 0 && |g[0]| > 0 then Some(g[0][0]) else None)
    && e.endPoint == (if |g| > 0 && |g[|g| - 1]| > 0
                      then Some(g[|g| - 1][|g[|g| - 1]| - 1]) else None)
  }

  /** The coordinates table: exactly one row per input line, in input order, keyed by its primary key. */
  function FirstFirstLastLast(rows: seq<InputRow>): (coords: seq<EndpointRow>)
    ensures |coords| == |rows|
    ensures forall k :: 0 <= k < |rows| ==> EndpointsOf(rows[k], coords[k])
  {
    seq(|rows|, k requires 0 <= k < |rows| =>
      EndpointRow(rows[k].pk, StartPoint(rows[k].geom), EndPoint(rows[k].geom)))
  }

  /** A single-part LINESTRING with points yields its first and last point. */
  lemma SinglePartEndpoints(pk: int, pts: seq<Point>)
    requires |pts| > 0
    ensures FirstFirstLastLast([InputRow(pk, [pts])])
            == [EndpointRow(pk, Some(pts[0]), Some(pts[|pts| - 1]))]
  {
  }
}
