# ST_Graph graph construction, modelled in Dafny

H2GIS's `ST_Graph` turns a table of line geometries, each keyed by an
integer primary key, into two tables. `<input>_NODES` holds one node per
cluster of line endpoints. `<input>_EDGES` holds one edge per line, joining
its start node to its end node. This project models the six-argument
`createGraph` and the steps it runs, in order:

1. the guards: negative tolerance, the already-run check (or dropping the
   old tables when `deleteTables` is set), the integer primary key, and the
   geometry column type (`checkGeometryType`);
2. endpoint extraction (`firstFirstLastLast`);
3. candidate numbering (`makeEnvelopes`);
4. node selection by the min-id representative rule (`nodesTable`);
5. endpoint resolution (`edgesTable`);
6. the NULL-endpoint check (`checkForNullEdgeEndpoints`);
7. the optional orientation by slope (`orientBySlope`).

Each SQL statement has plain set semantics and is restated as a pure
function over sequences, with NULL as `None`:

- `wrappers.dfy` holds `Option` and `Outcome`.
- `geometry.dfy` holds points, envelopes, `ST_Expand`, `&&` and `=`, and
  the matching rule both queries use.
- `extraction.dfy` holds the coordinates table.
- `clustering.dfy` holds candidates, representatives and the nodes table.
- `resolution.dfy` holds the edges table, the NULL count and the error
  message.
- `orientation.dfy` holds the slope UPDATE. It is modelled as a method that
  loops over an edges array in place.
- `st_graph.dfy` holds the pipeline. `CreateGraphSpec` says what a call
  returns and which output tables exist afterwards. `Database.CreateGraph`
  does the same imperatively on a database object and is proved equal to it.

A few modelling choices:

- Coordinates and the tolerance are integers.
- A point's `z` is `None` for a 2D point.
- `row_number() over()` fixes no order. The model numbers the candidates
  starts first, then ends, in input order. It numbers the nodes in ascending
  order of their representative's id.
- A correlated `LIMIT 1` sub-query may return any matching node. The model
  takes the one with the smallest id. The predicate `Resolution.Resolves`
  states what every possible answer satisfies, and the edge-table contracts
  are stated through it.

Where the code and its documentation differ, the model follows the code:

- `ST_Expand(p, tol)` grows the point's box by `tol` on every side. Two
  points with a positive tolerance therefore match when both ordinates
  differ by at most `2 * tol`, not `tol` as the Javadoc's "side length"
  suggests.
- With tolerance 0 the queries use `&&` and `=`. `=` is modelled as full
  equality of the point, including z. Two points that differ only in z are
  distinct nodes.
- `checkGeometryType` accepts only the column type codes of LINESTRING (2)
  and LINESTRING Z (1002). A MULTILINESTRING column is refused, although
  extraction itself handles multi-part geometries (first part's first
  point, last part's last point).
- When the NULL-endpoint check throws, only the scratch tables are dropped
  (the `finally` block). `<input>_NODES` and `<input>_EDGES` stay behind, so
  the same call without `deleteTables` then fails as already run
  (`STGraph.FailedRunBlocksRerun`).
- The type error's text (TYPE_ERROR, lines 78-79) ends in "Type code: ",
  but line 302 throws it without appending the code. The modelled message
  is exactly that text.
- The nodes column is typed either POINT or POINTZ for the whole run
  (lines 403, 407 and 420), so the nodes of one run are all 2D or all 3D. In
  a 2D run, `ST_Z` gives NaN (H2) or NULL (PostGIS) for both nodes of an
  edge. Neither NaN < NaN nor a comparison with NULL holds, so no edge is
  swapped. An edge with a NULL node id never reaches the UPDATE, because the
  NULL-endpoint check fails the call first. The model gives a 2D point no z,
  and `Orientation.RunsUphill` holds only when both nodes have one.

## Model

| member | source | states |
|---|---|---|
| Geometry.Bounds | h2gis-functions/src/main/java/org/h2gis/functions/spatial/topology/ST_Graph.java:423 | the bounding box of a point is the degenerate box at that point |
| Geometry.Expand | h2gis-functions/src/main/java/org/h2gis/functions/spatial/topology/ST_Graph.java:306-308 | ST_Expand gives the box centred on the point with sides 2 * tol |
| Geometry.Matches | h2gis-functions/src/main/java/org/h2gis/functions/spatial/topology/ST_Graph.java:410-413 | a NULL point matches nothing; with tol > 0, two points match iff both ordinates differ by at most 2 * tol |
| Geometry.ZeroToleranceMatch | h2gis-functions/src/main/java/org/h2gis/functions/spatial/topology/ST_Graph.java:422-425 | with tol 0, two points match iff both are non-NULL and equal |
| Geometry.MatchesReflexive | h2gis-functions/src/main/java/org/h2gis/functions/spatial/topology/ST_Graph.java:410-413 | every non-NULL point matches itself, and NULL matches nothing |
| Geometry.MatchesSymmetric | h2gis-functions/src/main/java/org/h2gis/functions/spatial/topology/ST_Graph.java:410-413 | matching does not depend on operand order |
| Geometry.ZeroToleranceMatchTransitive | h2gis-functions/src/main/java/org/h2gis/functions/spatial/topology/ST_Graph.java:422-425 | at tol 0, matching is transitive |
| Geometry.PositiveToleranceMatchNotTransitive | h2gis-functions/src/main/java/org/h2gis/functions/spatial/topology/ST_Graph.java:410-413 | with tol > 0, matching is not transitive: (0,0)~(2,0) and (2,0)~(4,0) but not (0,0)~(4,0) at tol 1 |
| Extraction.StartPoint | h2gis-functions/src/main/java/org/h2gis/functions/spatial/topology/ST_Graph.java:327-328 | the start point is NULL iff there is no first part or it is empty; otherwise it is the first point of the first part |
| Extraction.EndPoint | h2gis-functions/src/main/java/org/h2gis/functions/spatial/topology/ST_Graph.java:326-330 | the end point is NULL iff there is no last part or it is empty; otherwise it is the last point of the last part |
| Extraction.FirstFirstLastLast | h2gis-functions/src/main/java/org/h2gis/functions/spatial/topology/ST_Graph.java:319-347 | exactly one coordinates row per input line, in input order, with EDGE_ID the line's primary key and those two endpoints |
| Extraction.SinglePartEndpoints | h2gis-functions/src/main/java/org/h2gis/functions/spatial/topology/ST_Graph.java:326-330 | a one-part line yields its first and its last point |
| Clustering.Candidates | h2gis-functions/src/main/java/org/h2gis/functions/spatial/topology/ST_Graph.java:364-367 | 2n candidates: candidate k+1 is line k's start point, and candidate n+k+1 is its end point |
| Clustering.MinMatchingFrom | h2gis-functions/src/main/java/org/h2gis/functions/spatial/topology/ST_Graph.java:410-413 | MIN(B.ID) over the matching candidates: the id returned matches, no smaller id matches, and None means nothing matches |
| Clustering.RepresentativeIff | h2gis-functions/src/main/java/org/h2gis/functions/spatial/topology/ST_Graph.java:404-426 | a candidate is a node iff it is not NULL and no candidate with a smaller id matches it |
| Clustering.RepresentativesFrom | h2gis-functions/src/main/java/org/h2gis/functions/spatial/topology/ST_Graph.java:410-413 | lists exactly the representatives, in ascending id order |
| Clustering.RepresentativeNotNull | h2gis-functions/src/main/java/org/h2gis/functions/spatial/topology/ST_Graph.java:410-413 | a NULL endpoint never becomes a node |
| Clustering.NodesTable | h2gis-functions/src/main/java/org/h2gis/functions/spatial/topology/ST_Graph.java:404-426 | one node per representative, with dense ids 1..N; node k holds the point of the k-th representative |
| Clustering.NodePointsAreRepresentatives | h2gis-functions/src/main/java/org/h2gis/functions/spatial/topology/ST_Graph.java:404-426 | a point is a node's point iff some representative candidate holds it |
| Clustering.ZeroToleranceNodesDistinct | h2gis-functions/src/main/java/org/h2gis/functions/spatial/topology/ST_Graph.java:422-425 | at tol 0, node points are pairwise distinct |
| Clustering.ZeroToleranceCandidateNode | h2gis-functions/src/main/java/org/h2gis/functions/spatial/topology/ST_Graph.java:422-425 | at tol 0, every non-NULL candidate's point is the point of exactly one node, whose representative is that point's first occurrence |
| Resolution.ResolveFrom | h2gis-functions/src/main/java/org/h2gis/functions/spatial/topology/ST_Graph.java:449-452 | the lookup scan returns the id of a matching node, and None iff no node matches |
| Resolution.ResolveNode | h2gis-functions/src/main/java/org/h2gis/functions/spatial/topology/ST_Graph.java:447-453 | the LIMIT 1 answer is the id of a node matching the endpoint, and NULL exactly when no node matches |
| Resolution.EdgesTable | h2gis-functions/src/main/java/org/h2gis/functions/spatial/topology/ST_Graph.java:432-476 | one edge per coordinates row with the same EDGE_ID; each endpoint is resolved against the nodes |
| Resolution.ResolvedIdInRange | h2gis-functions/src/main/java/org/h2gis/functions/spatial/topology/ST_Graph.java:447-453 | a resolved id lies in 1..N and names a node matching the endpoint |
| Resolution.ZeroToleranceResolutionUnique | h2gis-functions/src/main/java/org/h2gis/functions/spatial/topology/ST_Graph.java:467-475 | at tol 0, the LIMIT 1 lookup has exactly one possible answer |
| Resolution.ZeroToleranceCandidateResolves | h2gis-functions/src/main/java/org/h2gis/functions/spatial/topology/ST_Graph.java:467-475 | at tol 0, a non-NULL endpoint always resolves to a node |
| Resolution.NullEndpointCount | h2gis-functions/src/main/java/org/h2gis/functions/spatial/topology/ST_Graph.java:501-504 | the count is at most the number of edges, and it is 0 iff every edge has both nodes |
| Resolution.NullEndpointCountIsCardinality | h2gis-functions/src/main/java/org/h2gis/functions/spatial/topology/ST_Graph.java:501-502 | the count is the number of edges with a NULL START_NODE or END_NODE |
| Resolution.NatToString | h2gis-functions/src/main/java/org/h2gis/functions/spatial/topology/ST_Graph.java:506 | the count is written as a non-empty string of decimal digits, with a leading 0 only for the count 0 |
| Resolution.ParseNatToString | h2gis-functions/src/main/java/org/h2gis/functions/spatial/topology/ST_Graph.java:506 | the digits written can be read back as the count |
| Resolution.CountPhrase | h2gis-functions/src/main/java/org/h2gis/functions/spatial/topology/ST_Graph.java:506 | the message says "is one edge " iff the count is 1 |
| Resolution.CountPhraseReportsCount | h2gis-functions/src/main/java/org/h2gis/functions/spatial/topology/ST_Graph.java:506 | for a count above 1 the message says "are <n> edges ", and n reads back as the count |
| Resolution.NullEndpointsMessage | h2gis-functions/src/main/java/org/h2gis/functions/spatial/topology/ST_Graph.java:506-508 | the message starts "There ", and continues "is one edge " exactly when the count is 1 and "are " otherwise |
| Resolution.NullEndpointsCountReadBack | h2gis-functions/src/main/java/org/h2gis/functions/spatial/topology/ST_Graph.java:506-508 | two messages are equal only for equal counts |
| Orientation.NodeById | h2gis-functions/src/main/java/org/h2gis/functions/spatial/topology/ST_Graph.java:494-495 | the join on NODE_ID finds a node with that id, or none when no node has it |
| Orientation.NodeByIdDense | h2gis-functions/src/main/java/org/h2gis/functions/spatial/topology/ST_Graph.java:494-495 | with ids 1..N, node id k is the k-th node |
| Orientation.RunsUphill | h2gis-functions/src/main/java/org/h2gis/functions/spatial/topology/ST_Graph.java:493-495 | the WHERE clause holds only for an edge whose two node ids are non-NULL, distinct and found in the nodes table |
| Orientation.Oriented | h2gis-functions/src/main/java/org/h2gis/functions/spatial/topology/ST_Graph.java:490-495 | one row after the UPDATE keeps its EDGE_ID, is either unchanged or swapped, and does not run uphill |
| Orientation.OrientAll | h2gis-functions/src/main/java/org/h2gis/functions/spatial/topology/ST_Graph.java:490-495 | the UPDATE keeps the row count and applies the per-row rule to each row |
| Orientation.OrientedSpec | h2gis-functions/src/main/java/org/h2gis/functions/spatial/topology/ST_Graph.java:490-495 | an edge changes iff z(start node) < z(end node); a changed edge keeps its EDGE_ID and has its node ids swapped; afterwards it does not run uphill |
| Orientation.OrientedIdempotent | h2gis-functions/src/main/java/org/h2gis/functions/spatial/topology/ST_Graph.java:490-495 | orienting twice is the same as orienting once |
| Orientation.OrientedKeepsNodes | h2gis-functions/src/main/java/org/h2gis/functions/spatial/topology/ST_Graph.java:491-492 | the swap keeps the pair of node ids and keeps whether both are present |
| Orientation.OrientAllChangesUphillOnly | h2gis-functions/src/main/java/org/h2gis/functions/spatial/topology/ST_Graph.java:490-495 | across the table, every EDGE_ID is kept and exactly the uphill edges are swapped |
| Orientation.OrientBySlope | h2gis-functions/src/main/java/org/h2gis/functions/spatial/topology/ST_Graph.java:486-496 | the in-place loop leaves the array equal to OrientAll of the old rows, and no edge runs uphill |
| STGraph.AcceptedGeometryType | h2gis-functions/src/main/java/org/h2gis/functions/spatial/topology/ST_Graph.java:300-303 | the accepted type codes are exactly the LINESTRING code, with or without the Z offset of 1000, and never with M |
| STGraph.CreateGraphSpec | h2gis-functions/src/main/java/org/h2gis/functions/spatial/topology/ST_Graph.java:233-298 | the first two guards leave the tables as they were; a normal return leaves both tables, with one edge per line; a NULL-endpoint failure reports a count between 1 and the number of lines and leaves both tables |
| STGraph.ErrorMessage | h2gis-functions/src/main/java/org/h2gis/functions/spatial/topology/ST_Graph.java:78-80 | the text of each failure; the NULL-endpoint one is the message of its count, and the already-run one ends with the table name |
| STGraph.MessagesIdentifyErrors | h2gis-functions/src/main/java/org/h2gis/functions/spatial/topology/ST_Graph.java:239-302 | the message tells the failures apart: equal messages come from the same failure, with the same count |
| STGraph.Database.CreateGraph | h2gis-functions/src/main/java/org/h2gis/functions/spatial/topology/ST_Graph.java:233-298 | the imperative run returns the outcome CreateGraphSpec gives and leaves exactly the output tables it gives |
| STGraph.NegativeToleranceRejected | h2gis-functions/src/main/java/org/h2gis/functions/spatial/topology/ST_Graph.java:239-241 | a negative tolerance fails before any table is touched |
| STGraph.PrimaryKeyGate | h2gis-functions/src/main/java/org/h2gis/functions/spatial/topology/ST_Graph.java:263-267 | past the first guards, the call fails for lack of an integer primary key iff the table has none, leaving no output table |
| STGraph.GeometryTypeGate | h2gis-functions/src/main/java/org/h2gis/functions/spatial/topology/ST_Graph.java:300-303 | past the earlier guards, the call fails on the type check iff the column is neither LINESTRING nor LINESTRING Z, leaving no output table |
| STGraph.ValidationGate | h2gis-functions/src/main/java/org/h2gis/functions/spatial/topology/ST_Graph.java:498-510 | the call fails with NullEndpoints(n) iff it passed the guards and exactly n > 0 edges have a NULL endpoint |
| STGraph.ZeroToleranceResolvesAll | h2gis-functions/src/main/java/org/h2gis/functions/spatial/topology/ST_Graph.java:467-475 | at tol 0, when every line has a first and a last point, no edge has a NULL endpoint |
| STGraph.ResolvedTablesWellFormed | h2gis-functions/src/main/java/org/h2gis/functions/spatial/topology/ST_Graph.java:282-292 | with no NULL endpoints the tables are well formed: node ids are dense, there is one edge per line with its primary key, each edge joins nodes matching the line's endpoints, and with orientation no edge runs uphill |
| STGraph.SuccessfulRun | h2gis-functions/src/main/java/org/h2gis/functions/spatial/topology/ST_Graph.java:233-298 | a call that returns normally leaves both output tables, and they are well formed |
| STGraph.OrientationScope | h2gis-functions/src/main/java/org/h2gis/functions/spatial/topology/ST_Graph.java:289-292 | orientation leaves the nodes table and every EDGE_ID unchanged, and swaps exactly the uphill edges |
| STGraph.ZeroToleranceAlwaysConnects | h2gis-functions/src/main/java/org/h2gis/functions/spatial/topology/ST_Graph.java:498-510 | at tol 0, when every line has a first and a last point, a call past the guards always succeeds |
| STGraph.FailedRunBlocksRerun | h2gis-functions/src/main/java/org/h2gis/functions/spatial/topology/ST_Graph.java:254-258 | a NULL-endpoint failure leaves both output tables, so repeating the call without deleteTables fails as already run |
| STGraph.ChainedOverlapLeavesNullEndpoint | h2gis-functions/src/main/java/org/h2gis/functions/spatial/topology/ST_Graph.java:447-453 | lines (0,0)->(4,0) and (2,0)->(0,0) at tol 1: (4,0) overlaps only (2,0), which is not a node, so edge 1 gets a NULL END_NODE and the call fails with one NULL edge |

## Left out

- JDBC and SQL plumbing is not modelled: connections, statements, the H2 and PostGIS dialect split, SQL text, logging and spatial indexes. Indexes do not change query results.
- Table names and the scratch tables are not modelled. This covers the `_NODES` and `_EDGES` suffixes, the timestamp-named scratch tables and their drop in `finally`. The database holds only the two output tables.
- Primary-key discovery and geometry-column discovery are parameters of the model. Discovery includes the fallback to the first geometry column when the named one is missing. The parameters are whether the table has a single integer primary key and the chosen column's type code. SRID and the POINT or POINTZ column signature are not modelled.
- The internals of ST_Expand, ST_PointN, ST_GeometryN, ST_NumGeometries, ST_NumPoints and ST_Z are restated on integer points. An index out of range is taken to give NULL.
- Floating-point coordinates and tolerances are not modelled; integers stand in. Any NaN ordinate is not modelled. Only ST_Z's NaN for a 2D point is modelled, as a missing z.
- The input table's name enters the messages as a string parameter. How the name is parsed and quoted is not modelled.
- A 2D start node with a 3D end node, or the reverse, is not modelled. The typed nodes column rules it out within one run, and under H2's ordering of NaN such an edge could compare differently from the model.
- The exception types (IllegalArgumentException, IllegalStateException, SQLException) are not modelled. A failure is `Outcome.Fail` with the reason.
- The order that `row_number() over()` and `LIMIT 1` pick is not modelled. The model fixes one order, described above.
- The nodes table's `EXP` column is not modelled. It is created and then dropped before the call returns.
- SQL errors from the database itself are not modelled. An example is an SQLException thrown halfway through the pipeline.
- The 2-, 3-, 4- and 5-argument overloads of `createGraph` are not modelled. They only pass defaults (tolerance 0, no orientation, no deletion) to the modelled one.
- Area3x3OpImage.java is not part of this model. It is a floating-point raster kernel with no connection to graph building.
