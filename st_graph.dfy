/**
 * The `createGraph` pipeline of ST_Graph: guards, then extraction, candidate
 * numbering, node selection, edge resolution, the NULL-endpoint check and the
 * optional orientation by slope, each step writing into the database.
 */
module STGraph {
  import opened Wrappers
  import opened Geometry
  import opened Extraction
  import opened Clustering
  import opened Resolution
  import opened Orientation

  /** Geometry type codes of the LINESTRING and LINESTRING Z column types. */
  const LINESTRING := 2
  const LINESTRINGZ := 1002

  /** The fixed parts of two of the exception messages. */
  const TYPE_ERROR := "Only LINESTRINGs and LINESTRING Zs " + "are accepted. Type code: "
  const ALREADY_RUN_ERROR := "ST_Graph has already been called on table "

  /** The exceptions `createGraph` throws on the paths this model covers. */
  datatype GraphError =
    | NegativeTolerance          // "Only positive tolerances are allowed."
    | AlreadyRun                 // ALREADY_RUN_ERROR: an output table exists
    | NoIntegerPrimaryKey        // "must contain a single integer primary key."
    | UnsupportedGeometryType    // TYPE_ERROR
    | NullEndpoints(count: nat)  // checkForNullEdgeEndpoints

  /** The text of the exception thrown for `err`; `table` is the input table's name. */
  function ErrorMessage(err: GraphError, table: string): (msg: string)
    requires err.NullEndpoints? ==> err.count > 0
    ensures err.NullEndpoints? ==> msg == NullEndpointsMessage(err.count)
    ensures err.AlreadyRun? ==> |msg| >= |table| && msg[|msg| - |table|..] == table
    ensures |msg| > 6 && msg[..6] == MessageHead(err)
  {
    match err
    case NegativeTolerance => "Only positive tolerances are allowed."
    case AlreadyRun =>
      AlreadyRunErrorHead();
      assert (ALREADY_RUN_ERROR + table)[..6] == ALREADY_RUN_ERROR[..6];
      ALREADY_RUN_ERROR + table
    case NoIntegerPrimaryKey => "Table " + table + " must contain a single integer primary key."
    case UnsupportedGeometryType => TYPE_ERROR
    case NullEndpoints(n) => NullEndpointsMessage(n)
  }

  lemma AlreadyRunErrorHead()
    ensures |ALREADY_RUN_ERROR| > 6 && ALREADY_RUN_ERROR[..6] == "ST_Gra"
  {
    var text := ALREADY_RUN_ERROR;
    assert text[0] == 'S' && text[1] == 'T' && text[2] == '_' && text[3] == 'G' && text[4] == 'r' && text[5] == 'a';
  }

  /** The first six characters of each message, which differ between the kinds of error. */
  function MessageHead(err: GraphError): string
  {
    match err
    case NegativeTolerance => "Only p"
    case AlreadyRun => "ST_Gra"
    case NoIntegerPrimaryKey => "Table "
    case UnsupportedGeometryType => "Only L"
    case NullEndpoints(_) => "There "
  }

  /**
   * The message tells the errors apart: two messages are equal only for the
   * same kind of error, and for NULL endpoints only for the same count.
   */
  lemma MessagesIdentifyErrors(e1: GraphError, e2: GraphError, table: string)
    requires e1.NullEndpoints? ==> e1.count > 0
    requires e2.NullEndpoints? ==> e2.count > 0
    requires ErrorMessage(e1, table) == ErrorMessage(e2, table)
    ensures e1.NullEndpoints? == e2.NullEndpoints? && e1.AlreadyRun? == e2.AlreadyRun?
    ensures e1.NegativeTolerance? == e2.NegativeTolerance? && e1.UnsupportedGeometryType? == e2.UnsupportedGeometryType?
    ensures e1 == e2
  {
    assert MessageHead(e1) == MessageHead(e2);
    if e1.NullEndpoints? && e2.NullEndpoints? {
      NullEndpointsCountReadBack(e1.count, e2.count);
    }
  }

  /** The two output tables, `<input>_NODES` and `<input>_EDGES`; None while a table does not exist. */
  datatype Tables = Tables(nodes: Option<seq<Node>>, edges: Option<seq<Edge>>)

  /**
   * `checkGeometryType`: the geometry column's declared type must be LINESTRING
   * or LINESTRING Z. Type codes add 1000 for a Z ordinate and 2000 for an M
   * ordinate, so these are the LINESTRING codes without M.
   */
  predicate AcceptedGeometryType(geomTypeCode: int): (ok: bool)
    ensures ok <==> 0 <= geomTypeCode < 2000 && geomTypeCode % 1000 == LINESTRING
  {
    geomTypeCode == LINESTRING || geomTypeCode == LINESTRINGZ
  }

  /** The nodes table a run builds from the input rows. */
  function NodesOf(rows: seq<InputRow>, tol: int): seq<Node>
  {
    NodesTable(Candidates(FirstFirstLastLast(rows)), tol)
  }

  /** The edges table a run builds, before any orientation. */
  function EdgesOf(rows: seq<InputRow>, tol: int): seq<Edge>
  {
    EdgesTable(FirstFirstLastLast(rows), NodesOf(rows, tol), tol)
  }

  /**
   * What one call of `createGraph` returns and which output tables exist
   * afterwards, given the tables that existed before. The output tables are
   * left in place when the NULL-endpoint check throws.
   */
  function CreateGraphSpec(before: Tables, rows: seq<InputRow>, hasIntegerPk: bool, geomTypeCode: int, tol: int,
                           orientBySlope: bool, deleteTables: bool): (r: (Outcome<GraphError>, Tables))
    ensures r.0 in {Fail(NegativeTolerance), Fail(AlreadyRun)} ==> r.1 == before
    ensures r.0.Pass? ==> && r.1.nodes.Some? && r.1.edges.Some?
                          && |r.1.edges.value| == |rows|
    ensures r.0.Fail? && r.0.error.NullEndpoints? ==>
              && 0 < r.0.error.count <= |rows|
              && r.1.nodes.Some? && r.1.edges.Some?
  {
    if tol < 0 then (Fail(NegativeTolerance), before)
    else if !deleteTables && (before.nodes.Some? || before.edges.Some?) then (Fail(AlreadyRun), before)
    else
      var cleared := if deleteTables then Tables(None, None) else before;
      if !hasIntegerPk then (Fail(NoIntegerPrimaryKey), cleared)
      else if !AcceptedGeometryType(geomTypeCode) then (Fail(UnsupportedGeometryType), cleared)
      else
        var nodes, edges := NodesOf(rows, tol), EdgesOf(rows, tol);
        var n := NullEndpointCount(edges);
        if n > 0 then (Fail(NullEndpoints(n)), Tables(Some(nodes), Some(edges)))
        else (Pass, Tables(Some(nodes), Some(if orientBySlope then OrientAll(nodes, edges) else edges)))
  }

  /** The database the function works in, reduced to the two output tables. */
  class Database {
    var nodes: Option<seq<Node>>
    var edges: Option<array<Edge>>

    constructor ()
      ensures Contents() == Tables(None, None)
    {
      nodes := None;
      edges := None;
    }

    /** The current contents of the two output tables. */
    function Contents(): Tables
      reads this, if edges.Some? then {edges.value} else {}
    {
      Tables(nodes, if edges.Some? then Some(edges.value[..]) else None)
    }

    /** `createGraph` with its six arguments; the database is this object. */
    method CreateGraph(rows: seq<InputRow>, hasIntegerPk: bool, geomTypeCode: int, tol: int,
                       orientBySlope: bool, deleteTables: bool) returns (r: Outcome<GraphError>)
      modifies this
      ensures (r, Contents()) ==
              CreateGraphSpec(old(Contents()), rows, hasIntegerPk, geomTypeCode, tol, orientBySlope, deleteTables)
      ensures edges.Some? && edges != old(edges) ==> fresh(edges.value)
    {
      if tol < 0 {
        return Fail(NegativeTolerance);
      }
      if deleteTables {
        nodes, edges := None, None;
      } else if nodes.Some? || edges.Some? {
        return Fail(AlreadyRun);
      }
      if !hasIntegerPk {
        return Fail(NoIntegerPrimaryKey);
      }
      if !AcceptedGeometryType(geomTypeCode) {
        return Fail(UnsupportedGeometryType);
      }
      var coords := FirstFirstLastLast(rows);
      var candidates := Candidates(coords);
      var nodeRows := NodesTable(candidates, tol);
      nodes := Some(nodeRows);
      var edgeRows := EdgesTable(coords, nodeRows, tol);
      var table := new Edge[|edgeRows|](k requires 0 <= k < |edgeRows| => edgeRows[k]);
      assert table[..] == edgeRows;
      edges := Some(table);
      var n := NullEndpointCount(edgeRows);
      if n > 0 {
        return Fail(NullEndpoints(n));
      }
      if orientBySlope {
        OrientBySlope(nodeRows, table);
      }
      return Pass;
    }
  }

  /** A negative tolerance is refused before any table is read or written. */
  lemma NegativeToleranceRejected(before: Tables, rows: seq<InputRow>, hasIntegerPk: bool, geomTypeCode: int, tol: int,
                                  orientBySlope: bool, deleteTables: bool)
    requires tol < 0
    ensures CreateGraphSpec(before, rows, hasIntegerPk, geomTypeCode, tol, orientBySlope, deleteTables)
            == (Fail(NegativeTolerance), before)
  {
  }

  /**
   * Past the first two guards, a table without a single integer primary key
   * fails the call with the output tables cleared (or never created).
   */
  lemma PrimaryKeyGate(before: Tables, rows: seq<InputRow>, hasIntegerPk: bool, geomTypeCode: int, tol: int,
                       orientBySlope: bool, deleteTables: bool)
    requires tol >= 0 && (deleteTables || before == Tables(None, None))
    ensures var (outcome, after) := CreateGraphSpec(before, rows, hasIntegerPk, geomTypeCode, tol, orientBySlope, deleteTables);
            && (outcome == Fail(NoIntegerPrimaryKey) <==> !hasIntegerPk)
            && (outcome == Fail(NoIntegerPrimaryKey) ==> after == Tables(None, None))
  {
  }

  /**
   * Only LINESTRING and LINESTRING Z columns pass; any other type code fails
   * the call before extraction, leaving no output table behind.
   */
  lemma GeometryTypeGate(before: Tables, rows: seq<InputRow>, hasIntegerPk: bool, geomTypeCode: int, tol: int,
                         orientBySlope: bool, deleteTables: bool)
    requires tol >= 0 && (deleteTables || before == Tables(None, None)) && hasIntegerPk
    ensures var (outcome, after) := CreateGraphSpec(before, rows, hasIntegerPk, geomTypeCode, tol, orientBySlope, deleteTables);
            && (outcome == Fail(UnsupportedGeometryType) <==> !AcceptedGeometryType(geomTypeCode))
            && (outcome == Fail(UnsupportedGeometryType) ==> after == Tables(None, None))
  {
  }

  /**
   * The connectivity gate: the run fails with NullEndpoints(n) iff it got
   * past the guards and n > 0 edges have a NULL start or end node.
   */
  lemma ValidationGate(before: Tables, rows: seq<InputRow>, hasIntegerPk: bool, geomTypeCode: int, tol: int,
                       orientBySlope: bool, deleteTables: bool, n: nat)
    ensures var (outcome, _) := CreateGraphSpec(before, rows, hasIntegerPk, geomTypeCode, tol, orientBySlope, deleteTables);
            outcome == Fail(NullEndpoints(n)) <==>
              && tol >= 0 && (deleteTables || before == Tables(None, None))
              && hasIntegerPk && AcceptedGeometryType(geomTypeCode)
              && n > 0
              && n == |set k | 0 <= k < |rows| && !IsResolved(EdgesOf(rows, tol)[k])|
  {
    var edges := EdgesOf(rows, tol);
    NullEndpointCountIsCardinality(edges);
    assert |edges| == |rows|;
    var outcome := CreateGraphSpec(before, rows, hasIntegerPk, geomTypeCode, tol, orientBySlope, deleteTables).0;
    if tol >= 0 && (deleteTables || before == Tables(None, None)) && hasIntegerPk && AcceptedGeometryType(geomTypeCode) {
      assert outcome == if NullEndpointCount(edges) > 0 then Fail(NullEndpoints(NullEndpointCount(edges))) else Pass;
    }
  }

  /**
   * Edge `e` is resolved, both its node ids name nodes of a table numbered
   * 1..N, and those nodes match `p` (start) and `q` (end).
   */
  ghost predicate Joins(nodes: seq<Node>, tol: int, e: Edge, p: Option<Point>, q: Option<Point>)
  {
    && IsResolved(e)
    && 1 <= e.startNode.value <= |nodes| && 1 <= e.endNode.value <= |nodes|
    && Matches(tol, Some(nodes[e.startNode.value - 1].point), p)
    && Matches(tol, Some(nodes[e.endNode.value - 1].point), q)
  }

  /**
   * Edge `e` stands for input row `row`, whose endpoints are `line`: it
   * carries the row's primary key and joins nodes matching the line's
   * endpoints (crosswise only when orientation swapped them); with
   * orientation it does not run uphill.
   */
  ghost predicate EdgeOfLine(nodes: seq<Node>, tol: int, orientBySlope: bool,
                             row: InputRow, line: EndpointRow, e: Edge)
  {
    && e.edgeId == row.pk
    && (|| Joins(nodes, tol, e, line.startPoint, line.endPoint)
        || (orientBySlope && Joins(nodes, tol, e, line.endPoint, line.startPoint)))
    && (orientBySlope ==> !RunsUphill(nodes, e))
  }

  /**
   * The output tables of a good run: node ids are 1..N and there is exactly
   * one edge per input line, in input order, standing for that line.
   */
  ghost predicate WellFormedGraph(rows: seq<InputRow>, tol: int, orientBySlope: bool,
                                  nodes: seq<Node>, edges: seq<Edge>)
  {
    && (forall k :: 0 <= k < |nodes| ==> nodes[k].id == k + 1)
    && |edges| == |rows|
    && forall k :: 0 <= k < |rows| ==>
         EdgeOfLine(nodes, tol, orientBySlope, rows[k], FirstFirstLastLast(rows)[k], edges[k])
  }

  /** A resolved edge of a table numbered 1..N joins the nodes its endpoints resolved to. */
  lemma ResolvedJoins(nodes: seq<Node>, tol: int, e: Edge, p: Option<Point>, q: Option<Point>)
    requires forall k :: 0 <= k < |nodes| ==> nodes[k].id == k + 1
    requires IsResolved(e) && Resolves(nodes, tol, p, e.startNode) && Resolves(nodes, tol, q, e.endNode)
    ensures Joins(nodes, tol, e, p, q)
  {
    ResolvedIdInRange(nodes, tol, p, e.startNode);
    ResolvedIdInRange(nodes, tol, q, e.endNode);
  }

  /** An edge that joins a line's endpoints still stands for the line after the optional orientation. */
  lemma OrientedEdgeOfLine(nodes: seq<Node>, tol: int, orientBySlope: bool,
                           row: InputRow, line: EndpointRow, e: Edge)
    requires e.edgeId == row.pk && Joins(nodes, tol, e, line.startPoint, line.endPoint)
    ensures EdgeOfLine(nodes, tol, orientBySlope, row, line,
                       if orientBySlope then Oriented(nodes, e) else e)
  {
    OrientedSpec(nodes, e);
    if orientBySlope && RunsUphill(nodes, e) {
      var swapped := Edge(e.edgeId, e.endNode, e.startNode);
      assert Oriented(nodes, e) == swapped;
      assert Joins(nodes, tol, swapped, line.endPoint, line.startPoint);
    }
  }

  /** The edges table a run leaves when the connectivity check passes. */
  function FinalEdges(rows: seq<InputRow>, tol: int, orientBySlope: bool): seq<Edge>
  {
    if orientBySlope then OrientAll(NodesOf(rows, tol), EdgesOf(rows, tol)) else EdgesOf(rows, tol)
  }

  /** Once every endpoint is resolved, the tables a run leaves are well formed. */
  lemma ResolvedTablesWellFormed(rows: seq<InputRow>, tol: int, orientBySlope: bool)
    requires NullEndpointCount(EdgesOf(rows, tol)) == 0
    ensures WellFormedGraph(rows, tol, orientBySlope, NodesOf(rows, tol), FinalEdges(rows, tol, orientBySlope))
  {
    var nodes, edges := NodesOf(rows, tol), EdgesOf(rows, tol);
    var coords := FirstFirstLastLast(rows);
    var final := FinalEdges(rows, tol, orientBySlope);
    assert forall k :: 0 <= k < |nodes| ==> nodes[k].id == k + 1;
    forall k | 0 <= k < |rows|
      ensures EdgeOfLine(nodes, tol, orientBySlope, rows[k], coords[k], final[k])
    {
      assert IsResolved(edges[k]);
      ResolvedJoins(nodes, tol, edges[k], coords[k].startPoint, coords[k].endPoint);
      OrientedEdgeOfLine(nodes, tol, orientBySlope, rows[k], coords[k], edges[k]);
      assert final[k] == if orientBySlope then Oriented(nodes, edges[k]) else edges[k];
    }
  }

  /** A run that returns normally leaves both output tables, and they are well formed. */
  lemma SuccessfulRun(before: Tables, rows: seq<InputRow>, hasIntegerPk: bool, geomTypeCode: int, tol: int,
                      orientBySlope: bool, deleteTables: bool)
    requires CreateGraphSpec(before, rows, hasIntegerPk, geomTypeCode, tol, orientBySlope, deleteTables).0 == Pass
    ensures var after := CreateGraphSpec(before, rows, hasIntegerPk, geomTypeCode, tol, orientBySlope, deleteTables).1;
            && after.nodes.Some? && after.edges.Some?
            && WellFormedGraph(rows, tol, orientBySlope, after.nodes.value, after.edges.value)
  {
    assert CreateGraphSpec(before, rows, hasIntegerPk, geomTypeCode, tol, orientBySlope, deleteTables).1
           == Tables(Some(NodesOf(rows, tol)), Some(FinalEdges(rows, tol, orientBySlope)));
    ResolvedTablesWellFormed(rows, tol, orientBySlope);
  }

  /**
   * The orientation step runs only when asked for, after the connectivity
   * check: it leaves the nodes table as it is, keeps every EDGE_ID, and
   * changes exactly the edges that run uphill, by swapping their node ids.
   */
  lemma OrientationScope(before: Tables, rows: seq<InputRow>, hasIntegerPk: bool, geomTypeCode: int, tol: int,
                         deleteTables: bool)
    requires CreateGraphSpec(before, rows, hasIntegerPk, geomTypeCode, tol, false, deleteTables).0 == Pass
    ensures CreateGraphSpec(before, rows, hasIntegerPk, geomTypeCode, tol, true, deleteTables).0 == Pass
    ensures var plain := CreateGraphSpec(before, rows, hasIntegerPk, geomTypeCode, tol, false, deleteTables).1;
            var oriented := CreateGraphSpec(before, rows, hasIntegerPk, geomTypeCode, tol, true, deleteTables).1;
            && plain.nodes.Some? && plain.edges.Some? && oriented.edges.Some?
            && oriented.nodes == plain.nodes
            && |oriented.edges.value| == |plain.edges.value|
            && forall k :: 0 <= k < |plain.edges.value| ==>
                 var e, f := plain.edges.value[k], oriented.edges.value[k];
                 && f.edgeId == e.edgeId
                 && (f == e <==> !RunsUphill(plain.nodes.value, e))
                 && (f != e ==> f == Edge(e.edgeId, e.endNode, e.startNode))
  {
    var nodes, edges := NodesOf(rows, tol), EdgesOf(rows, tol);
    assert CreateGraphSpec(before, rows, hasIntegerPk, geomTypeCode, tol, false, deleteTables).1
           == Tables(Some(nodes), Some(edges));
    assert CreateGraphSpec(before, rows, hasIntegerPk, geomTypeCode, tol, true, deleteTables).1
           == Tables(Some(nodes), Some(OrientAll(nodes, edges)));
    OrientAllChangesUphillOnly(nodes, edges);
  }

  /** At tolerance zero every endpoint of a line with a first and a last point resolves. */
  lemma ZeroToleranceResolvesAll(rows: seq<InputRow>)
    requires forall k :: 0 <= k < |rows| ==> StartPoint(rows[k].geom).Some? && EndPoint(rows[k].geom).Some?
    ensures NullEndpointCount(EdgesOf(rows, 0)) == 0
  {
    var coords := FirstFirstLastLast(rows);
    var c := Candidates(coords);
    var nodes := NodesTable(c, 0);
    var edges := EdgesTable(coords, nodes, 0);
    forall k | 0 <= k < |edges|
      ensures IsResolved(edges[k])
    {
      assert EndpointsOf(rows[k], coords[k]);
      assert c[k] == coords[k].startPoint && c[|coords| + k] == coords[k].endPoint;
      ZeroToleranceCandidateResolves(c, 0, k);
      ZeroToleranceCandidateResolves(c, 0, |coords| + k);
      assert Resolves(nodes, 0, c[k], edges[k].startNode);
      assert Resolves(nodes, 0, c[|coords| + k], edges[k].endNode);
    }
    assert NullEndpointCount(edges) == 0;
  }

  /**
   * With tolerance zero the NULL-endpoint check cannot fail when every line
   * has a first and a last point: a run past the guards always succeeds.
   */
  lemma ZeroToleranceAlwaysConnects(before: Tables, rows: seq<InputRow>, hasIntegerPk: bool, geomTypeCode: int,
                                    orientBySlope: bool, deleteTables: bool)
    requires deleteTables || before == Tables(None, None)
    requires hasIntegerPk && AcceptedGeometryType(geomTypeCode)
    requires forall k :: 0 <= k < |rows| ==> StartPoint(rows[k].geom).Some? && EndPoint(rows[k].geom).Some?
    ensures CreateGraphSpec(before, rows, hasIntegerPk, geomTypeCode, 0, orientBySlope, deleteTables).0 == Pass
  {
    ZeroToleranceResolvesAll(rows);
  }

  /**
   * A failed connectivity check leaves both output tables in place, so the
   * same call repeated without `deleteTables` fails as already run.
   */
  lemma FailedRunBlocksRerun(before: Tables, rows: seq<InputRow>, hasIntegerPk: bool, geomTypeCode: int, tol: int,
                             orientBySlope: bool, deleteTables: bool)
    requires CreateGraphSpec(before, rows, hasIntegerPk, geomTypeCode, tol, orientBySlope, deleteTables).0.Fail?
    requires CreateGraphSpec(before, rows, hasIntegerPk, geomTypeCode, tol, orientBySlope, deleteTables).0.error.NullEndpoints?
    ensures var after := CreateGraphSpec(before, rows, hasIntegerPk, geomTypeCode, tol, orientBySlope, deleteTables).1;
            && after == Tables(Some(NodesOf(rows, tol)), Some(EdgesOf(rows, tol)))
            && CreateGraphSpec(after, rows, hasIntegerPk, geomTypeCode, tol, orientBySlope, false) == (Fail(AlreadyRun), after)
  {
  }

  /** Two lines used below: (0,0) -> (4,0) and (2,0) -> (0,0). */
  function ChainRows(): seq<InputRow>
  {
    [ InputRow(1, [[Point(0, 0, None), Point(4, 0, None)]]),
      InputRow(2, [[Point(2, 0, None), Point(0, 0, None)]]) ]
  }

  /** The candidates of ChainRows: starts (0,0), (2,0), then ends (4,0), (0,0). */
  lemma ChainCandidates()
    ensures var a, b, d := Point(0, 0, None), Point(2, 0, None), Point(4, 0, None);
            Candidates(FirstFirstLastLast(ChainRows())) == [Some(a), Some(b), Some(d), Some(a)]
  {
    ChainCoordinates();
  }

  /** The three overlaps and the one gap along the chain (0,0), (2,0), (4,0) at tolerance 1. */
  lemma ChainMatches()
    ensures var a, b, d := Point(0, 0, None), Point(2, 0, None), Point(4, 0, None);
            && Matches(1, Some(a), Some(a)) && Matches(1, Some(b), Some(a))
            && Matches(1, Some(d), Some(b)) && Matches(1, Some(a), Some(b))
            && !Matches(1, Some(a), Some(d))
  {
  }

  /** Of the candidates (0,0), (2,0), (4,0), (0,0) at tolerance 1, only the first is a representative. */
  lemma ChainRepresentatives(c: seq<Option<Point>>)
    requires c == [Some(Point(0, 0, None)), Some(Point(2, 0, None)),
                   Some(Point(4, 0, None)), Some(Point(0, 0, None))]
    ensures Representatives(c, 1) == [0]
  {
    ChainMatches();
    RepresentativeIff(c, 1, 0);
    RepresentativeIff(c, 1, 1);
    RepresentativeIff(c, 1, 2);
    RepresentativeIff(c, 1, 3);
    assert !IsRepresentative(c, 1, 3);
    assert RepresentativesFrom(c, 1, 3) == [];
    assert !IsRepresentative(c, 1, 2);
    assert RepresentativesFrom(c, 1, 2) == [];
    assert !IsRepresentative(c, 1, 1);
    assert RepresentativesFrom(c, 1, 1) == [];
  }

  /** The nodes table of ChainRows at tolerance 1 holds the single node (0,0). */
  lemma ChainNodes()
    ensures NodesOf(ChainRows(), 1) == [Node(1, Point(0, 0, None))]
  {
    ChainCandidates();
    var c := Candidates(FirstFirstLastLast(ChainRows()));
    ChainRepresentatives(c);
    var nodes := NodesTable(c, 1);
    assert |nodes| == 1 && nodes[0].id == 1 && c[0] == Some(nodes[0].point);
  }

  /** The coordinates table of ChainRows. */
  lemma ChainCoordinates()
    ensures FirstFirstLastLast(ChainRows())
            == [EndpointRow(1, Some(Point(0, 0, None)), Some(Point(4, 0, None))),
                EndpointRow(2, Some(Point(2, 0, None)), Some(Point(0, 0, None)))]
  {
    var rows := ChainRows();
    var coords := FirstFirstLastLast(rows);
    assert EndpointsOf(rows[0], coords[0]) && EndpointsOf(rows[1], coords[1]);
  }

  /** Against the single node (0,0), the end point (4,0) of line 1 finds no node at tolerance 1. */
  lemma ChainEdges(coords: seq<EndpointRow>, nodes: seq<Node>)
    requires coords == [EndpointRow(1, Some(Point(0, 0, None)), Some(Point(4, 0, None))),
                        EndpointRow(2, Some(Point(2, 0, None)), Some(Point(0, 0, None)))]
    requires nodes == [Node(1, Point(0, 0, None))]
    ensures EdgesTable(coords, nodes, 1) == [Edge(1, Some(1), None), Edge(2, Some(1), Some(1))]
  {
    var a, b, d := Point(0, 0, None), Point(2, 0, None), Point(4, 0, None);
    ChainMatches();
    assert ResolveNode(nodes, 1, Some(a)) == Some(1);
    assert ResolveNode(nodes, 1, Some(b)) == Some(1);
    assert ResolveFrom(nodes, 1, Some(d), 1) == None;
    assert ResolveNode(nodes, 1, Some(d)) == None;
  }

  /** One of the two chain edges has a NULL endpoint. */
  lemma ChainNullCount(edges: seq<Edge>)
    requires edges == [Edge(1, Some(1), None), Edge(2, Some(1), Some(1))]
    ensures NullEndpointCount(edges) == 1
  {
    assert edges[..1] == [Edge(1, Some(1), None)];
    assert edges[..1][..0] == [];
  }

  /**
   * With tolerance 1 the chain (0,0), (2,0), (4,0) leaves the first line's
   * end, (4,0), overlapping no node, so the run fails with one NULL edge
   * although every line has both endpoints.
   */
  lemma ChainedOverlapLeavesNullEndpoint()
    ensures EdgesOf(ChainRows(), 1) == [Edge(1, Some(1), None), Edge(2, Some(1), Some(1))]
    ensures CreateGraphSpec(Tables(None, None), ChainRows(), true, LINESTRING, 1, false, false).0
            == Fail(NullEndpoints(1))
  {
    ChainCoordinates();
    ChainNodes();
    ChainEdges(FirstFirstLastLast(ChainRows()), NodesOf(ChainRows(), 1));
    ChainNullCount(EdgesOf(ChainRows(), 1));
  }
}
