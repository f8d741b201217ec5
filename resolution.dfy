/**
 * Edge resolution (`edgesTable`) and the connectivity check
 * (`checkForNullEdgeEndpoints`).
 *
 * Each endpoint is looked up among the nodes with a correlated
 * `SELECT NODE_ID ... LIMIT 1`. The database returns whichever matching row it
 * meets first; this model takes the smallest node id. `Resolves` states what
 * every answer of that sub-query satisfies, whichever row it picks.
 */
module Resolution {
  import opened Wrappers
  import opened Geometry
  import opened Extraction
  import opened Clustering

  /** A row of the edges table: EDGE_ID, START_NODE, END_NODE (None is NULL). */
  datatype Edge = Edge(edgeId: int, startNode: Option<nat>, endNode: Option<nat>)

  /**
   * `r` is a possible answer of the LIMIT 1 lookup of `p`: a node id whose node
   * matches `p`, or NULL exactly when no node matches.
   */
  ghost predicate Resolves(nodes: seq<Node>, tol: int, p: Option<Point>, r: Option<nat>)
  {
    && (r.Some? ==> exists k :: 0 <= k < |nodes| && nodes[k].id == r.value
                                && Matches(tol, Some(nodes[k].point), p))
    && (r.None? <==> forall k :: 0 <= k < |nodes| ==> !Matches(tol, Some(nodes[k].point), p))
  }

  /** The lookup over the nodes from index `from` on: the first node matching `p`. */
  function ResolveFrom(nodes: seq<Node>, tol: int, p: Option<Point>, from: nat): (r: Option<nat>)
    requires from <= |nodes|
    ensures r.Some? ==> exists k :: from <= k < |nodes| && nodes[k].id == r.value
                                   && Matches(tol, Some(nodes[k].point), p)
    ensures r.None? <==> forall k :: from <= k < |nodes| ==> !Matches(tol, Some(nodes[k].point), p)
    decreases |nodes| - from
  {
    if from == |nodes| then None
    else if Matches(tol, Some(nodes[from].point), p) then Some(nodes[from].id)
    else ResolveFrom(nodes, tol, p, from + 1)
  }

  /** The `SELECT NODE_ID FROM nodes WHERE <match> LIMIT 1` sub-query. */
  function ResolveNode(nodes: seq<Node>, tol: int, p: Option<Point>): (r: Option<nat>)
    ensures Resolves(nodes, tol, p, r)
  {
    ResolveFrom(nodes, tol, p, 0)
  }

  /** The edges table: one row per coordinates row, with the same EDGE_ID and both endpoints looked up. */
  function EdgesTable(coords: seq<EndpointRow>, nodes: seq<Node>, tol: int): (edges: seq<Edge>)
    ensures |edges| == |coords|
    ensures forall k :: 0 <= k < |coords| ==>
              && edges[k].edgeId == coords[k].edgeId
              && Resolves(nodes, tol, coords[k].startPoint, edges[k].startNode)
              && Resolves(nodes, tol, coords[k].endPoint, edges[k].endNode)
  {
    seq(|coords|, k requires 0 <= k < |coords| =>
      Edge(coords[k].edgeId, ResolveNode(nodes, tol, coords[k].startPoint),
           ResolveNode(nodes, tol, coords[k].endPoint)))
  }

  /** Both endpoints of the edge were found. */
  predicate IsResolved(e: Edge)
  {
    e.startNode.Some? && e.endNode.Some?
  }

  /** `SELECT COUNT(*) FROM edges WHERE START_NODE IS NULL OR END_NODE IS NULL`. */
  function NullEndpointCount(edges: seq<Edge>): (n: nat)
    ensures n <= |edges|
    ensures n == 0 <==> forall k :: 0 <= k < |edges| ==> IsResolved(edges[k])
  {
    if edges == [] then 0
    else
      var n := NullEndpointCount(edges[..|edges| - 1]);
      assert forall k :: 0 <= k < |edges| - 1 ==> edges[..|edges| - 1][k] == edges[k];
      n + if IsResolved(edges[|edges| - 1]) then 0 else 1
  }

  /** The count is the number of edges with a NULL endpoint. */
  lemma {:induction false} NullEndpointCountIsCardinality(edges: seq<Edge>)
    ensures NullEndpointCount(edges) == |set k | 0 <= k < |edges| && !IsResolved(edges[k])|
  {
    if edges != [] {
      var init := edges[..|edges| - 1];
      NullEndpointCountIsCardinality(init);
      var before := set k | 0 <= k < |init| && !IsResolved(init[k]);
      var after := set k | 0 <= k < |edges| && !IsResolved(edges[k]);
      if IsResolved(edges[|edges| - 1]) {
        assert after == before;
      } else {
        assert after == before + {|edges| - 1};
      }
    }
  }

  /** Every resolved node id names an existing node when node ids are 1..N. */
  lemma ResolvedIdInRange(nodes: seq<Node>, tol: int, p: Option<Point>, r: Option<nat>)
    requires forall k :: 0 <= k < |nodes| ==> nodes[k].id == k + 1
    requires Resolves(nodes, tol, p, r) && r.Some?
    ensures 1 <= r.value <= |nodes| && Matches(tol, Some(nodes[r.value - 1].point), p)
  {
  }

  /**
   * At tolerance zero the LIMIT 1 lookup against the nodes table has exactly
   * one possible answer, so endpoints with equal points get the same node id.
   */
  lemma ZeroToleranceResolutionUnique(c: seq<Option<Point>>, tol: int, p: Option<Point>,
                                      r1: Option<nat>, r2: Option<nat>)
    requires tol == 0
    requires Resolves(NodesTable(c, tol), tol, p, r1) && Resolves(NodesTable(c, tol), tol, p, r2)
    ensures r1 == r2
  {
    var nodes := NodesTable(c, tol);
    ZeroToleranceNodesDistinct(c, tol);
    if r1.Some? && r2.Some? {
      var k1 :| 0 <= k1 < |nodes| && nodes[k1].id == r1.value && Matches(tol, Some(nodes[k1].point), p);
      var k2 :| 0 <= k2 < |nodes| && nodes[k2].id == r2.value && Matches(tol, Some(nodes[k2].point), p);
      ZeroToleranceMatch(tol, Some(nodes[k1].point), p);
      ZeroToleranceMatch(tol, Some(nodes[k2].point), p);
    }
  }

  /**
   * At tolerance zero a non-NULL endpoint always resolves, because it equals
   * the point of the node whose representative is its first occurrence.
   */
  lemma ZeroToleranceCandidateResolves(c: seq<Option<Point>>, tol: int, a: nat)
    requires tol == 0 && a < |c| && c[a].Some?
    ensures forall r :: Resolves(NodesTable(c, tol), tol, c[a], r) ==> r.Some?
  {
    var nodes := NodesTable(c, tol);
    ZeroToleranceCandidateNode(c, tol, a);
    var k :| 0 <= k < |nodes| && nodes[k].point == c[a].value;
    ZeroToleranceMatch(tol, Some(nodes[k].point), c[a]);
  }

  /** The decimal text Java's string concatenation gives a non-negative int. */
  function NatToString(n: nat): (s: string)
    ensures |s| > 0 && forall i :: 0 <= i < |s| ==> '0' <= s[i] <= '9'
    ensures s[0] == '0' <==> n == 0
    decreases n
  {
    if n < 10 then [Digit(n)] else NatToString(n / 10) + [Digit(n % 10)]
  }

  function Digit(d: nat): (ch: char)
    requires d < 10
    ensures '0' <= ch <= '9'
    ensures ch == '0' <==> d == 0
  {
    ['0', '1', '2', '3', '4', '5', '6', '7', '8', '9'][d]
  }

  /** Reads a decimal numeral back. */
  function ParseNat(s: string): nat
  {
    if s == [] then 0
    else 10 * ParseNat(s[..|s| - 1]) + (if '0' <= s[|s| - 1] <= '9' then (s[|s| - 1] - '0') as nat else 0)
  }

  /** The count written into the message can be read back from it. */
  lemma {:induction false} ParseNatToString(n: nat)
    ensures ParseNat(NatToString(n)) == n
    decreases n
  {
    var s := NatToString(n);
    if n >= 10 {
      ParseNatToString(n / 10);
      assert s[..|s| - 1] == NatToString(n / 10);
    }
  }

  /** The text of the exception the check throws for `n > 0` edges with a NULL endpoint. */
  function NullEndpointsMessage(n: nat): (msg: string)
    requires n > 0
    ensures |msg| > 18 && msg[..6] == "There "
    ensures msg[6..18] == "is one edge " <==> n == 1
    ensures n > 1 ==> msg[6..10] == "are "
  {
    var msg := "There " + CountPhrase(n) + "with a null start node or end node. Try using a slightly smaller tolerance.";
    assert msg[6] == CountPhrase(n)[0];
    msg
  }

  /** "is one edge " for a single edge, "are <n> edges " otherwise. */
  function CountPhrase(n: nat): (phrase: string)
    ensures phrase == "is one edge " <==> n == 1
    ensures n != 1 ==> |phrase| > 4 && phrase[..4] == "are "
  {
    if n == 1 then "is one edge "
    else
      var plural := "are " + NatToString(n) + " edges ";
      assert plural[0] == 'a' && plural[..4] == "are ";
      plural
  }

  /** For more than one edge the phrase carries the count, which can be read back from it. */
  lemma CountPhraseReportsCount(n: nat)
    requires n > 1
    ensures var phrase := CountPhrase(n);
            && |phrase| > 11
            && phrase[..4] == "are "
            && ParseNat(phrase[4..|phrase| - 7]) == n
            && phrase[|phrase| - 7..] == " edges "
  {
    var digits := NatToString(n);
    var phrase := CountPhrase(n);
    assert phrase == "are " + digits + " edges ";
    assert phrase[4..|phrase| - 7] == digits;
    ParseNatToString(n);
  }

  /** The message determines the count: equal messages come from equal counts. */
  lemma NullEndpointsCountReadBack(n1: nat, n2: nat)
    requires n1 > 0 && n2 > 0
    requires NullEndpointsMessage(n1) == NullEndpointsMessage(n2)
    ensures n1 == n2
  {
    var p1, p2 := CountPhrase(n1), CountPhrase(n2);
    var tail := "with a null start node or end node. Try using a slightly smaller tolerance.";
    var m1, m2 := NullEndpointsMessage(n1), NullEndpointsMessage(n2);
    assert m1 == "There " + p1 + tail && m2 == "There " + p2 + tail;
    assert |p1| == |p2|;
    assert p1 == m1[6..6 + |p1|] == m2[6..6 + |p2|] == p2;
    if n1 != 1 && n2 != 1 {
      CountPhraseReportsCount(n1);
      CountPhraseReportsCount(n2);
    }
  }
}
