/**
 * Candidate numbering (`makeEnvelopes`) and node selection (`nodesTable`).
 *
 * Candidates are the start points followed by the end points; the candidate
 * with id `k + 1` sits at index `k`. A candidate A becomes a node iff A's id is
 * MIN(B.ID) over the candidates B that match A (the `GROUP BY A.ID HAVING
 * A.ID = MIN(B.ID)` query). Nodes are numbered 1..N in ascending order of their
 * representative's id; `row_number() over()` fixes no order, this model fixes
 * that one.
 */
module Clustering {
  import opened Wrappers
  import opened Geometry
  import opened Extraction

  /** A row of the nodes table: NODE_ID and the representative's point. */
  datatype Node = Node(id: nat, point: Point)

  /** The points of the scratch points table, all starts first and all ends after. */
  function Candidates(coords: seq<EndpointRow>): (c: seq<Option<Point>>)
    ensures |c| == 2 * |coords|
    ensures forall k :: 0 <= k < |coords| ==> c[k] == coords[k].startPoint
    ensures forall k :: 0 <= k < |coords| ==> c[|coords| + k] == coords[k].endPoint
  {
    seq(|coords|, k requires 0 <= k < |coords| => coords[k].startPoint)
    + seq(|coords|, k requires 0 <= k < |coords| => coords[k].endPoint)
  }

  /**
   * MIN(B.ID) over the candidates B with id greater than `from` that match
   * candidate A (index `a`); None when there is none.
   */
  function MinMatchingFrom(c: seq<Option<Point>>, tol: int, a: nat, from: nat): (m: Option<nat>)
    requires a < |c| && from <= |c|
    ensures m.Some? ==> from < m.value <= |c| && Matches(tol, c[a], c[m.value - 1])
    ensures m.Some? ==> forall j :: from <= j < m.value - 1 ==> !Matches(tol, c[a], c[j])
    ensures m.None? ==> forall j :: from <= j < |c| ==> !Matches(tol, c[a], c[j])
    decreases |c| - from
  {
    if from == |c| then None
    else if Matches(tol, c[a], c[from]) then Some(from + 1)
    else MinMatchingFrom(c, tol, a, from + 1)
  }

  /** MIN(B.ID) over all candidates B matching candidate A; None when A's group is empty. */
  function MinMatchingId(c: seq<Option<Point>>, tol: int, a: nat): Option<nat>
    requires a < |c|
  {
    MinMatchingFrom(c, tol, a, 0)
  }

  /** The HAVING clause: candidate A's id is the smallest id matching it. */
  predicate IsRepresentative(c: seq<Option<Point>>, tol: int, a: nat)
    requires a < |c|
  {
    MinMatchingId(c, tol, a) == Some(a + 1)
  }

  /**
   * The representative rule in words: a candidate is a node iff it is not
   * NULL and no candidate with a smaller id matches it.
   */
  lemma {:induction false} RepresentativeIff(c: seq<Option<Point>>, tol: int, a: nat)
    requires a < |c|
    ensures IsRepresentative(c, tol, a) <==>
            c[a].Some? && forall j :: 0 <= j < a ==> !Matches(tol, c[a], c[j])
  {
    MatchesReflexive(tol, c[a]);
  }

  /** The indices of the representatives from `from` on, ascending. */
  function RepresentativesFrom(c: seq<Option<Point>>, tol: int, from: nat): (r: seq<nat>)
    requires from <= |c|
    ensures forall k :: 0 <= k < |r| ==> from <= r[k] < |c| && IsRepresentative(c, tol, r[k])
    ensures forall a :: from <= a < |c| && IsRepresentative(c, tol, a) ==> a in r
    ensures forall k, l :: 0 <= k < l < |r| ==> r[k] < r[l]
    decreases |c| - from
  {
    if from == |c| then []
    else if IsRepresentative(c, tol, from) then [from] + RepresentativesFrom(c, tol, from + 1)
    else RepresentativesFrom(c, tol, from + 1)
  }

  /** The indices of all representatives, in ascending id order. */
  function Representatives(c: seq<Option<Point>>, tol: int): seq<nat>
  {
    RepresentativesFrom(c, tol, 0)
  }

  /** A representative is never NULL. */
  lemma RepresentativeNotNull(c: seq<Option<Point>>, tol: int, a: nat)
    requires a < |c| && IsRepresentative(c, tol, a)
    ensures c[a].Some?
  {
  }

  /** The nodes table: node k + 1 holds the point of the (k + 1)-th representative. */
  function NodesTable(c: seq<Option<Point>>, tol: int): (nodes: seq<Node>)
    ensures |nodes| == |Representatives(c, tol)|
    ensures forall k :: 0 <= k < |nodes| ==> nodes[k].id == k + 1
    ensures forall k :: 0 <= k < |nodes| ==> c[Representatives(c, tol)[k]] == Some(nodes[k].point)
  {
    var reps := Representatives(c, tol);
    seq(|reps|, k requires 0 <= k < |reps| => Node(k + 1, c[reps[k]].value))
  }

  /** A point is a node's point iff some representative candidate holds it. */
  lemma NodePointsAreRepresentatives(c: seq<Option<Point>>, tol: int, p: Point)
    ensures (exists k :: 0 <= k < |NodesTable(c, tol)| && NodesTable(c, tol)[k].point == p)
            <==> (exists a :: 0 <= a < |c| && IsRepresentative(c, tol, a) && c[a] == Some(p))
  {
    var nodes, reps := NodesTable(c, tol), Representatives(c, tol);
    if a :| 0 <= a < |c| && IsRepresentative(c, tol, a) && c[a] == Some(p) {
      var k :| 0 <= k < |reps| && reps[k] == a;
      assert nodes[k].point == p;
    }
  }

  /** At tolerance zero the node points are pairwise distinct. */
  lemma {:induction false} ZeroToleranceNodesDistinct(c: seq<Option<Point>>, tol: int)
    requires tol == 0
    ensures var nodes := NodesTable(c, tol);
            forall k, l :: 0 <= k < l < |nodes| ==> nodes[k].point != nodes[l].point
  {
    var nodes, reps := NodesTable(c, tol), Representatives(c, tol);
    forall k, l | 0 <= k < l < |nodes|
      ensures nodes[k].point != nodes[l].point
    {
      RepresentativeIff(c, tol, reps[l]);
      ZeroToleranceMatch(tol, c[reps[l]], c[reps[k]]);
    }
  }

  /**
   * At tolerance zero every non-NULL candidate's point is the point of exactly
   * one node, and that node's representative is the first candidate holding
   * the point.
   */
  lemma {:induction false} ZeroToleranceCandidateNode(c: seq<Option<Point>>, tol: int, a: nat)
    requires tol == 0 && a < |c| && c[a].Some?
    ensures var nodes := NodesTable(c, tol);
            exists k :: 0 <= k < |nodes| && nodes[k].point == c[a].value
    ensures var nodes, reps := NodesTable(c, tol), Representatives(c, tol);
            forall k :: 0 <= k < |nodes| && nodes[k].point == c[a].value ==>
              c[reps[k]] == c[a] && forall j :: 0 <= j < reps[k] ==> c[j] != c[a]
    ensures var nodes := NodesTable(c, tol);
            forall k, l ::
              (0 <= k < |nodes| && 0 <= l < |nodes| &&
               nodes[k].point == c[a].value && nodes[l].point == c[a].value) ==> k == l
  {
    var nodes, reps := NodesTable(c, tol), Representatives(c, tol);
    MatchesReflexive(tol, c[a]);
    var m := MinMatchingId(c, tol, a);
    var f := m.value - 1;
    ZeroToleranceMatch(tol, c[a], c[f]);
    forall j | 0 <= j < f
      ensures !Matches(tol, c[f], c[j])
    {
      ZeroToleranceMatch(tol, c[a], c[j]);
      ZeroToleranceMatch(tol, c[f], c[j]);
    }
    RepresentativeIff(c, tol, f);
    var k :| 0 <= k < |reps| && reps[k] == f;
    assert nodes[k].point == c[a].value;
    forall k' | 0 <= k' < |nodes| && nodes[k'].point == c[a].value
      ensures c[reps[k']] == c[a] && forall j :: 0 <= j < reps[k'] ==> c[j] != c[a]
    {
      RepresentativeIff(c, tol, reps[k']);
      forall j | 0 <= j < reps[k']
        ensures c[j] != c[a]
      {
        ZeroToleranceMatch(tol, c[reps[k']], c[j]);
      }
    }
    ZeroToleranceNodesDistinct(c, tol);
  }
}
