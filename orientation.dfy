/**
 * Orientation by slope (`orientBySlope`): an in-place UPDATE of the edges
 * table that swaps START_NODE and END_NODE on every edge whose start node lies
 * lower than its end node.
 */
module Orientation {
  import opened Wrappers
  import opened Geometry
  import opened Clustering
  import opened Resolution

  /** The node with NODE_ID `id` (NODE_ID is the primary key, so there is at most one meant). */
  function NodeById(nodes: seq<Node>, id: nat): (n: Option<Node>)
    ensures n.Some? ==> n.value in nodes && n.value.id == id
    ensures n.None? ==> forall k :: 0 <= k < |nodes| ==> nodes[k].id != id
  {
    if nodes == [] then None
    else if nodes[0].id == id then Some(nodes[0])
    else NodeById(nodes[1..], id)
  }

  /** With dense node ids the lookup by id is indexing. */
  lemma {:induction false} NodeByIdDense(nodes: seq<Node>, id: nat)
    requires forall k :: 0 <= k < |nodes| ==> nodes[k].id == k + 1
    requires 1 <= id <= |nodes|
    ensures NodeById(nodes, id) == Some(nodes[id - 1])
  {
    assert nodes[id - 1].id == id;
    var n := NodeById(nodes, id);
    var k :| 0 <= k < |nodes| && nodes[k] == n.value;
  }

  /** ST_Z of the node a (possibly NULL) node id names; None for NULL, a missing node or a 2D point. */
  function ZOf(nodes: seq<Node>, id: Option<nat>): Option<int>
  {
    if id.None? then None
    else
      var n := NodeById(nodes, id.value);
      if n.Some? then n.value.point.z else None
  }

  /** The UPDATE's WHERE clause: `ST_Z(start node) < ST_Z(end node)` holds (it is not NULL and true). */
  predicate RunsUphill(nodes: seq<Node>, e: Edge): (up: bool)
    ensures up ==> && e.startNode.Some? && e.endNode.Some?
                   && NodeById(nodes, e.startNode.value).Some?
                   && NodeById(nodes, e.endNode.value).Some?
    ensures up ==> e.startNode != e.endNode
  {
    var zStart, zEnd := ZOf(nodes, e.startNode), ZOf(nodes, e.endNode);
    zStart.Some? && zEnd.Some? && zStart.value < zEnd.value
  }

  /** One row after the UPDATE: its endpoints swapped when it runs uphill. */
  function Oriented(nodes: seq<Node>, e: Edge): (r: Edge)
    ensures r.edgeId == e.edgeId
    ensures r == e || r == Edge(e.edgeId, e.endNode, e.startNode)
    ensures !RunsUphill(nodes, r)
  {
    if RunsUphill(nodes, e) then Edge(e.edgeId, e.endNode, e.startNode) else e
  }

  /** The whole edges table after the UPDATE. */
  function OrientAll(nodes: seq<Node>, edges: seq<Edge>): (r: seq<Edge>)
    ensures |r| == |edges|
    ensures forall k :: 0 <= k < |edges| ==> r[k] == Oriented(nodes, edges[k])
  {
    seq(|edges|, k requires 0 <= k < |edges| => Oriented(nodes, edges[k]))
  }

  /**
   * An edge changes iff it runs uphill; a changed edge keeps its EDGE_ID and
   * has its two node ids exchanged; afterwards it does not run uphill.
   */
  lemma OrientedSpec(nodes: seq<Node>, e: Edge)
    ensures Oriented(nodes, e) != e <==> RunsUphill(nodes, e)
    ensures Oriented(nodes, e) != e ==>
              Oriented(nodes, e) == Edge(e.edgeId, e.endNode, e.startNode)
    ensures !RunsUphill(nodes, Oriented(nodes, e))
  {
  }

  /** Orienting twice is orienting once. */
  lemma OrientedIdempotent(nodes: seq<Node>, e: Edge)
    ensures Oriented(nodes, Oriented(nodes, e)) == Oriented(nodes, e)
  {
    OrientedSpec(nodes, e);
  }

  /** Resolution is kept: an edge with both node ids keeps both, in some order. */
  lemma OrientedKeepsNodes(nodes: seq<Node>, e: Edge)
    ensures IsResolved(Oriented(nodes, e)) <==> IsResolved(e)
    ensures multiset{Oriented(nodes, e).startNode, Oriented(nodes, e).endNode}
            == multiset{e.startNode, e.endNode}
  {
  }

  /** OrientAll keeps each EDGE_ID and swaps the node ids of exactly the uphill edges. */
  lemma OrientAllChangesUphillOnly(nodes: seq<Node>, edges: seq<Edge>)
    ensures forall k :: 0 <= k < |edges| ==>
              var e, f := edges[k], OrientAll(nodes, edges)[k];
              && f.edgeId == e.edgeId
              && (f == e <==> !RunsUphill(nodes, e))
              && (f != e ==> f == Edge(e.edgeId, e.endNode, e.startNode))
  {
    forall k | 0 <= k < |edges| {
      OrientedSpec(nodes, edges[k]);
    }
  }

  /** The UPDATE, row by row over the edges table. */
  method OrientBySlope(nodes: seq<Node>, edges: array<Edge>)
    modifies edges
    ensures edges[..] == OrientAll(nodes, old(edges[..]))
    ensures forall k :: 0 <= k < edges.Length ==> !RunsUphill(nodes, edges[k])
  {
    var i := 0;
    while i < edges.Length
      invariant 0 <= i <= edges.Length
      invariant forall k :: 0 <= k < i ==> edges[k] == Oriented(nodes, old(edges[k]))
      invariant forall k :: i <= k < edges.Length ==> edges[k] == old(edges[k])
    {
      var e := edges[i];
      if RunsUphill(nodes, e) {
        edges[i] := Edge(e.edgeId, e.endNode, e.startNode);
      }
      i := i + 1;
    }
    forall k | 0 <= k < edges.Length
      ensures !RunsUphill(nodes, edges[k])
    {
      OrientedSpec(nodes, old(edges[k]));
    }
  }
}
