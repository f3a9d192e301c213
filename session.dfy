/**
 * The state the DbmlRenderer component keeps between renders: the measured
 * table sizes, the edges currently animated, and the published nodes and
 * edges, with the setters that replace them.
 */
module Session {
  import opened Prelude
  import opened Dbml
  import opened Ids
  import opened Renderer

  /** The ids of the given edges, in their order. */
  function IdsOf(es: seq<Edge>): (ids: seq<string>)
    ensures |ids| == |es| && forall k :: 0 <= k < |es| ==> ids[k] == es[k].id
  {
    seq(|es|, k requires 0 <= k < |es| => es[k].id)
  }

  /** The edges whose id is not among `ids`, in their original order. */
  function WithoutIds(prev: seq<Edge>, ids: seq<string>): seq<Edge>
  {
    if prev == [] then []
    else (if prev[0].id in ids then [] else [prev[0]]) + WithoutIds(prev[1..], ids)
  }

  /**
   * The filter drops every copy of an edge whose id is listed and keeps every
   * copy of any other edge, no more and no fewer.
   */
  lemma {:induction false} WithoutIdsCounts(prev: seq<Edge>, ids: seq<string>, e: Edge)
    ensures multiset(WithoutIds(prev, ids))[e] == if e.id in ids then 0 else multiset(prev)[e]
  {
    if prev != [] {
      WithoutIdsCounts(prev[1..], ids, e);
      assert prev == [prev[0]] + prev[1..];
    }
  }

  /** The filter works element by element, so it keeps the survivors in their original order. */
  lemma {:induction false} WithoutIdsAppend(a: seq<Edge>, b: seq<Edge>, ids: seq<string>)
    ensures WithoutIds(a + b, ids) == WithoutIds(a, ids) + WithoutIds(b, ids)
  {
    if a == [] {
      assert a + b == b;
    } else {
      assert (a + b)[0] == a[0];
      assert (a + b)[1..] == a[1..] + b;
      WithoutIdsAppend(a[1..], b, ids);
    }
  }

  /** No survivor of the filter carries a listed id. */
  lemma {:induction false} WithoutIdsHasNoListedId(prev: seq<Edge>, ids: seq<string>, id: string)
    requires id in ids
    ensures !AnyHasId(WithoutIds(prev, ids), id)
  {
    if prev != [] {
      WithoutIdsHasNoListedId(prev[1..], ids, id);
      var rest := WithoutIds(prev[1..], ids);
      var head := if prev[0].id in ids then [] else [prev[0]];
      assert forall k :: 0 <= k < |rest| ==> (head + rest)[k + |head|] == rest[k];
    }
  }

  /** After the animated list gains some edges, the builder animates every relationship among them. */
  lemma AddedEdgesAnimated(prev: seq<Edge>, added: seq<Edge>, r: Ref)
    requires RefWellFormed(r)
    requires RelationId(r) in IdsOf(added)
    ensures RefEdge(prev + added, r).animated
  {
    var k :| 0 <= k < |added| && IdsOf(added)[k] == RelationId(r);
    assert (prev + added)[|prev| + k] == added[k];
  }

  /** After some edges leave the animated list, the builder animates none of their relationships. */
  lemma RemovedEdgesNotAnimated(prev: seq<Edge>, removed: seq<Edge>, r: Ref)
    requires RefWellFormed(r)
    requires RelationId(r) in IdsOf(removed)
    ensures !RefEdge(WithoutIds(prev, IdsOf(removed)), r).animated
  {
    WithoutIdsHasNoListedId(prev, IdsOf(removed), RelationId(r));
  }

  /** The component's state. */
  class DiagramSession {
    var tableSizes: map<string, Dimension>
    var animatedEdges: seq<Edge>
    var nodes: seq<Node>
    var edges: seq<Edge>

    constructor ()
      ensures tableSizes == map[] && animatedEdges == [] && nodes == [] && edges == []
    {
      tableSizes := map[];
      animatedEdges := [];
      nodes := [];
      edges := [];
    }

    /** setTable: record a measured size, replacing any earlier one for that id. */
    method SetTable(id: string, dimension: Dimension)
      modifies this`tableSizes
      ensures tableSizes == old(tableSizes)[id := dimension]
      ensures forall other :: other != id ==> (other in tableSizes <==> other in old(tableSizes))
      ensures forall other :: other != id && other in tableSizes ==> tableSizes[other] == old(tableSizes)[other]
    {
      tableSizes := tableSizes[id := dimension];
    }

    /** addAnimatedEdges: append, duplicates allowed. */
    method AddAnimatedEdges(added: seq<Edge>)
      modifies this`animatedEdges
      ensures animatedEdges == old(animatedEdges) + added
    {
      animatedEdges := animatedEdges + added;
    }

    /** removeAnimatedEdges: drop every animated edge whose id is among the given edges' ids. */
    method RemoveAnimatedEdges(removed: seq<Edge>)
      modifies this`animatedEdges
      ensures animatedEdges == WithoutIds(old(animatedEdges), IdsOf(removed))
    {
      var ids := IdsOf(removed);
      animatedEdges := WithoutIds(animatedEdges, ids);
    }

    /**
     * The relayout effect. With no parsed database the nodes are cleared and
     * the edges left as they were; otherwise nodes and edges are replaced by
     * the laid-out graph. The size map is only read: fallback sizes are never
     * written back.
     */
    method Relayout(database: Option<Database>, layout: LayoutGraph -> map<string, Position>)
      requires database.Some? ==> WellFormed(database.value)
      requires PlacesEveryNode(layout)
      modifies this`nodes, this`edges
      ensures tableSizes == old(tableSizes) && animatedEdges == old(animatedEdges)
      ensures database.None? ==> nodes == [] && edges == old(edges)
      ensures database.Some? ==>
                var published := Pipeline(database.value, tableSizes, animatedEdges, layout);
                nodes == published.nodes && edges == published.edges
    {
      if database.None? {
        nodes := [];
        return;
      }
      var built := CreateNodesAndEdges(database.value, tableSizes, animatedEdges);
      var layouted := GetLayoutedElements(tableSizes, built.nodes, built.edges, layout);
      nodes := layouted.nodes;
      edges := layouted.edges;
    }
  }
}
