/**
 * The diagram pipeline of src/DbmlRenderer.tsx: the schema-to-graph builder,
 * the layout graph handed to the layered layout engine, and the anchor pass
 * that gives each connection point a side.
 */
module Renderer {
  import opened Prelude
  import opened Decimal
  import opened Dbml
  import opened Ids

  /** Fallback size of a node that has not been measured yet. */
  const NodeWidth := 172
  const NodeHeight := 36

  datatype Dimension = Dimension(width: int, height: int)

  /** Positions are whole numbers here (the layout engine's are floating point). */
  datatype Position = Position(x: int, y: int)

  /** A diagram node drawn for one table; `kind` is the React Flow node type. */
  datatype Node = Node(id: string, kind: string, width: Option<int>, height: Option<int>,
                       position: Position, table: Table, draggable: bool)

  /** A diagram edge drawn for one relationship; `kind` is the React Flow edge type. */
  datatype Edge = Edge(id: string, source: string, target: string,
                       sourceHandle: string, targetHandle: string,
                       kind: string, ref: Option<Ref>, animated: bool)

  datatype NodesEdges = NodesEdges(nodes: seq<Node>, edges: seq<Edge>)

  /** Which end of an edge a connection point serves, and which side of its node it sits on. */
  datatype Role = Source | Target
  datatype Side = Left | Right

  function RoleName(role: Role): string
  {
    match role
    case Source => "source"
    case Target => "target"
  }

  function SideName(side: Side): string
  {
    match side
    case Left => "left"
    case Right => "right"
  }

  function Opposite(side: Side): Side
  {
    match side
    case Left => Right
    case Right => Left
  }

  /** `field-<field id>-<source|target>`: the connection point the builder gives an edge end. */
  function ConnectionPoint(fieldId: nat, role: Role): string
  {
    "field-" + NatToString(fieldId) + "-" + RoleName(role)
  }

  /** `<handle>-<left|right>`: a connection point after the anchor pass. */
  function WithSide(handle: string, side: Side): string
  {
    handle + "-" + SideName(side)
  }

  /** The side the anchor rule gives the source end: left unless the source lies strictly left of the target. */
  function SourceSide(sourceX: int, targetX: int): Side
  {
    if sourceX >= targetX then Left else Right
  }

  // ---------------------------------------------------------------------------
  // Schema graph builder (createNodesAndEdges)
  // ---------------------------------------------------------------------------

  /** Whether some edge of the list has the given id. */
  function AnyHasId(es: seq<Edge>, id: string): (b: bool)
    ensures b <==> exists i :: 0 <= i < |es| && es[i].id == id
  {
    if es == [] then false
    else if es[0].id == id then true
    else
      var b := AnyHasId(es[1..], id);
      assert forall i :: 1 <= i < |es| ==> es[i] == es[1..][i - 1];
      b
  }

  function TableNode(sizes: map<string, Dimension>, t: Table): Node
  {
    var id := TableId(t);
    Node(id, "table",
         if id in sizes then Some(sizes[id].width) else None,
         if id in sizes then Some(sizes[id].height) else None,
         Position(0, 0), t, true)
  }

  function RefEdge(animated: seq<Edge>, r: Ref): Edge
    requires RefWellFormed(r)
  {
    var source := r.endpoints.0.fields[0];
    var target := r.endpoints.1.fields[0];
    var id := RelationId(r);
    Edge(id, TableId(source.table), TableId(target.table),
         ConnectionPoint(source.id, Source), ConnectionPoint(target.id, Target),
         "step", Some(r), AnyHasId(animated, id))
  }

  /** The node of each table, in order. */
  function TableNodes(sizes: map<string, Dimension>, ts: seq<Table>): seq<Node>
  {
    seq(|ts|, i requires 0 <= i < |ts| => TableNode(sizes, ts[i]))
  }

  /** Every relationship has a field on each side. */
  predicate RefsWellFormed(rs: seq<Ref>)
  {
    forall j :: 0 <= j < |rs| ==> RefWellFormed(rs[j])
  }

  /** The edge of each relationship, in order. */
  function RefEdges(animated: seq<Edge>, rs: seq<Ref>): seq<Edge>
    requires RefsWellFormed(rs)
  {
    seq(|rs|, j requires 0 <= j < |rs| => RefEdge(animated, rs[j]))
  }

  lemma TableNodesAppend(sizes: map<string, Dimension>, a: seq<Table>, b: seq<Table>)
    ensures TableNodes(sizes, a + b) == TableNodes(sizes, a) + TableNodes(sizes, b)
  {
    var l, x, y := TableNodes(sizes, a + b), TableNodes(sizes, a), TableNodes(sizes, b);
    assert |l| == |x + y|;
    forall i | 0 <= i < |l| ensures l[i] == (x + y)[i] {
      if i < |a| {
        assert (a + b)[i] == a[i];
        assert (x + y)[i] == x[i];
      } else {
        assert (a + b)[i] == b[i - |a|];
        assert (x + y)[i] == y[i - |a|];
      }
    }
  }

  lemma RefsWellFormedAppend(a: seq<Ref>, b: seq<Ref>)
    requires RefsWellFormed(a) && RefsWellFormed(b)
    ensures RefsWellFormed(a + b)
  {
    forall j | 0 <= j < |a + b| ensures RefWellFormed((a + b)[j]) {
      if j < |a| {
        assert (a + b)[j] == a[j];
      } else {
        assert (a + b)[j] == b[j - |a|];
      }
    }
  }

  lemma RefEdgesAppend(animated: seq<Edge>, a: seq<Ref>, b: seq<Ref>)
    requires RefsWellFormed(a) && RefsWellFormed(b)
    ensures RefsWellFormed(a + b)
    ensures RefEdges(animated, a + b) == RefEdges(animated, a) + RefEdges(animated, b)
  {
    RefsWellFormedAppend(a, b);
    var l, x, y := RefEdges(animated, a + b), RefEdges(animated, a), RefEdges(animated, b);
    assert |l| == |x + y|;
    forall j | 0 <= j < |l| ensures l[j] == (x + y)[j] {
      if j < |a| {
        assert (a + b)[j] == a[j];
        assert (x + y)[j] == x[j];
      } else {
        assert (a + b)[j] == b[j - |a|];
        assert (x + y)[j] == y[j - |a|];
      }
    }
  }

  /**
   * The `reduce` over the schemas: the graph of all schemas but the last,
   * extended by the nodes and edges of the last one. The fold yields the
   * nodes of all tables and the edges of all relationships, schema by schema.
   */
  function BuildFrom(schemas: seq<Schema>, sizes: map<string, Dimension>, animated: seq<Edge>): (g: NodesEdges)
    requires SchemasWellFormed(schemas)
    ensures g.nodes == TableNodes(sizes, AllTables(schemas))
    ensures RefsWellFormed(AllRefs(schemas))
    ensures g.edges == RefEdges(animated, AllRefs(schemas))
    decreases |schemas|
  {
    if schemas == [] then NodesEdges([], [])
    else
      var init, last := schemas[..|schemas| - 1], schemas[|schemas| - 1];
      InitAndLastWellFormed(schemas);
      var acc := BuildFrom(init, sizes, animated);
      assert schemas == init + [last];
      AllTablesSnoc(init, last);
      AllRefsSnoc(init, last);
      TableNodesAppend(sizes, AllTables(init), last.tables);
      RefEdgesAppend(animated, AllRefs(init), last.refs);
      NodesEdges(acc.nodes + TableNodes(sizes, last.tables), acc.edges + RefEdges(animated, last.refs))
  }

  lemma InitAndLastWellFormed(schemas: seq<Schema>)
    requires SchemasWellFormed(schemas) && schemas != []
    ensures SchemasWellFormed(schemas[..|schemas| - 1])
    ensures RefsWellFormed(schemas[|schemas| - 1].refs)
  {
    var init := schemas[..|schemas| - 1];
    forall i, j | 0 <= i < |init| && 0 <= j < |init[i].refs| ensures RefWellFormed(init[i].refs[j]) {
      assert init[i] == schemas[i];
    }
  }

  /**
   * What the builder promises about the node of table `t`: named after the
   * table, of kind "table", at the origin, with the measured size of its id
   * when the size map has one and no size otherwise.
   */
  predicate NodeOfTable(sizes: map<string, Dimension>, t: Table, n: Node)
  {
    && n.id == TableId(t) && n.kind == "table" && n.table == t && n.draggable
    && n.position == Position(0, 0)
    && (n.width.Some? <==> TableId(t) in sizes)
    && (n.height.Some? <==> TableId(t) in sizes)
    && (TableId(t) in sizes ==>
          n.width == Some(sizes[TableId(t)].width) && n.height == Some(sizes[TableId(t)].height))
  }

  /**
   * What the builder promises about the edge of relationship `r`: named after
   * it, carrying it, of kind "step", joining the tables of the first field of
   * each endpoint through `field-<id>-source` / `field-<id>-target`, and
   * animated exactly when some animated edge has its id.
   */
  predicate EdgeOfRef(animated: seq<Edge>, r: Ref, e: Edge)
  {
    && RefWellFormed(r)
    && e.id == RelationId(r) && e.ref == Some(r) && e.kind == "step"
    && e.source == TableId(r.endpoints.0.fields[0].table)
    && e.target == TableId(r.endpoints.1.fields[0].table)
    && e.sourceHandle == "field-" + NatToString(r.endpoints.0.fields[0].id) + "-source"
    && e.targetHandle == "field-" + NatToString(r.endpoints.1.fields[0].id) + "-target"
    && (e.animated <==> exists i :: 0 <= i < |animated| && animated[i].id == RelationId(r))
  }

  lemma TableNodeShape(sizes: map<string, Dimension>, t: Table)
    ensures NodeOfTable(sizes, t, TableNode(sizes, t))
  {
  }

  lemma RefEdgeShape(animated: seq<Edge>, r: Ref)
    requires RefWellFormed(r)
    ensures EdgeOfRef(animated, r, RefEdge(animated, r))
  {
  }

  /**
   * createNodesAndEdges: one node per table and one edge per relationship, in
   * schema order. Each node is named after its table, sits at the origin, and
   * carries the measured size of its id when the size map has one. Each edge
   * is named after its relationship, joins the tables of the first field of
   * each endpoint through `field-<id>-source` / `field-<id>-target`, and is
   * animated exactly when an animated edge has its id.
   */
  function CreateNodesAndEdges(db: Database, sizes: map<string, Dimension>, animated: seq<Edge>): (g: NodesEdges)
    requires WellFormed(db)
    ensures |g.nodes| == |AllTables(db.schemas)| == TableCount(db.schemas)
    ensures |g.edges| == |AllRefs(db.schemas)| == RefCount(db.schemas)
    ensures forall k :: 0 <= k < |g.nodes| ==> NodeOfTable(sizes, AllTables(db.schemas)[k], g.nodes[k])
    ensures forall k :: 0 <= k < |g.edges| ==> EdgeOfRef(animated, AllRefs(db.schemas)[k], g.edges[k])
  {
    AllCounts(db.schemas);
    var g := BuildFrom(db.schemas, sizes, animated);
    forall k | 0 <= k < |g.nodes| ensures NodeOfTable(sizes, AllTables(db.schemas)[k], g.nodes[k]) {
      TableNodeShape(sizes, AllTables(db.schemas)[k]);
    }
    forall k | 0 <= k < |g.edges| ensures EdgeOfRef(animated, AllRefs(db.schemas)[k], g.edges[k]) {
      RefEdgeShape(animated, AllRefs(db.schemas)[k]);
    }
    g
  }

  // ---------------------------------------------------------------------------
  // Layout graph and the layout engine's contract (getLayoutedElements)
  // ---------------------------------------------------------------------------

  /** The layout engine's settings: top-to-bottom ranks, 150 between nodes and between ranks. */
  datatype LayoutConfig = LayoutConfig(rankdir: string, nodesep: int, ranksep: int)

  const DagreConfig := LayoutConfig("TB", 50 * 3, 50 * 3)

  /** The graph handed to the layout engine: a size per node id and the directed (source, target) pairs. */
  datatype LayoutGraph = LayoutGraph(config: LayoutConfig, nodes: map<string, Dimension>, edges: set<(string, string)>)

  /** The size the layout engine is given for a node: its measured size, else the fallback. */
  function LayoutSize(sizes: map<string, Dimension>, id: string): Dimension
  {
    if id in sizes then sizes[id] else Dimension(NodeWidth, NodeHeight)
  }

  function NodeIds(nodes: seq<Node>): set<string>
  {
    set n | n in nodes :: n.id
  }

  function EdgePairs(edges: seq<Edge>): set<(string, string)>
  {
    set e | e in edges :: (e.source, e.target)
  }

  /** The graph the layout engine sees for the given nodes and edges. */
  function LayoutGraphOf(sizes: map<string, Dimension>, nodes: seq<Node>, edges: seq<Edge>): LayoutGraph
  {
    LayoutGraph(DagreConfig, map id | id in NodeIds(nodes) :: LayoutSize(sizes, id), EdgePairs(edges))
  }

  /** The layout engine places every node of every graph it is given. */
  ghost predicate PlacesEveryNode(layout: LayoutGraph -> map<string, Position>)
  {
    forall g: LayoutGraph, id: string :: id in g.nodes ==> id in layout(g)
  }

  /** Adding one node to the sized map built so far gives the sized map of one node more. */
  lemma SizedStep(sizes: map<string, Dimension>, ns: seq<Node>, n: Node)
    ensures (map id | id in NodeIds(ns) :: LayoutSize(sizes, id))[n.id := LayoutSize(sizes, n.id)]
            == map id | id in NodeIds(ns + [n]) :: LayoutSize(sizes, id)
  {
    assert NodeIds(ns + [n]) == NodeIds(ns) + {n.id};
  }

  /**
   * The loops that fill the layout graph: one node per node id with its
   * measured size, or the 172 x 36 fallback, and one (source, target) pair per
   * edge.
   */
  method BuildLayoutGraph(sizes: map<string, Dimension>, nodes: seq<Node>, edges: seq<Edge>) returns (g: LayoutGraph)
    ensures g == LayoutGraphOf(sizes, nodes, edges)
  {
    var sized: map<string, Dimension> := map[];
    var i := 0;
    while i < |nodes|
      invariant 0 <= i <= |nodes|
      invariant sized == map id | id in NodeIds(nodes[..i]) :: LayoutSize(sizes, id)
    {
      var id := nodes[i].id;
      var size := if id in sizes then sizes[id] else Dimension(NodeWidth, NodeHeight);
      sized := sized[id := size];
      assert nodes[..i + 1] == nodes[..i] + [nodes[i]];
      SizedStep(sizes, nodes[..i], nodes[i]);
      i := i + 1;
    }
    assert nodes[..i] == nodes;
    var pairs: set<(string, string)> := {};
    var j := 0;
    while j < |edges|
      invariant 0 <= j <= |edges|
      invariant pairs == EdgePairs(edges[..j])
    {
      pairs := pairs + {(edges[j].source, edges[j].target)};
      assert edges[..j + 1] == edges[..j] + [edges[j]];
      j := j + 1;
    }
    assert edges[..j] == edges;
    g := LayoutGraph(DagreConfig, sized, pairs);
  }

  /**
   * What the layout engine is given: every node id, with its measured size
   * where the size map has one and exactly 172 x 36 otherwise, and the
   * (source, target) pair of every edge; nothing else.
   */
  lemma LayoutGraphContents(sizes: map<string, Dimension>, nodes: seq<Node>, edges: seq<Edge>)
    ensures var g := LayoutGraphOf(sizes, nodes, edges);
            && g.config == LayoutConfig("TB", 150, 150)
            && (forall k :: 0 <= k < |nodes| ==>
                  && nodes[k].id in g.nodes
                  && (nodes[k].id in sizes ==> g.nodes[nodes[k].id] == sizes[nodes[k].id])
                  && (nodes[k].id !in sizes ==> g.nodes[nodes[k].id] == Dimension(172, 36)))
            && (forall id :: id in g.nodes ==> exists k :: 0 <= k < |nodes| && nodes[k].id == id)
            && (forall k :: 0 <= k < |edges| ==> (edges[k].source, edges[k].target) in g.edges)
            && (forall p :: p in g.edges ==> exists k :: 0 <= k < |edges| && p == (edges[k].source, edges[k].target))
  {
    var g := LayoutGraphOf(sizes, nodes, edges);
    forall id | id in g.nodes ensures exists k :: 0 <= k < |nodes| && nodes[k].id == id {
      var n :| n in nodes && n.id == id;
      var k :| 0 <= k < |nodes| && nodes[k] == n;
    }
    forall p | p in g.edges ensures exists k :: 0 <= k < |edges| && p == (edges[k].source, edges[k].target) {
      var e :| e in edges && p == (e.source, e.target);
      var k :| 0 <= k < |edges| && edges[k] == e;
    }
  }

  /** The position copy: each node takes the position the layout engine gave its id. */
  function PositionNodes(nodes: seq<Node>, positions: map<string, Position>): (r: seq<Node>)
    requires forall k :: 0 <= k < |nodes| ==> nodes[k].id in positions
    ensures |r| == |nodes|
    ensures forall k :: 0 <= k < |r| ==>
              r[k].position == positions[nodes[k].id] && r[k].(position := nodes[k].position) == nodes[k]
  {
    seq(|nodes|, k requires 0 <= k < |nodes| => nodes[k].(position := positions[nodes[k].id]))
  }

  /** The first node with the given id, if any. */
  function FindNode(nodes: seq<Node>, id: string): (r: Option<Node>)
    ensures r.None? <==> forall k :: 0 <= k < |nodes| ==> nodes[k].id != id
    ensures r.Some? ==> exists k :: 0 <= k < |nodes| && nodes[k] == r.value && r.value.id == id
                          && forall j :: 0 <= j < k ==> nodes[j].id != id
  {
    if nodes == [] then None
    else if nodes[0].id == id then Some(nodes[0])
    else
      var r := FindNode(nodes[1..], id);
      assert forall k :: 1 <= k < |nodes| ==> nodes[k] == nodes[1..][k - 1];
      if r.Some? then
        var k :| 0 <= k < |nodes[1..]| && nodes[1..][k] == r.value && r.value.id == id
                 && forall j :: 0 <= j < k ==> nodes[1..][j].id != id;
        assert nodes[k + 1] == r.value;
        r
      else r
  }

  /**
   * The anchor pass for one edge: an edge one of whose end nodes is missing
   * passes through unchanged; otherwise each handle gets a side suffix by
   * comparing the x of the two end nodes.
   */
  function ResolveAnchor(nodes: seq<Node>, e: Edge): Edge
  {
    var sourceNode := FindNode(nodes, e.source);
    var targetNode := FindNode(nodes, e.target);
    if sourceNode.None? || targetNode.None? then e
    else
      var sourceX := sourceNode.value.position.x;
      var targetX := targetNode.value.position.x;
      if sourceX >= targetX then
        e.(sourceHandle := WithSide(e.sourceHandle, Left), targetHandle := WithSide(e.targetHandle, Right))
      else if sourceX < targetX then
        e.(sourceHandle := WithSide(e.sourceHandle, Right), targetHandle := WithSide(e.targetHandle, Left))
      else e
  }

  /**
   * The anchor pass over all edges: same edges in the same order, each
   * keeping its id, ends, relationship and animation; only handles change.
   */
  function ResolveAnchors(nodes: seq<Node>, edges: seq<Edge>): (r: seq<Edge>)
    ensures |r| == |edges|
    ensures forall k :: 0 <= k < |r| ==>
              r[k].(sourceHandle := edges[k].sourceHandle, targetHandle := edges[k].targetHandle) == edges[k]
  {
    seq(|edges|, k requires 0 <= k < |edges| => ResolveAnchor(nodes, edges[k]))
  }

  /**
   * The side rule: when both end nodes exist, each handle gains exactly one
   * suffix, the two suffixes are opposite sides, and the source side is left
   * exactly when the source is not strictly left of the target (equal x goes
   * to source-left). A missing end node leaves the edge as it was.
   */
  lemma AnchorSides(nodes: seq<Node>, e: Edge)
    ensures var a := ResolveAnchor(nodes, e);
            var sn, tn := FindNode(nodes, e.source), FindNode(nodes, e.target);
            && (sn.None? || tn.None? ==> a == e)
            && (sn.Some? && tn.Some? ==>
                  exists side: Side ::
                    && a.sourceHandle == WithSide(e.sourceHandle, side)
                    && a.targetHandle == WithSide(e.targetHandle, Opposite(side))
                    && (side == Left <==> sn.value.position.x >= tn.value.position.x))
  {
    var sn, tn := FindNode(nodes, e.source), FindNode(nodes, e.target);
    if sn.Some? && tn.Some? {
      var side := SourceSide(sn.value.position.x, tn.value.position.x);
      var a := ResolveAnchor(nodes, e);
      assert a.sourceHandle == WithSide(e.sourceHandle, side);
      assert a.targetHandle == WithSide(e.targetHandle, Opposite(side));
    }
  }

  /**
   * getLayoutedElements: fills the layout graph, lets the layout engine place
   * it, copies the positions onto the nodes and resolves the anchors of the
   * edges against the positioned nodes.
   */
  method GetLayoutedElements(sizes: map<string, Dimension>, nodes: seq<Node>, edges: seq<Edge>,
                             layout: LayoutGraph -> map<string, Position>) returns (r: NodesEdges)
    requires PlacesEveryNode(layout)
    ensures var positions := layout(LayoutGraphOf(sizes, nodes, edges));
            && (forall k :: 0 <= k < |nodes| ==> nodes[k].id in positions)
            && r.nodes == PositionNodes(nodes, positions)
            && r.edges == ResolveAnchors(r.nodes, edges)
  {
    var g := BuildLayoutGraph(sizes, nodes, edges);
    var positions := layout(g);
    LayoutGraphContents(sizes, nodes, edges);
    var layouted := PositionNodes(nodes, positions);
    r := NodesEdges(layouted, ResolveAnchors(layouted, edges));
  }

  /** The whole pipeline: build the graph from the schema, then lay it out. */
  function Pipeline(db: Database, sizes: map<string, Dimension>, animated: seq<Edge>,
                    layout: LayoutGraph -> map<string, Position>): NodesEdges
    requires WellFormed(db)
    requires PlacesEveryNode(layout)
  {
    var built := CreateNodesAndEdges(db, sizes, animated);
    LayoutGraphContents(sizes, built.nodes, built.edges);
    var layouted := PositionNodes(built.nodes, layout(LayoutGraphOf(sizes, built.nodes, built.edges)));
    NodesEdges(layouted, ResolveAnchors(layouted, built.edges))
  }

  /**
   * What one relayout publishes: one node per table, named after it and
   * otherwise as the builder made it apart from its position, and one edge
   * per relationship, which is the builder's edge for it after the anchor
   * pass over the published nodes.
   */
  lemma PipelineShape(db: Database, sizes: map<string, Dimension>, animated: seq<Edge>,
                      layout: LayoutGraph -> map<string, Position>)
    requires WellFormed(db)
    requires PlacesEveryNode(layout)
    ensures var p := Pipeline(db, sizes, animated, layout);
            && |p.nodes| == TableCount(db.schemas)
            && |p.edges| == RefCount(db.schemas)
            && (forall k :: 0 <= k < |p.nodes| ==>
                  p.nodes[k].(position := Position(0, 0)) == TableNode(sizes, AllTables(db.schemas)[k]))
            && (forall k :: 0 <= k < |p.edges| ==>
                  RefWellFormed(AllRefs(db.schemas)[k])
                  && p.edges[k] == ResolveAnchor(p.nodes, RefEdge(animated, AllRefs(db.schemas)[k])))
  {
    var built := CreateNodesAndEdges(db, sizes, animated);
    AllCounts(db.schemas);
    var built' := BuildFrom(db.schemas, sizes, animated);
    assert built == built';
  }
}
