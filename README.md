# react-dbml-renderer diagram pipeline, in Dafny

This project models the core of react-dbml-renderer, a React component that draws a parsed DBML
schema as a node-and-edge diagram. It covers:

- **Builder** (`createNodesAndEdges`). It turns every table into a node named `table-<id>` and every
  relationship into an edge named `relation-<schema id>-<ref id>`. The edge joins the tables of the
  first field of each endpoint, through connection points `field-<id>-source` and
  `field-<id>-target`. Measured sizes come from the size map, and an edge is animated when the
  animated list holds its id.
- **Layout post-processing** (`getLayoutedElements`). The layout graph receives measured sizes or
  the 172 x 36 fallback. Positions are copied back from the layout engine onto the nodes. The
  anchor pass then appends `-left`/`-right` to both handles of every edge by comparing the x of its
  two end nodes; equal x goes to source-left.
- **Component state** (`DiagramSession`). It holds the size map, the animated edges and the
  published nodes and edges. Its methods are `setTable`, `addAnimatedEdges`,
  `removeAnimatedEdges` and the relayout effect.
- **Field rows** (both copies of `Field.tsx`). A row picks the edges whose handles carry its
  `field-<id>-` prefix, takes the source handle when it carries the prefix and the target handle
  otherwise, and decodes it with `/field-\d+-(source|target)-(left|right)/`. It draws the
  connection point on the decoded side with the chosen endpoint's cardinality marker. In the
  application's copy only, the row is also highlighted when one of its edges is animated; the
  package's copy has no highlight.

Modules: `Prelude` (Option, prefix test), `Decimal` (decimal rendering of ids), `Dbml` (the
parser's model), `Ids` (src/utils/ids.ts), `Renderer` and `Session` (src/DbmlRenderer.tsx),
`FieldHandles` (src/components/Field/Field.tsx), `PackageField` (the package's Field.tsx).

The layout engine (dagre) is a parameter `layout: LayoutGraph -> map<string, Position>`. It is
required only to place every node id of the graph it is given. The parser's result is an
`Option<Database>` passed to `Relayout`.

Three behaviours of the code that a reader might not expect, and that the model keeps:
- An endpoint with no fields is not dropped. `fields[0]` is destructured unguarded, so the model
  requires every endpoint to have a field (`WellFormed`).
- On a parse failure only the nodes are cleared; the published edges stay as they were.
- An edge with a missing end node keeps its unsuffixed handles. A field then draws it with no role,
  on the right, and with the source endpoint's marker even when it is the target field
  (`PipelineHandleRendered`).

## Model

| member | source | states |
|---|---|---|
| Decimal.NatToString | src/utils/ids.ts:5 | a number renders as a non-empty string of decimal digits |
| Decimal.StringToNatOfNatToString | src/utils/ids.ts:5 | reading the rendered digits back gives the number |
| Decimal.NatToStringInjective | src/utils/ids.ts:5 | two numbers render alike iff they are equal |
| Decimal.SplitAtDash | src/utils/ids.ts:10 | `<digits>-<rest>` splits at its first dash in exactly one way |
| Ids.TableId | src/utils/ids.ts:4-6 | a table id is `table-` followed by digits that read back as the table's id |
| Ids.RelationId | src/utils/ids.ts:8-11 | a relation id starts with `relation-` |
| Ids.TableIdInjective | src/utils/ids.ts:4-6 | two tables get the same node id iff their numeric ids are equal |
| Ids.RelationIdInjective | src/utils/ids.ts:8-11 | two refs get the same edge id iff their schema ids and ref ids are equal |
| Ids.TableAndRelationIdsDiffer | src/utils/ids.ts:4-11 | a node id never equals an edge id |
| Renderer.AnyHasId | src/DbmlRenderer.tsx:86 | the `some` test holds iff some listed edge has the id |
| Renderer.BuildFrom | src/DbmlRenderer.tsx:63-109 | the fold yields, in order, the node of every table and the edge of every ref of all schemas |
| Renderer.CreateNodesAndEdges | src/DbmlRenderer.tsx:61-114 | node count = table count, edge count = ref count; each node has its table's id, type "table", is draggable, sits at the origin, and width/height exactly when its id is measured; each edge has the ref's id, the end tables of the endpoints' first fields, `field-<id>-source`/`-target` handles, and is animated iff an animated edge has its id |
| Renderer.BuildLayoutGraph | src/DbmlRenderer.tsx:117-136 | the setNode/setEdge loops fill exactly the layout graph of the nodes and edges |
| Renderer.LayoutGraphContents | src/DbmlRenderer.tsx:120-136 | the layout graph is TB with 150/150 spacing; every node id is present with its measured size or exactly 172 x 36; its edges are exactly the (source, target) pairs |
| Renderer.PositionNodes | src/DbmlRenderer.tsx:140-152 | same number of nodes; each equals its input except for the position, which is the one the layout gave its id |
| Renderer.FindNode | src/DbmlRenderer.tsx:153-155 | absent iff no node has the id; otherwise the first node with that id |
| Renderer.ResolveAnchors | src/DbmlRenderer.tsx:156-178 | same number of edges in the same order; each differs from its input at most in its two handles |
| Renderer.AnchorSides | src/DbmlRenderer.tsx:157-177 | with an end node missing the edge is unchanged; otherwise each handle gets exactly one suffix, the sides are opposite, and the source side is left iff source x >= target x |
| Renderer.GetLayoutedElements | src/DbmlRenderer.tsx:115-183 | every node gets a position, nodes are the position copy of the layout's output, and edges are the anchor pass over the positioned nodes |
| Renderer.PipelineShape | src/DbmlRenderer.tsx:189-196 | a relayout publishes one node per table (the builder's node but for position) and, per ref, the builder's edge after the anchor pass |
| Session.WithoutIdsCounts | src/DbmlRenderer.tsx:228-233 | the filter drops every copy of an edge whose id is listed and keeps every copy of any other |
| Session.WithoutIdsAppend | src/DbmlRenderer.tsx:230-232 | the filter distributes over concatenation, so survivors keep their order |
| Session.WithoutIdsHasNoListedId | src/DbmlRenderer.tsx:231 | no survivor carries a listed id |
| Session.AddedEdgesAnimated | src/DbmlRenderer.tsx:225-227 | after edges are added, the builder animates every ref among them |
| Session.RemovedEdgesNotAnimated | src/DbmlRenderer.tsx:228-233 | after edges are removed, the builder animates none of their refs |
| Session.DiagramSession.constructor | src/DbmlRenderer.tsx:44-60 | the state starts with no sizes, no animated edges, no nodes and no edges |
| Session.DiagramSession.SetTable | src/DbmlRenderer.tsx:213-222 | the size map becomes `old[id := d]`; every other entry is unchanged |
| Session.DiagramSession.AddAnimatedEdges | src/DbmlRenderer.tsx:225-227 | the animated list becomes the old list followed by the given edges, duplicates kept |
| Session.DiagramSession.RemoveAnimatedEdges | src/DbmlRenderer.tsx:228-233 | the animated list becomes the old list without the entries whose id is among the given edges' ids |
| Session.DiagramSession.Relayout | src/DbmlRenderer.tsx:184-197 | with no database the nodes become empty and the edges stay; otherwise both become the pipeline's output; the size map and animated list are never written |
| FieldHandles.ConnectedEdges | src/components/Field/Field.tsx:39-44 | keeps every copy of each edge one of whose handles starts with `field-<id>-`, and no other edge |
| FieldHandles.ConnectedEdgesAppend | src/components/Field/Field.tsx:39-44 | the filter distributes over concatenation, so the connected edges keep the input's order |
| FieldHandles.Highlighted | src/components/Field/Field.tsx:81-85 | holds iff some animated edge and some connected edge share an id |
| FieldHandles.FieldView | src/components/Field/Field.tsx:39-85 | one entry per connected edge, none without a ref; each handle is the edge's source handle when that carries the field's prefix and its target handle otherwise, its role is the decoded role, its side is left only when decoded left, its marker is the target endpoint's iff the role is Target; highlight as above |
| FieldHandles.HandlePrefixIdentifiesField | src/components/Field/Field.tsx:39-44 | a handle built for field g, with any suffix, carries field f's prefix iff g = f |
| FieldHandles.DigitRunEndAt | src/components/Field/Field.tsx:50-54 | the `\d+` run of the handle pattern ends exactly at the first non-digit |
| FieldHandles.DecodeRoundTrip | src/components/Field/Field.tsx:50-54 | `field-<n>-<role>-<side>` decodes to exactly (role, side) |
| FieldHandles.DecodeUnsided | src/components/Field/Field.tsx:54 | a handle without a side suffix does not match |
| FieldHandles.PipelineEdgeConnected | src/components/Field/Field.tsx:39-44 | a resolved pipeline edge is connected to field f iff f is the first field of one of its endpoints |
| FieldHandles.PipelineHandleRendered | src/components/Field/Field.tsx:49-71 | for a resolved pipeline edge the source field draws the source handle (Source, the anchor side, source marker), the target field the target handle (Target, opposite side, target marker); unresolved handles draw no role, Right, source marker |
| FieldHandles.HoverHighlights | src/components/Field/Field.tsx:74-85 | adding a field's non-empty connected edges to the animated list highlights it |
| FieldHandles.UnhoverClears | src/components/Field/Field.tsx:74-85 | removing a field's connected edges from the animated list clears its highlight |
| PackageField.Handles | packages/react-dbml-renderer/src/components/Field/Field.tsx:29-53 | one entry per connected edge, none without a ref; each handle is keyed by its edge, is the source handle when that carries the prefix and the target handle otherwise; an undecodable id gives no role, Right and the source marker |
| PackageField.SameHandlesAsApplication | packages/react-dbml-renderer/src/components/Field/Field.tsx:33-53 | the package copy draws exactly the handles the application's copy draws |

## Left out

- dagre's layout algorithm (ranking, crossing minimisation, non-overlap) is external. The model
  assumes only that it places every node it is given, and makes no claim about positions.
- DBML parsing (`Parser.parse`) is external; its outcome is the `Option<Database>` given to `Relayout`.
- Positions are integers. JavaScript numbers are floating point, so the NaN case, where neither
  branch of the anchor comparison fires, is not modelled.
- `NatToString` renders every natural number in plain decimal. JavaScript switches to exponent
  notation from 10^21; parser ids never get that large.
- Handles are plain strings because the builder always sets them. The `?.` guards for
  undefined handles are not modelled.
- The DOM measurement in Table.tsx is not modelled; it appears only as calls to `SetTable`.
- React scheduling is not modelled: `useMemo`/`useCallback` dependencies, batching of state
  updates, and the coalescing of relayout triggers.
- The hover state and its effect in both Field.tsx copies are UI events. The lemmas
  `HoverHighlights`/`UnhoverClears` state only what the resulting add/remove calls do to the highlight.
- Styling is not modelled (`className`, `clsx`, the Relation component's CSS lookup), and neither
  are the JSX of the other components, the commented-out `fitView`, the context declarations or
  the build configuration.
