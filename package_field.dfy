/**
 * The Field component of the published package
 * (packages/react-dbml-renderer/src/components/Field/Field.tsx): the same
 * prefix filter and handle decoding as the application's copy, without the
 * highlight.
 */
module PackageField {
  import opened Prelude
  import opened Renderer
  import opened FieldHandles

  /**
   * The handles the package's field row draws: one entry per connected edge
   * in edge order, nothing for an edge without a relationship, and each drawn
   * handle keyed by its edge and carrying the field's own prefix, taken from
   * the source handle when that carries it and from the target handle
   * otherwise; a handle id
   * that does not decode is drawn with no role, on the right, with the
   * source endpoint's marker.
   */
  function Handles(fieldId: nat, edges: seq<Edge>): (r: seq<Option<HandleView>>)
    ensures var connected := ConnectedEdges(fieldId, edges);
            && |r| == |connected|
            && forall i :: 0 <= i < |connected| ==>
                 && (r[i].None? <==> connected[i].ref.None?)
                 && (r[i].Some? ==>
                       && r[i].value.key == connected[i].id
                       && StartsWith(r[i].value.id, HandlePrefix(fieldId))
                       && r[i].value.id == (if StartsWith(connected[i].sourceHandle, HandlePrefix(fieldId))
                                            then connected[i].sourceHandle else connected[i].targetHandle)
                       && (MatchHandle(r[i].value.id).None? ==>
                             r[i].value.role.None? && r[i].value.side == Right
                             && r[i].value.relation == connected[i].ref.value.endpoints.0.relation))
  {
    var connected := ConnectedEdges(fieldId, edges);
    forall i | 0 <= i < |connected| ensures IsConnected(fieldId, connected[i]) {
      assert multiset(connected)[connected[i]] > 0;
    }
    seq(|connected|, i requires 0 <= i < |connected| => RenderHandle(fieldId, connected[i]))
  }

  /** The package copy draws exactly the handles the application's copy draws. */
  lemma SameHandlesAsApplication(fieldId: nat, edges: seq<Edge>, animated: seq<Edge>)
    ensures Handles(fieldId, edges) == FieldView(fieldId, edges, animated).handles
  {
  }
}
