/**
 * The connection points a field row draws (src/components/Field/Field.tsx):
 * which edges touch the field, how a handle id is decoded back into a role
 * and a side, and when the row is highlighted.
 */
module FieldHandles {
  import opened Prelude
  import opened Decimal
  import opened Dbml
  import opened Renderer
  import opened Session

  /** `field-<field id>-`: every handle the builder makes for this field starts so. */
  function HandlePrefix(fieldId: nat): string
  {
    "field-" + NatToString(fieldId) + "-"
  }

  predicate IsConnected(fieldId: nat, e: Edge)
  {
    StartsWith(e.sourceHandle, HandlePrefix(fieldId)) || StartsWith(e.targetHandle, HandlePrefix(fieldId))
  }

  /** The edges one of whose handles carries the field's prefix, in order. */
  function KeepConnected(fieldId: nat, edges: seq<Edge>): seq<Edge>
  {
    if edges == [] then []
    else (if IsConnected(fieldId, edges[0]) then [edges[0]] else []) + KeepConnected(fieldId, edges[1..])
  }

  lemma {:induction false} KeepConnectedCounts(fieldId: nat, edges: seq<Edge>)
    ensures |KeepConnected(fieldId, edges)| <= |edges|
    ensures forall e :: multiset(KeepConnected(fieldId, edges))[e]
                        == if IsConnected(fieldId, e) then multiset(edges)[e] else 0
  {
    if edges != [] {
      KeepConnectedCounts(fieldId, edges[1..]);
      assert edges == [edges[0]] + edges[1..];
    }
  }

  lemma {:induction false} KeepConnectedAppend(fieldId: nat, a: seq<Edge>, b: seq<Edge>)
    ensures KeepConnected(fieldId, a + b) == KeepConnected(fieldId, a) + KeepConnected(fieldId, b)
    decreases |a|
  {
    if a == [] {
      assert a + b == b;
    } else {
      var head := if IsConnected(fieldId, a[0]) then [a[0]] else [];
      var restA, restB := KeepConnected(fieldId, a[1..]), KeepConnected(fieldId, b);
      assert (a + b)[0] == a[0] && (a + b)[1..] == a[1..] + b;
      KeepConnectedAppend(fieldId, a[1..], b);
      assert KeepConnected(fieldId, a + b) == head + (restA + restB);
      assert KeepConnected(fieldId, a) == head + restA;
      assert head + (restA + restB) == (head + restA) + restB;
    }
  }

  /**
   * connectedEdges: the edges one of whose handles carries the field's
   * prefix, each with as many copies as the input has.
   */
  function ConnectedEdges(fieldId: nat, edges: seq<Edge>): (r: seq<Edge>)
    ensures |r| <= |edges|
    ensures forall e :: multiset(r)[e] == if IsConnected(fieldId, e) then multiset(edges)[e] else 0
  {
    KeepConnectedCounts(fieldId, edges);
    KeepConnected(fieldId, edges)
  }

  /** The filter works edge by edge, so the connected edges keep the input's order. */
  lemma ConnectedEdgesAppend(fieldId: nat, a: seq<Edge>, b: seq<Edge>)
    ensures ConnectedEdges(fieldId, a + b) == ConnectedEdges(fieldId, a) + ConnectedEdges(fieldId, b)
  {
    KeepConnectedAppend(fieldId, a, b);
  }

  // ---------------------------------------------------------------------------
  // The pattern /field-\d+-(source|target)-(left|right)/, searched leftmost-first
  // ---------------------------------------------------------------------------

  /** The end of the run of digits that starts at `j`. */
  function DigitRunEnd(s: string, j: nat): (m: nat)
    requires j <= |s|
    ensures j <= m <= |s|
    ensures forall k :: j <= k < m ==> IsDigit(s[k])
    ensures m == |s| || !IsDigit(s[m])
    decreases |s| - j
  {
    if j < |s| && IsDigit(s[j]) then DigitRunEnd(s, j + 1) else j
  }

  /** The run of digits from `j` ends at the first non-digit after it. */
  lemma {:induction false} DigitRunEndAt(s: string, j: nat, e: nat)
    requires j <= e < |s|
    requires forall k :: j <= k < e ==> IsDigit(s[k])
    requires !IsDigit(s[e])
    ensures DigitRunEnd(s, j) == e
    decreases e - j
  {
    if j < e {
      DigitRunEndAt(s, j + 1, e);
    }
  }

  function RoleAt(s: string, i: nat): Option<Role>
  {
    if HasAt(s, i, "source") then Some(Source)
    else if HasAt(s, i, "target") then Some(Target)
    else None
  }

  function SideAt(s: string, i: nat): Option<Side>
  {
    if HasAt(s, i, "left") then Some(Left)
    else if HasAt(s, i, "right") then Some(Right)
    else None
  }

  /**
   * The pattern anchored at `i`. `\d+` can only be followed by `-` at the end
   * of the whole digit run, so backtracking into the run never helps; both
   * role words are six letters long.
   */
  function MatchAt(s: string, i: nat): Option<(Role, Side)>
  {
    if !HasAt(s, i, "field-") then None
    else
      var m := DigitRunEnd(s, i + 6);
      if m == i + 6 || !HasAt(s, m, "-") then None
      else match RoleAt(s, m + 1)
        case None => None
        case Some(role) =>
          if !HasAt(s, m + 7, "-") then None
          else match SideAt(s, m + 8)
            case None => None
            case Some(side) => Some((role, side))
  }

  function SearchFrom(s: string, i: nat): Option<(Role, Side)>
    decreases |s| - i
  {
    if i >= |s| then None
    else match MatchAt(s, i)
      case Some(found) => Some(found)
      case None => SearchFrom(s, i + 1)
  }

  /** The role and side captured by the leftmost match of the handle pattern, if any. */
  function MatchHandle(s: string): Option<(Role, Side)>
  {
    SearchFrom(s, 0)
  }

  // ---------------------------------------------------------------------------
  // The handles a field draws, and its highlight
  // ---------------------------------------------------------------------------

  /**
   * One drawn connection point: keyed by the edge id, named by the handle id,
   * with the decoded role (absent when the id did not match), the side
   * (right unless the id decoded to left) and the endpoint's cardinality marker.
   */
  datatype HandleView = HandleView(key: string, id: string, role: Option<Role>, side: Side, relation: string)

  /** The handle drawn for one connected edge; nothing for an edge without a relationship. */
  function RenderHandle(fieldId: nat, e: Edge): Option<HandleView>
  {
    var isSource := StartsWith(e.sourceHandle, HandlePrefix(fieldId));
    var handleId := if isSource then e.sourceHandle else e.targetHandle;
    var decoded := MatchHandle(handleId);
    match e.ref
    case None => None
    case Some(r) =>
      var role := if decoded.Some? then Some(decoded.value.0) else None;
      var endpoint := if role == Some(Target) then r.endpoints.1 else r.endpoints.0;
      var side := if decoded.Some? && decoded.value.1 == Left then Left else Right;
      Some(HandleView(e.id, handleId, role, side, endpoint.relation))
  }

  /** Whether some animated edge shares its id with some connected edge. */
  function Highlighted(animated: seq<Edge>, connected: seq<Edge>): (b: bool)
    ensures b <==> exists i, j :: 0 <= i < |animated| && 0 <= j < |connected| && animated[i].id == connected[j].id
  {
    if animated == [] then false
    else
      var b := AnyHasId(connected, animated[0].id) || Highlighted(animated[1..], connected);
      assert forall i :: 1 <= i < |animated| ==> animated[i] == animated[1..][i - 1];
      b
  }

  datatype FieldRender = FieldRender(handles: seq<Option<HandleView>>, highlighted: bool)

  /**
   * What a field row derives from the current edges and the animated list:
   * one entry per connected edge (nothing for an edge without a
   * relationship). Each drawn handle is the edge's source handle when that
   * carries the field's own prefix and its target handle otherwise; its role is the decoded role (none when
   * the id does not decode), its side is left only when the id decodes to
   * left, and its marker is the target endpoint's exactly when the role is
   * Target. The highlight is on exactly when a connected edge is animated.
   */
  function FieldView(fieldId: nat, edges: seq<Edge>, animated: seq<Edge>): (v: FieldRender)
    ensures var connected := ConnectedEdges(fieldId, edges);
            && |v.handles| == |connected|
            && (forall i :: 0 <= i < |connected| ==>
                  && (v.handles[i].None? <==> connected[i].ref.None?)
                  && (v.handles[i].Some? ==>
                        var h := v.handles[i].value;
                        var decoded := MatchHandle(h.id);
                        && h.key == connected[i].id
                        && StartsWith(h.id, HandlePrefix(fieldId))
                        && h.id == (if StartsWith(connected[i].sourceHandle, HandlePrefix(fieldId))
                                    then connected[i].sourceHandle else connected[i].targetHandle)
                        && (h.role.Some? <==> decoded.Some?)
                        && (decoded.Some? ==> h.role == Some(decoded.value.0))
                        && (h.side == Left <==> decoded.Some? && decoded.value.1 == Left)
                        && h.relation == if h.role == Some(Target) then connected[i].ref.value.endpoints.1.relation
                                         else connected[i].ref.value.endpoints.0.relation))
            && (v.highlighted <==> exists i, j :: 0 <= i < |animated| && 0 <= j < |connected|
                                                  && animated[i].id == connected[j].id)
  {
    var connected := ConnectedEdges(fieldId, edges);
    forall i | 0 <= i < |connected| ensures IsConnected(fieldId, connected[i]) {
      assert multiset(connected)[connected[i]] > 0;
    }
    FieldRender(seq(|connected|, i requires 0 <= i < |connected| => RenderHandle(fieldId, connected[i])),
                Highlighted(animated, connected))
  }

  // ---------------------------------------------------------------------------
  // Properties
  // ---------------------------------------------------------------------------

  /**
   * A handle built for field `g` (with or without a side suffix) carries the
   * prefix of field `f` exactly when g == f: the dash after the number stops
   * field 1 from claiming field 12's handles.
   */
  lemma HandlePrefixIdentifiesField(g: nat, role: Role, suffix: string, f: nat)
    ensures StartsWith(ConnectionPoint(g, role) + suffix, HandlePrefix(f)) <==> g == f
  {
    var h := ConnectionPoint(g, role) + suffix;
    var tail := RoleName(role) + suffix;
    assert h == HandlePrefix(g) + tail;
    if StartsWith(h, HandlePrefix(f)) {
      var rest := h[|HandlePrefix(f)|..];
      assert h == HandlePrefix(f) + rest;
      SamePrefixSameField(g, tail, f, rest);
    }
  }

  /** Two prefixed strings that are equal were built for the same field. */
  lemma SamePrefixSameField(g: nat, tail: string, f: nat, rest: string)
    requires HandlePrefix(g) + tail == HandlePrefix(f) + rest
    ensures g == f
  {
    var u := NatToString(g) + "-" + tail;
    var v := NatToString(f) + "-" + rest;
    assert HandlePrefix(g) + tail == "field-" + u;
    assert HandlePrefix(f) + rest == "field-" + v;
    assert u == ("field-" + u)[6..];
    assert v == ("field-" + v)[6..];
    SplitAtDash(NatToString(g), tail, NatToString(f), rest);
    NatToStringInjective(g, f);
  }

  /** Where the pieces of `field-<n>-<role>` lie. */
  lemma ConnectionPointLayout(fieldId: nat, role: Role)
    ensures var h, n := ConnectionPoint(fieldId, role), |NatToString(fieldId)|;
            && |h| == n + 13
            && HasAt(h, 0, "field-")
            && (forall k :: 6 <= k < 6 + n ==> IsDigit(h[k]))
            && h[6 + n] == '-'
            && HasAt(h, n + 7, RoleName(role))
            && (forall k :: 1 <= k < |h| ==> h[k] != 'f')
  {
    ConnectionPointPieces(fieldId, role);
    ConnectionPointNoF(fieldId, role);
  }

  lemma ConnectionPointPieces(fieldId: nat, role: Role)
    ensures var h, d, r := ConnectionPoint(fieldId, role), NatToString(fieldId), RoleName(role);
            && |h| == |d| + 13
            && (forall k :: 0 <= k < 6 ==> h[k] == "field-"[k])
            && (forall k :: 6 <= k < 6 + |d| ==> h[k] == d[k - 6])
            && h[6 + |d|] == '-'
            && (forall k :: 0 <= k < 6 ==> h[|d| + 7 + k] == r[k])
  {
    var d, r := NatToString(fieldId), RoleName(role);
    var a, b := "field-" + d, "-" + r;
    var h := ConnectionPoint(fieldId, role);
    assert h == a + b;
    forall k | 0 <= k < 6 ensures h[|d| + 7 + k] == r[k] {
      assert h[|d| + 7 + k] == b[k + 1];
    }
  }

  lemma ConnectionPointNoF(fieldId: nat, role: Role)
    ensures var h := ConnectionPoint(fieldId, role);
            forall k :: 1 <= k < |h| ==> h[k] != 'f'
  {
    ConnectionPointPieces(fieldId, role);
    var d, r := NatToString(fieldId), RoleName(role);
    var h := ConnectionPoint(fieldId, role);
    assert forall k :: 0 <= k < 6 ==> r[k] != 'f';
    forall k | 1 <= k < |h| ensures h[k] != 'f' {
      if k < 6 {
        assert h[k] == "field-"[k];
      } else if k < 6 + |d| {
        assert IsDigit(d[k - 6]);
      } else if k > 6 + |d| {
        assert h[|d| + 7 + (k - |d| - 7)] == r[k - |d| - 7];
      }
    }
  }

  /** The search finds nothing in a stretch that holds no `f`. */
  lemma {:induction false} SearchWithoutF(s: string, i: nat)
    requires forall k :: i <= k < |s| ==> s[k] != 'f'
    ensures SearchFrom(s, i) == None
    decreases |s| - i
  {
    if i < |s| {
      assert !HasAt(s, i, "field-") by {
        assert s[i] != "field-"[0];
      }
      SearchWithoutF(s, i + 1);
    }
  }

  /** Where the pieces of `<handle>-<side>` lie. */
  lemma WithSideLayout(h: string, side: Side)
    ensures var s := WithSide(h, side);
            && s[..|h|] == h
            && HasAt(s, |h|, "-")
            && SideAt(s, |h| + 1) == Some(side)
  {
    var s, t := WithSide(h, side), SideName(side);
    assert s == h + ("-" + t);
    assert |s| == |h| + 1 + |t|;
    assert s[..|h|] == h;
    assert s[|h|..|h| + 1] == "-";
    assert s[|h| + 1..] == t;
    match side
    case Left =>
      assert s[|h| + 1..|h| + 5] == s[|h| + 1..];
    case Right =>
      assert s[|h| + 1..|h| + 5][0] == 'r';
      assert s[|h| + 1..|h| + 6] == s[|h| + 1..];
  }

  lemma RoleAtName(s: string, i: nat, role: Role)
    requires HasAt(s, i, RoleName(role))
    ensures RoleAt(s, i) == Some(role)
  {
    assert s[i] == RoleName(role)[0];
  }

  /**
   * Decoding inverts the anchor pass's encoding: a handle
   * `field-<n>-<role>-<side>` yields exactly (role, side).
   */
  lemma DecodeRoundTrip(fieldId: nat, role: Role, side: Side)
    ensures MatchHandle(WithSide(ConnectionPoint(fieldId, role), side)) == Some((role, side))
  {
    var h := ConnectionPoint(fieldId, role);
    var s := WithSide(h, side);
    var n := |NatToString(fieldId)|;
    ConnectionPointLayout(fieldId, role);
    WithSideLayout(h, side);
    assert forall k :: 0 <= k < |h| ==> s[k] == h[k];
    assert HasAt(s, 0, "field-") by {
      assert s[0..6] == h[0..6];
    }
    assert s[6 + n] == '-';
    DigitRunEndAt(s, 6, 6 + n);
    assert HasAt(s, 6 + n, "-") by {
      assert s[6 + n..7 + n] == h[6 + n..7 + n];
    }
    assert HasAt(s, n + 7, RoleName(role)) by {
      assert s[n + 7..n + 13] == h[n + 7..n + 13];
    }
    RoleAtName(s, n + 7, role);
    assert MatchAt(s, 0) == Some((role, side));
  }

  /** A handle without a side suffix does not match, so its role is undefined and its side Right. */
  lemma DecodeUnsided(fieldId: nat, role: Role)
    ensures MatchHandle(ConnectionPoint(fieldId, role)) == None
  {
    var h := ConnectionPoint(fieldId, role);
    ConnectionPointLayout(fieldId, role);
    var n := |NatToString(fieldId)|;
    DigitRunEndAt(h, 6, 6 + n);
    assert !HasAt(h, n + 13, "-");
    SearchWithoutF(h, 1);
  }

  /** Which fields an edge touches, read off handles built for fields `gs` and `gt`. */
  lemma ConnectedByHandles(f: nat, a: Edge, gs: nat, gt: nat, sourceSuffix: string, targetSuffix: string)
    requires a.sourceHandle == ConnectionPoint(gs, Source) + sourceSuffix
    requires a.targetHandle == ConnectionPoint(gt, Target) + targetSuffix
    ensures IsConnected(f, a) <==> f == gs || f == gt
  {
    HandlePrefixIdentifiesField(gs, Source, sourceSuffix, f);
    HandlePrefixIdentifiesField(gt, Target, targetSuffix, f);
  }

  /** The anchor pass for one edge, spelled out as an update of its two handles. */
  lemma ResolvedHandles(nodes: seq<Node>, e: Edge)
    ensures var a := ResolveAnchor(nodes, e);
            var sn, tn := FindNode(nodes, e.source), FindNode(nodes, e.target);
            && (sn.Some? && tn.Some? ==>
                  var side := SourceSide(sn.value.position.x, tn.value.position.x);
                  a == e.(sourceHandle := WithSide(e.sourceHandle, side),
                          targetHandle := WithSide(e.targetHandle, Opposite(side))))
            && (sn.None? || tn.None? ==> a == e)
  {
  }

  /** The anchor pass only ever appends to the two handles. */
  lemma AnchorSuffixes(nodes: seq<Node>, e: Edge) returns (sourceSuffix: string, targetSuffix: string)
    ensures ResolveAnchor(nodes, e).sourceHandle == e.sourceHandle + sourceSuffix
    ensures ResolveAnchor(nodes, e).targetHandle == e.targetHandle + targetSuffix
  {
    var sn, tn := FindNode(nodes, e.source), FindNode(nodes, e.target);
    if sn.Some? && tn.Some? {
      var side := SourceSide(sn.value.position.x, tn.value.position.x);
      sourceSuffix, targetSuffix := "-" + SideName(side), "-" + SideName(Opposite(side));
    } else {
      sourceSuffix, targetSuffix := "", "";
      assert e.sourceHandle + "" == e.sourceHandle && e.targetHandle + "" == e.targetHandle;
    }
  }

  /**
   * An edge the builder made for a relationship and the anchor pass then
   * resolved is connected to field `f` exactly when `f` is the first field
   * of one of the relationship's endpoints.
   */
  lemma PipelineEdgeConnected(nodes: seq<Node>, animated: seq<Edge>, r: Ref, f: nat)
    requires RefWellFormed(r)
    ensures IsConnected(f, ResolveAnchor(nodes, RefEdge(animated, r)))
            <==> (f == r.endpoints.0.fields[0].id || f == r.endpoints.1.fields[0].id)
  {
    var e := RefEdge(animated, r);
    var gs, gt := r.endpoints.0.fields[0].id, r.endpoints.1.fields[0].id;
    assert e.sourceHandle == ConnectionPoint(gs, Source) && e.targetHandle == ConnectionPoint(gt, Target);
    var a := ResolveAnchor(nodes, e);
    var sourceSuffix, targetSuffix := AnchorSuffixes(nodes, e);
    ConnectedByHandles(f, a, gs, gt, sourceSuffix, targetSuffix);
  }

  /** RenderHandle, read off the prefix test and the decoding of the chosen handle. */
  lemma RenderByDecoded(f: nat, a: Edge, r: Ref, isSource: bool, decoded: Option<(Role, Side)>)
    requires a.ref == Some(r)
    requires isSource == StartsWith(a.sourceHandle, HandlePrefix(f))
    requires decoded == MatchHandle(if isSource then a.sourceHandle else a.targetHandle)
    ensures RenderHandle(f, a) ==
              Some(HandleView(a.id, if isSource then a.sourceHandle else a.targetHandle,
                              if decoded.Some? then Some(decoded.value.0) else None,
                              if decoded.Some? && decoded.value.1 == Left then Left else Right,
                              if decoded.Some? && decoded.value.0 == Target then r.endpoints.1.relation
                              else r.endpoints.0.relation))
  {
  }

  /** The handle drawn for an edge whose handles carry side suffixes. */
  lemma RenderSided(f: nat, a: Edge, r: Ref, gs: nat, gt: nat, side: Side)
    requires a.ref == Some(r)
    requires a.sourceHandle == WithSide(ConnectionPoint(gs, Source), side)
    requires a.targetHandle == WithSide(ConnectionPoint(gt, Target), Opposite(side))
    requires f == gs || f == gt
    ensures RenderHandle(f, a) ==
              if f == gs then Some(HandleView(a.id, a.sourceHandle, Some(Source), side, r.endpoints.0.relation))
              else Some(HandleView(a.id, a.targetHandle, Some(Target), Opposite(side), r.endpoints.1.relation))
  {
    HandlePrefixIdentifiesField(gs, Source, "-" + SideName(side), f);
    assert a.sourceHandle == ConnectionPoint(gs, Source) + ("-" + SideName(side));
    if f == gs {
      DecodeRoundTrip(gs, Source, side);
      RenderByDecoded(f, a, r, true, Some((Source, side)));
    } else {
      DecodeRoundTrip(gt, Target, Opposite(side));
      RenderByDecoded(f, a, r, false, Some((Target, Opposite(side))));
    }
  }

  /** The handle drawn for an edge whose handles were left without side suffixes. */
  lemma RenderUnsided(f: nat, a: Edge, r: Ref, gs: nat, gt: nat)
    requires a.ref == Some(r)
    requires a.sourceHandle == ConnectionPoint(gs, Source)
    requires a.targetHandle == ConnectionPoint(gt, Target)
    requires f == gs || f == gt
    ensures RenderHandle(f, a) ==
              Some(HandleView(a.id, if f == gs then a.sourceHandle else a.targetHandle, None, Right, r.endpoints.0.relation))
  {
    HandlePrefixIdentifiesField(gs, Source, "", f);
    assert a.sourceHandle == ConnectionPoint(gs, Source) + "";
    DecodeUnsided(gs, Source);
    DecodeUnsided(gt, Target);
    RenderByDecoded(f, a, r, f == gs, None);
  }

  /**
   * The handle a field draws for a resolved edge of the pipeline. The source
   * field draws the source handle, with role Source, the side the anchor rule
   * chose and the source endpoint's marker; a target field that is not also
   * the source field draws the target handle, with role Target, the opposite
   * side and the target endpoint's marker. Left unresolved (an end node
   * missing), the handle decodes to no role and side Right, and the source
   * endpoint's marker is used.
   */
  lemma PipelineHandleRendered(nodes: seq<Node>, animated: seq<Edge>, r: Ref, f: nat)
    requires RefWellFormed(r)
    requires f == r.endpoints.0.fields[0].id || f == r.endpoints.1.fields[0].id
    ensures var e := RefEdge(animated, r);
            var a := ResolveAnchor(nodes, e);
            var sn, tn := FindNode(nodes, e.source), FindNode(nodes, e.target);
            var isSource := f == r.endpoints.0.fields[0].id;
            var handleId := if isSource then a.sourceHandle else a.targetHandle;
            && (sn.Some? && tn.Some? ==>
                  var side := SourceSide(sn.value.position.x, tn.value.position.x);
                  RenderHandle(f, a) ==
                    if isSource then Some(HandleView(a.id, handleId, Some(Source), side, r.endpoints.0.relation))
                    else Some(HandleView(a.id, handleId, Some(Target), Opposite(side), r.endpoints.1.relation)))
            && (sn.None? || tn.None? ==>
                  RenderHandle(f, a) == Some(HandleView(a.id, handleId, None, Right, r.endpoints.0.relation)))
  {
    var e := RefEdge(animated, r);
    var a := ResolveAnchor(nodes, e);
    var gs, gt := r.endpoints.0.fields[0].id, r.endpoints.1.fields[0].id;
    assert e.sourceHandle == ConnectionPoint(gs, Source) && e.targetHandle == ConnectionPoint(gt, Target);
    assert e.ref == Some(r);
    ResolvedHandles(nodes, e);
    var sn, tn := FindNode(nodes, e.source), FindNode(nodes, e.target);
    if sn.Some? && tn.Some? {
      RenderSided(f, a, r, gs, gt, SourceSide(sn.value.position.x, tn.value.position.x));
    } else {
      RenderUnsided(f, a, r, gs, gt);
    }
  }

  /** Hovering a field animates its connected edges, which turns its highlight on. */
  lemma HoverHighlights(prev: seq<Edge>, connected: seq<Edge>)
    requires connected != []
    ensures Highlighted(prev + connected, connected)
  {
    assert (prev + connected)[|prev|] == connected[0];
  }

  /** Leaving a field removes its connected edges from the animated list, which turns its highlight off. */
  lemma UnhoverClears(prev: seq<Edge>, connected: seq<Edge>)
    ensures !Highlighted(WithoutIds(prev, IdsOf(connected)), connected)
  {
    var rest := WithoutIds(prev, IdsOf(connected));
    forall j | 0 <= j < |connected| ensures !AnyHasId(rest, connected[j].id) {
      assert IdsOf(connected)[j] == connected[j].id;
      WithoutIdsHasNoListedId(prev, IdsOf(connected), connected[j].id);
    }
  }
}
