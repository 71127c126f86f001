/**
 * The scene graph of src/utils/graph/graphBuilder.js (`buildReactFlowGraph`):
 * joint nodes are dropped and their non-joint descendants spliced up to the
 * nearest non-joint ancestor, the remaining hierarchy is laid out as a tidy
 * tree, and meshes, materials, animations and skins are placed relative to
 * their owners.
 */
module SceneGraph {
  import opened Wrappers
  import opened Seqs
  import opened TreeLayout
  import opened SceneModel
  import opened GraphTypes

  const VerticalSpacing: real := 150.0
  const HorizontalSpacing: real := 200.0

  predicate IsJoint(n: NodeRecord) {
    n.subType == Some("joint")
  }

  function NonJointNodes(nodes: seq<NodeRecord>): seq<NodeRecord> {
    Filter(nodes, (n: NodeRecord) => !IsJoint(n))
  }

  /** `jointNodeIds`. */
  function JointIds(nodes: seq<NodeRecord>): set<string> {
    set i | 0 <= i < |nodes| && IsJoint(nodes[i]) :: nodes[i].id
  }

  /** The keys of `nodeMap`. */
  function NonJointIds(nodes: seq<NodeRecord>): set<string> {
    set i | 0 <= i < |nodes| && !IsJoint(nodes[i]) :: nodes[i].id
  }

  /** The first node with this id. */
  function FindNode(nodes: seq<NodeRecord>, id: string): Option<nat> {
    FindFirst(nodes, (n: NodeRecord) => n.id == id)
  }

  /** The first node that lists this id among its children. */
  function FindParent(nodes: seq<NodeRecord>, id: string): Option<nat> {
    FindFirst(nodes, (n: NodeRecord) => id in n.children)
  }

  /**
   * The child relation is acyclic, witnessed by `rank`: each child ranks below
   * its parent and every rank is below the number of ranked ids. The two
   * recursions over `children` loop forever on a cycle, which the model does
   * not cover.
   */
  ghost predicate Acyclic(nodes: seq<NodeRecord>, rank: map<string, nat>) {
    && (forall k :: k in rank ==> rank[k] < |rank|)
    && (forall i :: 0 <= i < |nodes| ==> nodes[i].id in rank)
    && (forall i, c :: 0 <= i < |nodes| && c in nodes[i].children ==> c in rank && rank[c] < rank[nodes[i].id])
  }

  ghost predicate RankedBelow(rank: map<string, nat>, cs: seq<string>, bound: nat) {
    forall i :: 0 <= i < |cs| ==> cs[i] in rank && rank[cs[i]] < bound
  }

  lemma {:induction false} ChildrenRankedBelow(nodes: seq<NodeRecord>, rank: map<string, nat>, k: nat)
    requires Acyclic(nodes, rank) && k < |nodes|
    ensures RankedBelow(rank, nodes[k].children, rank[nodes[k].id])
  {
    forall i | 0 <= i < |nodes[k].children|
      ensures nodes[k].children[i] in rank && rank[nodes[k].children[i]] < rank[nodes[k].id]
    {
      assert nodes[k].children[i] in nodes[k].children;
    }
  }

  /**
   * `findNonJointChildren(id)`: the children of the first node with that id,
   * each joint child replaced in place by its own non-joint children.
   */
  function NonJointChildren(nodes: seq<NodeRecord>, joints: set<string>, ghost rank: map<string, nat>, id: string)
    : (r: seq<string>)
    requires Acyclic(nodes, rank)
    ensures FindNode(nodes, id).None? ==> r == []
    ensures forall i :: 0 <= i < |r| ==> r[i] !in joints
    ensures id in rank ==> RankedBelow(rank, r, rank[id])
    decreases Rank(rank, id) + 1, 0
  {
    match FindNode(nodes, id)
    case None => []
    case Some(k) =>
      ChildrenRankedBelow(nodes, rank, k);
      Splice(nodes, joints, rank, nodes[k].children, |nodes[k].children|, rank[id])
  }

  /** The walk over a node's children, after its first `n` children. */
  function Splice(nodes: seq<NodeRecord>, joints: set<string>, ghost rank: map<string, nat>,
                  cs: seq<string>, n: nat, ghost bound: nat): (r: seq<string>)
    requires Acyclic(nodes, rank) && n <= |cs| && RankedBelow(rank, cs, bound)
    ensures forall i :: 0 <= i < |r| ==> r[i] !in joints
    ensures RankedBelow(rank, r, bound)
    ensures forall i :: 0 <= i < n && cs[i] !in joints ==> cs[i] in r
    decreases bound, n
  {
    if n == 0 then []
    else
      var c := cs[n - 1];
      Splice(nodes, joints, rank, cs, n - 1, bound) + (if c in joints then NonJointChildren(nodes, joints, rank, c) else [c])
  }

  /** Without joint children, the effective children are the children themselves. */
  lemma {:induction false} SpliceWithoutJoints(nodes: seq<NodeRecord>, joints: set<string>, rank: map<string, nat>,
                                               cs: seq<string>, n: nat, bound: nat)
    requires Acyclic(nodes, rank) && n <= |cs| && RankedBelow(rank, cs, bound)
    requires forall i :: 0 <= i < |cs| ==> cs[i] !in joints
    ensures Splice(nodes, joints, rank, cs, n, bound) == cs[..n]
    decreases n
  {
    if n > 0 {
      SpliceWithoutJoints(nodes, joints, rank, cs, n - 1, bound);
      assert cs[..n] == cs[..n - 1] + [cs[n - 1]];
    }
  }

  /**
   * `findEffectiveParent(id)`: the nearest id, walking up through first
   * parents, that is not a joint and already has a position.
   */
  function EffectiveParent(nodes: seq<NodeRecord>, joints: set<string>, positions: Positions,
                           ghost rank: map<string, nat>, id: string): (r: Option<string>)
    requires Acyclic(nodes, rank)
    ensures r.Some? ==> r.value !in joints && r.value in positions
    ensures FindNode(nodes, id).None? ==> r.None?
    ensures FindNode(nodes, id).Some? && id !in joints && id in positions ==> r == Some(id)
    decreases |rank| - Rank(rank, id)
  {
    match FindNode(nodes, id)
    case None => None
    case Some(_) =>
      if id !in joints && id in positions then Some(id)
      else
        match FindParent(nodes, id)
        case None => None
        case Some(p) =>
          assert rank[id] < rank[nodes[p].id] < |rank|;
          EffectiveParent(nodes, joints, positions, rank, nodes[p].id)
  }

  // ---------------------------------------------------------------- hierarchy layout

  /** The ids that are keys of `nodeMap`, in order: ids without a node are dropped. */
  function KeepIn(cs: seq<string>, ids: set<string>): (r: seq<string>)
    ensures forall i :: 0 <= i < |r| ==> r[i] in cs && r[i] in ids
    ensures forall i :: 0 <= i < |cs| && cs[i] in ids ==> cs[i] in r
  {
    if cs == [] then []
    else
      var init := KeepIn(cs[..|cs| - 1], ids);
      var c := cs[|cs| - 1];
      assert forall i :: 0 <= i < |cs| - 1 ==> cs[..|cs| - 1][i] == cs[i];
      init + (if c in ids then [c] else [])
  }

  lemma {:induction false} KeepInAppend(cs: seq<string>, c: string, ids: set<string>)
    ensures KeepIn(cs + [c], ids) == KeepIn(cs, ids) + (if c in ids then [c] else [])
  {
    assert (cs + [c])[..|cs|] == cs;
  }

  /** The layout children of a non-joint node: its effective children that are in `nodeMap`. */
  function LayoutKids(nodes: seq<NodeRecord>, ghost rank: map<string, nat>): map<string, seq<string>>
    requires Acyclic(nodes, rank)
  {
    var ids := NonJointIds(nodes);
    map id | id in ids :: KeepIn(NonJointChildren(nodes, JointIds(nodes), rank, id), ids)
  }

  function SceneTree(nodes: seq<NodeRecord>, ghost rank: map<string, nat>): Tree
    requires Acyclic(nodes, rank)
  {
    Tree(NonJointIds(nodes), LayoutKids(nodes, rank), HorizontalSpacing, VerticalSpacing)
  }

  lemma {:induction false} SceneTreeRanked(nodes: seq<NodeRecord>, rank: map<string, nat>)
    requires Acyclic(nodes, rank)
    ensures Ranked(SceneTree(nodes, rank), rank)
  {
    var t := SceneTree(nodes, rank);
    forall id | id in t.kids
      ensures id in rank && forall c :: c in t.kids[id] ==> c in rank && rank[c] < rank[id]
    {
      var k :| 0 <= k < |nodes| && !IsJoint(nodes[k]) && nodes[k].id == id;
      var ejc := NonJointChildren(nodes, JointIds(nodes), rank, id);
      forall c | c in t.kids[id] ensures c in rank && rank[c] < rank[id] {
        var i :| 0 <= i < |t.kids[id]| && t.kids[id][i] == c;
        var j :| 0 <= j < |ejc| && ejc[j] == c;
      }
    }
  }

  /** Every id that occurs in some non-joint node's effective children (`allChildIds`). */
  ghost predicate IsEffectiveChild(nodes: seq<NodeRecord>, rank: map<string, nat>, c: string)
    requires Acyclic(nodes, rank)
  {
    exists id :: id in NonJointIds(nodes) && c in NonJointChildren(nodes, JointIds(nodes), rank, id)
  }

  function AllChildIds(nodes: seq<NodeRecord>, ghost rank: map<string, nat>): (r: set<string>)
    requires Acyclic(nodes, rank)
    ensures forall c :: c in r <==> IsEffectiveChild(nodes, rank, c)
  {
    set id, c | id in NonJointIds(nodes) && c in NonJointChildren(nodes, JointIds(nodes), rank, id) :: c
  }

  /** `rootNodes`: the non-joint nodes, in order, whose id is nobody's effective child. */
  function RootsAmong(nj: seq<NodeRecord>, children: set<string>): seq<NodeRecord> {
    Filter(nj, (n: NodeRecord) => n.id !in children)
  }

  function RootNodes(nodes: seq<NodeRecord>, ghost rank: map<string, nat>): seq<NodeRecord>
    requires Acyclic(nodes, rank)
  {
    RootsAmong(NonJointNodes(nodes), AllChildIds(nodes, rank))
  }

  /** Root nodes are exactly the non-joint nodes that occur in no effective-children list. */
  lemma {:induction false} RootsExactly(nodes: seq<NodeRecord>, rank: map<string, nat>, n: NodeRecord)
    requires Acyclic(nodes, rank)
    ensures n in RootNodes(nodes, rank) <==> n in nodes && !IsJoint(n) && !IsEffectiveChild(nodes, rank, n.id)
  {
    var roots := RootNodes(nodes, rank);
    var nj := NonJointNodes(nodes);
    var children := AllChildIds(nodes, rank);
    if n in roots {
      var i :| 0 <= i < |roots| && roots[i] == n;
      var j :| 0 <= j < |nj| && nj[j] == n;
    }
    if n in nodes && !IsJoint(n) && !IsEffectiveChild(nodes, rank, n.id) {
      var i :| 0 <= i < |nodes| && nodes[i] == n;
      var j :| 0 <= j < |nj| && nj[j] == n;
    }
  }

  function IdsOf(ns: seq<NodeRecord>): (r: seq<string>)
    ensures |r| == |ns| && forall i :: 0 <= i < |ns| ==> r[i] == ns[i].id
  {
    seq(|ns|, i requires 0 <= i < |ns| => ns[i].id)
  }

  /** The keys of `nodeMap` are the ids of the non-joint nodes. */
  lemma {:induction false} NonJointIdsAsSeq(nodes: seq<NodeRecord>)
    ensures forall id :: id in NonJointIds(nodes) <==> id in IdsOf(NonJointNodes(nodes))
  {
    var nj := NonJointNodes(nodes);
    forall id | id in NonJointIds(nodes) ensures id in IdsOf(nj) {
      var i :| 0 <= i < |nodes| && !IsJoint(nodes[i]) && nodes[i].id == id;
      assert nodes[i] in nj;
      var j :| 0 <= j < |nj| && nj[j] == nodes[i];
      assert IdsOf(nj)[j] == id;
    }
    forall id | id in IdsOf(nj) ensures id in NonJointIds(nodes) {
      var j :| 0 <= j < |nj| && IdsOf(nj)[j] == id;
      assert nj[j] in nodes && !IsJoint(nj[j]);
      var i :| 0 <= i < |nodes| && nodes[i] == nj[j];
    }
  }

  /** The layout positions of the non-joint hierarchy. */
  function HierarchyPositions(nodes: seq<NodeRecord>, ghost rank: map<string, nat>): Positions
    requires Acyclic(nodes, rank)
  {
    SceneTreeRanked(nodes, rank);
    var roots := IdsOf(RootNodes(nodes, rank));
    Forest(SceneTree(nodes, rank), rank, roots, |roots|, map[]).1
  }

  lemma {:induction false} RootNodePresent(nodes: seq<NodeRecord>, rank: map<string, nat>, n: NodeRecord)
    requires Acyclic(nodes, rank) && n in RootNodes(nodes, rank)
    ensures n.id in NonJointIds(nodes)
  {
    RootsExactly(nodes, rank, n);
    var k :| 0 <= k < |nodes| && nodes[k] == n;
  }

  /** All hierarchy positions have a non-negative x, and every root node is placed. */
  lemma {:induction false} HierarchyPositionsBounds(nodes: seq<NodeRecord>, rank: map<string, nat>)
    requires Acyclic(nodes, rank)
    ensures forall k :: k in HierarchyPositions(nodes, rank) ==> HierarchyPositions(nodes, rank)[k].x >= 0.0
    ensures forall i :: 0 <= i < |RootNodes(nodes, rank)| ==> RootNodes(nodes, rank)[i].id in HierarchyPositions(nodes, rank)
  {
    SceneTreeRanked(nodes, rank);
    var t := SceneTree(nodes, rank);
    var rootNodes := RootNodes(nodes, rank);
    var roots := IdsOf(rootNodes);
    var P := Forest(t, rank, roots, |roots|, map[]).1;
    assert HierarchyPositions(nodes, rank) == P;
    ForestBounds(t, rank, roots, |roots|, map[]);
    forall i | 0 <= i < |rootNodes| ensures rootNodes[i].id in P {
      RootNodePresent(nodes, rank, rootNodes[i]);
      assert roots[i] == rootNodes[i].id;
      assert roots[i] in t.present;
    }
  }

  // ---------------------------------------------------------------- graph nodes and edges

  /** The graph under construction: nodes, edges and the shared `nodePositions` map. */
  datatype Build = Build(nodes: seq<GraphNode>, edges: seq<GraphEdge>, positions: Positions)

  /** A node's subtype, `transform` when it has none. */
  function SubTypeOrTransform(o: Option<string>): (r: string)
    ensures !Truthy(o) ==> r == "transform"
    ensures o == Some("joint") ==> r == "joint"
    ensures o != Some("joint") ==> r != "joint"
  {
    if Truthy(o) then o.value else "transform"
  }

  function NodeEntry(n: NodeRecord, positions: Positions): GraphNode {
    GraphNode(n.id, "node", Some(SubTypeOrTransform(n.subType)), PositionOr(positions, n.id, Pos(0.0, 0.0)))
  }

  /** One edge from `source` to each target, in order. */
  function EdgesFrom(source: string, targets: seq<string>, animated: bool): (r: seq<GraphEdge>)
    ensures |r| == |targets|
    ensures forall i :: 0 <= i < |r| ==> r[i] == Edge(source, targets[i], animated)
  {
    if targets == [] then []
    else EdgesFrom(source, targets[..|targets| - 1], animated) + [Edge(source, targets[|targets| - 1], animated)]
  }

  lemma {:induction false} EdgesFromAppend(source: string, targets: seq<string>, t: string, animated: bool)
    ensures EdgesFrom(source, targets + [t], animated) == EdgesFrom(source, targets, animated) + [Edge(source, t, animated)]
  {
    assert (targets + [t])[..|targets|] == targets;
  }

  /** The effective children of `n` that are in `nodeMap`. */
  function GraphChildren(nodes: seq<NodeRecord>, ghost rank: map<string, nat>, id: string): seq<string>
    requires Acyclic(nodes, rank)
  {
    KeepIn(NonJointChildren(nodes, JointIds(nodes), rank, id), NonJointIds(nodes))
  }

  /** The edges of one non-joint node: to its mesh when `meshId` is truthy, then to each child in `nodeMap`. */
  function MeshEdges(n: NodeRecord): seq<GraphEdge> {
    if Truthy(n.meshId) then [Edge(n.id, n.meshId.value, false)] else []
  }

  function NodeEdges(nodes: seq<NodeRecord>, ghost rank: map<string, nat>, n: NodeRecord): seq<GraphEdge>
    requires Acyclic(nodes, rank)
  {
    MeshEdges(n) + EdgesFrom(n.id, GraphChildren(nodes, rank, n.id), false)
  }

  lemma {:induction false} GraphChildrenVia(nodes: seq<NodeRecord>, rank: map<string, nat>, id: string, childIds: seq<string>, nodeIds: set<string>)
    requires Acyclic(nodes, rank)
    requires childIds == NonJointChildren(nodes, JointIds(nodes), rank, id) && nodeIds == NonJointIds(nodes)
    ensures GraphChildren(nodes, rank, id) == KeepIn(childIds, nodeIds)
  {
  }

  /**
   * A non-joint node has exactly one edge to its mesh, first, when `meshId` is
   * truthy; every other edge goes to a child present in `nodeMap`.
   */
  lemma {:induction false} NodeEdgesShape(nodes: seq<NodeRecord>, rank: map<string, nat>, n: NodeRecord)
    requires Acyclic(nodes, rank)
    ensures var es := NodeEdges(nodes, rank, n);
      var m := if Truthy(n.meshId) then 1 else 0;
      && |es| == m + |GraphChildren(nodes, rank, n.id)|
      && (Truthy(n.meshId) ==> es[0] == Edge(n.id, n.meshId.value, false))
      && (forall i :: m <= i < |es| ==> es[i].source == n.id && es[i].target in NonJointIds(nodes))
  {
  }

  /** The graph nodes the loop over the first `n` non-joint nodes pushes. */
  function NodeEntries(nj: seq<NodeRecord>, positions: Positions, n: nat): (r: seq<GraphNode>)
    requires n <= |nj|
    ensures |r| == n
  {
    if n == 0 then [] else NodeEntries(nj, positions, n - 1) + [NodeEntry(nj[n - 1], positions)]
  }

  /** `effectiveChildren` as a map: each non-joint id to its effective children. */
  function ChildrenMap(nodes: seq<NodeRecord>, ghost rank: map<string, nat>): map<string, seq<string>>
    requires Acyclic(nodes, rank)
  {
    map id | id in NonJointIds(nodes) :: NonJointChildren(nodes, JointIds(nodes), rank, id)
  }

  /** A node's edges read through an `effectiveChildren` map and `nodeMap`'s keys, as the loop does. */
  function NodeEdgesVia(n: NodeRecord, effective: map<string, seq<string>>, nodeIds: set<string>): seq<GraphEdge> {
    MeshEdges(n) + EdgesFrom(n.id, KeepIn(if n.id in effective then effective[n.id] else [], nodeIds), false)
  }

  /** Read through the maps of the scene, a non-joint node's edges are `NodeEdges`. */
  lemma {:induction false} NodeEdgesViaChildrenMap(nodes: seq<NodeRecord>, rank: map<string, nat>, n: NodeRecord)
    requires Acyclic(nodes, rank) && n.id in NonJointIds(nodes)
    ensures NodeEdgesVia(n, ChildrenMap(nodes, rank), NonJointIds(nodes)) == NodeEdges(nodes, rank, n)
  {
    GraphChildrenVia(nodes, rank, n.id, ChildrenMap(nodes, rank)[n.id], NonJointIds(nodes));
  }

  /** The edges the loop over the first `k` non-joint nodes pushes. */
  function NodeEdgeList(nj: seq<NodeRecord>, effective: map<string, seq<string>>, nodeIds: set<string>, k: nat)
    : seq<GraphEdge>
    requires k <= |nj|
  {
    if k == 0 then [] else NodeEdgeList(nj, effective, nodeIds, k - 1) + NodeEdgesVia(nj[k - 1], effective, nodeIds)
  }

  /**
   * One graph node per non-joint node, in order, none of them a joint, each at
   * its layout position or (0, 0), with `transform` for a missing subtype.
   */
  lemma {:induction false} NodeEntriesShape(nj: seq<NodeRecord>, positions: Positions, n: nat)
    requires n <= |nj|
    requires forall i :: 0 <= i < |nj| ==> !IsJoint(nj[i])
    ensures var r := NodeEntries(nj, positions, n);
      forall i :: 0 <= i < n ==>
        && r[i].id == nj[i].id
        && r[i].nodeType == "node"
        && r[i].subType != Some("joint")
        && r[i].subType == Some(if Truthy(nj[i].subType) then nj[i].subType.value else "transform")
        && r[i].position == (if nj[i].id in positions then positions[nj[i].id] else Pos(0.0, 0.0))
  {
    NodeEntriesAt(nj, positions, n);
  }

  lemma {:induction false} NodeEntriesAt(nj: seq<NodeRecord>, positions: Positions, n: nat)
    requires n <= |nj|
    ensures forall i :: 0 <= i < n ==> NodeEntries(nj, positions, n)[i] == NodeEntry(nj[i], positions)
  {
    if n > 0 {
      NodeEntriesAt(nj, positions, n - 1);
      var prev := NodeEntries(nj, positions, n - 1);
      assert NodeEntries(nj, positions, n) == prev + [NodeEntry(nj[n - 1], positions)];
    }
  }

  /** The graph's node list starts with the non-joint nodes: no joint node appears among them. */
  lemma {:induction false} NoJointGraphNodes(nodes: seq<NodeRecord>, positions: Positions)
    ensures var nj := NonJointNodes(nodes);
      forall i :: 0 <= i < |nj| ==> NodeEntries(nj, positions, |nj|)[i].subType != Some("joint")
  {
    NodeEntriesShape(NonJointNodes(nodes), positions, |NonJointNodes(nodes)|);
  }

  // ---------------------------------------------------------------- meshes

  /** Where a mesh goes: one row below its owner's effective parent, or at (0, 200). */
  function MeshPosition(nodes: seq<NodeRecord>, joints: set<string>, positions: Positions,
                        ghost rank: map<string, nat>, m: MeshRecord): (r: Pos)
    requires Acyclic(nodes, rank)
    ensures r == Pos(0.0, 50.0 + VerticalSpacing) ||
            exists id :: id in positions && id !in joints && r == Pos(positions[id].x, positions[id].y + VerticalSpacing)
  {
    match FindFirst(nodes, (n: NodeRecord) => n.meshId == Some(m.id))
    case None => Pos(0.0, 50.0 + VerticalSpacing)
    case Some(k) =>
      var ep := EffectiveParent(nodes, joints, positions, rank, nodes[k].id);
      if Truthy(ep) then Pos(positions[ep.value].x, positions[ep.value].y + VerticalSpacing)
      else Pos(0.0, 50.0 + VerticalSpacing)
  }

  function MeshStep(nodes: seq<NodeRecord>, joints: set<string>, ghost rank: map<string, nat>, m: MeshRecord, st: Build): Build
    requires Acyclic(nodes, rank)
  {
    var p := MeshPosition(nodes, joints, st.positions, rank, m);
    Build(st.nodes + [GraphNode(m.id, "mesh", None, p)],
          st.edges + EdgesFrom(m.id, m.materialIds, false),
          st.positions[m.id := p])
  }

  /** The loop over the first `n` meshes. */
  function MeshPhase(nodes: seq<NodeRecord>, joints: set<string>, ghost rank: map<string, nat>,
                     meshes: seq<MeshRecord>, n: nat, st: Build): Build
    requires Acyclic(nodes, rank) && n <= |meshes|
  {
    if n == 0 then st
    else MeshStep(nodes, joints, rank, meshes[n - 1], MeshPhase(nodes, joints, rank, meshes, n - 1, st))
  }

  /**
   * The mesh loop appends one graph node per mesh, in order, after the nodes
   * already there.
   */
  lemma {:induction false} MeshPhaseNodes(nodes: seq<NodeRecord>, joints: set<string>, rank: map<string, nat>,
                                         meshes: seq<MeshRecord>, n: nat, st: Build)
    requires Acyclic(nodes, rank) && n <= |meshes|
    ensures MeshNodesAppended(nodes, joints, rank, meshes, n, st)
  {
    if n > 0 {
      MeshPhaseNodes(nodes, joints, rank, meshes, n - 1, st);
      MeshPhaseNodesNext(nodes, joints, rank, meshes, n, st);
    }
  }

  /** After the first `n` meshes: the nodes before them, then one `"mesh"` node per mesh in order. */
  ghost predicate MeshNodesAppended(nodes: seq<NodeRecord>, joints: set<string>, rank: map<string, nat>,
                                    meshes: seq<MeshRecord>, n: nat, st: Build)
    requires Acyclic(nodes, rank) && n <= |meshes|
  {
    var r := MeshPhase(nodes, joints, rank, meshes, n, st).nodes;
    && |r| == |st.nodes| + n
    && r[..|st.nodes|] == st.nodes
    && (forall k :: |st.nodes| <= k < |r| ==> r[k].id == meshes[k - |st.nodes|].id && r[k].nodeType == "mesh")
  }

  lemma {:induction false} MeshPhaseNodesNext(nodes: seq<NodeRecord>, joints: set<string>, rank: map<string, nat>,
                                             meshes: seq<MeshRecord>, n: nat, st: Build)
    requires Acyclic(nodes, rank) && 0 < n <= |meshes|
    requires MeshNodesAppended(nodes, joints, rank, meshes, n - 1, st)
    ensures MeshNodesAppended(nodes, joints, rank, meshes, n, st)
  {
    var prev := MeshPhase(nodes, joints, rank, meshes, n - 1, st).nodes;
    var r := MeshPhase(nodes, joints, rank, meshes, n, st).nodes;
    assert r == prev + [r[|prev|]];
    assert r[..|st.nodes|] == prev[..|st.nodes|];
  }

  /** After the mesh loop every mesh has a position, and no earlier position is dropped. */
  lemma {:induction false} MeshPhasePositions(nodes: seq<NodeRecord>, joints: set<string>, rank: map<string, nat>,
                                              meshes: seq<MeshRecord>, n: nat, st: Build)
    requires Acyclic(nodes, rank) && n <= |meshes|
    ensures var r := MeshPhase(nodes, joints, rank, meshes, n, st).positions;
      && (forall i :: 0 <= i < n ==> meshes[i].id in r)
      && (forall k :: k in st.positions ==> k in r)
  {
    if n > 0 {
      MeshPhasePositions(nodes, joints, rank, meshes, n - 1, st);
      var prev := MeshPhase(nodes, joints, rank, meshes, n - 1, st).positions;
      var r := MeshPhase(nodes, joints, rank, meshes, n, st).positions;
      assert r == prev[meshes[n - 1].id := r[meshes[n - 1].id]];
    }
  }

  // ---------------------------------------------------------------- materials

  /** Where a material goes: one row below the first mesh listing it, or at (0, 350). */
  function MaterialPosition(meshes: seq<MeshRecord>, positions: Positions, mat: MaterialRecord): (r: Pos)
    ensures r == Pos(0.0, 50.0 + VerticalSpacing * 2.0) ||
            exists i :: 0 <= i < |meshes| && mat.id in meshes[i].materialIds && meshes[i].id in positions &&
                        r == Pos(positions[meshes[i].id].x, positions[meshes[i].id].y + VerticalSpacing)
  {
    match FindFirst(meshes, (m: MeshRecord) => mat.id in m.materialIds)
    case None => Pos(0.0, 50.0 + VerticalSpacing * 2.0)
    case Some(k) =>
      if meshes[k].id in positions then Pos(positions[meshes[k].id].x, positions[meshes[k].id].y + VerticalSpacing)
      else Pos(0.0, 50.0 + VerticalSpacing * 2.0)
  }

  function MaterialEntry(meshes: seq<MeshRecord>, positions: Positions, mat: MaterialRecord): GraphNode {
    GraphNode(mat.id, "material", None, MaterialPosition(meshes, positions, mat))
  }

  /** The graph nodes the loop over the first `n` materials pushes. */
  function MaterialEntries(meshes: seq<MeshRecord>, positions: Positions, mats: seq<MaterialRecord>, n: nat): (r: seq<GraphNode>)
    requires n <= |mats|
    ensures |r| == n
  {
    if n == 0 then [] else MaterialEntries(meshes, positions, mats, n - 1) + [MaterialEntry(meshes, positions, mats[n - 1])]
  }

  // ---------------------------------------------------------------- animations

  /** The node an animated node's edge points at: its effective parent when truthy, else the node itself. */
  function AnimationTarget(nodes: seq<NodeRecord>, joints: set<string>, positions: Positions,
                           ghost rank: map<string, nat>, nodeId: string): string
    requires Acyclic(nodes, rank)
  {
    var ep := EffectiveParent(nodes, joints, positions, rank, nodeId);
    if Truthy(ep) then ep.value else nodeId
  }

  function AnimationTargets(nodes: seq<NodeRecord>, joints: set<string>, positions: Positions,
                            ghost rank: map<string, nat>, animated: seq<string>): (r: seq<string>)
    requires Acyclic(nodes, rank)
    ensures |r| == |animated|
    ensures forall i :: 0 <= i < |r| ==> r[i] == AnimationTarget(nodes, joints, positions, rank, animated[i])
  {
    if animated == [] then []
    else
      var init := animated[..|animated| - 1];
      var r := AnimationTargets(nodes, joints, positions, rank, init);
      assert forall i :: 0 <= i < |init| ==> init[i] == animated[i];
      r + [AnimationTarget(nodes, joints, positions, rank, animated[|animated| - 1])]
  }

  /**
   * The edges of one animation over its first `n` redirected targets, and the
   * `edgeTargets` set: an edge is added only for a positioned, not yet used target.
   */
  function AnimationEdges(positions: Positions, animId: string, targets: seq<string>, n: nat): (seq<GraphEdge>, set<string>)
    requires n <= |targets|
  {
    if n == 0 then ([], {})
    else
      var r := AnimationEdges(positions, animId, targets, n - 1);
      var target := targets[n - 1];
      if target in positions && target !in r.1 then (r.0 + [Edge(animId, target, true)], r.1 + {target})
      else r
  }

  function Targets(es: seq<GraphEdge>): (r: seq<string>)
    ensures |r| == |es| && forall i :: 0 <= i < |es| ==> r[i] == es[i].target
  {
    if es == [] then [] else Targets(es[..|es| - 1]) + [es[|es| - 1].target]
  }

  /**
   * The edges `r.0` and the set `r.1` of one animation over the targets
   * `seen`: at most one edge per distinct target, only to targets that have a
   * position, each target one of `seen`, and `r.1` exactly the set of targets used.
   */
  ghost predicate DistinctEdges(positions: Positions, animId: string, seen: seq<string>, r: (seq<GraphEdge>, set<string>)) {
    && |r.0| <= |seen|
    && (forall i :: 0 <= i < |r.0| ==> r.0[i] == Edge(animId, r.0[i].target, true) && r.0[i].target in positions)
    && (forall i :: 0 <= i < |r.0| ==> r.0[i].target in seen)
    && NoDup(Targets(r.0))
    && (forall t :: t in r.1 <==> t in Targets(r.0))
  }

  /** An animation has at most one edge per distinct target, each to a positioned one of its targets. */
  lemma {:induction false} AnimationEdgesDistinct(positions: Positions, animId: string, targets: seq<string>, n: nat)
    requires n <= |targets|
    ensures DistinctEdges(positions, animId, targets[..n], AnimationEdges(positions, animId, targets, n))
  {
    if n > 0 {
      AnimationEdgesDistinct(positions, animId, targets, n - 1);
      AnimationEdgesDistinctNext(positions, animId, targets, n);
    }
  }

  lemma {:induction false} AnimationEdgesDistinctNext(positions: Positions, animId: string, targets: seq<string>, n: nat)
    requires 0 < n <= |targets|
    requires DistinctEdges(positions, animId, targets[..n - 1], AnimationEdges(positions, animId, targets, n - 1))
    ensures DistinctEdges(positions, animId, targets[..n], AnimationEdges(positions, animId, targets, n))
  {
    var r := AnimationEdges(positions, animId, targets, n - 1);
    var target := targets[n - 1];
    assert targets[..n] == targets[..n - 1] + [target];
    if target in positions && target !in r.1 {
      var e := Edge(animId, target, true);
      assert Targets(r.0 + [e]) == Targets(r.0) + [target] by {
        assert (r.0 + [e])[..|r.0|] == r.0;
      }
      assert forall i :: 0 <= i < |r.0| ==> (r.0 + [e])[i] == r.0[i];
    }
  }

  /** A positioned target that is not yet used gets its edge: every positioned target ends up used. */
  lemma {:induction false} AnimationEdgesComplete(positions: Positions, animId: string, targets: seq<string>, n: nat)
    requires n <= |targets|
    ensures var r := AnimationEdges(positions, animId, targets, n);
      forall i :: 0 <= i < n && targets[i] in positions ==> targets[i] in r.1
  {
    if n > 0 {
      AnimationEdgesComplete(positions, animId, targets, n - 1);
    }
  }

  /** Every animation sits in the column at x = -400, one row per animation index. */
  function AnimationPosition(index: nat): Pos {
    Pos(-HorizontalSpacing * 2.0, 50.0 + index as real * VerticalSpacing)
  }

  function AnimationStep(nodes: seq<NodeRecord>, joints: set<string>, ghost rank: map<string, nat>,
                         a: AnimationRecord, index: nat, st: Build): Build
    requires Acyclic(nodes, rank)
  {
    var p := AnimationPosition(index);
    var positions := st.positions[a.id := p];
    var targets := AnimationTargets(nodes, joints, positions, rank, a.animatedNodes);
    var es := AnimationEdges(positions, a.id, targets, |targets|).0;
    Build(st.nodes + [GraphNode(a.id, "animation", None, p)], st.edges + es, positions)
  }

  function AnimationPhase(nodes: seq<NodeRecord>, joints: set<string>, ghost rank: map<string, nat>,
                          anims: seq<AnimationRecord>, n: nat, st: Build): Build
    requires Acyclic(nodes, rank) && n <= |anims|
  {
    if n == 0 then st
    else AnimationStep(nodes, joints, rank, anims[n - 1], n - 1, AnimationPhase(nodes, joints, rank, anims, n - 1, st))
  }

  // ---------------------------------------------------------------- skins

  /** Where a skin goes: one column right of its skinned node's effective parent, or at (0, 200). */
  function SkinPosition(nodes: seq<NodeRecord>, joints: set<string>, positions: Positions,
                        ghost rank: map<string, nat>, skinned: Option<nat>): (r: Pos)
    requires Acyclic(nodes, rank)
    requires skinned.Some? ==> skinned.value < |nodes|
    ensures r == Pos(0.0, 50.0 + VerticalSpacing) ||
            exists id :: id in positions && id !in joints && r == Pos(positions[id].x + HorizontalSpacing, positions[id].y)
  {
    match skinned
    case None => Pos(0.0, 50.0 + VerticalSpacing)
    case Some(k) =>
      var ep := EffectiveParent(nodes, joints, positions, rank, nodes[k].id);
      if Truthy(ep) then Pos(positions[ep.value].x + HorizontalSpacing, positions[ep.value].y)
      else Pos(0.0, 50.0 + VerticalSpacing)
  }

  function SkinStep(nodes: seq<NodeRecord>, joints: set<string>, ghost rank: map<string, nat>, s: SkinRecord, st: Build): Build
    requires Acyclic(nodes, rank)
  {
    var skinned := FindFirst(nodes, (n: NodeRecord) => n.skinId == Some(s.id));
    var p := SkinPosition(nodes, joints, st.positions, rank, skinned);
    Build(st.nodes + [GraphNode(s.id, "skin", None, p)],
          st.edges + (if skinned.Some? then [Edge(nodes[skinned.value].id, s.id, false)] else []),
          st.positions[s.id := p])
  }

  function SkinPhase(nodes: seq<NodeRecord>, joints: set<string>, ghost rank: map<string, nat>,
                     skins: seq<SkinRecord>, n: nat, st: Build): Build
    requires Acyclic(nodes, rank) && n <= |skins|
  {
    if n == 0 then st
    else SkinStep(nodes, joints, rank, skins[n - 1], SkinPhase(nodes, joints, rank, skins, n - 1, st))
  }

  // ---------------------------------------------------------------- the whole graph

  /** The hierarchy nodes and their edges, given the layout positions. */
  function AfterNodes(sd: SceneData, ghost rank: map<string, nat>, positions: Positions): Build
    requires Acyclic(sd.nodes, rank)
  {
    var nj := NonJointNodes(sd.nodes);
    Build(NodeEntries(nj, positions, |nj|), NodeEdgeList(nj, ChildrenMap(sd.nodes, rank), NonJointIds(sd.nodes), |nj|), positions)
  }

  function AfterMeshes(sd: SceneData, ghost rank: map<string, nat>, positions: Positions): Build
    requires Acyclic(sd.nodes, rank)
  {
    MeshPhase(sd.nodes, JointIds(sd.nodes), rank, sd.meshes, |sd.meshes|, AfterNodes(sd, rank, positions))
  }

  function AfterMaterials(sd: SceneData, ghost rank: map<string, nat>, positions: Positions): Build
    requires Acyclic(sd.nodes, rank)
  {
    var st := AfterMeshes(sd, rank, positions);
    Build(st.nodes + MaterialEntries(sd.meshes, st.positions, sd.materials, |sd.materials|), st.edges, st.positions)
  }

  function AfterAnimations(sd: SceneData, ghost rank: map<string, nat>, positions: Positions): Build
    requires Acyclic(sd.nodes, rank)
  {
    AnimationPhase(sd.nodes, JointIds(sd.nodes), rank, sd.animations, |sd.animations|, AfterMaterials(sd, rank, positions))
  }

  function AfterSkins(sd: SceneData, ghost rank: map<string, nat>, positions: Positions): Build
    requires Acyclic(sd.nodes, rank)
  {
    SkinPhase(sd.nodes, JointIds(sd.nodes), rank, sd.skins, |sd.skins|, AfterAnimations(sd, rank, positions))
  }

  /** The graph `buildReactFlowGraph` builds, without labels and styles. */
  function SceneGraphOf(sd: SceneData, ghost rank: map<string, nat>): Build
    requires Acyclic(sd.nodes, rank)
  {
    AfterSkins(sd, rank, HierarchyPositions(sd.nodes, rank))
  }

  // ---------------------------------------------------------------- each phase only appends

  /** One more animation adds its node, its edges and its position to what the earlier ones built. */
  lemma {:induction false} AnimationPhaseUnfold(nodes: seq<NodeRecord>, joints: set<string>, rank: map<string, nat>,
                             anims: seq<AnimationRecord>, n: nat, st: Build)
    requires Acyclic(nodes, rank) && n < |anims|
    ensures var prev := AnimationPhase(nodes, joints, rank, anims, n, st);
      var positions := prev.positions[anims[n].id := AnimationPosition(n)];
      var targets := AnimationTargets(nodes, joints, positions, rank, anims[n].animatedNodes);
      AnimationPhase(nodes, joints, rank, anims, n + 1, st)
        == Build(prev.nodes + [GraphNode(anims[n].id, "animation", None, AnimationPosition(n))],
                 prev.edges + AnimationEdges(positions, anims[n].id, targets, |targets|).0, positions)
  {
  }

  lemma {:induction false} AnimationPhaseNodesStep(nodes: seq<NodeRecord>, joints: set<string>, rank: map<string, nat>,
                                anims: seq<AnimationRecord>, n: nat, st: Build)
    requires Acyclic(nodes, rank) && 0 < n <= |anims|
    ensures AnimationPhase(nodes, joints, rank, anims, n, st).nodes
      == AnimationPhase(nodes, joints, rank, anims, n - 1, st).nodes + [GraphNode(anims[n - 1].id, "animation", None, AnimationPosition(n - 1))]
  {
    AnimationPhaseUnfold(nodes, joints, rank, anims, n - 1, st);
  }

  /** The animation nodes of the first `n` animations, in the left column. */
  function AnimationColumn(anims: seq<AnimationRecord>, n: nat): seq<GraphNode>
    requires n <= |anims|
  {
    seq(n, k requires 0 <= k < n => GraphNode(anims[k].id, "animation", None, AnimationPosition(k)))
  }

  lemma {:induction false} AnimationColumnSnoc(anims: seq<AnimationRecord>, n: nat)
    requires 0 < n <= |anims|
    ensures AnimationColumn(anims, n)
      == AnimationColumn(anims, n - 1) + [GraphNode(anims[n - 1].id, "animation", None, AnimationPosition(n - 1))]
  {
  }

  /**
   * The animation loop appends, after the nodes already there, one node per
   * animation in the left column, row `k` for the `k`-th animation.
   */
  lemma {:induction false} AnimationPhaseNodes(nodes: seq<NodeRecord>, joints: set<string>, rank: map<string, nat>,
                                               anims: seq<AnimationRecord>, n: nat, st: Build)
    requires Acyclic(nodes, rank) && n <= |anims|
    ensures AnimationPhase(nodes, joints, rank, anims, n, st).nodes == st.nodes + AnimationColumn(anims, n)
  {
    if n > 0 {
      AnimationPhaseNodes(nodes, joints, rank, anims, n - 1, st);
      AnimationPhaseNodesNext(nodes, joints, rank, anims, n, st);
    }
  }

  lemma {:induction false} AnimationPhaseNodesNext(nodes: seq<NodeRecord>, joints: set<string>, rank: map<string, nat>,
                                                   anims: seq<AnimationRecord>, n: nat, st: Build)
    requires Acyclic(nodes, rank) && 0 < n <= |anims|
    requires AnimationPhase(nodes, joints, rank, anims, n - 1, st).nodes == st.nodes + AnimationColumn(anims, n - 1)
    ensures AnimationPhase(nodes, joints, rank, anims, n, st).nodes == st.nodes + AnimationColumn(anims, n)
  {
    AnimationPhaseNodesStep(nodes, joints, rank, anims, n, st);
    AnimationColumnSnoc(anims, n);
    SnocAfter(AnimationPhase(nodes, joints, rank, anims, n, st).nodes, AnimationPhase(nodes, joints, rank, anims, n - 1, st).nodes,
              st.nodes, AnimationColumn(anims, n - 1), AnimationColumn(anims, n),
              GraphNode(anims[n - 1].id, "animation", None, AnimationPosition(n - 1)));
  }

  lemma {:induction false} SnocAfter<T>(b: seq<T>, a: seq<T>, s: seq<T>, c: seq<T>, c': seq<T>, x: T)
    requires b == a + [x] && a == s + c && c' == c + [x]
    ensures b == s + c'
  {
    assert (s + c) + [x] == s + (c + [x]);
  }

  /** The skin loop appends one graph node per skin, in order, after the nodes already there. */
  lemma {:induction false} SkinPhaseAppends(nodes: seq<NodeRecord>, joints: set<string>, rank: map<string, nat>,
                                           skins: seq<SkinRecord>, n: nat, st: Build)
    requires Acyclic(nodes, rank) && n <= |skins|
    ensures SkinNodesAppended(nodes, joints, rank, skins, n, st)
  {
    if n > 0 {
      SkinPhaseAppends(nodes, joints, rank, skins, n - 1, st);
      SkinPhaseAppendsNext(nodes, joints, rank, skins, n, st);
    }
  }

  /** After the first `n` skins: the nodes before them, then one `"skin"` node per skin in order. */
  ghost predicate SkinNodesAppended(nodes: seq<NodeRecord>, joints: set<string>, rank: map<string, nat>,
                                    skins: seq<SkinRecord>, n: nat, st: Build)
    requires Acyclic(nodes, rank) && n <= |skins|
  {
    var r := SkinPhase(nodes, joints, rank, skins, n, st).nodes;
    && |r| == |st.nodes| + n
    && r[..|st.nodes|] == st.nodes
    && (forall k :: |st.nodes| <= k < |r| ==> r[k].id == skins[k - |st.nodes|].id && r[k].nodeType == "skin")
  }

  lemma {:induction false} SkinPhaseAppendsNext(nodes: seq<NodeRecord>, joints: set<string>, rank: map<string, nat>,
                                               skins: seq<SkinRecord>, n: nat, st: Build)
    requires Acyclic(nodes, rank) && 0 < n <= |skins|
    requires SkinNodesAppended(nodes, joints, rank, skins, n - 1, st)
    ensures SkinNodesAppended(nodes, joints, rank, skins, n, st)
  {
    var prev := SkinPhase(nodes, joints, rank, skins, n - 1, st).nodes;
    var r := SkinPhase(nodes, joints, rank, skins, n, st).nodes;
    assert r == prev + [r[|prev|]];
    assert r[..|st.nodes|] == prev[..|st.nodes|];
  }

  lemma {:induction false} PrefixTransitive<T>(a: seq<T>, b: seq<T>, c: seq<T>)
    requires |a| <= |b| <= |c| && b[..|a|] == a && c[..|b|] == b
    ensures c[..|a|] == a
  {
    assert c[..|a|] == c[..|b|][..|a|];
  }

  /** `g` starts with the non-joint nodes `nj` and then the meshes. */
  ghost predicate NodesThenMeshes(g: seq<GraphNode>, nj: seq<NodeRecord>, meshes: seq<MeshRecord>) {
    && |nj| + |meshes| <= |g|
    && (forall i :: 0 <= i < |nj| ==> g[i].id == nj[i].id && g[i].nodeType == "node" && g[i].subType != Some("joint"))
    && (forall k :: |nj| <= k < |nj| + |meshes| ==> g[k].id == meshes[k - |nj|].id && g[k].nodeType == "mesh")
  }

  lemma {:induction false} NodesThenMeshesExtend(m: seq<GraphNode>, g: seq<GraphNode>, nj: seq<NodeRecord>, meshes: seq<MeshRecord>)
    requires NodesThenMeshes(m, nj, meshes) && |m| <= |g| && g[..|m|] == m
    ensures NodesThenMeshes(g, nj, meshes)
  {
    forall i | 0 <= i < |m| ensures g[i] == m[i] {
      assert g[..|m|][i] == g[i];
    }
  }

  lemma {:induction false} EntriesThenMeshes(g: seq<GraphNode>, nj: seq<NodeRecord>, positions: Positions, meshes: seq<MeshRecord>)
    requires forall i :: 0 <= i < |nj| ==> !IsJoint(nj[i])
    requires |g| == |nj| + |meshes| && g[..|nj|] == NodeEntries(nj, positions, |nj|)
    requires forall k :: |nj| <= k < |g| ==> g[k].id == meshes[k - |nj|].id && g[k].nodeType == "mesh"
    ensures NodesThenMeshes(g, nj, meshes)
  {
    NodeEntriesShape(nj, positions, |nj|);
    forall i | 0 <= i < |nj| ensures g[i] == NodeEntries(nj, positions, |nj|)[i] {
      assert g[..|nj|][i] == g[i];
    }
  }

  lemma {:induction false} MeshesAfterEntries(nodes: seq<NodeRecord>, joints: set<string>, rank: map<string, nat>,
                                              meshes: seq<MeshRecord>, nj: seq<NodeRecord>, positions: Positions, st: Build)
    requires Acyclic(nodes, rank)
    requires forall i :: 0 <= i < |nj| ==> !IsJoint(nj[i])
    requires st.nodes == NodeEntries(nj, positions, |nj|)
    ensures var g := MeshPhase(nodes, joints, rank, meshes, |meshes|, st).nodes;
      |g| == |nj| + |meshes| && NodesThenMeshes(g, nj, meshes)
  {
    MeshPhaseNodes(nodes, joints, rank, meshes, |meshes|, st);
    EntriesThenMeshes(MeshPhase(nodes, joints, rank, meshes, |meshes|, st).nodes, nj, positions, meshes);
  }

  lemma {:induction false} AfterMeshesNodes(sd: SceneData, rank: map<string, nat>, positions: Positions)
    requires Acyclic(sd.nodes, rank)
    ensures var g := AfterMeshes(sd, rank, positions).nodes;
      |g| == |NonJointNodes(sd.nodes)| + |sd.meshes| && NodesThenMeshes(g, NonJointNodes(sd.nodes), sd.meshes)
  {
    MeshesAfterEntries(sd.nodes, JointIds(sd.nodes), rank, sd.meshes, NonJointNodes(sd.nodes), positions, AfterNodes(sd, rank, positions));
  }

  lemma {:induction false} AfterSkinsPrefix(sd: SceneData, rank: map<string, nat>, positions: Positions)
    requires Acyclic(sd.nodes, rank)
    ensures var st := AfterMeshes(sd, rank, positions).nodes;
      var g := AfterSkins(sd, rank, positions).nodes;
      && |g| == |st| + |sd.materials| + |sd.animations| + |sd.skins|
      && g[..|st|] == st
  {
    var st := AfterMeshes(sd, rank, positions).nodes;
    var st1 := AfterMaterials(sd, rank, positions).nodes;
    assert st1[..|st|] == st;
    AnimationPhaseNodes(sd.nodes, JointIds(sd.nodes), rank, sd.animations, |sd.animations|, AfterMaterials(sd, rank, positions));
    var st2 := AfterAnimations(sd, rank, positions).nodes;
    assert st2[..|st1|] == st1;
    SkinPhaseAppends(sd.nodes, JointIds(sd.nodes), rank, sd.skins, |sd.skins|, AfterAnimations(sd, rank, positions));
    var g := AfterSkins(sd, rank, positions).nodes;
    PrefixTransitive(st, st1, st2);
    PrefixTransitive(st, st2, g);
  }

  /**
   * The graph lists the non-joint nodes, then the meshes, materials,
   * animations and skins, one graph node each; none of the first group is a
   * joint.
   */
  lemma {:induction false} SceneGraphNodes(sd: SceneData, rank: map<string, nat>)
    requires Acyclic(sd.nodes, rank)
    ensures var g := SceneGraphOf(sd, rank).nodes;
      var nj := NonJointNodes(sd.nodes);
      && |g| == |nj| + |sd.meshes| + |sd.materials| + |sd.animations| + |sd.skins|
      && (forall i :: 0 <= i < |nj| ==> g[i].id == nj[i].id && g[i].nodeType == "node" && g[i].subType != Some("joint"))
      && (forall k :: |nj| <= k < |nj| + |sd.meshes| ==> g[k].id == sd.meshes[k - |nj|].id && g[k].nodeType == "mesh")
  {
    var positions := HierarchyPositions(sd.nodes, rank);
    AfterMeshesNodes(sd, rank, positions);
    AfterSkinsPrefix(sd, rank, positions);
    NodesThenMeshesExtend(AfterMeshes(sd, rank, positions).nodes, AfterSkins(sd, rank, positions).nodes,
                          NonJointNodes(sd.nodes), sd.meshes);
  }

  // ---------------------------------------------------------------- the builder

  /** `effectiveChildren`: each key maps to its non-joint children. */
  ghost predicate EffectiveChildren(nodes: seq<NodeRecord>, rank: map<string, nat>, effective: map<string, seq<string>>)
    requires Acyclic(nodes, rank)
  {
    forall id {:trigger effective[id]} :: id in effective ==> effective[id] == NonJointChildren(nodes, JointIds(nodes), rank, id)
  }

  /** A map with the non-joint ids as keys that satisfies `EffectiveChildren` is `ChildrenMap`. */
  lemma {:induction false} EffectiveIsChildrenMap(nodes: seq<NodeRecord>, rank: map<string, nat>, effective: map<string, seq<string>>)
    requires Acyclic(nodes, rank)
    requires forall id :: id in effective <==> id in NonJointIds(nodes)
    requires EffectiveChildren(nodes, rank, effective)
    ensures effective == ChildrenMap(nodes, rank)
  {
  }

  /** `nodeMap`'s keys and the `effectiveChildren` map, one entry per non-joint node. */
  method IndexNonJointNodes(nodes: seq<NodeRecord>, ghost rank: map<string, nat>)
    returns (nodeIds: set<string>, effective: map<string, seq<string>>)
    requires Acyclic(nodes, rank)
    ensures nodeIds == NonJointIds(nodes)
    ensures forall id :: id in effective <==> id in NonJointIds(nodes)
    ensures EffectiveChildren(nodes, rank, effective)
  {
    var nj := NonJointNodes(nodes);
    var joints := JointIds(nodes);
    ghost var ids := IdsOf(nj);
    NonJointIdsAsSeq(nodes);
    nodeIds := {};
    effective := map[];
    for i := 0 to |nj|
      invariant effective.Keys == nodeIds
      invariant forall id :: id in nodeIds <==> id in ids[..i]
      invariant forall id :: id in effective ==> effective[id] == NonJointChildren(nodes, joints, rank, id)
    {
      var id := nj[i].id;
      assert ids[..i + 1] == ids[..i] + [id];
      nodeIds := nodeIds + {id};
      effective := effective[id := NonJointChildren(nodes, joints, rank, id)];
    }
    assert ids[..|nj|] == ids;
  }

  /** Add each child to the insertion-ordered set, in order. */
  method AddAll(ids: set<string>, cs: seq<string>) returns (ids': set<string>)
    ensures forall c :: c in ids' <==> c in ids || c in cs
  {
    ids' := ids;
    for k := 0 to |cs|
      invariant forall c :: c in ids' <==> c in ids || c in cs[..k]
    {
      assert cs[..k + 1] == cs[..k] + [cs[k]];
      ids' := ids' + {cs[k]};
    }
    assert cs[..|cs|] == cs;
  }

  /** `allChildIds`: the union of the effective-children lists. */
  method CollectAllChildIds(ids: seq<string>, effective: map<string, seq<string>>) returns (allChildIds: set<string>)
    requires forall j :: 0 <= j < |ids| ==> ids[j] in effective
    ensures forall c :: c in allChildIds <==> exists j :: 0 <= j < |ids| && c in effective[ids[j]]
  {
    allChildIds := {};
    for i := 0 to |ids|
      invariant forall c :: c in allChildIds <==> exists j :: 0 <= j < i && c in effective[ids[j]]
    {
      allChildIds := AddAll(allChildIds, effective[ids[i]]);
    }
  }

  /** The union over the non-joint ids of their `effectiveChildren` entries is `AllChildIds`. */
  lemma {:induction false} AllChildIdsVia(nodes: seq<NodeRecord>, rank: map<string, nat>, ids: seq<string>,
                       effective: map<string, seq<string>>, all: set<string>)
    requires Acyclic(nodes, rank)
    requires forall id :: id in effective <==> id in NonJointIds(nodes)
    requires EffectiveChildren(nodes, rank, effective)
    requires forall id :: id in NonJointIds(nodes) <==> id in ids
    requires forall c :: c in all <==> exists j :: 0 <= j < |ids| && c in effective[ids[j]]
    ensures all == AllChildIds(nodes, rank)
  {
    forall c | c in AllChildIds(nodes, rank) ensures c in all {
      var id :| id in NonJointIds(nodes) && c in NonJointChildren(nodes, JointIds(nodes), rank, id);
      var j :| 0 <= j < |ids| && ids[j] == id;
    }
  }

  /** The root nodes and the tidy-tree layout of their trees, written into a fresh `nodePositions`. */
  method LayoutHierarchy(nodes: seq<NodeRecord>, ghost rank: map<string, nat>, nodeIds: set<string>,
                         effective: map<string, seq<string>>, allChildIds: set<string>)
    returns (positions: Positions)
    requires Acyclic(nodes, rank)
    requires nodeIds == NonJointIds(nodes)
    requires forall id :: id in effective <==> id in NonJointIds(nodes)
    requires EffectiveChildren(nodes, rank, effective)
    requires allChildIds == AllChildIds(nodes, rank)
    ensures positions == HierarchyPositions(nodes, rank)
  {
    var rootNodes := RootsAmong(NonJointNodes(nodes), allChildIds);
    var tree := Tree(nodeIds, map id | id in effective :: KeepIn(effective[id], nodeIds), HorizontalSpacing, VerticalSpacing);
    assert tree.kids == LayoutKids(nodes, rank);
    SceneTreeRanked(nodes, rank);
    positions := LayoutForest(tree, rank, IdsOf(rootNodes));
  }

  /** The edges from `source` to each of `childIds` that is a key of `nodeMap`, in order. */
  method AddChildEdges(source: string, childIds: seq<string>, nodeIds: set<string>, graphEdges: seq<GraphEdge>)
    returns (graphEdges': seq<GraphEdge>)
    ensures graphEdges' == graphEdges + EdgesFrom(source, KeepIn(childIds, nodeIds), false)
  {
    graphEdges' := graphEdges;
    ghost var kept: seq<string> := [];
    for k := 0 to |childIds|
      invariant kept == KeepIn(childIds[..k], nodeIds)
      invariant graphEdges' == graphEdges + EdgesFrom(source, kept, false)
    {
      var c := childIds[k];
      ChildEdgeStep(source, childIds, k, nodeIds, graphEdges, kept);
      if c in nodeIds {
        graphEdges' := graphEdges' + [Edge(source, c, false)];
        kept := kept + [c];
      }
    }
    assert childIds[..|childIds|] == childIds;
  }

  /** One step of `AddChildEdges`: a child in `nodeMap` adds one edge, any other child none. */
  lemma {:induction false} ChildEdgeStep(source: string, cs: seq<string>, k: nat, ids: set<string>,
                                         base: seq<GraphEdge>, kept: seq<string>)
    requires k < |cs| && kept == KeepIn(cs[..k], ids)
    ensures cs[k] in ids ==>
      && KeepIn(cs[..k + 1], ids) == kept + [cs[k]]
      && base + EdgesFrom(source, kept + [cs[k]], false) == base + EdgesFrom(source, kept, false) + [Edge(source, cs[k], false)]
    ensures cs[k] !in ids ==> KeepIn(cs[..k + 1], ids) == kept
  {
    assert cs[..k + 1] == cs[..k] + [cs[k]];
    KeepInAppend(cs[..k], cs[k], ids);
    var e := EdgesFrom(source, kept, false);
    EdgesFromAppend(source, kept, cs[k], false);
    assert base + (e + [Edge(source, cs[k], false)]) == base + e + [Edge(source, cs[k], false)];
  }

  /** The edges of one non-joint node: to its mesh, then to each of its effective children in `nodeMap`. */
  method AddNodeEdges(n: NodeRecord, childIds: seq<string>, nodeIds: set<string>, graphEdges: seq<GraphEdge>)
    returns (graphEdges': seq<GraphEdge>)
    ensures graphEdges' == graphEdges + (MeshEdges(n) + EdgesFrom(n.id, KeepIn(childIds, nodeIds), false))
  {
    graphEdges' := graphEdges;
    if Truthy(n.meshId) {
      graphEdges' := graphEdges' + [Edge(n.id, n.meshId.value, false)];
    }
    graphEdges' := AddChildEdges(n.id, childIds, nodeIds, graphEdges');
  }

  /** The loop over the non-joint nodes: one graph node each, its mesh edge and its child edges. */
  method AddHierarchyNodes(nj: seq<NodeRecord>, positions: Positions, effective: map<string, seq<string>>, nodeIds: set<string>)
    returns (graphNodes: seq<GraphNode>, graphEdges: seq<GraphEdge>)
    ensures graphNodes == NodeEntries(nj, positions, |nj|)
    ensures graphEdges == NodeEdgeList(nj, effective, nodeIds, |nj|)
  {
    graphNodes, graphEdges := [], [];
    for i := 0 to |nj|
      invariant graphNodes == NodeEntries(nj, positions, i)
      invariant graphEdges == NodeEdgeList(nj, effective, nodeIds, i)
    {
      var n := nj[i];
      var position := PositionOr(positions, n.id, Pos(0.0, 0.0));
      var subType := SubTypeOrTransform(n.subType);
      graphNodes := graphNodes + [GraphNode(n.id, "node", Some(subType), position)];
      var childIds := if n.id in effective then effective[n.id] else [];
      graphEdges := AddNodeEdges(n, childIds, nodeIds, graphEdges);
    }
  }

  /** One edge from `source` to each target, appended in order. */
  method AddEdgesFrom(source: string, targets: seq<string>, graphEdges: seq<GraphEdge>) returns (graphEdges': seq<GraphEdge>)
    ensures graphEdges' == graphEdges + EdgesFrom(source, targets, false)
  {
    graphEdges' := graphEdges;
    for k := 0 to |targets|
      invariant graphEdges' == graphEdges + EdgesFrom(source, targets[..k], false)
    {
      EdgesFromAppend(source, targets[..k], targets[k], false);
      assert targets[..k + 1] == targets[..k] + [targets[k]];
      graphEdges' := graphEdges' + [Edge(source, targets[k], false)];
    }
    assert targets[..|targets|] == targets;
  }

  /** The loop over the meshes: each is placed, pushed and linked to its materials. */
  method AddMeshes(nodes: seq<NodeRecord>, joints: set<string>, ghost rank: map<string, nat>, meshes: seq<MeshRecord>,
                   graphNodes: seq<GraphNode>, graphEdges: seq<GraphEdge>, positions: Positions)
    returns (graphNodes': seq<GraphNode>, graphEdges': seq<GraphEdge>, positions': Positions)
    requires Acyclic(nodes, rank)
    ensures Build(graphNodes', graphEdges', positions') == MeshPhase(nodes, joints, rank, meshes, |meshes|, Build(graphNodes, graphEdges, positions))
  {
    graphNodes', graphEdges', positions' := graphNodes, graphEdges, positions;
    for i := 0 to |meshes|
      invariant Build(graphNodes', graphEdges', positions') == MeshPhase(nodes, joints, rank, meshes, i, Build(graphNodes, graphEdges, positions))
    {
      var m := meshes[i];
      var x, y := 0.0, 50.0 + VerticalSpacing;
      var parentNode := FindFirst(nodes, (n: NodeRecord) => n.meshId == Some(m.id));
      if parentNode.Some? {
        var ep := EffectiveParent(nodes, joints, positions', rank, nodes[parentNode.value].id);
        if Truthy(ep) && ep.value in positions' {
          x, y := positions'[ep.value].x, positions'[ep.value].y + VerticalSpacing;
        }
      }
      assert Pos(x, y) == MeshPosition(nodes, joints, positions', rank, m);
      positions' := positions'[m.id := Pos(x, y)];
      graphNodes' := graphNodes' + [GraphNode(m.id, "mesh", None, Pos(x, y))];
      graphEdges' := AddEdgesFrom(m.id, m.materialIds, graphEdges');
    }
  }

  /** The loop over the materials: each is placed below the first mesh listing it. */
  method AddMaterials(meshes: seq<MeshRecord>, mats: seq<MaterialRecord>, graphNodes: seq<GraphNode>, positions: Positions)
    returns (graphNodes': seq<GraphNode>)
    ensures graphNodes' == graphNodes + MaterialEntries(meshes, positions, mats, |mats|)
  {
    graphNodes' := graphNodes;
    for i := 0 to |mats|
      invariant graphNodes' == graphNodes + MaterialEntries(meshes, positions, mats, i)
    {
      var mat := mats[i];
      var x, y := 0.0, 50.0 + VerticalSpacing * 2.0;
      var parentMesh := FindFirst(meshes, (m: MeshRecord) => mat.id in m.materialIds);
      if parentMesh.Some? && meshes[parentMesh.value].id in positions {
        var p := positions[meshes[parentMesh.value].id];
        x, y := p.x, p.y + VerticalSpacing;
      }
      graphNodes' := graphNodes' + [GraphNode(mat.id, "material", None, Pos(x, y))];
    }
  }

  /** The edge loop of one animation, with its `edgeTargets` set. */
  method AddAnimationEdges(nodes: seq<NodeRecord>, joints: set<string>, ghost rank: map<string, nat>,
                           positions: Positions, a: AnimationRecord, graphEdges: seq<GraphEdge>)
    returns (graphEdges': seq<GraphEdge>)
    requires Acyclic(nodes, rank)
    ensures var targets := AnimationTargets(nodes, joints, positions, rank, a.animatedNodes);
      graphEdges' == graphEdges + AnimationEdges(positions, a.id, targets, |targets|).0
  {
    ghost var targets := AnimationTargets(nodes, joints, positions, rank, a.animatedNodes);
    graphEdges' := graphEdges;
    var edgeTargets: set<string> := {};
    for j := 0 to |a.animatedNodes|
      invariant graphEdges' == graphEdges + AnimationEdges(positions, a.id, targets, j).0
      invariant edgeTargets == AnimationEdges(positions, a.id, targets, j).1
    {
      var ep := EffectiveParent(nodes, joints, positions, rank, a.animatedNodes[j]);
      var targetNodeId := if Truthy(ep) then ep.value else a.animatedNodes[j];
      assert targetNodeId == targets[j];
      if targetNodeId in positions && targetNodeId !in edgeTargets {
        edgeTargets := edgeTargets + {targetNodeId};
        graphEdges' := graphEdges' + [Edge(a.id, targetNodeId, true)];
      }
    }
  }

  /** The loop over the animations: each sits in the left column and links to its targets. */
  method AddAnimations(nodes: seq<NodeRecord>, joints: set<string>, ghost rank: map<string, nat>, anims: seq<AnimationRecord>,
                       graphNodes: seq<GraphNode>, graphEdges: seq<GraphEdge>, positions: Positions)
    returns (graphNodes': seq<GraphNode>, graphEdges': seq<GraphEdge>, positions': Positions)
    requires Acyclic(nodes, rank)
    ensures Build(graphNodes', graphEdges', positions') == AnimationPhase(nodes, joints, rank, anims, |anims|, Build(graphNodes, graphEdges, positions))
  {
    graphNodes', graphEdges', positions' := graphNodes, graphEdges, positions;
    for i := 0 to |anims|
      invariant Build(graphNodes', graphEdges', positions') == AnimationPhase(nodes, joints, rank, anims, i, Build(graphNodes, graphEdges, positions))
    {
      ghost var st := Build(graphNodes', graphEdges', positions');
      graphNodes', graphEdges', positions' := AddAnimation(nodes, joints, rank, anims[i], i, graphNodes', graphEdges', positions');
      AnimationPhaseStep(nodes, joints, rank, anims, i, Build(graphNodes, graphEdges, positions), st, Build(graphNodes', graphEdges', positions'));
    }
  }

  lemma {:induction false} AnimationPhaseStep(nodes: seq<NodeRecord>, joints: set<string>, rank: map<string, nat>,
                                              anims: seq<AnimationRecord>, n: nat, st: Build, prev: Build, next: Build)
    requires Acyclic(nodes, rank) && n < |anims|
    requires prev == AnimationPhase(nodes, joints, rank, anims, n, st)
    requires next == AnimationStep(nodes, joints, rank, anims[n], n, prev)
    ensures next == AnimationPhase(nodes, joints, rank, anims, n + 1, st)
  {
  }

  /** One animation of that loop: its node in the left column, its position, and its edges. */
  method AddAnimation(nodes: seq<NodeRecord>, joints: set<string>, ghost rank: map<string, nat>, a: AnimationRecord, index: nat,
                      graphNodes: seq<GraphNode>, graphEdges: seq<GraphEdge>, positions: Positions)
    returns (graphNodes': seq<GraphNode>, graphEdges': seq<GraphEdge>, positions': Positions)
    requires Acyclic(nodes, rank)
    ensures Build(graphNodes', graphEdges', positions') == AnimationStep(nodes, joints, rank, a, index, Build(graphNodes, graphEdges, positions))
  {
    var p := Pos(-HorizontalSpacing * 2.0, 50.0 + index as real * VerticalSpacing);
    positions' := positions[a.id := p];
    graphNodes' := graphNodes + [GraphNode(a.id, "animation", None, p)];
    graphEdges' := AddAnimationEdges(nodes, joints, rank, positions', a, graphEdges);
  }

  /** The loop over the skins: each is placed right of its skinned node and linked from it. */
  method AddSkins(nodes: seq<NodeRecord>, joints: set<string>, ghost rank: map<string, nat>, skins: seq<SkinRecord>,
                  graphNodes: seq<GraphNode>, graphEdges: seq<GraphEdge>, positions: Positions)
    returns (graphNodes': seq<GraphNode>, graphEdges': seq<GraphEdge>, positions': Positions)
    requires Acyclic(nodes, rank)
    ensures Build(graphNodes', graphEdges', positions') == SkinPhase(nodes, joints, rank, skins, |skins|, Build(graphNodes, graphEdges, positions))
  {
    graphNodes', graphEdges', positions' := graphNodes, graphEdges, positions;
    for i := 0 to |skins|
      invariant Build(graphNodes', graphEdges', positions') == SkinPhase(nodes, joints, rank, skins, i, Build(graphNodes, graphEdges, positions))
    {
      ghost var st := Build(graphNodes', graphEdges', positions');
      graphNodes', graphEdges', positions' := AddSkin(nodes, joints, rank, skins[i], graphNodes', graphEdges', positions');
      SkinPhaseStep(nodes, joints, rank, skins, i, Build(graphNodes, graphEdges, positions), st, Build(graphNodes', graphEdges', positions'));
    }
  }

  lemma {:induction false} SkinPhaseStep(nodes: seq<NodeRecord>, joints: set<string>, rank: map<string, nat>,
                                         skins: seq<SkinRecord>, n: nat, st: Build, prev: Build, next: Build)
    requires Acyclic(nodes, rank) && n < |skins|
    requires prev == SkinPhase(nodes, joints, rank, skins, n, st)
    requires next == SkinStep(nodes, joints, rank, skins[n], prev)
    ensures next == SkinPhase(nodes, joints, rank, skins, n + 1, st)
  {
  }

  /** One skin of that loop: right of its skinned node's effective parent, and linked from the skinned node. */
  method AddSkin(nodes: seq<NodeRecord>, joints: set<string>, ghost rank: map<string, nat>, s: SkinRecord,
                 graphNodes: seq<GraphNode>, graphEdges: seq<GraphEdge>, positions: Positions)
    returns (graphNodes': seq<GraphNode>, graphEdges': seq<GraphEdge>, positions': Positions)
    requires Acyclic(nodes, rank)
    ensures Build(graphNodes', graphEdges', positions') == SkinStep(nodes, joints, rank, s, Build(graphNodes, graphEdges, positions))
  {
    var x, y := 0.0, 50.0 + VerticalSpacing;
    var skinnedNode := FindFirst(nodes, (n: NodeRecord) => n.skinId == Some(s.id));
    if skinnedNode.Some? {
      var ep := EffectiveParent(nodes, joints, positions, rank, nodes[skinnedNode.value].id);
      if Truthy(ep) && ep.value in positions {
        x, y := positions[ep.value].x + HorizontalSpacing, positions[ep.value].y;
      }
    }
    assert Pos(x, y) == SkinPosition(nodes, joints, positions, rank, skinnedNode);
    positions' := positions[s.id := Pos(x, y)];
    graphNodes' := graphNodes + [GraphNode(s.id, "skin", None, Pos(x, y))];
    graphEdges' := graphEdges;
    if skinnedNode.Some? {
      graphEdges' := graphEdges' + [Edge(nodes[skinnedNode.value].id, s.id, false)];
    }
  }

  /**
   * `buildReactFlowGraph(sceneData)`: the graph's nodes and edges are those of
   * the specification `SceneGraphOf`.
   */
  method BuildReactFlowGraph(sd: SceneData, ghost rank: map<string, nat>) returns (nodes: seq<GraphNode>, edges: seq<GraphEdge>)
    requires Acyclic(sd.nodes, rank)
    ensures nodes == SceneGraphOf(sd, rank).nodes
    ensures edges == SceneGraphOf(sd, rank).edges
  {
    var nonJointNodes := NonJointNodes(sd.nodes);
    var jointNodeIds := JointIds(sd.nodes);
    var nodeIds, effective := IndexNonJointNodes(sd.nodes, rank);
    NonJointIdsAsSeq(sd.nodes);
    var allChildIds := CollectAllChildIds(IdsOf(nonJointNodes), effective);
    AllChildIdsVia(sd.nodes, rank, IdsOf(nonJointNodes), effective, allChildIds);
    var nodePositions := LayoutHierarchy(sd.nodes, rank, nodeIds, effective, allChildIds);
    ghost var hierarchy := nodePositions;
    EffectiveIsChildrenMap(sd.nodes, rank, effective);
    nodes, edges := AddHierarchyNodes(nonJointNodes, nodePositions, effective, nodeIds);
    assert Build(nodes, edges, nodePositions) == AfterNodes(sd, rank, hierarchy);
    nodes, edges, nodePositions := AddMeshes(sd.nodes, jointNodeIds, rank, sd.meshes, nodes, edges, nodePositions);
    assert Build(nodes, edges, nodePositions) == AfterMeshes(sd, rank, hierarchy);
    nodes := AddMaterials(sd.meshes, sd.materials, nodes, nodePositions);
    assert Build(nodes, edges, nodePositions) == AfterMaterials(sd, rank, hierarchy);
    nodes, edges, nodePositions := AddAnimations(sd.nodes, jointNodeIds, rank, sd.animations, nodes, edges, nodePositions);
    assert Build(nodes, edges, nodePositions) == AfterAnimations(sd, rank, hierarchy);
    nodes, edges, nodePositions := AddSkins(sd.nodes, jointNodeIds, rank, sd.skins, nodes, edges, nodePositions);
  }
}
