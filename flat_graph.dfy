/**
 * The older flat three-column scene graph (src/utils/gltf/graphBuilder.js):
 * scene nodes at x = 50, meshes at x = 300, materials at x = 550, each column
 * 100 apart from y = 0; an edge from a node to its mesh, from a node to each
 * listed child, and from a mesh to each of its materials, none filtered.
 */
module FlatGraph {
  import opened Wrappers
  import opened TreeLayout
  import opened SceneModel
  import opened GraphTypes

  const VerticalSpacing: real := 100.0
  const HorizontalSpacing: real := 250.0

  /** The graph node of the `i`-th record of a column at `x`. */
  function ColumnNode(id: string, kind: string, x: real, i: nat): GraphNode {
    GraphNode(id, kind, None, Pos(x, VerticalSpacing * i as real))
  }

  function NodeColumn(ns: seq<NodeRecord>): (r: seq<GraphNode>)
    ensures |r| == |ns|
  {
    seq(|ns|, i requires 0 <= i < |ns| => ColumnNode(ns[i].id, "node", 50.0, i))
  }

  function MeshColumn(ms: seq<MeshRecord>): (r: seq<GraphNode>)
    ensures |r| == |ms|
  {
    seq(|ms|, i requires 0 <= i < |ms| => ColumnNode(ms[i].id, "mesh", 50.0 + HorizontalSpacing, i))
  }

  function MaterialColumn(ms: seq<MaterialRecord>): (r: seq<GraphNode>)
    ensures |r| == |ms|
  {
    seq(|ms|, i requires 0 <= i < |ms| => ColumnNode(ms[i].id, "material", 50.0 + HorizontalSpacing * 2.0, i))
  }

  /** One edge from `source` to each of `targets`, in order. */
  function FanOut(source: string, targets: seq<string>): (r: seq<GraphEdge>)
    ensures |r| == |targets|
  {
    seq(|targets|, j requires 0 <= j < |targets| => Edge(source, targets[j], false))
  }

  /** A scene node's edges: to its mesh when `meshId` is truthy, then to each child. */
  function NodeEdges(n: NodeRecord): seq<GraphEdge> {
    (if Truthy(n.meshId) then [Edge(n.id, n.meshId.value, false)] else []) + FanOut(n.id, n.children)
  }

  /** The scene-node loop's edges, node by node. */
  function AllNodeEdges(ns: seq<NodeRecord>): seq<GraphEdge> {
    if ns == [] then [] else AllNodeEdges(ns[..|ns| - 1]) + NodeEdges(ns[|ns| - 1])
  }

  /** The mesh loop's edges, mesh by mesh. */
  function AllMeshEdges(ms: seq<MeshRecord>): seq<GraphEdge> {
    if ms == [] then [] else AllMeshEdges(ms[..|ms| - 1]) + FanOut(ms[|ms| - 1].id, ms[|ms| - 1].materialIds)
  }

  /** The graph `buildReactFlowGraph` returns. */
  function FlatGraphOf(scene: SceneData): (seq<GraphNode>, seq<GraphEdge>) {
    (NodeColumn(scene.nodes) + MeshColumn(scene.meshes) + MaterialColumn(scene.materials),
     AllNodeEdges(scene.nodes) + AllMeshEdges(scene.meshes))
  }

  // ---------------------------------------------------------------- properties

  /**
   * One graph node per scene node, mesh and material, in that order; the
   * i-th of each kind at (50, 100 i), (300, 100 i) and (550, 100 i).
   */
  lemma {:induction false} FlatGraphNodes(scene: SceneData)
    ensures var nodes := FlatGraphOf(scene).0;
      var a, b := |scene.nodes|, |scene.meshes|;
      && |nodes| == a + b + |scene.materials|
      && (forall i :: 0 <= i < a ==>
            nodes[i].id == scene.nodes[i].id && nodes[i].nodeType == "node" && nodes[i].position == Pos(50.0, 100.0 * i as real))
      && (forall i :: 0 <= i < b ==>
            nodes[a + i].id == scene.meshes[i].id && nodes[a + i].nodeType == "mesh" && nodes[a + i].position == Pos(300.0, 100.0 * i as real))
      && (forall i :: 0 <= i < |scene.materials| ==>
            nodes[a + b + i].id == scene.materials[i].id && nodes[a + b + i].nodeType == "material"
            && nodes[a + b + i].position == Pos(550.0, 100.0 * i as real))
  {
    ConcatAt(NodeColumn(scene.nodes), MeshColumn(scene.meshes), MaterialColumn(scene.materials));
    NodeColumnAt(scene.nodes);
    MeshColumnAt(scene.meshes);
    MaterialColumnAt(scene.materials);
  }

  lemma {:induction false} NodeColumnAt(ns: seq<NodeRecord>)
    ensures forall i :: 0 <= i < |ns| ==>
      NodeColumn(ns)[i].id == ns[i].id && NodeColumn(ns)[i].nodeType == "node" && NodeColumn(ns)[i].position == Pos(50.0, 100.0 * i as real)
  {
  }

  lemma {:induction false} MeshColumnAt(ms: seq<MeshRecord>)
    ensures forall i :: 0 <= i < |ms| ==>
      MeshColumn(ms)[i].id == ms[i].id && MeshColumn(ms)[i].nodeType == "mesh" && MeshColumn(ms)[i].position == Pos(300.0, 100.0 * i as real)
  {
  }

  lemma {:induction false} MaterialColumnAt(ms: seq<MaterialRecord>)
    ensures forall i :: 0 <= i < |ms| ==>
      MaterialColumn(ms)[i].id == ms[i].id && MaterialColumn(ms)[i].nodeType == "material"
      && MaterialColumn(ms)[i].position == Pos(550.0, 100.0 * i as real)
  {
  }

  /** Where each part of a three-way concatenation sits in it. */
  lemma {:induction false} ConcatAt<T>(x: seq<T>, y: seq<T>, z: seq<T>)
    ensures |x + y + z| == |x| + |y| + |z|
    ensures forall i :: 0 <= i < |x| ==> (x + y + z)[i] == x[i]
    ensures forall i :: 0 <= i < |y| ==> (x + y + z)[|x| + i] == y[i]
    ensures forall i :: 0 <= i < |z| ==> (x + y + z)[|x| + |y| + i] == z[i]
  {
  }

  /** A node's edges: the mesh edge exactly when `meshId` is truthy, and one edge per child, targets unfiltered. */
  lemma {:induction false} NodeEdgesSpec(n: NodeRecord)
    ensures |NodeEdges(n)| == (if Truthy(n.meshId) then 1 else 0) + |n.children|
    ensures forall e :: e in NodeEdges(n) <==>
      (Truthy(n.meshId) && e == Edge(n.id, n.meshId.value, false)) || (exists c :: c in n.children && e == Edge(n.id, c, false))
  {
    var fan := FanOut(n.id, n.children);
    forall e ensures e in fan <==> exists c :: c in n.children && e == Edge(n.id, c, false) {
      if e in fan {
        var j :| 0 <= j < |fan| && fan[j] == e;
        assert n.children[j] in n.children;
      }
      if c :| c in n.children && e == Edge(n.id, c, false) {
        var j :| 0 <= j < |n.children| && n.children[j] == c;
        assert fan[j] == e;
      }
    }
  }

  /** One edge per material id of a mesh, from the mesh. */
  lemma {:induction false} FanOutSpec(source: string, targets: seq<string>)
    ensures forall e :: e in FanOut(source, targets) <==> exists t :: t in targets && e == Edge(source, t, false)
  {
    var fan := FanOut(source, targets);
    forall e ensures e in fan <==> exists t :: t in targets && e == Edge(source, t, false) {
      if e in fan {
        var j :| 0 <= j < |fan| && fan[j] == e;
        assert targets[j] in targets;
      }
      if t :| t in targets && e == Edge(source, t, false) {
        var j :| 0 <= j < |targets| && targets[j] == t;
        assert fan[j] == e;
      }
    }
  }

  /** Every edge of the scene-node loop comes from exactly one node's edges. */
  lemma {:induction false} AllNodeEdgesSpec(ns: seq<NodeRecord>)
    ensures forall e :: e in AllNodeEdges(ns) <==> exists i :: 0 <= i < |ns| && e in NodeEdges(ns[i])
  {
    if ns != [] {
      var init := ns[..|ns| - 1];
      AllNodeEdgesSpec(init);
      forall e ensures e in AllNodeEdges(ns) <==> exists i :: 0 <= i < |ns| && e in NodeEdges(ns[i]) {
        if i :| 0 <= i < |ns| && e in NodeEdges(ns[i]) {
          if i < |ns| - 1 {
            assert ns[i] == init[i];
          }
        }
        if e in AllNodeEdges(init) {
          var i :| 0 <= i < |init| && e in NodeEdges(init[i]);
          assert init[i] == ns[i];
        }
      }
    }
  }

  /** Every edge of the mesh loop comes from one mesh to one of its material ids. */
  lemma {:induction false} AllMeshEdgesSpec(ms: seq<MeshRecord>)
    ensures forall e :: e in AllMeshEdges(ms) <==> exists i :: 0 <= i < |ms| && e in FanOut(ms[i].id, ms[i].materialIds)
  {
    if ms != [] {
      var init := ms[..|ms| - 1];
      AllMeshEdgesSpec(init);
      forall e ensures e in AllMeshEdges(ms) <==> exists i :: 0 <= i < |ms| && e in FanOut(ms[i].id, ms[i].materialIds) {
        if i :| 0 <= i < |ms| && e in FanOut(ms[i].id, ms[i].materialIds) {
          if i < |ms| - 1 {
            assert ms[i] == init[i];
          }
        }
        if e in AllMeshEdges(init) {
          var i :| 0 <= i < |init| && e in FanOut(init[i].id, init[i].materialIds);
          assert init[i] == ms[i];
        }
      }
    }
  }

  /** The number of edges a scene node contributes. */
  function OutDegree(n: NodeRecord): nat {
    (if Truthy(n.meshId) then 1 else 0) + |n.children|
  }

  function TotalOutDegree(ns: seq<NodeRecord>): nat {
    if ns == [] then 0 else TotalOutDegree(ns[..|ns| - 1]) + OutDegree(ns[|ns| - 1])
  }

  function TotalMaterialIds(ms: seq<MeshRecord>): nat {
    if ms == [] then 0 else TotalMaterialIds(ms[..|ms| - 1]) + |ms[|ms| - 1].materialIds|
  }

  /** Exactly one edge per truthy mesh id, per child id and per material id: no edge is filtered or merged. */
  lemma {:induction false} FlatGraphEdgeCount(scene: SceneData)
    ensures |FlatGraphOf(scene).1| == TotalOutDegree(scene.nodes) + TotalMaterialIds(scene.meshes)
  {
    NodeEdgeCount(scene.nodes);
    MeshEdgeCount(scene.meshes);
  }

  lemma {:induction false} NodeEdgeCount(ns: seq<NodeRecord>)
    ensures |AllNodeEdges(ns)| == TotalOutDegree(ns)
  {
    if ns != [] {
      NodeEdgeCount(ns[..|ns| - 1]);
      NodeEdgesSpec(ns[|ns| - 1]);
    }
  }

  lemma {:induction false} MeshEdgeCount(ms: seq<MeshRecord>)
    ensures |AllMeshEdges(ms)| == TotalMaterialIds(ms)
  {
    if ms != [] {
      MeshEdgeCount(ms[..|ms| - 1]);
    }
  }

  /**
   * An edge is in the graph iff it joins a node with a truthy mesh id to that
   * mesh, a node to one of its listed children, or a mesh to one of its
   * material ids; its id is always `<source>-<target>`.
   */
  lemma {:induction false} FlatGraphEdges(scene: SceneData)
    ensures var edges := FlatGraphOf(scene).1;
      && (forall e :: e in edges ==> e.id == e.source + "-" + e.target && !e.animated)
      && forall e :: e in edges <==>
           (exists i :: 0 <= i < |scene.nodes| && Truthy(scene.nodes[i].meshId)
              && e == Edge(scene.nodes[i].id, scene.nodes[i].meshId.value, false))
           || (exists i, c :: 0 <= i < |scene.nodes| && c in scene.nodes[i].children && e == Edge(scene.nodes[i].id, c, false))
           || (exists i, t :: 0 <= i < |scene.meshes| && t in scene.meshes[i].materialIds && e == Edge(scene.meshes[i].id, t, false))
  {
    AllNodeEdgesSpec(scene.nodes);
    AllMeshEdgesSpec(scene.meshes);
    forall i | 0 <= i < |scene.nodes| {
      NodeEdgesSpec(scene.nodes[i]);
    }
    forall i | 0 <= i < |scene.meshes| {
      FanOutSpec(scene.meshes[i].id, scene.meshes[i].materialIds);
    }
  }

  // ---------------------------------------------------------------- the builder

  lemma {:induction false} PrefixStep<T>(s: seq<T>, i: nat)
    requires i < |s|
    ensures s[..i + 1][..i] == s[..i] && s[..i + 1][i] == s[i] && s[..i + 1] != []
  {
  }

  /** An inner `forEach` loop: one edge from `id` to each of `targets`, in order (children and material ids). */
  method PushEdgesFrom(edges: seq<GraphEdge>, id: string, children: seq<string>) returns (edges': seq<GraphEdge>)
    ensures edges' == edges + FanOut(id, children)
  {
    edges' := edges;
    for j := 0 to |children|
      invariant edges' == edges + FanOut(id, children[..j])
    {
      assert FanOut(id, children[..j + 1]) == FanOut(id, children[..j]) + [Edge(id, children[j], false)];
      edges' := edges' + [GraphEdge(id + "-" + children[j], id, children[j], false)];
    }
    assert children[..|children|] == children;
  }

  /** The scene-node loop: each node's graph node at the next row of the first column, then its edges. */
  method EmitSceneNodes(ns: seq<NodeRecord>) returns (nodes: seq<GraphNode>, edges: seq<GraphEdge>)
    ensures nodes == NodeColumn(ns) && edges == AllNodeEdges(ns)
  {
    nodes, edges := [], [];
    var yOffset := 0.0;
    for i := 0 to |ns|
      invariant nodes == NodeColumn(ns[..i]) && edges == AllNodeEdges(ns[..i])
      invariant yOffset == VerticalSpacing * i as real
    {
      var n := ns[i];
      PrefixStep(ns, i);
      assert NodeColumn(ns[..i + 1]) == NodeColumn(ns[..i]) + [ColumnNode(n.id, "node", 50.0, i)];
      nodes := nodes + [GraphNode(n.id, "node", None, Pos(50.0, yOffset))];
      yOffset := yOffset + VerticalSpacing;
      if n.meshId.Some? && n.meshId.value != "" {
        edges := edges + [GraphEdge(n.id + "-" + n.meshId.value, n.id, n.meshId.value, false)];
      }
      edges := PushEdgesFrom(edges, n.id, n.children);
    }
    assert ns[..|ns|] == ns;
  }

  /** The mesh loop: each mesh's graph node at the next row of the second column, then its material edges. */
  method EmitMeshes(ms: seq<MeshRecord>, nodes: seq<GraphNode>, edges: seq<GraphEdge>)
    returns (nodes': seq<GraphNode>, edges': seq<GraphEdge>)
    ensures nodes' == nodes + MeshColumn(ms) && edges' == edges + AllMeshEdges(ms)
  {
    nodes', edges' := nodes, edges;
    var meshYOffset := 0.0;
    for i := 0 to |ms|
      invariant nodes' == nodes + MeshColumn(ms[..i]) && edges' == edges + AllMeshEdges(ms[..i])
      invariant meshYOffset == VerticalSpacing * i as real
    {
      var m := ms[i];
      PrefixStep(ms, i);
      assert MeshColumn(ms[..i + 1]) == MeshColumn(ms[..i]) + [ColumnNode(m.id, "mesh", 50.0 + HorizontalSpacing, i)];
      nodes' := nodes' + [GraphNode(m.id, "mesh", None, Pos(50.0 + HorizontalSpacing, meshYOffset))];
      meshYOffset := meshYOffset + VerticalSpacing;
      edges' := PushEdgesFrom(edges', m.id, m.materialIds);
    }
    assert ms[..|ms|] == ms;
  }

  /** The material loop: each material's graph node at the next row of the third column. */
  method EmitMaterials(ms: seq<MaterialRecord>, nodes: seq<GraphNode>) returns (nodes': seq<GraphNode>)
    ensures nodes' == nodes + MaterialColumn(ms)
  {
    nodes' := nodes;
    var materialYOffset := 0.0;
    for i := 0 to |ms|
      invariant nodes' == nodes + MaterialColumn(ms[..i])
      invariant materialYOffset == VerticalSpacing * i as real
    {
      var m := ms[i];
      PrefixStep(ms, i);
      assert MaterialColumn(ms[..i + 1]) == MaterialColumn(ms[..i]) + [ColumnNode(m.id, "material", 50.0 + HorizontalSpacing * 2.0, i)];
      nodes' := nodes' + [GraphNode(m.id, "material", None, Pos(50.0 + HorizontalSpacing * 2.0, materialYOffset))];
      materialYOffset := materialYOffset + VerticalSpacing;
    }
    assert ms[..|ms|] == ms;
  }

  /** `buildReactFlowGraph`: the three loops, in order. */
  method BuildReactFlowGraph(scene: SceneData) returns (nodes: seq<GraphNode>, edges: seq<GraphEdge>)
    ensures (nodes, edges) == FlatGraphOf(scene)
  {
    nodes, edges := EmitSceneNodes(scene.nodes);
    nodes, edges := EmitMeshes(scene.meshes, nodes, edges);
    nodes := EmitMaterials(scene.materials, nodes);
  }
}
