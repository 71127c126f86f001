/**
 * The material composition graph (src/utils/graph/materialGraphBuilder.js):
 * an output node on the right, one texture node per present texture slot in
 * the left column, one value node per present factor in the middle column,
 * and one edge from every other node into the output node.
 */
module MaterialGraph {
  import opened Wrappers
  import opened Seqs
  import opened Gltf
  import opened TreeLayout
  import opened SceneModel
  import opened GraphTypes

  const OutputId := "material-output"
  const RowSpacing: real := 120.0
  const StartX: real := 50.0
  const StartY: real := 50.0
  const ColumnSpacing: real := 250.0

  /** The output node, at (START_X + 2 COLUMN_SPACING, START_Y + 200). */
  const OutputNode := GraphNode(OutputId, "materialOutput", None, Pos(StartX + ColumnSpacing * 2.0, StartY + 200.0))

  /** A node the builder may emit: id, React Flow type, and the output handle its edge enters. */
  datatype Entry = Entry(id: string, nodeType: string, handle: string)

  /** An edge into the output node; the style is not modelled. */
  datatype MaterialEdge = MaterialEdge(id: string, source: string, target: string, targetHandle: string)

  /** The texture slots visited, in order. */
  const TextureEntries: seq<Entry> := [
    Entry("texture-baseColor", "textureInput", "baseColorTexture"),
    Entry("texture-metallicRoughness", "textureInput", "metallicRoughnessTexture"),
    Entry("texture-normal", "textureInput", "normalTexture"),
    Entry("texture-occlusion", "textureInput", "occlusionTexture"),
    Entry("texture-emissive", "textureInput", "emissiveTexture")]

  /** The value nodes tested, in order. */
  const ValueEntries: seq<Entry> := [
    Entry("value-baseColor", "rgbaValue", "baseColorFactor"),
    Entry("value-metallic", "floatValue", "metallicFactor"),
    Entry("value-roughness", "floatValue", "roughnessFactor"),
    Entry("value-emissive", "rgbValue", "emissiveFactor"),
    Entry("value-normalScale", "floatValue", "normalScale"),
    Entry("value-occlusionStrength", "floatValue", "occlusionStrength"),
    Entry("value-alphaCutoff", "floatValue", "alphaCutoff"),
    Entry("value-doubleSided", "booleanValue", "doubleSided")]

  /** Some component of the emissive factor is positive. */
  predicate AnyPositive(s: seq<real>) {
    exists i :: 0 <= i < |s| && s[i] > 0.0
  }

  /** Which texture slots are present, in slot order. */
  function TexturePresence(m: MaterialRecord): (r: seq<bool>)
    ensures |r| == |TextureEntries| && forall i :: 0 <= i < |SlotOrder| ==> r[i] == m.textures.Get(SlotOrder[i]).Some?
  {
    [m.textures.baseColor.Some?, m.textures.metallicRoughness.Some?, m.textures.normal.Some?,
     m.textures.occlusion.Some?, m.textures.emissive.Some?]
  }

  /**
   * Which value nodes are emitted: a present base colour, metallic,
   * roughness, normal scale, occlusion strength or alpha cutoff (0 included);
   * an emissive factor with a positive component; a defined doubleSided.
   */
  function ValuePresence(m: MaterialRecord): (r: seq<bool>)
    ensures |r| == |ValueEntries|
  {
    [m.baseColorFactor.Some?, m.metallicFactor.Some?, m.roughnessFactor.Some?,
     m.emissiveFactor.Some? && AnyPositive(m.emissiveFactor.value),
     m.normalScale.Some?, m.occlusionStrength.Some?, m.alphaCutoff.Some?, m.doubleSided.Some?]
  }

  /** The entries among the first `n` whose flag is set, in order. */
  function Keep(es: seq<Entry>, present: seq<bool>, n: nat): seq<Entry>
    requires n <= |es| == |present|
  {
    if n == 0 then [] else Keep(es, present, n - 1) + (if present[n - 1] then [es[n - 1]] else [])
  }

  predicate DistinctIds(es: seq<Entry>) {
    forall i, j :: 0 <= i < j < |es| ==> es[i].id != es[j].id
  }

  /** The kept entries: exactly the flagged ones among the first `n`, with distinct ids when the list has. */
  lemma {:induction false} KeepSpec(es: seq<Entry>, present: seq<bool>, n: nat)
    requires n <= |es| == |present| && DistinctIds(es)
    ensures forall e :: e in Keep(es, present, n) ==> e in es[..n]
    ensures forall k :: 0 <= k < |es| ==> (es[k] in Keep(es, present, n) <==> k < n && present[k])
    ensures DistinctIds(Keep(es, present, n))
  {
    if n > 0 {
      KeepSpec(es, present, n - 1);
      var r := Keep(es, present, n - 1);
      assert es[..n] == es[..n - 1] + [es[n - 1]];
      forall k | 0 <= k < |es| && k != n - 1 ensures es[k] != es[n - 1] {
        if k < n - 1 { assert es[k].id != es[n - 1].id; } else { assert es[n - 1].id != es[k].id; }
      }
      forall e | e in r ensures e.id != es[n - 1].id {
        assert e in es[..n - 1];
        var k :| 0 <= k < n - 1 && es[..n - 1][k] == e;
        assert es[k] == e;
      }
    }
  }

  /** Row `j` of a column. */
  function Row(j: nat): real {
    StartY + RowSpacing * j as real
  }

  /** The nodes of one column at `x`, the j-th at row j. */
  function Column(es: seq<Entry>, x: real): (r: seq<GraphNode>)
    ensures |r| == |es|
    ensures forall j :: 0 <= j < |es| ==> r[j] == GraphNode(es[j].id, es[j].nodeType, None, Pos(x, Row(j)))
  {
    if es == [] then [] else Column(es[..|es| - 1], x) + [GraphNode(es[|es| - 1].id, es[|es| - 1].nodeType, None, Pos(x, Row(|es| - 1)))]
  }

  function EdgeInto(e: Entry): MaterialEdge {
    MaterialEdge("edge-" + e.id + "-to-material", e.id, OutputId, e.handle)
  }

  function EdgesInto(es: seq<Entry>): (r: seq<MaterialEdge>)
    ensures |r| == |es| && forall j :: 0 <= j < |es| ==> r[j] == EdgeInto(es[j])
  {
    if es == [] then [] else EdgesInto(es[..|es| - 1]) + [EdgeInto(es[|es| - 1])]
  }

  function PresentTextures(m: MaterialRecord): seq<Entry> {
    Keep(TextureEntries, TexturePresence(m), |TextureEntries|)
  }

  function PresentValues(m: MaterialRecord): seq<Entry> {
    Keep(ValueEntries, ValuePresence(m), |ValueEntries|)
  }

  /** The nodes: the output node, then texture column `t` at x = 50, then value column `v` at x = 300. */
  function Layout(t: seq<Entry>, v: seq<Entry>): seq<GraphNode> {
    [OutputNode] + Column(t, StartX) + Column(v, StartX + ColumnSpacing)
  }

  /** The edges: the texture nodes' edges, then the value nodes'. */
  function Wiring(t: seq<Entry>, v: seq<Entry>): seq<MaterialEdge> {
    EdgesInto(t) + EdgesInto(v)
  }

  /** The graph `buildMaterialGraph` returns. */
  function MaterialGraphOf(m: MaterialRecord): (seq<GraphNode>, seq<MaterialEdge>) {
    (Layout(PresentTextures(m), PresentValues(m)), Wiring(PresentTextures(m), PresentValues(m)))
  }

  function NodeIds(nodes: seq<GraphNode>): (r: seq<string>)
    ensures |r| == |nodes| && forall i :: 0 <= i < |nodes| ==> r[i] == nodes[i].id
  {
    if nodes == [] then [] else NodeIds(nodes[..|nodes| - 1]) + [nodes[|nodes| - 1].id]
  }

  // ---------------------------------------------------------------- properties

  /** The entry behind node `j` of the layout (`j` > 0). */
  function EntryAt(t: seq<Entry>, v: seq<Entry>, j: nat): Entry
    requires 0 < j <= |t| + |v|
  {
    if j <= |t| then t[j - 1] else v[j - 1 - |t|]
  }

  /** Node `j` of the layout: the output node first, then each column's entries at their rows. */
  lemma {:induction false} LayoutAt(t: seq<Entry>, v: seq<Entry>, j: nat)
    requires j < 1 + |t| + |v|
    ensures |Layout(t, v)| == 1 + |t| + |v|
    ensures j == 0 ==> Layout(t, v)[j] == OutputNode
    ensures 0 < j <= |t| ==> Layout(t, v)[j] == GraphNode(t[j - 1].id, t[j - 1].nodeType, None, Pos(StartX, Row(j - 1)))
    ensures |t| < j ==> Layout(t, v)[j] == GraphNode(v[j - 1 - |t|].id, v[j - 1 - |t|].nodeType, None, Pos(StartX + ColumnSpacing, Row(j - 1 - |t|)))
  {
    var a := [OutputNode] + Column(t, StartX);
    assert Layout(t, v) == a + Column(v, StartX + ColumnSpacing);
    if j > |t| {
      assert Layout(t, v)[j] == Column(v, StartX + ColumnSpacing)[j - 1 - |t|];
    } else if j > 0 {
      assert Layout(t, v)[j] == a[j] == Column(t, StartX)[j - 1];
    }
  }

  /** Edge `j` of the wiring is the edge of the node after the output node's `j`-th successor. */
  lemma {:induction false} WiringAt(t: seq<Entry>, v: seq<Entry>, j: nat)
    requires j < |t| + |v|
    ensures |Wiring(t, v)| == |t| + |v|
    ensures Wiring(t, v)[j] == EdgeInto(EntryAt(t, v, j + 1))
  {
    if j >= |t| {
      assert Wiring(t, v)[j] == EdgesInto(v)[j - |t|];
    }
  }

  /** The fixed tables: distinct ids, texture ids starting with `t`, value ids with `v`. */
  lemma {:induction false} EntryTables()
    ensures DistinctIds(TextureEntries) && DistinctIds(ValueEntries)
    ensures forall e :: e in TextureEntries ==> |e.id| > 0 && e.id[0] == 't' && e.nodeType == "textureInput"
    ensures forall e :: e in ValueEntries ==> |e.id| > 0 && e.id[0] == 'v'
  {
    TextureTable();
    ValueTable();
  }

  lemma {:induction false} TextureTable()
    ensures DistinctIds(TextureEntries)
    ensures forall e :: e in TextureEntries ==> |e.id| > 0 && e.id[0] == 't' && e.nodeType == "textureInput"
  {
  }

  lemma {:induction false} ValueTable()
    ensures DistinctIds(ValueEntries)
    ensures forall e :: e in ValueEntries ==> |e.id| > 0 && e.id[0] == 'v'
  {
  }

  lemma {:induction false} CompleteKeep(es: seq<Entry>, present: seq<bool>)
    requires |es| == |present| && DistinctIds(es)
    ensures forall e :: e in Keep(es, present, |es|) ==> e in es
    ensures forall k :: 0 <= k < |es| ==> (es[k] in Keep(es, present, |es|) <==> present[k])
    ensures DistinctIds(Keep(es, present, |es|))
  {
    KeepSpec(es, present, |es|);
    assert es[..|es|] == es;
  }

  /** Every node after the first has exactly one edge, into the output node. */
  lemma {:induction false} ColumnsEdges(t: seq<Entry>, v: seq<Entry>)
    ensures var nodes := Layout(t, v);
      var edges := Wiring(t, v);
      && |edges| == |nodes| - 1
      && forall j :: 0 <= j < |edges| ==>
           edges[j].source == nodes[j + 1].id && edges[j].target == OutputId
           && edges[j].id == "edge-" + nodes[j + 1].id + "-to-material"
  {
    LayoutAt(t, v, 0);
    forall j | 0 <= j < |t| + |v|
      ensures Wiring(t, v)[j] == EdgeInto(EntryAt(t, v, j + 1)) && Layout(t, v)[j + 1].id == EntryAt(t, v, j + 1).id
    {
      WiringAt(t, v, j);
      LayoutAt(t, v, j + 1);
    }
  }

  /**
   * The first node is the output node at (550, 250); each other node has
   * exactly one edge, into the output node, so there is one edge fewer than
   * nodes.
   */
  lemma {:induction false} MaterialGraphEdges(m: MaterialRecord)
    ensures var (nodes, edges) := MaterialGraphOf(m);
      && nodes[0] == GraphNode("material-output", "materialOutput", None, Pos(550.0, 250.0))
      && |edges| == |nodes| - 1
      && forall j :: 0 <= j < |edges| ==>
           edges[j].source == nodes[j + 1].id && edges[j].target == "material-output"
           && edges[j].id == "edge-" + nodes[j + 1].id + "-to-material"
  {
    ColumnsEdges(PresentTextures(m), PresentValues(m));
  }

  /** The present texture slots: exactly the set ones, each a texture input, with distinct ids starting with `t`. */
  lemma {:induction false} PresentTexturesSpec(m: MaterialRecord)
    ensures var t := PresentTextures(m);
      && (forall k :: 0 <= k < |SlotOrder| ==> (TextureEntries[k] in t <==> m.textures.Get(SlotOrder[k]).Some?))
      && DistinctIds(t)
      && forall k :: 0 <= k < |t| ==> t[k] in TextureEntries && t[k].nodeType == "textureInput" && |t[k].id| > 0 && t[k].id[0] == 't'
  {
    EntryTables();
    CompleteKeep(TextureEntries, TexturePresence(m));
    var t := PresentTextures(m);
    forall k | 0 <= k < |t| ensures t[k] in TextureEntries {
      assert t[k] in t;
    }
  }

  /** The present values: exactly the flagged ones, with distinct ids starting with `v`. */
  lemma {:induction false} PresentValuesSpec(m: MaterialRecord)
    ensures var v := PresentValues(m);
      && (forall k :: 0 <= k < |ValueEntries| ==> (ValueEntries[k] in v <==> ValuePresence(m)[k]))
      && DistinctIds(v)
      && forall k :: 0 <= k < |v| ==> v[k] in ValueEntries && |v[k].id| > 0 && v[k].id[0] == 'v'
  {
    EntryTables();
    CompleteKeep(ValueEntries, ValuePresence(m));
    var v := PresentValues(m);
    forall k | 0 <= k < |v| ensures v[k] in ValueEntries {
      assert v[k] in v;
    }
  }

  /** In any layout, texture node `k` sits at (50, 50 + 120 k) and value node `j` at (300, 50 + 120 j). */
  lemma {:induction false} LayoutPositions(t: seq<Entry>, v: seq<Entry>)
    ensures var nodes := Layout(t, v);
      && |nodes| == 1 + |t| + |v| && nodes[0] == OutputNode
      && (forall k :: 0 <= k < |t| ==> nodes[1 + k] == GraphNode(t[k].id, t[k].nodeType, None, Pos(50.0, 50.0 + 120.0 * k as real)))
      && (forall j :: 0 <= j < |v| ==> nodes[1 + |t| + j] == GraphNode(v[j].id, v[j].nodeType, None, Pos(300.0, 50.0 + 120.0 * j as real)))
  {
    LayoutAt(t, v, 0);
    forall k | 0 <= k < |t| ensures Layout(t, v)[1 + k] == GraphNode(t[k].id, t[k].nodeType, None, Pos(50.0, 50.0 + 120.0 * k as real)) {
      LayoutAt(t, v, 1 + k);
    }
    forall j | 0 <= j < |v| ensures Layout(t, v)[1 + |t| + j] == GraphNode(v[j].id, v[j].nodeType, None, Pos(300.0, 50.0 + 120.0 * j as real)) {
      LayoutAt(t, v, 1 + |t| + j);
    }
  }

  /**
   * Texture nodes: one per present slot, in slot order, the k-th a texture
   * input at (50, 50 + 120 k).
   */
  lemma {:induction false} MaterialGraphTextures(m: MaterialRecord)
    ensures var (nodes, _) := MaterialGraphOf(m);
      var t := PresentTextures(m);
      && 1 + |t| <= |nodes|
      && forall k :: 0 <= k < |t| ==> nodes[1 + k] == GraphNode(t[k].id, "textureInput", None, Pos(50.0, 50.0 + 120.0 * k as real))
  {
    PresentTexturesSpec(m);
    LayoutPositions(PresentTextures(m), PresentValues(m));
  }

  /**
   * Value nodes: the metallic and roughness nodes whenever the factor is
   * present (0 included), the emissive node only with a positive component,
   * the doubleSided node whenever it is defined.
   */
  lemma {:induction false} PresentValueCases(m: MaterialRecord)
    ensures var v := PresentValues(m);
      && (ValueEntries[1] in v <==> m.metallicFactor.Some?)
      && (ValueEntries[2] in v <==> m.roughnessFactor.Some?)
      && (ValueEntries[3] in v <==> m.emissiveFactor.Some? && AnyPositive(m.emissiveFactor.value))
      && (ValueEntries[7] in v <==> m.doubleSided.Some?)
  {
    PresentValuesSpec(m);
  }

  /** The j-th value node sits at (300, 50 + 120 j), whatever the number of textures. */
  lemma {:induction false} MaterialGraphValues(m: MaterialRecord)
    ensures var (nodes, _) := MaterialGraphOf(m);
      var t := PresentTextures(m);
      var v := PresentValues(m);
      && |nodes| == 1 + |t| + |v|
      && forall j :: 0 <= j < |v| ==> nodes[1 + |t| + j].id == v[j].id && nodes[1 + |t| + j].position == Pos(300.0, 50.0 + 120.0 * j as real)
  {
    LayoutPositions(PresentTextures(m), PresentValues(m));
  }

  /** Output, texture and value ids never collide. */
  lemma {:induction false} ColumnsDistinct(t: seq<Entry>, v: seq<Entry>)
    requires DistinctIds(t) && DistinctIds(v)
    requires forall i :: 0 <= i < |t| ==> |t[i].id| > 0 && t[i].id[0] == 't'
    requires forall i :: 0 <= i < |v| ==> |v[i].id| > 0 && v[i].id[0] == 'v'
    ensures NoDup(NodeIds(Layout(t, v)))
  {
    var ids := NodeIds(Layout(t, v));
    LayoutAt(t, v, 0);
    forall j | 0 < j < |ids| ensures ids[j] == EntryAt(t, v, j).id {
      LayoutAt(t, v, j);
    }
    assert ids[0] == OutputId && OutputId[0] == 'm';
    forall i, j | 0 <= i < j < |ids| ensures ids[i] != ids[j] {
      if i > 0 && j <= |t| {
        assert t[i - 1].id != t[j - 1].id;
      } else if i > |t| {
        assert v[i - 1 - |t|].id != v[j - 1 - |t|].id;
      } else if i > 0 {
        assert ids[i][0] == 't' && ids[j][0] == 'v';
      } else {
        assert ids[i][0] == 'm' && ids[j][0] in {'t', 'v'};
      }
    }
  }

  /** No two nodes share an id. */
  lemma {:induction false} MaterialGraphDistinct(m: MaterialRecord)
    ensures NoDup(NodeIds(MaterialGraphOf(m).0))
  {
    PresentTexturesSpec(m);
    PresentValuesSpec(m);
    ColumnsDistinct(PresentTextures(m), PresentValues(m));
  }

  // ---------------------------------------------------------------- the builder

  /** The builder's state after the first `k` entries of a column at `x`: pushed onto `base` and `baseEdges`, next row `y`. */
  ghost predicate ColumnState(es: seq<Entry>, present: seq<bool>, k: nat, x: real,
                              base: seq<GraphNode>, baseEdges: seq<MaterialEdge>,
                              nodes: seq<GraphNode>, edges: seq<MaterialEdge>, y: real)
    requires k <= |es| == |present|
  {
    var kept := Keep(es, present, k);
    nodes == base + Column(kept, x) && edges == baseEdges + EdgesInto(kept) && y == Row(|kept|)
  }

  /** One block of a column: emitting entry `k` when it is present, or nothing, keeps the state. */
  lemma {:induction false} ColumnStep(es: seq<Entry>, present: seq<bool>, k: nat, x: real,
                   base: seq<GraphNode>, baseEdges: seq<MaterialEdge>,
                   nodes: seq<GraphNode>, edges: seq<MaterialEdge>, y: real)
    requires k < |es| == |present| && ColumnState(es, present, k, x, base, baseEdges, nodes, edges, y)
    ensures present[k] ==> ColumnState(es, present, k + 1, x, base, baseEdges,
                                       nodes + [GraphNode(es[k].id, es[k].nodeType, None, Pos(x, y))],
                                       edges + [EdgeInto(es[k])], y + RowSpacing)
    ensures !present[k] ==> ColumnState(es, present, k + 1, x, base, baseEdges, nodes, edges, y)
  {
    var before := Keep(es, present, k);
    var after := Keep(es, present, k + 1);
    if present[k] {
      assert after[..|after| - 1] == before;
      assert base + Column(after, x) == base + Column(before, x) + [GraphNode(es[k].id, es[k].nodeType, None, Pos(x, y))];
      assert baseEdges + EdgesInto(after) == baseEdges + EdgesInto(before) + [EdgeInto(es[k])];
    }
  }

  /**
   * One column's loop: for each entry in table order whose flag is set, push
   * its node at the next row of the column at `x` and its edge into the
   * output node.
   */
  method EmitColumn(es: seq<Entry>, present: seq<bool>, x: real, nodes: seq<GraphNode>, edges: seq<MaterialEdge>)
    returns (nodes': seq<GraphNode>, edges': seq<MaterialEdge>)
    requires |es| == |present|
    ensures nodes' == nodes + Column(Keep(es, present, |es|), x)
    ensures edges' == edges + EdgesInto(Keep(es, present, |es|))
  {
    nodes', edges' := nodes, edges;
    var y := StartY;
    for i := 0 to |es|
      invariant ColumnState(es, present, i, x, nodes, edges, nodes', edges', y)
    {
      ColumnStep(es, present, i, x, nodes, edges, nodes', edges', y);
      if present[i] {
        var e := es[i];
        nodes' := nodes' + [GraphNode(e.id, e.nodeType, None, Pos(x, y))];
        edges' := edges' + [MaterialEdge("edge-" + e.id + "-to-material", e.id, OutputId, e.handle)];
        y := y + RowSpacing;
      }
    }
  }

  /** `buildMaterialGraph`: the output node, the texture column, then the value column. */
  method BuildMaterialGraph(m: MaterialRecord) returns (nodes: seq<GraphNode>, edges: seq<MaterialEdge>)
    ensures (nodes, edges) == MaterialGraphOf(m)
  {
    nodes, edges := EmitColumn(TextureEntries, TexturePresence(m), StartX, [OutputNode], []);
    assert edges == EdgesInto(PresentTextures(m));
    nodes, edges := EmitColumn(ValueEntries, ValuePresence(m), StartX + ColumnSpacing, nodes, edges);
  }
}
