/**
 * Scene extraction (src/utils/gltf/nodeExtractor.js): walks the node, mesh and
 * material tables of a parsed document, fills three object-to-index maps and
 * emits one flat record per table entry, with ids `node-i`, `mesh-i`,
 * `material-i`.
 */
module NodeExtractor {
  import opened Wrappers
  import opened Text
  import opened Seqs
  import opened Bytes
  import opened Gltf
  import opened SceneModel

  function NodeId(k: nat): string { "node-" + NatStr(k) }
  function MeshId(k: nat): string { "mesh-" + NatStr(k) }
  function MaterialId(k: nat): string { "material-" + NatStr(k) }

  /** A template literal over a map lookup: the index, or `undefined` when the key is missing. */
  function IndexText(o: Option<nat>): string {
    match o
    case Some(k) => NatStr(k)
    case None => "undefined"
  }

  lemma {:induction false} PrefixedIdInjective(prefix: string, a: string, b: string)
    requires prefix + a == prefix + b
    ensures a == b
  {
    assert a == (prefix + a)[|prefix|..];
    assert b == (prefix + b)[|prefix|..];
  }

  /**
   * What indexing `keys` into a map, one key at a time, leaves for `k`: the last
   * position of `k`, or nothing when `k` is not listed.
   */
  function KeyIndex(keys: seq<Handle>, k: Handle): (r: Option<nat>)
    ensures r.Some? <==> k in keys
    ensures r.Some? ==> r.value < |keys| && keys[r.value] == k
    ensures r.Some? ==> forall j :: r.value < j < |keys| ==> keys[j] != k
  {
    if keys == [] then None
    else if keys[|keys| - 1] == k then Some(|keys| - 1)
    else KeyIndex(keys[..|keys| - 1], k)
  }

  /** On a duplicate-free table the index map sends the i-th element to i. */
  lemma {:induction false} KeyIndexOfDistinct(keys: seq<Handle>, i: nat)
    requires NoDup(keys) && i < |keys|
    ensures KeyIndex(keys, keys[i]) == Some(i)
  {
  }

  /** `m` is the map that sets each key of `keys` to its index, in order. */
  ghost predicate IndexesKeys(m: map<Handle, nat>, keys: seq<Handle>) {
    && (forall k :: k in m <==> k in keys)
    && (forall k :: k in m ==> KeyIndex(keys, k) == Some(m[k]))
  }

  method BuildIndexMap(keys: seq<Handle>) returns (m: map<Handle, nat>)
    ensures IndexesKeys(m, keys)
  {
    m := map[];
    var i := 0;
    while i < |keys|
      invariant 0 <= i <= |keys|
      invariant IndexesKeys(m, keys[..i])
    {
      assert keys[..i + 1][..i] == keys[..i];
      m := m[keys[i] := i];
      i := i + 1;
    }
    assert keys[..i] == keys;
  }

  function Lookup(m: map<Handle, nat>, k: Handle): Option<nat> {
    if k in m then Some(m[k]) else None
  }

  lemma {:induction false} LookupIndexes(m: map<Handle, nat>, keys: seq<Handle>, k: Handle)
    requires IndexesKeys(m, keys)
    ensures Lookup(m, k) == KeyIndex(keys, k)
  {
  }

  // ---------------------------------------------------------------- textures

  /** A GL enum read with a falsy fallback: 0 and missing both read as absent. */
  function NonZero(o: Option<int>): Option<int> {
    if o.Some? && o.value != 0 then o else None
  }

  function InfoField(info: Option<TextureInfo>, f: TextureInfo -> Option<int>): Option<int> {
    if info.Some? then NonZero(f(info.value)) else None
  }

  /** The texture record `extractTextureData` builds from a texture and its info. */
  function ExtractTextureData(texture: Option<Texture>, info: Option<TextureInfo>): (r: Option<TextureData>)
    ensures r.None? <==> texture.None?
    ensures r.Some? ==> r.value.mimeType != ""
    ensures r.Some? && texture.value.mimeType != "" ==> r.value.mimeType == texture.value.mimeType
    ensures r.Some? && texture.value.mimeType == "" ==> r.value.mimeType == "image/png"
    ensures r.Some? ==>
      (r.value.imageDataUrl.Some? <==> texture.value.image.Some? && |texture.value.image.value| > 0)
    ensures r.Some? && r.value.imageDataUrl.Some? ==>
      r.value.imageDataUrl.value == BlobUrl(texture.value.image.value, r.value.mimeType)
    ensures r.Some? && (info.None? || info.value.texCoord.None?) ==> r.value.texCoord == 0
    ensures r.Some? && info.Some? && info.value.texCoord.Some? ==> r.value.texCoord == info.value.texCoord.value
    ensures r.Some? ==> (r.value.uri.None? <==> texture.value.uri == "")
  {
    match texture
    case None => None
    case Some(t) =>
      var mimeType := if t.mimeType != "" then t.mimeType else "image/png";
      var url := if t.image.Some? && |t.image.value| > 0 then Some(BlobUrl(t.image.value, mimeType)) else None;
      Some(TextureData(
        name := if t.name != "" then t.name else "Unnamed Texture",
        uri := if t.uri != "" then Some(t.uri) else None,
        mimeType := mimeType,
        size := t.size,
        imageDataUrl := url,
        texCoord := if info.Some? then info.value.texCoord.GetOr(0) else 0,
        wrapS := InfoField(info, (i: TextureInfo) => i.wrapS),
        wrapT := InfoField(info, (i: TextureInfo) => i.wrapT),
        magFilter := InfoField(info, (i: TextureInfo) => i.magFilter),
        minFilter := InfoField(info, (i: TextureInfo) => i.minFilter)))
  }

  function SlotTexture(s: Option<TextureSlot>): Option<Texture> {
    if s.Some? then Some(s.value.texture) else None
  }

  function SlotInfo(s: Option<TextureSlot>): Option<TextureInfo> {
    if s.Some? then s.value.info else None
  }

  function SlotData(s: Option<TextureSlot>): Option<TextureData> {
    ExtractTextureData(SlotTexture(s), SlotInfo(s))
  }

  // ---------------------------------------------------------------- records

  function NodeName(name: string, i: nat): string {
    if name != "" then name else "Node " + NatStr(i)
  }

  /** The ids of the children that resolve in the node index map, in source order. */
  function ChildIds(nodeKeys: seq<Handle>, cs: seq<Handle>): (r: seq<string>)
    ensures |r| <= |cs|
    ensures forall x :: x in r ==> exists k :: 0 <= k < |nodeKeys| && x == NodeId(k) && nodeKeys[k] in cs
  {
    if cs == [] then []
    else
      var init := ChildIds(nodeKeys, cs[..|cs| - 1]);
      var last := cs[|cs| - 1];
      assert forall c :: c in cs[..|cs| - 1] ==> c in cs;
      match KeyIndex(nodeKeys, last)
      case Some(k) => init + [NodeId(k)]
      case None => init
  }

  /** `meshId`: `mesh-<index of the referenced mesh>`, or null without a mesh. */
  function MeshRef(meshKeys: seq<Handle>, mesh: Option<Handle>): (r: Option<string>)
    ensures r.None? <==> mesh.None?
  {
    match mesh
    case None => None
    case Some(h) => Some("mesh-" + IndexText(KeyIndex(meshKeys, h)))
  }

  function NodeRecordOf(doc: Document, i: nat): (r: NodeRecord)
    requires i < |doc.nodes|
    ensures r.id == NodeId(i)
    ensures r.subType.None? && r.skinId.None?
  {
    var n := doc.nodes[i];
    NodeRecord(NodeId(i), NodeName(n.name, i), MeshRef(doc.MeshKeys(), n.mesh),
               ChildIds(doc.NodeKeys(), n.children), None, None)
  }

  /** The material id of every primitive that has a material, in primitive order. */
  function MaterialRefs(materialKeys: seq<Handle>, prims: seq<Primitive>): (r: seq<string>)
    ensures |r| <= |prims|
  {
    if prims == [] then []
    else
      var init := MaterialRefs(materialKeys, prims[..|prims| - 1]);
      var p := prims[|prims| - 1];
      if p.material.Some? then init + ["material-" + IndexText(KeyIndex(materialKeys, p.material.value.key))]
      else init
  }

  function MeshName(name: string, i: nat): string {
    if name != "" then name else "Mesh " + NatStr(i)
  }

  function MeshRecordOf(doc: Document, i: nat): (r: MeshRecord)
    requires i < |doc.meshes|
    ensures r.id == MeshId(i)
    ensures r.primitiveCount == |doc.meshes[i].primitives|
    ensures NoDup(r.materialIds)
    ensures forall x :: x in r.materialIds <==> x in MaterialRefs(doc.MaterialKeys(), doc.meshes[i].primitives)
  {
    var m := doc.meshes[i];
    var ids := Dedupe(MaterialRefs(doc.MaterialKeys(), m.primitives));
    DedupeElements(MaterialRefs(doc.MaterialKeys(), m.primitives));
    MeshRecord(MeshId(i), MeshName(m.name, i), |m.primitives|, ids)
  }

  function MaterialName(name: string, i: nat): string {
    if name != "" then name else "Material " + NatStr(i)
  }

  /** A scale or strength kept only when it differs from 1. */
  function UnlessOne(x: real): Option<real> {
    if x != 1.0 then Some(x) else None
  }

  /** The five texture records of a material, one per texture slot. */
  function TexturesOf(m: Material): TextureSet {
    TextureSet(
      SlotData(m.baseColorTexture),
      SlotData(m.metallicRoughnessTexture),
      SlotData(m.normalTexture),
      SlotData(m.occlusionTexture),
      SlotData(m.emissiveTexture))
  }

  lemma {:induction false} TexturesOfSlots(m: Material)
    ensures forall k :: TexturesOf(m).Get(k) == SlotData(m.Slot(k))
  {
    forall k ensures TexturesOf(m).Get(k) == SlotData(m.Slot(k)) {
      match k
      case BaseColorSlot =>
      case MetallicRoughnessSlot =>
      case NormalSlot =>
      case OcclusionSlot =>
      case EmissiveSlot =>
    }
  }

  function MaterialRecordOf(doc: Document, i: nat): (r: MaterialRecord)
    requires i < |doc.materials|
    ensures r.id == MaterialId(i)
  {
    var m := doc.materials[i];
    MaterialRecord(
      id := MaterialId(i),
      name := MaterialName(m.name, i),
      baseColorFactor := Some(m.baseColorFactor),
      metallicFactor := Some(m.metallicFactor),
      roughnessFactor := Some(m.roughnessFactor),
      emissiveFactor := Some(m.emissiveFactor),
      textures := TexturesOf(m),
      normalScale := UnlessOne(m.normalScale),
      occlusionStrength := UnlessOne(m.occlusionStrength),
      alphaMode := m.alphaMode,
      alphaCutoff := if m.alphaMode == Mask then Some(m.alphaCutoff) else None,
      doubleSided := Some(m.doubleSided))
  }

  /**
   * The normalisation of a material record: `alphaCutoff` only in MASK mode,
   * `normalScale` and `occlusionStrength` dropped at their default 1, and one
   * texture entry for each texture slot the material fills.
   */
  lemma {:induction false} MaterialRecordNormalised(doc: Document, i: nat)
    requires i < |doc.materials|
    ensures var r := MaterialRecordOf(doc, i);
      && (r.alphaCutoff.Some? <==> doc.materials[i].alphaMode == Mask)
      && (r.alphaCutoff.Some? ==> r.alphaCutoff.value == doc.materials[i].alphaCutoff)
      && (r.normalScale.None? <==> doc.materials[i].normalScale == 1.0)
      && (r.normalScale.Some? ==> r.normalScale.value == doc.materials[i].normalScale)
      && (r.occlusionStrength.None? <==> doc.materials[i].occlusionStrength == 1.0)
      && (r.occlusionStrength.Some? ==> r.occlusionStrength.value == doc.materials[i].occlusionStrength)
      && (forall k :: r.textures.Get(k).Some? <==> doc.materials[i].Slot(k).Some?)
  {
    TexturesOfSlots(doc.materials[i]);
  }

  predicate HasScene(doc: Document) {
    doc.hasDefaultScene || doc.sceneCount > 0
  }

  // ---------------------------------------------------------------- the walk

  method CollectChildIds(nodeIndex: map<Handle, nat>, ghost nodeKeys: seq<Handle>, cs: seq<Handle>)
    returns (ids: seq<string>)
    requires IndexesKeys(nodeIndex, nodeKeys)
    ensures ids == ChildIds(nodeKeys, cs)
  {
    ids := [];
    for j := 0 to |cs|
      invariant ids == ChildIds(nodeKeys, cs[..j])
    {
      assert cs[..j + 1][..j] == cs[..j];
      var childIndex := Lookup(nodeIndex, cs[j]);
      LookupIndexes(nodeIndex, nodeKeys, cs[j]);
      if childIndex.Some? {
        ids := ids + [NodeId(childIndex.value)];
      }
    }
    assert cs[..|cs|] == cs;
  }

  method CollectMaterialIds(materialIndex: map<Handle, nat>, ghost materialKeys: seq<Handle>, prims: seq<Primitive>)
    returns (ids: seq<string>)
    requires IndexesKeys(materialIndex, materialKeys)
    ensures ids == Dedupe(MaterialRefs(materialKeys, prims))
  {
    ids := [];
    var seen: set<string> := {};
    for j := 0 to |prims|
      invariant ids == Dedupe(MaterialRefs(materialKeys, prims[..j]))
      invariant forall x :: x in seen <==> x in ids
    {
      MaterialRefsStep(materialKeys, prims, j);
      var material := prims[j].material;
      if material.Some? {
        LookupIndexes(materialIndex, materialKeys, material.value.key);
        var materialId := "material-" + IndexText(Lookup(materialIndex, material.value.key));
        if materialId !in seen {
          seen := seen + {materialId};
          ids := ids + [materialId];
        }
      }
    }
    assert prims[..|prims|] == prims;
  }

  /** One more primitive adds its material id, if it has a material, to the references so far. */
  lemma {:induction false} MaterialRefsStep(materialKeys: seq<Handle>, prims: seq<Primitive>, j: nat)
    requires j < |prims|
    ensures var before := Dedupe(MaterialRefs(materialKeys, prims[..j]));
      var after := Dedupe(MaterialRefs(materialKeys, prims[..j + 1]));
      && (prims[j].material.None? ==> after == before)
      && (prims[j].material.Some? ==>
            after == AddNew(before, "material-" + IndexText(KeyIndex(materialKeys, prims[j].material.value.key))))
  {
    assert prims[..j + 1][..j] == prims[..j];
  }

  method ExtractNodes(doc: Document, nodeIndex: map<Handle, nat>, meshIndex: map<Handle, nat>)
    returns (nodes: seq<NodeRecord>)
    requires IndexesKeys(nodeIndex, doc.NodeKeys()) && IndexesKeys(meshIndex, doc.MeshKeys())
    ensures |nodes| == |doc.nodes|
    ensures forall i :: 0 <= i < |doc.nodes| ==> nodes[i] == NodeRecordOf(doc, i)
  {
    nodes := [];
    for i := 0 to |doc.nodes|
      invariant |nodes| == i
      invariant forall j :: 0 <= j < i ==> nodes[j] == NodeRecordOf(doc, j)
    {
      var record := ExtractNode(doc, nodeIndex, meshIndex, i);
      nodes := nodes + [record];
      assert nodes[i] == record;
    }
  }

  /** The record of the `i`-th node: its id, name, mesh id and child ids. */
  method ExtractNode(doc: Document, nodeIndex: map<Handle, nat>, meshIndex: map<Handle, nat>, i: nat)
    returns (record: NodeRecord)
    requires IndexesKeys(nodeIndex, doc.NodeKeys()) && IndexesKeys(meshIndex, doc.MeshKeys())
    requires i < |doc.nodes|
    ensures record == NodeRecordOf(doc, i)
  {
    var node := doc.nodes[i];
    var meshId: Option<string> := None;
    if node.mesh.Some? {
      LookupIndexes(meshIndex, doc.MeshKeys(), node.mesh.value);
      meshId := Some("mesh-" + IndexText(Lookup(meshIndex, node.mesh.value)));
    }
    var children := CollectChildIds(nodeIndex, doc.NodeKeys(), node.children);
    record := NodeRecord(NodeId(i), NodeName(node.name, i), meshId, children, None, None);
  }

  method ExtractMeshes(doc: Document, materialIndex: map<Handle, nat>) returns (meshes: seq<MeshRecord>)
    requires IndexesKeys(materialIndex, doc.MaterialKeys())
    ensures |meshes| == |doc.meshes|
    ensures forall i :: 0 <= i < |doc.meshes| ==> meshes[i] == MeshRecordOf(doc, i)
  {
    meshes := [];
    for i := 0 to |doc.meshes|
      invariant |meshes| == i
      invariant forall j :: 0 <= j < i ==> meshes[j] == MeshRecordOf(doc, j)
    {
      var mesh := doc.meshes[i];
      var materialIds := CollectMaterialIds(materialIndex, doc.MaterialKeys(), mesh.primitives);
      meshes := meshes + [MeshRecord(MeshId(i), MeshName(mesh.name, i), |mesh.primitives|, materialIds)];
    }
  }

  method ExtractMaterials(doc: Document) returns (materials: seq<MaterialRecord>)
    ensures |materials| == |doc.materials|
    ensures forall i :: 0 <= i < |doc.materials| ==> materials[i] == MaterialRecordOf(doc, i)
  {
    materials := [];
    for i := 0 to |doc.materials|
      invariant |materials| == i
      invariant forall j :: 0 <= j < i ==> materials[j] == MaterialRecordOf(doc, j)
    {
      var record := MaterialRecordOf(doc, i);
      materials := materials + [record];
      assert materials[i] == record;
    }
  }

  /** The scene data `extractSceneData` returns for a document. */
  method ExtractSceneData(doc: Document) returns (sd: SceneData)
    ensures !HasScene(doc) ==> sd == EmptyScene
    ensures HasScene(doc) ==> sd.skins == [] && sd.animations == []
    ensures HasScene(doc) ==>
      && |sd.nodes| == |doc.nodes|
      && (forall i :: 0 <= i < |doc.nodes| ==> sd.nodes[i] == NodeRecordOf(doc, i))
    ensures HasScene(doc) ==>
      && |sd.meshes| == |doc.meshes|
      && (forall i :: 0 <= i < |doc.meshes| ==> sd.meshes[i] == MeshRecordOf(doc, i))
    ensures HasScene(doc) ==>
      && |sd.materials| == |doc.materials|
      && (forall i :: 0 <= i < |doc.materials| ==> sd.materials[i] == MaterialRecordOf(doc, i))
  {
    if !HasScene(doc) {
      return EmptyScene;
    }
    var nodeIndex := BuildIndexMap(doc.NodeKeys());
    var meshIndex := BuildIndexMap(doc.MeshKeys());
    var materialIndex := BuildIndexMap(doc.MaterialKeys());

    var nodes := ExtractNodes(doc, nodeIndex, meshIndex);
    var meshes := ExtractMeshes(doc, materialIndex);
    var materials := ExtractMaterials(doc);
    sd := SceneData(nodes, meshes, materials, [], []);
  }

  // ---------------------------------------------------------------- properties

  /** Every extracted node record has its own id. */
  lemma {:induction false} NodeIdsDistinct(doc: Document, i: nat, j: nat)
    requires i < |doc.nodes| && j < |doc.nodes| && i != j
    ensures NodeRecordOf(doc, i).id != NodeRecordOf(doc, j).id
  {
    if NodeId(i) == NodeId(j) {
      PrefixedIdInjective("node-", NatStr(i), NatStr(j));
      NatStrInjective(i, j);
    }
  }

  lemma {:induction false} MeshIdsDistinct(doc: Document, i: nat, j: nat)
    requires i < |doc.meshes| && j < |doc.meshes| && i != j
    ensures MeshRecordOf(doc, i).id != MeshRecordOf(doc, j).id
  {
    if MeshId(i) == MeshId(j) {
      PrefixedIdInjective("mesh-", NatStr(i), NatStr(j));
      NatStrInjective(i, j);
    }
  }

  lemma {:induction false} MaterialIdsDistinct(doc: Document, i: nat, j: nat)
    requires i < |doc.materials| && j < |doc.materials| && i != j
    ensures MaterialRecordOf(doc, i).id != MaterialRecordOf(doc, j).id
  {
    if MaterialId(i) == MaterialId(j) {
      PrefixedIdInjective("material-", NatStr(i), NatStr(j));
      NatStrInjective(i, j);
    }
  }

  /** A node that references the k-th mesh of a duplicate-free mesh table gets `meshId == mesh-k`. */
  lemma {:induction false} MeshIdResolves(doc: Document, i: nat, k: nat)
    requires i < |doc.nodes| && k < |doc.meshes|
    requires NoDup(doc.MeshKeys())
    requires doc.nodes[i].mesh == Some(doc.meshes[k].key)
    ensures NodeRecordOf(doc, i).meshId == Some(MeshId(k))
  {
    assert doc.MeshKeys()[k] == doc.meshes[k].key;
    KeyIndexOfDistinct(doc.MeshKeys(), k);
  }

  /**
   * Over a duplicate-free node table, the k-th node's id is among the emitted
   * children exactly when that node is listed as a child.
   */
  lemma {:induction false} ChildIdsExactly(nodeKeys: seq<Handle>, cs: seq<Handle>, k: nat)
    requires NoDup(nodeKeys) && k < |nodeKeys|
    ensures NodeId(k) in ChildIds(nodeKeys, cs) <==> nodeKeys[k] in cs
  {
    if cs != [] {
      var init := cs[..|cs| - 1];
      var last := cs[|cs| - 1];
      ChildIdsExactly(nodeKeys, init, k);
      assert forall c :: c in cs <==> c in init || c == last;
      var r := KeyIndex(nodeKeys, last);
      if r.Some? {
        if NodeId(r.value) == NodeId(k) {
          PrefixedIdInjective("node-", NatStr(r.value), NatStr(k));
          NatStrInjective(r.value, k);
        }
        if last == nodeKeys[k] {
          KeyIndexOfDistinct(nodeKeys, k);
        }
      }
    }
  }

  /** Every primitive's material contributes its id to `materialIds`, deduplicated in first-seen order. */
  lemma {:induction false} MaterialRefsComplete(materialKeys: seq<Handle>, prims: seq<Primitive>, j: nat)
    requires j < |prims| && prims[j].material.Some?
    ensures "material-" + IndexText(KeyIndex(materialKeys, prims[j].material.value.key)) in MaterialRefs(materialKeys, prims)
  {
    if j < |prims| - 1 {
      assert prims[..|prims| - 1][j] == prims[j];
      MaterialRefsComplete(materialKeys, prims[..|prims| - 1], j);
    }
  }

  /** The references hold exactly the ids of the materials some primitive uses: nothing else appears. */
  lemma {:induction false} MaterialRefsExactly(materialKeys: seq<Handle>, prims: seq<Primitive>, x: string)
    ensures x in MaterialRefs(materialKeys, prims) <==>
            exists j :: 0 <= j < |prims| && prims[j].material.Some? &&
                        x == "material-" + IndexText(KeyIndex(materialKeys, prims[j].material.value.key))
    decreases |prims|
  {
    if prims != [] {
      var init := prims[..|prims| - 1];
      var n := |prims| - 1;
      MaterialRefsExactly(materialKeys, init, x);
      if x in MaterialRefs(materialKeys, prims) {
        if x !in MaterialRefs(materialKeys, init) {
          assert prims[n].material.Some? &&
                 x == "material-" + IndexText(KeyIndex(materialKeys, prims[n].material.value.key));
        } else {
          var j :| 0 <= j < |init| && init[j].material.Some? &&
                   x == "material-" + IndexText(KeyIndex(materialKeys, init[j].material.value.key));
          assert prims[j] == init[j];
        }
      } else {
        forall j | 0 <= j < |prims| && prims[j].material.Some?
          ensures x != "material-" + IndexText(KeyIndex(materialKeys, prims[j].material.value.key))
        {
          MaterialRefsComplete(materialKeys, prims, j);
        }
      }
    }
  }

  /** A mesh record's `materialIds` are exactly the ids of the materials its primitives use. */
  lemma {:induction false} MeshMaterialIdsExactly(doc: Document, i: nat, x: string)
    requires i < |doc.meshes|
    ensures var prims := doc.meshes[i].primitives;
            x in MeshRecordOf(doc, i).materialIds <==>
            exists j :: 0 <= j < |prims| && prims[j].material.Some? &&
                        x == "material-" + IndexText(KeyIndex(doc.MaterialKeys(), prims[j].material.value.key))
  {
    MaterialRefsExactly(doc.MaterialKeys(), doc.meshes[i].primitives, x);
  }

  lemma {:induction false} MeshMaterialIdsOrder(doc: Document, i: nat, a: nat, b: nat)
    requires i < |doc.meshes|
    requires a < b < |MeshRecordOf(doc, i).materialIds|
    ensures var refs := MaterialRefs(doc.MaterialKeys(), doc.meshes[i].primitives);
            var ids := MeshRecordOf(doc, i).materialIds;
            ids[a] in refs && ids[b] in refs && FirstIndex(refs, ids[a]) < FirstIndex(refs, ids[b])
  {
    DedupeFirstSeenOrder(MaterialRefs(doc.MaterialKeys(), doc.meshes[i].primitives), a, b);
  }
}
