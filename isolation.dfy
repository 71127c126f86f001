/**
 * Single-mesh isolation (src/utils/gltf/separator.js): a new glTF document
 * holding one buffer, one copy of the chosen mesh whose primitives mirror the
 * source one-for-one, one node and one default scene, and either one shared
 * grey material or a manual copy of each primitive's material.
 *
 * The new document is an arena: accessors, textures and materials are
 * listed in creation order, and primitives, nodes and scenes refer to them by
 * position, as the document library's object references do.
 */
module Isolation {
  import opened Wrappers
  import opened Bytes
  import opened Text
  import opened Gltf

  /** The attribute semantics copied, in the order they are visited. */
  const AttributeNames: seq<string> := ["POSITION", "NORMAL", "TEXCOORD_0", "TEXCOORD_1", "COLOR_0", "TANGENT"]

  datatype OutAccessor = OutAccessor(typeName: string, values: seq<real>, normalized: bool)

  /** A created texture; `mimeType` is "" and a sampler field `None` while unset. */
  datatype OutTexture = OutTexture(
    name: string,
    image: Option<seq<byte>>,
    mimeType: string,
    magFilter: Option<int>,
    minFilter: Option<int>,
    wrapS: Option<int>,
    wrapT: Option<int>)

  /** The texture-info fields set on a copied slot; `None` leaves the library default. */
  datatype OutTextureInfo = OutTextureInfo(texCoord: Option<int>, scale: Option<real>, strength: Option<real>)

  datatype OutSlot = OutSlot(texture: nat, info: OutTextureInfo)

  datatype OutMaterial = OutMaterial(
    name: string,
    baseColorFactor: seq<real>,
    metallicFactor: real,
    roughnessFactor: real,
    emissiveFactor: seq<real>,
    alphaMode: AlphaMode,
    alphaCutoff: real,
    doubleSided: bool,
    baseColorTexture: Option<OutSlot>,
    metallicRoughnessTexture: Option<OutSlot>,
    normalTexture: Option<OutSlot>,
    occlusionTexture: Option<OutSlot>,
    emissiveTexture: Option<OutSlot>)
  {
    function Slot(k: SlotKind): Option<OutSlot> {
      match k
      case BaseColorSlot => baseColorTexture
      case MetallicRoughnessSlot => metallicRoughnessTexture
      case NormalSlot => normalTexture
      case OcclusionSlot => occlusionTexture
      case EmissiveSlot => emissiveTexture
    }
  }

  /** A cloned primitive: attribute semantics and indices name accessors, `material` a material, by position. */
  datatype OutPrimitive = OutPrimitive(attributes: map<string, nat>, indices: Option<nat>, mode: int, material: Option<nat>)

  datatype OutMesh = OutMesh(name: string, primitives: seq<OutPrimitive>)

  datatype OutNode = OutNode(name: string, mesh: Option<nat>)

  datatype OutScene = OutScene(name: string, children: seq<nat>)

  /** The isolated document; `M` is what its materials list holds. */
  datatype OutDocument<M> = OutDocument(
    asset: Asset,
    buffers: seq<string>,
    accessors: seq<OutAccessor>,
    textures: seq<OutTexture>,
    materials: seq<M>,
    meshes: seq<OutMesh>,
    nodes: seq<OutNode>,
    scenes: seq<OutScene>,
    defaultScene: Option<nat>)

  // ---------------------------------------------------------------- guards and small helpers

  /**
   * `findMeshById`: the table index `parseInt` reads after the first `-`,
   * when it names a mesh of the table; `None` for `null`.
   */
  function FindMeshById(doc: Document, meshId: string): (r: Option<nat>)
    ensures r.Some? ==> r.value < |doc.meshes|
  {
    match SecondSegment(meshId, '-')
    case None => None
    case Some(digits) =>
      match ParseIntPrefix(digits)
      case None => None
      case Some(k) => if 0 <= k < |doc.meshes| then Some(k as nat) else None
  }

  /** Every id the scene extraction gives a mesh finds that mesh. */
  lemma {:induction false} FindMeshByIdRoundTrip(doc: Document, k: nat)
    requires k < |doc.meshes|
    ensures FindMeshById(doc, "mesh-" + NatStr(k)) == Some(k)
  {
    var id := "mesh-" + NatStr(k);
    assert FirstSegment(id, '-') == "mesh" by {
      assert id[..4] == "mesh" && id[4] == '-';
      FirstSegmentStops(id, 4);
    }
    assert id[5..] == NatStr(k);
    assert '-' !in NatStr(k) by {
      forall i | 0 <= i < |NatStr(k)| ensures NatStr(k)[i] != '-' {
        assert IsDigit(NatStr(k)[i]);
      }
    }
    FirstSegmentWhole(NatStr(k), '-');
    ParseNatStr(k);
  }

  lemma {:induction false} FirstSegmentStops(s: string, n: nat)
    requires n < |s| && s[n] == '-' && '-' !in s[..n]
    ensures FirstSegment(s, '-') == s[..n]
  {
    if n > 0 {
      assert s[0] == s[..n][0];
      assert s[1..][..n - 1] == s[..n][1..];
      FirstSegmentStops(s[1..], n - 1);
    }
  }

  lemma {:induction false} FirstSegmentWhole(s: string, sep: char)
    requires sep !in s
    ensures FirstSegment(s, sep) == s
  {
    if s != [] {
      assert s[0] in s;
      assert forall c :: c in s[1..] ==> c in s;
      FirstSegmentWhole(s[1..], sep);
    }
  }

  /** An id whose part after the first `-` parses to an index outside the table finds nothing. */
  lemma {:induction false} FindMeshByIdOutOfRange(doc: Document, meshId: string, digits: string, k: int)
    requires SecondSegment(meshId, '-') == Some(digits) && ParseIntPrefix(digits) == Some(k)
    requires k < 0 || k >= |doc.meshes|
    ensures FindMeshById(doc, meshId).None?
  {
  }

  /** The error `buildIsolatedDocument` throws for an id that does not resolve. */
  function NotFoundMessage(meshId: string): string {
    "Mesh with ID " + meshId + " not found"
  }

  /** A material as the document creates it under a name: the glTF 2.0 defaults. */
  function FreshMaterial(name: string): OutMaterial {
    OutMaterial(name, [1.0, 1.0, 1.0, 1.0], 1.0, 1.0, [0.0, 0.0, 0.0], Opaque, 0.5, false, None, None, None, None, None)
  }

  /** `createGreyMaterial`. */
  function GreyMaterial(): (m: OutMaterial)
    ensures m.baseColorFactor == [0.25, 0.25, 0.25, 1.0] && m.metallicFactor == 0.0 && m.roughnessFactor == 0.25
    ensures forall k :: m.Slot(k).None?
  {
    FreshMaterial("IsolatedGreyMaterial").(baseColorFactor := [0.25, 0.25, 0.25, 1.0], metallicFactor := 0.0, roughnessFactor := 0.25)
  }

  /**
   * The asset block: each of generator, version and copyright is taken from
   * the source when it is non-empty, else left as the new document's default.
   */
  function CopyAsset(source: Asset, defaults: Asset): Asset {
    Asset(
      if source.generator != "" then source.generator else defaults.generator,
      if source.version != "" then source.version else defaults.version,
      if source.copyright != "" then source.copyright else defaults.copyright)
  }

  /**
   * `cleanupBlobUrl`: the URL revoked, if any. Only a string starting with
   * `blob:` is revoked.
   */
  function CleanupBlobUrl(url: Option<string>): (revoked: Option<string>)
    ensures revoked.Some? <==> url.Some? && StartsWith(url.value, "blob:")
    ensures revoked.Some? ==> revoked == url
  {
    if url.Some? && url.value != "" && StartsWith(url.value, "blob:") then url else None
  }

  // ---------------------------------------------------------------- copying accessors

  /** The source primitive has attribute `name` with its array loaded. */
  predicate Copied(p: Primitive, name: string) {
    name in p.attributes && p.attributes[name].values.Some?
  }

  predicate IndicesCopied(p: Primitive) {
    p.indices.Some? && p.indices.value.values.Some?
  }

  /** A copy of a vertex attribute accessor: type, array and normalized flag. */
  function CopyAccessor(a: Accessor): OutAccessor
    requires a.values.Some?
  {
    OutAccessor(a.typeName, a.values.value, a.normalized)
  }

  /** A copy of an index accessor: type and array; the normalized flag keeps its default. */
  function CopyIndexAccessor(a: Accessor): OutAccessor
    requires a.values.Some?
  {
    OutAccessor(a.typeName, a.values.value, false)
  }

  /** The accessors created and the attribute map after the first `k` semantics. */
  function CopyAttributes(acc: seq<OutAccessor>, p: Primitive, k: nat): (seq<OutAccessor>, map<string, nat>)
    requires k <= |AttributeNames|
  {
    if k == 0 then (acc, map[])
    else
      var (a, m) := CopyAttributes(acc, p, k - 1);
      var name := AttributeNames[k - 1];
      if Copied(p, name) then (a + [CopyAccessor(p.attributes[name])], m[name := |a|]) else (a, m)
  }

  /** How many of the first `k` semantics are copied. */
  function CopiedCount(p: Primitive, k: nat): nat
    requires k <= |AttributeNames|
  {
    if k == 0 then 0 else CopiedCount(p, k - 1) + (if Copied(p, AttributeNames[k - 1]) then 1 else 0)
  }

  function CopyIndices(acc: seq<OutAccessor>, p: Primitive): (seq<OutAccessor>, Option<nat>) {
    if IndicesCopied(p) then (acc + [CopyIndexAccessor(p.indices.value)], Some(|acc|)) else (acc, None)
  }

  /** `acc'` keeps `acc` as its prefix. */
  ghost predicate Grows<T>(acc: seq<T>, acc': seq<T>) {
    |acc| <= |acc'| && forall i :: 0 <= i < |acc| ==> acc'[i] == acc[i]
  }

  /**
   * After the first `k` semantics: a semantic is in the map iff it is one of
   * them and the source has it with an array, and it names a new accessor
   * holding the copy; one accessor is created per copied semantic.
   */
  lemma {:induction false} CopyAttributesSpec(acc: seq<OutAccessor>, p: Primitive, k: nat)
    requires k <= |AttributeNames|
    ensures var (a, m) := CopyAttributes(acc, p, k);
      && Grows(acc, a) && |a| == |acc| + CopiedCount(p, k)
      && (forall name :: name in m <==> name in AttributeNames[..k] && Copied(p, name))
      && (forall name :: name in m ==> Copied(p, name) && |acc| <= m[name] < |a| && a[m[name]] == CopyAccessor(p.attributes[name]))
  {
    if k > 0 {
      CopyAttributesSpec(acc, p, k - 1);
      assert AttributeNames[..k] == AttributeNames[..k - 1] + [AttributeNames[k - 1]];
      assert AttributeNames[k - 1] !in AttributeNames[..k - 1];
    }
  }

  // ---------------------------------------------------------------- copying materials and textures

  /**
   * `copyTexture`: name; image and, when non-empty, the MIME type only when
   * an image exists; each sampler field only when it is set.
   */
  function CopyTexture(t: Texture): (r: OutTexture)
    ensures r.name == t.name && r.image == t.image
    ensures r.mimeType == (if t.image.Some? then t.mimeType else "")
    ensures r.magFilter == t.magFilter && r.minFilter == t.minFilter && r.wrapS == t.wrapS && r.wrapT == t.wrapT
  {
    var r := OutTexture(t.name, None, "", None, None, None, None);
    var r := if t.image.Some? then r.(image := t.image, mimeType := if t.mimeType != "" then t.mimeType else r.mimeType) else r;
    var r := if t.magFilter.Some? then r.(magFilter := t.magFilter) else r;
    var r := if t.minFilter.Some? then r.(minFilter := t.minFilter) else r;
    var r := if t.wrapS.Some? then r.(wrapS := t.wrapS) else r;
    if t.wrapT.Some? then r.(wrapT := t.wrapT) else r
  }

  /**
   * The texture-info fields copied for slot `k`: texCoord for every slot,
   * scale for the normal slot and strength for the occlusion slot, each when
   * the source exposes it.
   */
  function CopyInfo(k: SlotKind, info: Option<TextureInfo>): OutTextureInfo {
    match info
    case None => OutTextureInfo(None, None, None)
    case Some(i) =>
      OutTextureInfo(i.texCoord, if k == NormalSlot then i.scale else None, if k == OcclusionSlot then i.strength else None)
  }

  /** One texture slot: a filled slot creates one texture. */
  function CopySlot(textures: seq<OutTexture>, k: SlotKind, slot: Option<TextureSlot>): (seq<OutTexture>, Option<OutSlot>) {
    match slot
    case None => (textures, None)
    case Some(s) => (textures + [CopyTexture(s.texture)], Some(OutSlot(|textures|, CopyInfo(k, s.info))))
  }

  /** The manual material copy: factors, alpha and sidedness, then the five slots in order. */
  function CloneMaterial(textures: seq<OutTexture>, m: Material): (seq<OutTexture>, OutMaterial) {
    var (t1, bc) := CopySlot(textures, BaseColorSlot, m.baseColorTexture);
    var (t2, mr) := CopySlot(t1, MetallicRoughnessSlot, m.metallicRoughnessTexture);
    var (t3, nt) := CopySlot(t2, NormalSlot, m.normalTexture);
    var (t4, ot) := CopySlot(t3, OcclusionSlot, m.occlusionTexture);
    var (t5, et) := CopySlot(t4, EmissiveSlot, m.emissiveTexture);
    (t5, OutMaterial(m.name, m.baseColorFactor, m.metallicFactor, m.roughnessFactor, m.emissiveFactor,
                     m.alphaMode, m.alphaCutoff, m.doubleSided, bc, mr, nt, ot, et))
  }

  /** `c` is a manual copy of `m`: every factor kept, and a slot filled iff the source slot is. */
  predicate CopyOf(c: OutMaterial, m: Material) {
    && c.name == m.name && c.baseColorFactor == m.baseColorFactor
    && c.metallicFactor == m.metallicFactor && c.roughnessFactor == m.roughnessFactor
    && c.emissiveFactor == m.emissiveFactor && c.alphaMode == m.alphaMode
    && c.alphaCutoff == m.alphaCutoff && c.doubleSided == m.doubleSided
    && (forall k :: c.Slot(k).Some? <==> m.Slot(k).Some?)
  }

  /** Slot `k` of `c` points into `t` at a copy of the texture of `m`'s slot `k`, past `lo`. */
  ghost predicate SlotPoints(t: seq<OutTexture>, lo: nat, s: Option<OutSlot>, src: Option<TextureSlot>) {
    s.Some? ==> src.Some? && lo <= s.value.texture < |t| && t[s.value.texture] == CopyTexture(src.value.texture)
  }

  lemma {:induction false} SlotPointsGrows(t: seq<OutTexture>, t': seq<OutTexture>, lo: nat, s: Option<OutSlot>, src: Option<TextureSlot>)
    requires SlotPoints(t, lo, s, src) && Grows(t, t')
    ensures SlotPoints(t', lo, s, src)
  {
  }

  /** Every filled slot of `c` points into `t` at a copy of the texture of the matching slot of `m`. */
  ghost predicate MaterialPoints(t: seq<OutTexture>, c: OutMaterial, m: Material) {
    forall k :: SlotPoints(t, 0, c.Slot(k), m.Slot(k))
  }

  lemma {:induction false} MaterialPointsGrows(t: seq<OutTexture>, t': seq<OutTexture>, c: OutMaterial, m: Material)
    requires MaterialPoints(t, c, m) && Grows(t, t')
    ensures MaterialPoints(t', c, m)
  {
    forall k ensures SlotPoints(t', 0, c.Slot(k), m.Slot(k)) {
      SlotPointsGrows(t, t', 0, c.Slot(k), m.Slot(k));
    }
  }

  lemma {:induction false} GrowsTrans<T>(a: seq<T>, b: seq<T>, c: seq<T>)
    requires Grows(a, b) && Grows(b, c)
    ensures Grows(a, c)
  {
  }

  /** The copy keeps every factor, and a filled slot points at a new copy of its texture. */
  lemma {:induction false} CloneMaterialSpec(textures: seq<OutTexture>, m: Material)
    ensures Grows(textures, CloneMaterial(textures, m).0)
    ensures CopyOf(CloneMaterial(textures, m).1, m)
    ensures MaterialPoints(CloneMaterial(textures, m).0, CloneMaterial(textures, m).1, m)
  {
    var (t1, bc) := CopySlot(textures, BaseColorSlot, m.baseColorTexture);
    var (t2, mr) := CopySlot(t1, MetallicRoughnessSlot, m.metallicRoughnessTexture);
    var (t3, nt) := CopySlot(t2, NormalSlot, m.normalTexture);
    var (t4, ot) := CopySlot(t3, OcclusionSlot, m.occlusionTexture);
    var (t5, et) := CopySlot(t4, EmissiveSlot, m.emissiveTexture);
    var c := OutMaterial(m.name, m.baseColorFactor, m.metallicFactor, m.roughnessFactor, m.emissiveFactor,
                         m.alphaMode, m.alphaCutoff, m.doubleSided, bc, mr, nt, ot, et);
    assert CloneMaterial(textures, m) == (t5, c);
    SlotStep(textures, t1, BaseColorSlot, m.baseColorTexture, bc);
    SlotStep(t1, t2, MetallicRoughnessSlot, m.metallicRoughnessTexture, mr);
    SlotStep(t2, t3, NormalSlot, m.normalTexture, nt);
    SlotStep(t3, t4, OcclusionSlot, m.occlusionTexture, ot);
    SlotStep(t4, t5, EmissiveSlot, m.emissiveTexture, et);
    SlotsLand(textures, t1, t2, t3, t4, t5, c, m);
  }

  /** One slot step: the texture list grows, the slot is filled iff its source is, and it points at its copy. */
  lemma {:induction false} SlotStep(t: seq<OutTexture>, t': seq<OutTexture>, k: SlotKind, src: Option<TextureSlot>, s: Option<OutSlot>)
    requires (t', s) == CopySlot(t, k, src)
    ensures Grows(t, t') && (s.Some? <==> src.Some?) && SlotPoints(t', 0, s, src)
  {
  }

  /** The five slot results, each pointing into its own step's list, all point into the final list. */
  lemma {:induction false} SlotsLand(t0: seq<OutTexture>, t1: seq<OutTexture>, t2: seq<OutTexture>, t3: seq<OutTexture>, t4: seq<OutTexture>,
                  t5: seq<OutTexture>, c: OutMaterial, m: Material)
    requires Grows(t0, t1) && Grows(t1, t2) && Grows(t2, t3) && Grows(t3, t4) && Grows(t4, t5)
    requires SlotPoints(t1, 0, c.baseColorTexture, m.baseColorTexture)
    requires SlotPoints(t2, 0, c.metallicRoughnessTexture, m.metallicRoughnessTexture)
    requires SlotPoints(t3, 0, c.normalTexture, m.normalTexture)
    requires SlotPoints(t4, 0, c.occlusionTexture, m.occlusionTexture)
    requires SlotPoints(t5, 0, c.emissiveTexture, m.emissiveTexture)
    ensures Grows(t0, t5) && MaterialPoints(t5, c, m)
  {
    GrowsTrans(t3, t4, t5);
    GrowsTrans(t2, t3, t5);
    GrowsTrans(t1, t2, t5);
    GrowsTrans(t0, t1, t5);
    SlotPointsGrows(t1, t5, 0, c.baseColorTexture, m.baseColorTexture);
    SlotPointsGrows(t2, t5, 0, c.metallicRoughnessTexture, m.metallicRoughnessTexture);
    SlotPointsGrows(t3, t5, 0, c.normalTexture, m.normalTexture);
    SlotPointsGrows(t4, t5, 0, c.occlusionTexture, m.occlusionTexture);
  }

  // ---------------------------------------------------------------- cloning primitives

  datatype Arena<M> = Arena(accessors: seq<OutAccessor>, textures: seq<OutTexture>, materials: seq<M>)

  /**
   * One iteration of the primitive loop: the copied attributes, then the
   * indices, the mode, and material 0 (the grey one) or a fresh copy of the
   * source material.
   */
  function ClonePrimitive(arena: Arena<OutMaterial>, p: Primitive, useGrey: bool): (Arena<OutMaterial>, OutPrimitive) {
    var (a1, attributes) := CopyAttributes(arena.accessors, p, |AttributeNames|);
    var (a2, indices) := CopyIndices(a1, p);
    if useGrey then (arena.(accessors := a2), OutPrimitive(attributes, indices, p.mode, Some(0)))
    else
      match p.material
      case None => (arena.(accessors := a2), OutPrimitive(attributes, indices, p.mode, None))
      case Some(m) =>
        var (textures, c) := CloneMaterial(arena.textures, m);
        (Arena(a2, textures, arena.materials + [c]), OutPrimitive(attributes, indices, p.mode, Some(|arena.materials|)))
  }

  /** The arena and cloned primitives after the first `n` source primitives. */
  function ClonePrimitives(start: Arena<OutMaterial>, prims: seq<Primitive>, n: nat, useGrey: bool): (r: (Arena<OutMaterial>, seq<OutPrimitive>))
    requires n <= |prims|
    ensures |r.1| == n
  {
    if n == 0 then (start, [])
    else
      var (arena, out) := ClonePrimitives(start, prims, n - 1, useGrey);
      var (arena', q) := ClonePrimitive(arena, prims[n - 1], useGrey);
      (arena', out + [q])
  }

  /** `buildIsolatedDocument` as a value. */
  function IsolatedDocument(source: Document, meshId: string, useGrey: bool, defaults: Asset): Result<OutDocument<OutMaterial>> {
    match FindMeshById(source, meshId)
    case None => Failure(NotFoundMessage(meshId))
    case Some(k) =>
      var mesh := source.meshes[k];
      var start := Arena([], [], if useGrey then [GreyMaterial()] else []);
      var (arena, prims) := ClonePrimitives(start, mesh.primitives, |mesh.primitives|, useGrey);
      Success(OutDocument(
        CopyAsset(source.asset, defaults), ["isolated-buffer"], arena.accessors, arena.textures, arena.materials,
        [OutMesh(mesh.name, prims)], [OutNode("IsolatedNode_" + meshId, Some(0))], [OutScene("IsolatedScene", [0])], Some(0)))
  }

  // ---------------------------------------------------------------- properties

  /** A cloned primitive copies exactly the present attributes and indices from the source, and its mode. */
  ghost predicate Mirrors(accessors: seq<OutAccessor>, q: OutPrimitive, p: Primitive) {
    && q.mode == p.mode
    && (forall name :: name in q.attributes <==> name in AttributeNames && Copied(p, name))
    && (forall name :: name in q.attributes ==>
          Copied(p, name) && q.attributes[name] < |accessors| && accessors[q.attributes[name]] == CopyAccessor(p.attributes[name]))
    && (q.indices.Some? <==> IndicesCopied(p))
    && (q.indices.Some? ==>
          IndicesCopied(p) && q.indices.value < |accessors| && accessors[q.indices.value] == CopyIndexAccessor(p.indices.value))
  }

  lemma {:induction false} MirrorsGrows(accessors: seq<OutAccessor>, accessors': seq<OutAccessor>, q: OutPrimitive, p: Primitive)
    requires Mirrors(accessors, q, p) && Grows(accessors, accessors')
    ensures Mirrors(accessors', q, p)
  {
  }

  /** The accessors one primitive contributes. */
  function AccessorCount(p: Primitive): nat {
    CopiedCount(p, |AttributeNames|) + (if IndicesCopied(p) then 1 else 0)
  }

  function AccessorTotal(prims: seq<Primitive>, n: nat): nat
    requires n <= |prims|
  {
    if n == 0 then 0 else AccessorTotal(prims, n - 1) + AccessorCount(prims[n - 1])
  }

  lemma {:induction false} ClonePrimitiveSpec(arena: Arena<OutMaterial>, p: Primitive, useGrey: bool)
    ensures var (arena', q) := ClonePrimitive(arena, p, useGrey);
      && Grows(arena.accessors, arena'.accessors) && Grows(arena.textures, arena'.textures)
      && Grows(arena.materials, arena'.materials)
      && |arena'.accessors| == |arena.accessors| + AccessorCount(p)
      && Mirrors(arena'.accessors, q, p)
      && (useGrey ==> arena'.materials == arena.materials && q.material == Some(0))
      && (!useGrey ==> (q.material.Some? <==> p.material.Some?))
      && (!useGrey && p.material.None? ==> arena'.materials == arena.materials)
      && (!useGrey && p.material.Some? ==> arena'.materials == arena.materials + [CloneMaterial(arena.textures, p.material.value).1]
                                           && q.material == Some(|arena.materials|))
  {
    CopyAttributesSpec(arena.accessors, p, |AttributeNames|);
    assert AttributeNames[..|AttributeNames|] == AttributeNames;
    var (a1, attributes) := CopyAttributes(arena.accessors, p, |AttributeNames|);
    var (a2, indices) := CopyIndices(a1, p);
    assert Grows(a1, a2);
    if p.material.Some? {
      CloneMaterialSpec(arena.textures, p.material.value);
    }
  }

  /** After the first `n` primitives the accessors grow by each primitive's count, and each clone mirrors its source. */
  lemma {:induction false} ClonePrimitivesGeometry(start: Arena<OutMaterial>, prims: seq<Primitive>, n: nat, useGrey: bool)
    requires n <= |prims|
    ensures var (arena, out) := ClonePrimitives(start, prims, n, useGrey);
      && Grows(start.accessors, arena.accessors)
      && |arena.accessors| == |start.accessors| + AccessorTotal(prims, n)
      && (forall i :: 0 <= i < n ==> Mirrors(arena.accessors, out[i], prims[i]))
  {
    if n > 0 {
      ClonePrimitivesGeometry(start, prims, n - 1, useGrey);
      var (arena, out) := ClonePrimitives(start, prims, n - 1, useGrey);
      ClonePrimitiveSpec(arena, prims[n - 1], useGrey);
      var (arena', q) := ClonePrimitive(arena, prims[n - 1], useGrey);
      forall i | 0 <= i < n - 1 ensures Mirrors(arena'.accessors, out[i], prims[i]) {
        MirrorsGrows(arena.accessors, arena'.accessors, out[i], prims[i]);
      }
      GrowsTrans(start.accessors, arena.accessors, arena'.accessors);
    }
  }

  /** With the grey option no material is added and every clone uses material 0. */
  lemma {:induction false} ClonePrimitivesGrey(start: Arena<OutMaterial>, prims: seq<Primitive>, n: nat)
    requires n <= |prims|
    ensures var (arena, out) := ClonePrimitives(start, prims, n, true);
      arena.materials == start.materials && forall i :: 0 <= i < n ==> out[i].material == Some(0)
  {
    if n > 0 {
      ClonePrimitivesGrey(start, prims, n - 1);
      var (arena, out) := ClonePrimitives(start, prims, n - 1, true);
      ClonePrimitiveSpec(arena, prims[n - 1], true);
    }
  }

  /**
   * Without it, one fresh material is added per primitive that has a
   * material, in order: a clone has a material iff its source has, and no two
   * clones share one.
   */
  lemma {:induction false} ClonePrimitivesCopies(start: Arena<OutMaterial>, prims: seq<Primitive>, n: nat)
    requires n <= |prims|
    ensures var (arena, out) := ClonePrimitives(start, prims, n, false);
      && Grows(start.materials, arena.materials)
      && |arena.materials| == |start.materials| + MaterialCount(prims, n)
      && (forall i :: 0 <= i < n ==> (out[i].material.Some? <==> prims[i].material.Some?))
      && (forall i :: 0 <= i < n && out[i].material.Some? ==> |start.materials| <= out[i].material.value < |arena.materials|)
      && (forall i, j :: 0 <= i < j < n && out[i].material.Some? && out[j].material.Some? ==>
            out[i].material.value < out[j].material.value)
  {
    if n > 0 {
      ClonePrimitivesCopies(start, prims, n - 1);
      var (arena, out) := ClonePrimitives(start, prims, n - 1, false);
      ClonePrimitiveSpec(arena, prims[n - 1], false);
      var (arena', q) := ClonePrimitive(arena, prims[n - 1], false);
      GrowsTrans(start.materials, arena.materials, arena'.materials);
    }
  }

  /** Each clone's material is a copy of its source's, whose filled slots point at copies of the source textures. */
  ghost predicate MaterialsMatch(arena: Arena<OutMaterial>, out: seq<OutPrimitive>, prims: seq<Primitive>)
    requires |out| <= |prims|
  {
    forall i :: 0 <= i < |out| && out[i].material.Some? ==>
      && prims[i].material.Some? && out[i].material.value < |arena.materials|
      && CopyOf(arena.materials[out[i].material.value], prims[i].material.value)
      && MaterialPoints(arena.textures, arena.materials[out[i].material.value], prims[i].material.value)
  }

  lemma {:induction false} MaterialsMatchStep(arena: Arena<OutMaterial>, out: seq<OutPrimitive>, prims: seq<Primitive>)
    requires |out| < |prims| && MaterialsMatch(arena, out, prims)
    ensures var (arena', q) := ClonePrimitive(arena, prims[|out|], false);
      MaterialsMatch(arena', out + [q], prims)
  {
    var p := prims[|out|];
    ClonePrimitiveSpec(arena, p, false);
    var (arena', q) := ClonePrimitive(arena, p, false);
    forall i | 0 <= i < |out| && out[i].material.Some?
      ensures MaterialPoints(arena'.textures, arena'.materials[out[i].material.value], prims[i].material.value)
    {
      assert arena'.materials[out[i].material.value] == arena.materials[out[i].material.value];
      MaterialPointsGrows(arena.textures, arena'.textures, arena.materials[out[i].material.value], prims[i].material.value);
    }
    if p.material.Some? {
      CloneMaterialSpec(arena.textures, p.material.value);
      assert arena'.materials[|arena.materials|] == CloneMaterial(arena.textures, p.material.value).1;
    }
    assert (out + [q])[|out|] == q;
  }

  lemma {:induction false} ClonePrimitivesMatch(start: Arena<OutMaterial>, prims: seq<Primitive>, n: nat)
    requires n <= |prims| && start.materials == []
    ensures var (arena, out) := ClonePrimitives(start, prims, n, false);
      MaterialsMatch(arena, out, prims)
  {
    if n > 0 {
      ClonePrimitivesMatch(start, prims, n - 1);
      var (arena, out) := ClonePrimitives(start, prims, n - 1, false);
      MaterialsMatchStep(arena, out, prims);
    }
  }

  /** How many of the first `n` primitives have a material. */
  function MaterialCount(prims: seq<Primitive>, n: nat): nat
    requires n <= |prims|
  {
    if n == 0 then 0 else MaterialCount(prims, n - 1) + (if prims[n - 1].material.Some? then 1 else 0)
  }

  /** An id that does not resolve fails with the not-found message, and only such an id fails. */
  lemma {:induction false} IsolatedDocumentFails(source: Document, meshId: string, useGrey: bool, defaults: Asset)
    ensures IsolatedDocument(source, meshId, useGrey, defaults).Failure? <==> FindMeshById(source, meshId).None?
    ensures IsolatedDocument(source, meshId, useGrey, defaults).Failure? ==>
            IsolatedDocument(source, meshId, useGrey, defaults).error == NotFoundMessage(meshId)
  {
  }

  /**
   * The isolated document: one buffer, one mesh mirroring the source mesh's
   * primitives in order, one node `IsolatedNode_<meshId>` on that mesh, one
   * scene `IsolatedScene` holding that node as the default scene, and the
   * asset fields copied where the source has them.
   */
  lemma {:induction false} IsolatedDocumentShape(source: Document, meshId: string, useGrey: bool, defaults: Asset)
    requires FindMeshById(source, meshId).Some?
    ensures var r := IsolatedDocument(source, meshId, useGrey, defaults);
      var mesh := source.meshes[FindMeshById(source, meshId).value];
      && r.Success?
      && |r.value.buffers| == 1 && |r.value.meshes| == 1 && |r.value.nodes| == 1 && |r.value.scenes| == 1
      && r.value.meshes[0].name == mesh.name
      && r.value.nodes[0] == OutNode("IsolatedNode_" + meshId, Some(0))
      && r.value.scenes[0] == OutScene("IsolatedScene", [0]) && r.value.defaultScene == Some(0)
      && |r.value.meshes[0].primitives| == |mesh.primitives|
      && |r.value.accessors| == AccessorTotal(mesh.primitives, |mesh.primitives|)
      && (forall i :: 0 <= i < |mesh.primitives| ==> Mirrors(r.value.accessors, r.value.meshes[0].primitives[i], mesh.primitives[i]))
      && r.value.asset == CopyAsset(source.asset, defaults)
  {
    var mesh := source.meshes[FindMeshById(source, meshId).value];
    var start := Arena([], [], if useGrey then [GreyMaterial()] else []);
    ClonePrimitivesGeometry(start, mesh.primitives, |mesh.primitives|, useGrey);
  }

  /** With the grey option there is exactly one material, the grey one, shared by every primitive. */
  lemma {:induction false} IsolatedDocumentGrey(source: Document, meshId: string, defaults: Asset)
    requires FindMeshById(source, meshId).Some?
    ensures var r := IsolatedDocument(source, meshId, true, defaults);
      && r.Success? && r.value.materials == [GreyMaterial()]
      && forall q :: q in r.value.meshes[0].primitives ==> q.material == Some(0)
  {
    var mesh := source.meshes[FindMeshById(source, meshId).value];
    var start := Arena([], [], [GreyMaterial()]);
    ClonePrimitivesGrey(start, mesh.primitives, |mesh.primitives|);
  }

  /**
   * Without it, a primitive has a material iff its source has; each such
   * primitive gets its own copy of the source material (no two share one),
   * whose filled slots point at copies of the source textures, and there are
   * as many materials as such primitives.
   */
  lemma {:induction false} IsolatedDocumentCopies(source: Document, meshId: string, defaults: Asset)
    requires FindMeshById(source, meshId).Some?
    ensures var r := IsolatedDocument(source, meshId, false, defaults);
      var mesh := source.meshes[FindMeshById(source, meshId).value];
      var out := r.value.meshes[0].primitives;
      && r.Success? && |out| == |mesh.primitives|
      && |r.value.materials| == MaterialCount(mesh.primitives, |mesh.primitives|)
      && (forall i :: 0 <= i < |out| ==> (out[i].material.Some? <==> mesh.primitives[i].material.Some?))
      && (forall i :: 0 <= i < |out| && out[i].material.Some? ==>
            out[i].material.value < |r.value.materials|
            && CopyOf(r.value.materials[out[i].material.value], mesh.primitives[i].material.value)
            && MaterialPoints(r.value.textures, r.value.materials[out[i].material.value], mesh.primitives[i].material.value))
      && (forall i, j :: 0 <= i < j < |out| && out[i].material.Some? && out[j].material.Some? ==>
            out[i].material.value != out[j].material.value)
  {
    var mesh := source.meshes[FindMeshById(source, meshId).value];
    var start := Arena([], [], []);
    ClonePrimitivesCopies(start, mesh.primitives, |mesh.primitives|);
    ClonePrimitivesMatch(start, mesh.primitives, |mesh.primitives|);
  }

  // ---------------------------------------------------------------- the builder

  /** `copyTexture`: the texture is created in the document and its position returned. */
  method CopyTextureInto(textures: seq<OutTexture>, source: Texture) returns (textures': seq<OutTexture>, index: nat)
    ensures textures' == textures + [CopyTexture(source)] && index == |textures|
  {
    var cloned := OutTexture(source.name, None, "", None, None, None, None);
    if source.image.Some? {
      cloned := cloned.(image := source.image);
      if source.mimeType != "" {
        cloned := cloned.(mimeType := source.mimeType);
      }
    }
    if source.magFilter.Some? {
      cloned := cloned.(magFilter := source.magFilter);
    }
    if source.minFilter.Some? {
      cloned := cloned.(minFilter := source.minFilter);
    }
    if source.wrapS.Some? {
      cloned := cloned.(wrapS := source.wrapS);
    }
    if source.wrapT.Some? {
      cloned := cloned.(wrapT := source.wrapT);
    }
    index := |textures|;
    textures' := textures + [cloned];
  }

  /** One slot of the manual material copy. */
  method CopySlotInto(textures: seq<OutTexture>, k: SlotKind, slot: Option<TextureSlot>)
    returns (textures': seq<OutTexture>, copied: Option<OutSlot>)
    ensures (textures', copied) == CopySlot(textures, k, slot)
  {
    textures', copied := textures, None;
    if slot.Some? {
      var index;
      textures', index := CopyTextureInto(textures, slot.value.texture);
      var info := OutTextureInfo(None, None, None);
      if slot.value.info.Some? {
        var i := slot.value.info.value;
        info := info.(texCoord := i.texCoord);
        if k == NormalSlot {
          info := info.(scale := i.scale);
        }
        if k == OcclusionSlot {
          info := info.(strength := i.strength);
        }
      }
      copied := Some(OutSlot(index, info));
    }
  }

  /** The manual material copy of the non-grey branch. */
  method CloneMaterialInto(textures: seq<OutTexture>, m: Material) returns (textures': seq<OutTexture>, cloned: OutMaterial)
    ensures (textures', cloned) == CloneMaterial(textures, m)
  {
    cloned := FreshMaterial(m.name);
    cloned := cloned.(baseColorFactor := m.baseColorFactor, metallicFactor := m.metallicFactor,
                      roughnessFactor := m.roughnessFactor, emissiveFactor := m.emissiveFactor,
                      alphaMode := m.alphaMode, alphaCutoff := m.alphaCutoff, doubleSided := m.doubleSided);
    var slot;
    textures', slot := CopySlotInto(textures, BaseColorSlot, m.baseColorTexture);
    cloned := cloned.(baseColorTexture := slot);
    textures', slot := CopySlotInto(textures', MetallicRoughnessSlot, m.metallicRoughnessTexture);
    cloned := cloned.(metallicRoughnessTexture := slot);
    textures', slot := CopySlotInto(textures', NormalSlot, m.normalTexture);
    cloned := cloned.(normalTexture := slot);
    textures', slot := CopySlotInto(textures', OcclusionSlot, m.occlusionTexture);
    cloned := cloned.(occlusionTexture := slot);
    textures', slot := CopySlotInto(textures', EmissiveSlot, m.emissiveTexture);
    cloned := cloned.(emissiveTexture := slot);
  }

  /** The attribute loop and the index copy of one primitive. */
  method CopyGeometry(accessors: seq<OutAccessor>, p: Primitive)
    returns (accessors': seq<OutAccessor>, attributes: map<string, nat>, indices: Option<nat>)
    ensures var (a1, m) := CopyAttributes(accessors, p, |AttributeNames|);
      attributes == m && (accessors', indices) == CopyIndices(a1, p)
  {
    accessors', attributes := accessors, map[];
    for k := 0 to |AttributeNames|
      invariant (accessors', attributes) == CopyAttributes(accessors, p, k)
    {
      var attr := AttributeNames[k];
      if attr in p.attributes {
        var sourceAccessor := p.attributes[attr];
        if sourceAccessor.values.Some? {
          var cloned := OutAccessor(sourceAccessor.typeName, sourceAccessor.values.value, sourceAccessor.normalized);
          attributes := attributes[attr := |accessors'|];
          accessors' := accessors' + [cloned];
        }
      }
    }
    indices := None;
    if p.indices.Some? && p.indices.value.values.Some? {
      var cloned := OutAccessor(p.indices.value.typeName, p.indices.value.values.value, false);
      indices := Some(|accessors'|);
      accessors' := accessors' + [cloned];
    }
  }

  /** One iteration of the primitive loop. */
  method ClonePrimitiveInto(accessors: seq<OutAccessor>, textures: seq<OutTexture>, materials: seq<OutMaterial>,
                            sourcePrim: Primitive, useGrey: bool)
    returns (accessors': seq<OutAccessor>, textures': seq<OutTexture>, materials': seq<OutMaterial>, clonedPrim: OutPrimitive)
    ensures (Arena(accessors', textures', materials'), clonedPrim)
            == ClonePrimitive(Arena(accessors, textures, materials), sourcePrim, useGrey)
  {
    var attributes, indices;
    accessors', attributes, indices := CopyGeometry(accessors, sourcePrim);
    textures', materials' := textures, materials;
    var material: Option<nat> := None;
    if useGrey {
      material := Some(0);
    } else if sourcePrim.material.Some? {
      var cloned;
      textures', cloned := CloneMaterialInto(textures, sourcePrim.material.value);
      material := Some(|materials|);
      materials' := materials + [cloned];
    }
    clonedPrim := OutPrimitive(attributes, indices, sourcePrim.mode, material);
  }

  /**
   * `buildIsolatedDocument`: fails with the not-found message for an id that
   * does not resolve, otherwise builds the document primitive by primitive.
   */
  method BuildIsolatedDocument(source: Document, meshId: string, useGrey: bool, defaults: Asset)
    returns (r: Result<OutDocument<OutMaterial>>)
    ensures r == IsolatedDocument(source, meshId, useGrey, defaults)
  {
    var asset := defaults;
    if source.asset.generator != "" {
      asset := asset.(generator := source.asset.generator);
    }
    if source.asset.version != "" {
      asset := asset.(version := source.asset.version);
    }
    if source.asset.copyright != "" {
      asset := asset.(copyright := source.asset.copyright);
    }
    var found := FindMeshById(source, meshId);
    if found.None? {
      return Failure("Mesh with ID " + meshId + " not found");
    }
    var sourceMesh := source.meshes[found.value];
    var buffers := ["isolated-buffer"];
    var materials: seq<OutMaterial> := [];
    if useGrey {
      materials := [GreyMaterial()];
    }
    ghost var start := Arena([], [], materials);
    var accessors: seq<OutAccessor> := [];
    var textures: seq<OutTexture> := [];
    var primitives: seq<OutPrimitive> := [];
    for i := 0 to |sourceMesh.primitives|
      invariant (Arena(accessors, textures, materials), primitives) == ClonePrimitives(start, sourceMesh.primitives, i, useGrey)
    {
      var clonedPrim;
      accessors, textures, materials, clonedPrim := ClonePrimitiveInto(accessors, textures, materials, sourceMesh.primitives[i], useGrey);
      primitives := primitives + [clonedPrim];
    }
    var clonedMesh := OutMesh(sourceMesh.name, primitives);
    var node := OutNode("IsolatedNode_" + meshId, Some(0));
    var scene := OutScene("IsolatedScene", [0]);
    r := Success(OutDocument(asset, buffers, accessors, textures, materials, [clonedMesh], [node], [scene], Some(0)));
  }
}
