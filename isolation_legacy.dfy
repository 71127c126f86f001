/**
 * The earlier single-mesh isolation (src/utils/separator.js). Mesh lookup,
 * asset copy, geometry copy and the scene are as in `Isolation`; the
 * material branch differs: without the grey option each primitive that has a
 * material is handed `clone()` of the source material. That clone belongs to
 * the source document, and the document library refuses to link a primitive
 * of one document to a material of another, so as written the build throws
 * at the first such primitive (`LegacyIsolatedDocument`). What the code
 * evidently meant, a whole copy of each material in the new document, is
 * `LegacyIntendedDocument`; the later version in `Isolation` does it field
 * by field with its textures re-created.
 */
module IsolationLegacy {
  import opened Wrappers
  import opened Gltf
  import opened Isolation

  /** A material of the earlier isolated document: the grey one, or a clone of a source material. */
  datatype LegacyMaterial = IsolatedGrey(grey: OutMaterial) | Cloned(source: Material)

  datatype LegacyArena = LegacyArena(accessors: seq<OutAccessor>, materials: seq<LegacyMaterial>)

  /** One iteration of the earlier primitive loop. */
  function LegacyClonePrimitive(arena: LegacyArena, p: Primitive, useGrey: bool): (LegacyArena, OutPrimitive) {
    var (a1, attributes) := CopyAttributes(arena.accessors, p, |AttributeNames|);
    var (a2, indices) := CopyIndices(a1, p);
    if useGrey then (arena.(accessors := a2), OutPrimitive(attributes, indices, p.mode, Some(0)))
    else
      match p.material
      case None => (arena.(accessors := a2), OutPrimitive(attributes, indices, p.mode, None))
      case Some(m) => (LegacyArena(a2, arena.materials + [Cloned(m)]), OutPrimitive(attributes, indices, p.mode, Some(|arena.materials|)))
  }

  function LegacyClonePrimitives(start: LegacyArena, prims: seq<Primitive>, n: nat, useGrey: bool): (r: (LegacyArena, seq<OutPrimitive>))
    requires n <= |prims|
    ensures |r.1| == n
  {
    if n == 0 then (start, [])
    else
      var (arena, out) := LegacyClonePrimitives(start, prims, n - 1, useGrey);
      var (arena', q) := LegacyClonePrimitive(arena, prims[n - 1], useGrey);
      (arena', out + [q])
  }

  /** The earlier `buildIsolatedDocument` as it was meant to work: each clone lands in the new document; no texture is created. */
  function LegacyIntendedDocument(source: Document, meshId: string, useGrey: bool, defaults: Asset): Result<OutDocument<LegacyMaterial>> {
    match FindMeshById(source, meshId)
    case None => Failure(NotFoundMessage(meshId))
    case Some(k) =>
      var mesh := source.meshes[k];
      var start := LegacyArena([], if useGrey then [IsolatedGrey(GreyMaterial())] else []);
      var (arena, prims) := LegacyClonePrimitives(start, mesh.primitives, |mesh.primitives|, useGrey);
      Success(OutDocument(
        CopyAsset(source.asset, defaults), ["isolated-buffer"], arena.accessors, [], arena.materials,
        [OutMesh(mesh.name, prims)], [OutNode("IsolatedNode_" + meshId, Some(0))], [OutScene("IsolatedScene", [0])], Some(0)))
  }

  /** The materials the earlier loop pushes: each source primitive's material, in order, where it has one. */
  function ClonesOf(prims: seq<Primitive>, n: nat): (r: seq<LegacyMaterial>)
    requires n <= |prims|
    ensures |r| == MaterialCount(prims, n)
  {
    if n == 0 then []
    else ClonesOf(prims, n - 1) + (if prims[n - 1].material.Some? then [Cloned(prims[n - 1].material.value)] else [])
  }

  /**
   * After `n` primitives both versions have created the same accessors and
   * the same primitives apart from the material reference.
   */
  ghost predicate GeometryAgreesUpTo(start: Arena<OutMaterial>, legacyStart: LegacyArena, prims: seq<Primitive>, n: nat, useGrey: bool)
    requires n <= |prims|
  {
    var (arena, out) := ClonePrimitives(start, prims, n, useGrey);
    var (legacy, legacyOut) := LegacyClonePrimitives(legacyStart, prims, n, useGrey);
    && arena.accessors == legacy.accessors
    && forall i :: 0 <= i < n ==>
         out[i].attributes == legacyOut[i].attributes && out[i].indices == legacyOut[i].indices
         && out[i].mode == legacyOut[i].mode && out[i].material.Some? == legacyOut[i].material.Some?
  }

  /** Both versions create the same accessors and primitive geometry: the geometry copy did not change. */
  lemma {:induction false} GeometryAgrees(start: Arena<OutMaterial>, legacyStart: LegacyArena, prims: seq<Primitive>, n: nat, useGrey: bool)
    requires n <= |prims| && start.accessors == legacyStart.accessors
    ensures GeometryAgreesUpTo(start, legacyStart, prims, n, useGrey)
    decreases n
  {
    if n > 0 {
      GeometryAgrees(start, legacyStart, prims, n - 1, useGrey);
      GeometryAgreesNext(start, legacyStart, prims, n, useGrey);
    }
  }

  lemma {:induction false} GeometryAgreesNext(start: Arena<OutMaterial>, legacyStart: LegacyArena, prims: seq<Primitive>, n: nat, useGrey: bool)
    requires 0 < n <= |prims| && GeometryAgreesUpTo(start, legacyStart, prims, n - 1, useGrey)
    ensures GeometryAgreesUpTo(start, legacyStart, prims, n, useGrey)
  {
  }

  /**
   * After `n` primitives without the grey option, the earlier materials list
   * is the clones of the source materials in primitive order, and each clone
   * is used by the primitive it was made for.
   */
  ghost predicate ClonesUpTo(prims: seq<Primitive>, n: nat)
    requires n <= |prims|
  {
    var (arena, out) := LegacyClonePrimitives(LegacyArena([], []), prims, n, false);
    && arena.materials == ClonesOf(prims, n)
    && (forall i :: 0 <= i < n ==> (out[i].material.Some? <==> prims[i].material.Some?))
    && (forall i :: 0 <= i < n && out[i].material.Some? ==>
          out[i].material.value < |arena.materials| && arena.materials[out[i].material.value] == Cloned(prims[i].material.value))
  }

  /** Without the grey option one clone per material-carrying primitive is made, in order, each used by its primitive. */
  lemma {:induction false} LegacyClonePrimitivesClones(prims: seq<Primitive>, n: nat)
    requires n <= |prims|
    ensures ClonesUpTo(prims, n)
    decreases n
  {
    if n > 0 {
      LegacyClonePrimitivesClones(prims, n - 1);
      ClonesNext(prims, n);
    }
  }

  lemma {:induction false} ClonesNext(prims: seq<Primitive>, n: nat)
    requires 0 < n <= |prims| && ClonesUpTo(prims, n - 1)
    ensures ClonesUpTo(prims, n)
  {
    var (arena, out) := LegacyClonePrimitives(LegacyArena([], []), prims, n - 1, false);
    var (arena', q) := LegacyClonePrimitive(arena, prims[n - 1], false);
    assert forall i :: 0 <= i < |arena.materials| ==> arena'.materials[i] == arena.materials[i];
  }

  lemma {:induction false} LegacyClonePrimitivesGrey(start: LegacyArena, prims: seq<Primitive>, n: nat)
    requires n <= |prims|
    ensures var (arena, out) := LegacyClonePrimitives(start, prims, n, true);
      arena.materials == start.materials && forall i :: 0 <= i < n ==> out[i].material == Some(0)
    decreases n
  {
    if n > 0 {
      LegacyClonePrimitivesGrey(start, prims, n - 1);
    }
  }

  /**
   * The earlier document fails exactly as the later one does; on success it
   * has the later one's buffers, accessors, mesh geometry, node and scene,
   * and no textures.
   */
  lemma {:induction false} LegacyAgrees(source: Document, meshId: string, useGrey: bool, defaults: Asset)
    ensures var r := LegacyIntendedDocument(source, meshId, useGrey, defaults);
      var r' := IsolatedDocument(source, meshId, useGrey, defaults);
      && (r.Failure? <==> r'.Failure?)
      && (r.Failure? ==> r.error == r'.error)
      && (r.Success? ==>
            && r.value.asset == r'.value.asset && r.value.buffers == r'.value.buffers
            && r.value.accessors == r'.value.accessors && r.value.textures == []
            && r.value.nodes == r'.value.nodes && r.value.scenes == r'.value.scenes
            && r.value.defaultScene == r'.value.defaultScene
            && |r.value.meshes| == 1 && |r'.value.meshes| == 1 && r.value.meshes[0].name == r'.value.meshes[0].name
            && |r.value.meshes[0].primitives| == |r'.value.meshes[0].primitives|)
  {
    match FindMeshById(source, meshId)
    case None =>
    case Some(k) =>
      var mesh := source.meshes[k];
      GeometryAgrees(Arena([], [], if useGrey then [GreyMaterial()] else []),
                     LegacyArena([], if useGrey then [IsolatedGrey(GreyMaterial())] else []),
                     mesh.primitives, |mesh.primitives|, useGrey);
  }

  /** With the grey option the only material is the grey one, used by every primitive. */
  lemma {:induction false} LegacyGrey(source: Document, meshId: string, defaults: Asset)
    requires FindMeshById(source, meshId).Some?
    ensures var r := LegacyIntendedDocument(source, meshId, true, defaults);
      && r.Success? && r.value.materials == [IsolatedGrey(GreyMaterial())]
      && forall q :: q in r.value.meshes[0].primitives ==> q.material == Some(0)
  {
    var mesh := source.meshes[FindMeshById(source, meshId).value];
    LegacyClonePrimitivesGrey(LegacyArena([], [IsolatedGrey(GreyMaterial())]), mesh.primitives, |mesh.primitives|);
  }

  /** Without it, one clone is pushed per primitive that has a material, in order, each used by its primitive. */
  lemma {:induction false} LegacyClones(source: Document, meshId: string, defaults: Asset)
    requires FindMeshById(source, meshId).Some?
    ensures var r := LegacyIntendedDocument(source, meshId, false, defaults);
      var mesh := source.meshes[FindMeshById(source, meshId).value];
      var out := r.value.meshes[0].primitives;
      && r.Success? && |out| == |mesh.primitives|
      && r.value.materials == ClonesOf(mesh.primitives, |mesh.primitives|)
      && |r.value.materials| == MaterialCount(mesh.primitives, |mesh.primitives|)
      && (forall i :: 0 <= i < |out| ==> (out[i].material.Some? <==> mesh.primitives[i].material.Some?))
      && (forall i :: 0 <= i < |out| && out[i].material.Some? ==>
            out[i].material.value < |r.value.materials|
            && r.value.materials[out[i].material.value] == Cloned(mesh.primitives[i].material.value))
  {
    var mesh := source.meshes[FindMeshById(source, meshId).value];
    LegacyClonePrimitivesClones(mesh.primitives, |mesh.primitives|);
  }

  /** Some primitive of `prims` has a material. */
  predicate AnyMaterial(prims: seq<Primitive>) {
    exists i :: 0 <= i < |prims| && prims[i].material.Some?
  }

  /**
   * The earlier `buildIsolatedDocument` as written. `linkError` is the
   * library's error for a reference between two documents; it is raised when
   * the first primitive with a material is handed that material's clone,
   * which lives in the source document.
   */
  function LegacyIsolatedDocument(source: Document, meshId: string, useGrey: bool, defaults: Asset, linkError: string): Result<OutDocument<LegacyMaterial>> {
    match FindMeshById(source, meshId)
    case None => Failure(NotFoundMessage(meshId))
    case Some(k) =>
      if !useGrey && AnyMaterial(source.meshes[k].primitives) then Failure(linkError)
      else LegacyIntendedDocument(source, meshId, useGrey, defaults)
  }

  /**
   * As written, the build without the grey option fails whenever the mesh
   * has a primitive with a material, so it never produces a clone; where it
   * succeeds it agrees with the intended build.
   */
  lemma {:induction false} LegacyCloneThrows(source: Document, meshId: string, useGrey: bool, defaults: Asset, linkError: string)
    ensures var r := LegacyIsolatedDocument(source, meshId, useGrey, defaults, linkError);
      && (r.Failure? <==> FindMeshById(source, meshId).None?
                          || (!useGrey && AnyMaterial(source.meshes[FindMeshById(source, meshId).value].primitives)))
      && (r.Failure? && FindMeshById(source, meshId).Some? ==> r.error == linkError)
      && (r.Success? ==> r == LegacyIntendedDocument(source, meshId, useGrey, defaults)
                         && forall m :: m in r.value.materials ==> m.IsolatedGrey?)
  {
    match FindMeshById(source, meshId)
    case None =>
    case Some(k) =>
      var mesh := source.meshes[k];
      if useGrey {
        LegacyGrey(source, meshId, defaults);
      } else if !AnyMaterial(mesh.primitives) {
        LegacyClones(source, meshId, defaults);
        NoClones(mesh.primitives, |mesh.primitives|);
      }
  }

  lemma {:induction false} NoClones(prims: seq<Primitive>, n: nat)
    requires n <= |prims| && !AnyMaterial(prims)
    ensures ClonesOf(prims, n) == []
    decreases n
  {
    if n > 0 {
      NoClones(prims, n - 1);
      assert prims[n - 1].material.None?;
    }
  }

  /** A one-primitive mesh whose primitive has a material: without the grey option the earlier build throws. */
  lemma {:induction false} LegacyCloneThrowsExample(source: Document, meshId: string, defaults: Asset, linkError: string)
    requires FindMeshById(source, meshId).Some?
    requires var mesh := source.meshes[FindMeshById(source, meshId).value]; |mesh.primitives| == 1 && mesh.primitives[0].material.Some?
    ensures LegacyIsolatedDocument(source, meshId, false, defaults, linkError) == Failure(linkError)
    ensures LegacyIntendedDocument(source, meshId, false, defaults).Success?
  {
    var mesh := source.meshes[FindMeshById(source, meshId).value];
    assert AnyMaterial(mesh.primitives) by { assert mesh.primitives[0].material.Some?; }
  }

  /** One pass of the earlier primitive loop over a primitive that is linked to no source material. */
  lemma {:induction false} LegacyStep(start: LegacyArena, prims: seq<Primitive>, i: nat, useGrey: bool,
                                      accessors: seq<OutAccessor>, materials: seq<LegacyMaterial>, out: seq<OutPrimitive>,
                                      accessors': seq<OutAccessor>, attributes: map<string, nat>, indices: Option<nat>)
    requires i < |prims| && (useGrey || prims[i].material.None?)
    requires (LegacyArena(accessors, materials), out) == LegacyClonePrimitives(start, prims, i, useGrey)
    requires var (a1, m) := CopyAttributes(accessors, prims[i], |AttributeNames|);
      attributes == m && (accessors', indices) == CopyIndices(a1, prims[i])
    ensures LegacyClonePrimitives(start, prims, i + 1, useGrey)
            == (LegacyArena(accessors', materials), out + [OutPrimitive(attributes, indices, prims[i].mode, if useGrey then Some(0) else None)])
  {
  }

  /**
   * The earlier primitive loop, run from the materials list `materials`:
   * it throws (`None`) at the first primitive with a material unless the
   * grey option is on, and otherwise ends with the accessors and primitives
   * of the intended loop.
   */
  method LegacyCopyPrimitives(prims: seq<Primitive>, useGrey: bool, materials: seq<LegacyMaterial>)
    returns (r: Option<(seq<OutAccessor>, seq<OutPrimitive>)>)
    ensures r.None? <==> !useGrey && AnyMaterial(prims)
    ensures r.Some? ==> (LegacyArena(r.value.0, materials), r.value.1) == LegacyClonePrimitives(LegacyArena([], materials), prims, |prims|, useGrey)
  {
    ghost var start := LegacyArena([], materials);
    var accessors: seq<OutAccessor> := [];
    var primitives: seq<OutPrimitive> := [];
    for i := 0 to |prims|
      invariant (LegacyArena(accessors, materials), primitives) == LegacyClonePrimitives(start, prims, i, useGrey)
      invariant !useGrey ==> forall j :: 0 <= j < i ==> prims[j].material.None?
    {
      var sourcePrim := prims[i];
      ghost var before := accessors;
      var attributes, indices;
      accessors, attributes, indices := CopyGeometry(accessors, sourcePrim);
      var material: Option<nat> := None;
      if useGrey {
        material := Some(0);
      } else if sourcePrim.material.Some? {
        assert AnyMaterial(prims);
        return None;
      }
      LegacyStep(start, prims, i, useGrey, before, materials, primitives, accessors, attributes, indices);
      primitives := primitives + [OutPrimitive(attributes, indices, sourcePrim.mode, material)];
    }
    r := Some((accessors, primitives));
  }

  /** The earlier `buildIsolatedDocument`, throwing `linkError` where the library would. */
  method LegacyBuildIsolatedDocument(source: Document, meshId: string, useGrey: bool, defaults: Asset, linkError: string)
    returns (r: Result<OutDocument<LegacyMaterial>>)
    ensures r == LegacyIsolatedDocument(source, meshId, useGrey, defaults, linkError)
  {
    var asset := defaults;
    if source.asset.generator != "" {
      asset := asset.(generator := source.asset.generator);
    }
    if source.asset.version != "" {
      asset := asset.(version := source.asset.version);
    }
    if source.asset.copyright != "" {
      asset := asset.(copyright := source.asset.copyright);
    }
    var found := FindMeshById(source, meshId);
    if found.None? {
      return Failure("Mesh with ID " + meshId + " not found");
    }
    var sourceMesh := source.meshes[found.value];
    var buffers := ["isolated-buffer"];
    var materials: seq<LegacyMaterial> := [];
    if useGrey {
      materials := [IsolatedGrey(GreyMaterial())];
    }
    var copied := LegacyCopyPrimitives(sourceMesh.primitives, useGrey, materials);
    if copied.None? {
      return Failure(linkError);
    }
    var (accessors, primitives) := copied.value;
    var clonedMesh := OutMesh(sourceMesh.name, primitives);
    var node := OutNode("IsolatedNode_" + meshId, Some(0));
    var scene := OutScene("IsolatedScene", [0]);
    r := Success(OutDocument(asset, buffers, accessors, [], materials, [clonedMesh], [node], [scene], Some(0)));
  }
}
