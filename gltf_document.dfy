/**
 * The parsed glTF 2.0 document as the core reads it through its document
 * library: ordered tables of nodes, meshes and materials. Object identity,
 * which the library gives by reference, is a `Handle` carried by each table
 * entry; a node refers to its mesh and children by handle, a primitive
 * carries its accessors and its material as values.
 */
module Gltf {
  import opened Wrappers
  import opened Bytes

  type Handle = nat

  /** The alpha modes of the glTF 2.0 material model. */
  datatype AlphaMode = Opaque | Mask | Blend

  /** The five texture slots of a glTF 2.0 metallic-roughness material, in the order the core visits them. */
  datatype SlotKind = BaseColorSlot | MetallicRoughnessSlot | NormalSlot | OcclusionSlot | EmissiveSlot

  const SlotOrder: seq<SlotKind> :=
    [BaseColorSlot, MetallicRoughnessSlot, NormalSlot, OcclusionSlot, EmissiveSlot]

  /**
   * A texture. `mimeType`, `name` and `uri` are "" when unset; `image` is the
   * encoded image bytes if any; a sampler field is `None` when the texture does
   * not expose it or it reads as null/undefined.
   */
  datatype Texture = Texture(
    name: string,
    image: Option<seq<byte>>,
    mimeType: string,
    uri: string,
    size: Option<(nat, nat)>,
    magFilter: Option<int>,
    minFilter: Option<int>,
    wrapS: Option<int>,
    wrapT: Option<int>)

  /** The per-slot sampling parameters; a field is `None` when its getter is missing or yields nothing. */
  datatype TextureInfo = TextureInfo(
    texCoord: Option<int>,
    wrapS: Option<int>,
    wrapT: Option<int>,
    magFilter: Option<int>,
    minFilter: Option<int>,
    scale: Option<real>,
    strength: Option<real>)

  /** A filled texture slot: the texture and the slot's texture-info object, if any. */
  datatype TextureSlot = TextureSlot(texture: Texture, info: Option<TextureInfo>)

  datatype Material = Material(
    key: Handle,
    name: string,
    baseColorFactor: seq<real>,
    metallicFactor: real,
    roughnessFactor: real,
    emissiveFactor: seq<real>,
    baseColorTexture: Option<TextureSlot>,
    metallicRoughnessTexture: Option<TextureSlot>,
    normalTexture: Option<TextureSlot>,
    occlusionTexture: Option<TextureSlot>,
    emissiveTexture: Option<TextureSlot>,
    normalScale: real,
    occlusionStrength: real,
    alphaMode: AlphaMode,
    alphaCutoff: real,
    doubleSided: bool)
  {
    function Slot(k: SlotKind): Option<TextureSlot> {
      match k
      case BaseColorSlot => baseColorTexture
      case MetallicRoughnessSlot => metallicRoughnessTexture
      case NormalSlot => normalTexture
      case OcclusionSlot => occlusionTexture
      case EmissiveSlot => emissiveTexture
    }
  }

  /** An accessor: element type (SCALAR, VEC3, ...), the numeric array if loaded, and the normalized flag. */
  datatype Accessor = Accessor(typeName: string, values: Option<seq<real>>, normalized: bool)

  datatype Primitive = Primitive(
    attributes: map<string, Accessor>,
    indices: Option<Accessor>,
    mode: int,
    material: Option<Material>)

  datatype Mesh = Mesh(key: Handle, name: string, primitives: seq<Primitive>)

  datatype Node = Node(key: Handle, name: string, mesh: Option<Handle>, children: seq<Handle>)

  /** Asset metadata; a field is "" when absent. */
  datatype Asset = Asset(generator: string, version: string, copyright: string)

  datatype Document = Document(
    asset: Asset,
    hasDefaultScene: bool,
    sceneCount: nat,
    nodes: seq<Node>,
    meshes: seq<Mesh>,
    materials: seq<Material>)
  {
    function NodeKeys(): seq<Handle> { seq(|nodes|, i requires 0 <= i < |nodes| => nodes[i].key) }
    function MeshKeys(): seq<Handle> { seq(|meshes|, i requires 0 <= i < |meshes| => meshes[i].key) }
    function MaterialKeys(): seq<Handle> { seq(|materials|, i requires 0 <= i < |materials| => materials[i].key) }
  }
}
