/**
 * The flat scene description handed from the extractor to the graph builders
 * and detail views. Ids are strings such as `node-3`; fields the graph
 * builders read but the extractor does not set (`subType`, `skinId`, skins,
 * animations) are plain inputs here.
 */
module SceneModel {
  import opened Wrappers
  import opened Bytes
  import opened Gltf

  /** An object URL created for a blob holding `data` with the given MIME type. */
  datatype BlobUrl = BlobUrl(data: seq<byte>, mimeType: string)

  datatype TextureData = TextureData(
    name: string,
    uri: Option<string>,
    mimeType: string,
    size: Option<(nat, nat)>,
    imageDataUrl: Option<BlobUrl>,
    texCoord: int,
    wrapS: Option<int>,
    wrapT: Option<int>,
    magFilter: Option<int>,
    minFilter: Option<int>)

  datatype TextureSet = TextureSet(
    baseColor: Option<TextureData>,
    metallicRoughness: Option<TextureData>,
    normal: Option<TextureData>,
    occlusion: Option<TextureData>,
    emissive: Option<TextureData>)
  {
    function Get(k: SlotKind): Option<TextureData> {
      match k
      case BaseColorSlot => baseColor
      case MetallicRoughnessSlot => metallicRoughness
      case NormalSlot => normal
      case OcclusionSlot => occlusion
      case EmissiveSlot => emissive
    }
  }

  datatype NodeRecord = NodeRecord(
    id: string,
    name: string,
    meshId: Option<string>,
    children: seq<string>,
    subType: Option<string>,
    skinId: Option<string>)

  datatype MeshRecord = MeshRecord(id: string, name: string, primitiveCount: nat, materialIds: seq<string>)

  /** A material record; a factor is `None` where a reader of the record finds it null or undefined. */
  datatype MaterialRecord = MaterialRecord(
    id: string,
    name: string,
    baseColorFactor: Option<seq<real>>,
    metallicFactor: Option<real>,
    roughnessFactor: Option<real>,
    emissiveFactor: Option<seq<real>>,
    textures: TextureSet,
    normalScale: Option<real>,
    occlusionStrength: Option<real>,
    alphaMode: AlphaMode,
    alphaCutoff: Option<real>,
    doubleSided: Option<bool>)

  datatype SkinRecord = SkinRecord(id: string, name: string, joints: seq<string>, skeleton: Option<string>)

  /** An animation and the ids of the nodes its channels target. */
  datatype AnimationRecord = AnimationRecord(id: string, name: string, animatedNodes: seq<string>)

  datatype SceneData = SceneData(
    nodes: seq<NodeRecord>,
    meshes: seq<MeshRecord>,
    materials: seq<MaterialRecord>,
    skins: seq<SkinRecord>,
    animations: seq<AnimationRecord>)

  const EmptyScene := SceneData([], [], [], [], [])

  /** JavaScript truthiness of an optional string: present and non-empty. */
  predicate Truthy(o: Option<string>) {
    o.Some? && o.value != ""
  }
}
