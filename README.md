# noodles: a verified model of the glTF scene-graph pipeline

noodles is a browser tool for inspecting glTF 2.0 models. It loads a `.glb`,
a `.gltf` with its resources, or a URL. It extracts flat records of the
scene's nodes, meshes and materials, and draws them as node graphs:
- the scene hierarchy;
- a skin's skeleton;
- one material's inputs.

It can also isolate one mesh into a document of its own and split a texture
into its red, green and blue channels.

This project models the core of that pipeline in Dafny and proves its
properties:

| stage | modules |
|---|---|
| scene extraction | `NodeExtractor` |
| hierarchy graph, with its tidy-tree layout | `SceneGraph`, `TreeLayout` |
| older flat-column graph | `FlatGraph` |
| skeleton view | `SkinGraph` |
| material graph | `MaterialGraph` |
| mesh isolation, in both versions | `Isolation`, `IsolationLegacy` |
| channel split | `ChannelSplitter` |
| importer helpers | `ImporterCommon`, `GltfImporter`, `UrlImporter`, `FileValidation` |
| SVG stroke path | `StrokeUtils` |

Shared vocabulary lives in `Gltf`, `SceneModel`, `GraphTypes`, `Text`,
`Seqs`, `Bytes` and `Wrappers`:
- `Gltf`: an arena model of a glTF-Transform document; a reference is an index into a table.
- `SceneModel`: the extracted scene records.
- `GraphTypes`: graph nodes and edges.
- `Text`: JavaScript's `parseInt`, `trim`, `toLowerCase` and `split(...).pop()`, written out.

Procedures that loop or mutate are methods, proved against a specification
function. The properties the source promises are lemmas about those
functions. `URLCleanupTracker` is a class whose methods update its `urls`
field. The channel split's pixel loop works on arrays.

## Model

| member | source | states |
|---|---|---|
| NodeExtractor.ExtractSceneData | src/utils/gltf/nodeExtractor.js:36-149 | Without a default or listed scene, the result is empty. Otherwise there is one record per node, mesh and material, in table order, each the record of its table entry. |
| NodeExtractor.KeyIndexOfDistinct | src/utils/gltf/nodeExtractor.js:60-62 | On a duplicate-free table, the object-to-index map sends the i-th element to i. |
| NodeExtractor.BuildIndexMap | src/utils/gltf/nodeExtractor.js:60-62 | The index-map loop: each key is mapped to its last position, and only listed keys are mapped. |
| NodeExtractor.NodeIdsDistinct | src/utils/gltf/nodeExtractor.js:65-68 | Every node record has its own id `node-i`. |
| NodeExtractor.MeshIdsDistinct | src/utils/gltf/nodeExtractor.js:91-95 | Every mesh record has its own id `mesh-i`. |
| NodeExtractor.MaterialIdsDistinct | src/utils/gltf/nodeExtractor.js:116-119 | Every material record has its own id `material-i`. |
| NodeExtractor.PrefixedIdInjective | src/utils/gltf/nodeExtractor.js:67 | Two different indexes never give the same prefixed id. |
| NodeExtractor.MeshRef | src/utils/gltf/nodeExtractor.js:70-78 | `meshId` is null exactly when the node references no mesh. |
| NodeExtractor.MeshIdResolves | src/utils/gltf/nodeExtractor.js:70-78 | A node that references the k-th mesh of a duplicate-free table gets `mesh-k`. |
| NodeExtractor.ChildIds | src/utils/gltf/nodeExtractor.js:80-86 | Each emitted child id is `node-k` for a listed child k, and there are no more ids than children. |
| NodeExtractor.ChildIdsExactly | src/utils/gltf/nodeExtractor.js:80-86 | Over a duplicate-free table, `node-k` is emitted exactly when node k is listed as a child. |
| NodeExtractor.CollectChildIds | src/utils/gltf/nodeExtractor.js:81-86 | The children loop emits the ids of the children found in the index map, in order; others are skipped. |
| NodeExtractor.MaterialRefsComplete | src/utils/gltf/nodeExtractor.js:100-111 | Every primitive that has a material contributes that material's id to the references. |
| NodeExtractor.MaterialRefsExactly | src/utils/gltf/nodeExtractor.js:100-111 | An id is among the references iff some primitive has a material with that id: both directions. |
| NodeExtractor.MeshMaterialIdsExactly | src/utils/gltf/nodeExtractor.js:96-111 | A mesh record's `materialIds` hold exactly the ids of the materials its primitives use, and no other id. |
| NodeExtractor.MeshMaterialIdsOrder | src/utils/gltf/nodeExtractor.js:96-111 | Any two of a mesh record's material ids are among the primitives' references and keep their first-seen order. |
| NodeExtractor.CollectMaterialIds | src/utils/gltf/nodeExtractor.js:100-111 | The primitive loop with its seen-set yields the references deduplicated, in first-seen order. |
| NodeExtractor.ExtractTextureData | src/utils/gltf/nodeExtractor.js:7-34 | No texture gives null. `imageDataUrl` is present iff the image is non-empty. `mimeType` is the texture's own, else `image/png`. `texCoord` is the info's, else 0. |
| NodeExtractor.MaterialRecordNormalised | src/utils/gltf/nodeExtractor.js:116-146 | `alphaCutoff` is kept only in MASK mode. `normalScale` and `occlusionStrength` are dropped at 1. There is one texture entry per filled slot. |
| NodeExtractor.TexturesOfSlots | src/utils/gltf/nodeExtractor.js:129-135 | Each of the five texture entries is the texture data of its own slot. |
| SceneGraph.NonJointChildren | src/utils/graph/graphBuilder.js:25-39 | No effective child is a joint, each ranks below the node, and an id with no node has none. |
| SceneGraph.SpliceWithoutJoints | src/utils/graph/graphBuilder.js:25-39 | Without joint children, the effective children are the children themselves. |
| SceneGraph.EffectiveParent | src/utils/graph/graphBuilder.js:154-168 | A result is always a non-joint node with a position. A positioned non-joint node is its own effective parent, and an id with no node has none. |
| SceneGraph.IndexNonJointNodes | src/utils/graph/graphBuilder.js:16-44 | `nodeMap` holds exactly the non-joint ids, and `effectiveChildren` maps each to its effective children. |
| SceneGraph.NonJointIdsAsSeq | src/utils/graph/graphBuilder.js:12-21 | The keys of `nodeMap` are the ids of the non-joint nodes. |
| SceneGraph.EffectiveIsChildrenMap | src/utils/graph/graphBuilder.js:41-44 | Any map over the non-joint ids that satisfies the effective-children rule is the children map. |
| SceneGraph.CollectAllChildIds | src/utils/graph/graphBuilder.js:46-49 | `allChildIds` is the union of the effective-children lists. |
| SceneGraph.AllChildIdsVia | src/utils/graph/graphBuilder.js:46-49 | The union read through the map equals the union over the non-joint nodes. |
| SceneGraph.RootsExactly | src/utils/graph/graphBuilder.js:46-51 | Root nodes are exactly the non-joint nodes that occur in no effective-children list. |
| SceneGraph.HierarchyPositionsBounds | src/utils/graph/graphBuilder.js:54-96 | Every hierarchy position has a non-negative x, and every root node is placed. |
| SceneGraph.LayoutHierarchy | src/utils/graph/graphBuilder.js:51-96 | The root nodes and their side-by-side tidy-tree layout, written into a fresh position map. |
| SceneGraph.SubTypeOrTransform | src/utils/graph/graphBuilder.js:101 | A missing or empty subtype reads as `transform`, and the result is `joint` exactly when the subtype is `joint`. |
| SceneGraph.NodeEntriesShape | src/utils/graph/graphBuilder.js:98-123 | One graph node per non-joint node, in order, none a joint, each at its layout position or at (0, 0). |
| SceneGraph.NoJointGraphNodes | src/utils/graph/graphBuilder.js:98-123 | No joint node is among the hierarchy's graph nodes. |
| SceneGraph.NodeEdgesShape | src/utils/graph/graphBuilder.js:125-150 | A node with a truthy `meshId` has exactly one mesh edge, first. Every other edge goes to an effective child present in `nodeMap`. |
| SceneGraph.NodeEdgesViaChildrenMap | src/utils/graph/graphBuilder.js:137-150 | Reading the children through `effectiveChildren` and `nodeMap`, as the loop does, gives the node's specified edges. |
| SceneGraph.AddChildEdges | src/utils/graph/graphBuilder.js:137-150 | One edge from the node to each child that is a key of `nodeMap`, in order. |
| SceneGraph.AddHierarchyNodes | src/utils/graph/graphBuilder.js:98-151 | The node loop pushes the specified graph nodes and edges. |
| SceneGraph.MeshPosition | src/utils/graph/graphBuilder.js:171-191 | A mesh sits at (0, 200) or one row below a positioned non-joint node. |
| SceneGraph.MeshPhaseNodes | src/utils/graph/graphBuilder.js:171-221 | The mesh loop appends one `mesh` node per mesh, in order, after the nodes already there. |
| SceneGraph.MeshPhasePositions | src/utils/graph/graphBuilder.js:171-221 | After the mesh loop every mesh has a position, and no earlier position is dropped. |
| SceneGraph.AddMeshes | src/utils/graph/graphBuilder.js:171-221 | The mesh loop equals the mesh phase of the specification. |
| SceneGraph.MaterialPosition | src/utils/graph/graphBuilder.js:224-239 | A material sits at (0, 350) or one row below a positioned mesh that lists it. |
| SceneGraph.AddMaterials | src/utils/graph/graphBuilder.js:224-258 | The material loop appends the specified material nodes. |
| SceneGraph.AnimationEdgesDistinct | src/utils/graph/graphBuilder.js:287-306 | An animation has at most one edge per distinct target, and only to targets that already have a position. |
| SceneGraph.AnimationEdgesComplete | src/utils/graph/graphBuilder.js:287-306 | Every positioned redirected target gets its edge. |
| SceneGraph.AnimationTargets | src/utils/graph/graphBuilder.js:289-292 | One target per animated node, in order, each redirected to its effective parent when it has one. |
| SceneGraph.AddAnimationEdges | src/utils/graph/graphBuilder.js:288-306 | The edge loop with its `edgeTargets` set equals the specified edges and set. |
| SceneGraph.AnimationPhaseNodes | src/utils/graph/graphBuilder.js:261-286 | The animation loop appends one node per animation at (-400, 50 + 150 k), in order. |
| SceneGraph.AddAnimations | src/utils/graph/graphBuilder.js:261-308 | The animation loop equals the animation phase of the specification. |
| SceneGraph.SkinPosition | src/utils/graph/graphBuilder.js:312-333 | A skin sits at (0, 200) or one column right of a positioned non-joint node. |
| SceneGraph.SkinPhaseAppends | src/utils/graph/graphBuilder.js:311-365 | The skin loop appends one `skin` node per skin, in order, after the nodes already there. |
| SceneGraph.AddSkins | src/utils/graph/graphBuilder.js:311-365 | The skin loop equals the skin phase of the specification, with an edge from each skinned node. |
| SceneGraph.SceneGraphNodes | src/utils/graph/graphBuilder.js:7-368 | The graph lists the non-joint nodes, then the meshes, materials, animations and skins, one graph node each; none of the first group is a joint. |
| SceneGraph.BuildReactFlowGraph | src/utils/graph/graphBuilder.js:7-368 | The builder's nodes and edges are those of the specification. |
| TreeLayout.LayoutRules | src/utils/graph/graphBuilder.js:56-88 | A leaf is one spacing wide and sits at its start x on its row. A parent is as wide as its children together and sits midway between its first and last child. |
| TreeLayout.SubtreeWidth | src/utils/graph/graphBuilder.js:63-87 | A laid-out subtree is exactly `Width` wide, a function of the tree alone. |
| TreeLayout.SubtreeWidthIndependent | src/utils/graph/graphBuilder.js:63-87 | A subtree's width does not depend on where or when it is laid out. |
| TreeLayout.SubtreeBounds | src/utils/graph/graphBuilder.js:56-88 | A subtree lies within `[x, x + width]`. Its centre and every position it writes lie there, and it keeps every position it does not write. |
| TreeLayout.ChildStart | src/utils/graph/graphBuilder.js:70-79 | Child i starts at the parent's x plus the widths of the children before it. |
| TreeLayout.ChildrenPrefix | src/utils/graph/graphBuilder.js:73-79 | Laying out more children never changes the ones laid out before. |
| TreeLayout.LayoutTree | src/utils/graph/graphBuilder.js:56-88 | The recursive layout method with its child loop equals the specification `Subtree`. |
| TreeLayout.ForestBounds | src/utils/graph/graphBuilder.js:91-95 | Roots are laid side by side: positions have non-negative x, unwritten positions are kept, and every present root is placed. |
| TreeLayout.ForestOffsets | src/utils/graph/graphBuilder.js:91-95 | The start x after n roots is their widths plus one spacing each, a function of the trees alone. |
| TreeLayout.LayoutForest | src/utils/graph/graphBuilder.js:91-95 | The root loop equals the specification `Forest`. |
| FlatGraph.FlatGraphNodes | src/utils/gltf/graphBuilder.js:12-117 | One node per scene node, mesh and material, in that order. The i-th of each kind is at (50, 100 i), (300, 100 i) and (550, 100 i). |
| FlatGraph.FlatGraphEdges | src/utils/gltf/graphBuilder.js:35-91 | An edge exists iff it joins a node with a truthy mesh id to that mesh, a node to a listed child, or a mesh to one of its material ids. Its id is `<source>-<target>`. |
| FlatGraph.FlatGraphEdgeCount | src/utils/gltf/graphBuilder.js:35-91 | Exactly one edge per truthy mesh id, per child id and per material id: nothing is filtered or merged. |
| FlatGraph.NodeEdgesSpec | src/utils/gltf/graphBuilder.js:35-55 | A node has the mesh edge iff its `meshId` is truthy, and one edge per child, unfiltered. |
| FlatGraph.FanOutSpec | src/utils/gltf/graphBuilder.js:82-91 | One edge per material id of a mesh, from the mesh. |
| FlatGraph.BuildReactFlowGraph | src/utils/gltf/graphBuilder.js:6-120 | The three loops build exactly the specified graph. |
| SkinGraph.AddDescendants | src/components/node-editor/SkinDetailView.jsx:27-37 | Ids are only appended, without duplicates. The start id and every id added end up with all their children in the set, and each added id is a child of an earlier one. |
| SkinGraph.SkeletonIds | src/components/node-editor/SkinDetailView.jsx:24-39 | The set holds every joint and is closed under `children`. Every id in it is a joint or a child of an earlier id. |
| SkinGraph.SkeletonIdsLeast | src/components/node-editor/SkinDetailView.jsx:24-39 | The skeleton set is the least set that holds every joint and is closed under `children`. |
| SkinGraph.FoundNodesDistinct | src/components/node-editor/SkinDetailView.jsx:42-44 | Ids without a scene node are dropped, and the found nodes keep distinct ids. |
| SkinGraph.JointChildrenEntries | src/components/node-editor/SkinDetailView.jsx:50-59 | Every skeleton node's `jointChildren` entry is its children restricted to the skeleton, in order. |
| SkinGraph.JointParentsKeys | src/components/node-editor/SkinDetailView.jsx:50-59 | A child gets a `jointParents` entry exactly when some skeleton node lists it as an in-skeleton child, and the entry names such a node. |
| SkinGraph.RootJointsExactly | src/components/node-editor/SkinDetailView.jsx:62 | Root joints are exactly the skeleton nodes that no skeleton node lists as an in-skeleton child. |
| SkinGraph.SkeletonChildrenUnfiltered | src/components/node-editor/SkinDetailView.jsx:50-53 | On a closed skeleton set, the in-skeleton filter drops no child. |
| SkinGraph.SkeletonTreeRanked | src/components/node-editor/SkinDetailView.jsx:68-99 | The skeleton's children map inherits the scene's acyclic ranking, so the joint layout terminates. |
| SkinGraph.RoleOf | src/components/node-editor/SkinDetailView.jsx:111-131 | Priority order: skeleton root iff its id is `skin.skeleton`; otherwise joint iff listed in `joints`; otherwise end node. |
| SkinGraph.SkinViewNodes | src/components/node-editor/SkinDetailView.jsx:109-153 | One view node per skeleton id that has a scene node, with distinct ids, each with the role its id calls for. |
| SkinGraph.SkeletonEdgesExactly | src/components/node-editor/SkinDetailView.jsx:155-165 | On distinct ids, an edge exists iff its source is a skeleton node and its target one of that node's in-skeleton children. |
| SkinGraph.LinkSkeleton | src/components/node-editor/SkinDetailView.jsx:47-59 | The loop fills `jointChildren` and `jointParents` as specified. |
| SkinGraph.AddSkeletonNodes | src/components/node-editor/SkinDetailView.jsx:109-166 | The loop pushes the specified view nodes and edges. |
| SkinGraph.BuildSkinGraph | src/components/node-editor/SkinDetailView.jsx:15-168 | Empty without a skin or a scene; otherwise the view over skeleton ids that are duplicate-free, closed and derived from the joints. |
| MaterialGraph.MaterialGraphEdges | src/utils/graph/materialGraphBuilder.js:19-260 | The first node is `material-output` at (550, 250). Every other node has exactly one edge, into it, so there is one edge fewer than nodes. |
| MaterialGraph.MaterialGraphTextures | src/utils/graph/materialGraphBuilder.js:31-63 | One texture node per present slot, in slot order, the k-th at (50, 50 + 120 k). |
| MaterialGraph.PresentTexturesSpec | src/utils/graph/materialGraphBuilder.js:31-63 | The present slots are exactly the set ones, with distinct `texture-<key>` ids. |
| MaterialGraph.PresentValueCases | src/utils/graph/materialGraphBuilder.js:93-237 | Metallic and roughness appear whenever present, 0 included. Emissive appears only with a positive component. doubleSided appears whenever defined, `false` included. |
| MaterialGraph.PresentValuesSpec | src/utils/graph/materialGraphBuilder.js:66-258 | The value nodes are exactly the flagged ones, with distinct `value-` ids. |
| MaterialGraph.MaterialGraphValues | src/utils/graph/materialGraphBuilder.js:66-258 | The j-th value node sits at (300, 50 + 120 j), whatever the number of textures. |
| MaterialGraph.MaterialGraphDistinct | src/utils/graph/materialGraphBuilder.js:19-260 | No two nodes share an id. |
| MaterialGraph.EmitColumn | src/utils/graph/materialGraphBuilder.js:39-63 | One column's loop: each present entry's node at the next row and its edge into the output node. |
| MaterialGraph.BuildMaterialGraph | src/utils/graph/materialGraphBuilder.js:6-261 | The builder returns the specified graph. |
| Isolation.FindMeshById | src/utils/gltf/separator.js:25-31 | A found index is always an index of the mesh table. |
| Isolation.FindMeshByIdRoundTrip | src/utils/gltf/separator.js:25-31 | Every `mesh-k` id the scene extraction gives finds mesh k. |
| Isolation.FindMeshByIdOutOfRange | src/utils/gltf/separator.js:25-31 | An index outside the table finds nothing. |
| Isolation.GreyMaterial | src/utils/gltf/separator.js:8-17 | The grey material: base colour (0.25, 0.25, 0.25, 1), metallic 0, roughness 0.25, and no texture. |
| Isolation.CleanupBlobUrl | src/utils/gltf/separator.js:320-324 | Only a string starting with `blob:` is revoked. |
| Isolation.CopyTexture | src/utils/gltf/separator.js:39-89 | Name and image are copied. The MIME type is kept only when an image exists. The four sampler fields are copied as given, so an unset one stays unset. |
| Isolation.CopyAttributesSpec | src/utils/gltf/separator.js:145-177 | A semantic is copied iff the source has it with an array. It names a new accessor holding the copy, one accessor per copied semantic. |
| Isolation.CloneMaterialSpec | src/utils/gltf/separator.js:186-267 | The copy keeps every factor. A slot is filled iff the source slot is, and a filled slot points at a new copy of its texture. |
| Isolation.ClonePrimitivesGeometry | src/utils/gltf/separator.js:138-177 | Primitives keep their number, order and mode. Accessors grow by each primitive's copied attributes and indices. |
| Isolation.IsolatedDocumentFails | src/utils/gltf/separator.js:118-121 | An id that does not resolve fails with `Mesh with ID … not found`, and only such an id fails. |
| Isolation.IsolatedDocumentShape | src/utils/gltf/separator.js:98-288 | One buffer, one mesh mirroring the source primitives, one node `IsolatedNode_<meshId>` on it, and a default scene `IsolatedScene` holding it. Asset fields are copied when non-empty. |
| Isolation.IsolatedDocumentGrey | src/utils/gltf/separator.js:128-132 | With the grey option there is exactly one material, the grey one, shared by every primitive. |
| Isolation.IsolatedDocumentCopies | src/utils/gltf/separator.js:186-270 | Otherwise each primitive with a material gets its own copy, never shared, and material-less primitives get none. |
| Isolation.BuildIsolatedDocument | src/utils/gltf/separator.js:98-288 | The imperative build equals the specified document or failure. |
| IsolationLegacy.LegacyIsolatedDocument | src/utils/separator.js:40-154 | The earlier build as written: it fails without the grey option as soon as a primitive has a material. |
| IsolationLegacy.LegacyCloneThrows | src/utils/separator.js:125-135 | As written, the build fails iff the id does not resolve, or the grey option is off and some primitive has a material. Any success equals the intended build. |
| IsolationLegacy.LegacyCloneThrowsExample | src/utils/separator.js:131-133 | A one-primitive mesh with a material fails as written, while the intended build succeeds. |
| IsolationLegacy.LegacyAgrees | src/utils/separator.js:40-154 | The intended earlier build fails exactly as the later one does. It has the same buffers, accessors, geometry, node and scene, and no textures. |
| IsolationLegacy.LegacyGrey | src/utils/separator.js:70-74 | With the grey option the only material is the grey one, used by every primitive. |
| IsolationLegacy.LegacyClones | src/utils/separator.js:125-135 | Intended: one clone per material-carrying primitive, in order, each used by its primitive. |
| IsolationLegacy.LegacyCopyPrimitives | src/utils/separator.js:80-139 | The primitive loop throws at the first material unless the grey option is on; otherwise it yields the arena and primitives of the intended build. |
| IsolationLegacy.LegacyBuildIsolatedDocument | src/utils/separator.js:40-154 | The imperative earlier build equals the as-written specification. |
| ChannelSplitter.ChannelImagePixels | src/utils/image/channelSplitter.js:40-46 | For every pixel, red, green and blue take the pixel's channel c and alpha is 255, so the image is grey and opaque. |
| ChannelSplitter.ChannelImageExample | src/utils/image/channelSplitter.js:40-46 | (10, 20, 30, 255) becomes (10, 10, 10, 255), (20, 20, 20, 255) and (30, 30, 30, 255). |
| ChannelSplitter.ChannelImageIdempotent | src/utils/image/channelSplitter.js:40-46 | Splitting an already split image again changes nothing. |
| ChannelSplitter.CreateChannelImage | src/utils/image/channelSplitter.js:28-61 | A fresh buffer of the source's length holds the channel image; the source is only read. |
| ChannelSplitter.UsedWidth | src/utils/image/channelSplitter.js:75 | The caller's width when the dimensions are given and their width is present and non-zero, else the natural width. |
| ChannelSplitter.UsedHeight | src/utils/image/channelSplitter.js:76 | The caller's height when the dimensions are given and their height is present and non-zero, else the natural height. |
| ChannelSplitter.SplitResultSpec | src/utils/image/channelSplitter.js:69-106 | Success iff the image loads, the used size is non-empty and all three encodes succeed. Channels 0, 1 and 2 give red, green and blue. Each of the three rejection reasons occurs exactly when its stage (load, non-empty size, encode) is the first to fail. |
| ChannelSplitter.SplitRGBChannels | src/utils/image/channelSplitter.js:69-106 | The method's outcome is the specified one. |
| FileValidation.ValidateSpec | src/utils/fileValidation.js:10-39 | Valid iff present, ending in `.glb` or `.gltf` in any case, and at most 104857600 bytes. Valid has no error; invalid always has one. |
| FileValidation.ValidateOrder | src/utils/fileValidation.js:11-33 | A missing file, then the extension, then the size, each with its own message. |
| FileValidation.ExtensionBeforeSize | src/utils/fileValidation.js:16-33 | A bad extension is reported even for an oversized file. |
| FileValidation.SizeBoundary | src/utils/fileValidation.js:28-33 | Exactly 100 MiB is accepted and one byte more rejected. |
| FileValidation.MimeTypeIgnored | src/utils/fileValidation.js:36-38 | The MIME type never changes the outcome. |
| FileValidation.CaseInsensitive | src/utils/fileValidation.js:16-25 | Any letter case of the extension is accepted, whatever the base name. |
| UrlImporter.ExtractFilename | src/utils/gltf/importer/urlImporter.js:107-127 | The name always contains a dot. It is the last path segment when that is dotted, and otherwise one of the two fallback names. |
| UrlImporter.FallbackName | src/utils/gltf/importer/urlImporter.js:117-125 | Without a dotted segment: `model.gltf` iff the URL parses and mentions `.gltf` but not `.glb`; in every other case, parse failure included, `model.glb`. |
| UrlImporter.FilenameFromPath | src/utils/gltf/importer/urlImporter.js:109-114 | A path ending in `/<base>.<ext>` names the file `<base>.<ext>`. |
| UrlImporter.FileTypeFromPath | src/utils/gltf/importer/urlImporter.js:107-114 | Such a URL's type is given by its extension, in any letter case. |
| UrlImporter.UndetectedMeansDottedFilename | src/utils/gltf/importer/urlImporter.js:107-127 | A URL's type is undetermined only for a dotted last segment with an unknown extension. |
| UrlImporter.ValidateURL | src/utils/gltf/importer/urlImporter.js:132-149 | A success carries the trimmed URL and a detected type, and a failure carries one of the three messages. |
| UrlImporter.ValidateURLSpec | src/utils/gltf/importer/urlImporter.js:132-149 | In check order: a missing or empty input, a trimmed string that is no HTTP(S) URL, a filename of unknown type, or success. |
| UrlImporter.ValidateURLIdempotent | src/utils/gltf/importer/urlImporter.js:132-149 | Validating the URL a success returned gives the same result, for a URL parser that rejects the empty string. |
| UrlImporter.UndottedPathValidates | src/utils/gltf/importer/urlImporter.js:117-148 | An HTTP(S) URL whose last segment has no dot still validates, through the fallback names. |
| UrlImporter.ImportFromURL | src/utils/gltf/importer/urlImporter.js:10-90 | An invalid URL, a network failure, other thrown errors and a non-ok response each give their failure message. |
| UrlImporter.ImportFromURLRoutes | src/utils/gltf/importer/urlImporter.js:45-75 | A GLB name goes to the GLB importer, and a glTF name alone to the glTF importer, with the blob's MIME type or the kind's. Any other name is refused. |
| UrlImporter.FailShape | src/utils/gltf/importer/urlImporter.js:14-18 | Every early failure has no model, an empty graph and null metadata. |
| ImporterCommon.CreateImportResult | src/utils/gltf/importer/importerCommon.js:8-23 | The flags and scene are passed through. A falsy model URL becomes null and missing nodes or edges become empty. The metadata holds the three base fields, overridden by every `data.metadata` entry. |
| ImporterCommon.CreateImportResultDefaults | src/utils/gltf/importer/importerCommon.js:16-21 | Without an override, filename and type are kept when non-empty and size when non-zero; otherwise they are null. |
| ImporterCommon.FailureResult | src/utils/gltf/importer/importerCommon.js:8-23 | A failure built from `{}` has no model, an empty graph, no scene and all metadata null. |
| ImporterCommon.URLCleanupTracker.constructor | src/utils/gltf/importer/importerCommon.js:29-31 | A new tracker holds no URL. |
| ImporterCommon.URLCleanupTracker.Track | src/utils/gltf/importer/importerCommon.js:36-39 | The URL is added to the insertion-ordered set, and the same URL is returned. |
| ImporterCommon.TrackTwice | src/utils/gltf/importer/importerCommon.js:36-60 | Tracking an already tracked URL changes nothing; it counts once. |
| ImporterCommon.URLCleanupTracker.Cleanup | src/utils/gltf/importer/importerCommon.js:44-53 | Every tracked URL has a revoke attempted, in order. A failing revoke is logged and does not stop the rest. The count ends at 0. |
| ImporterCommon.DetectFileType | src/utils/gltf/importer/importerCommon.js:66-73 | `glb` or `gltf` exactly when the lower-cased last dot-segment is that string; otherwise none. |
| ImporterCommon.DetectFileTypeOfName | src/utils/gltf/importer/importerCommon.js:66-73 | Any name ending in `.glb` or `.gltf`, in any case, is detected. |
| ImporterCommon.DetectFileTypeNoDot | src/utils/gltf/importer/importerCommon.js:67 | A name without a dot is all extension. |
| ImporterCommon.DetectFileTypeLastDot | src/utils/gltf/importer/importerCommon.js:67 | Only the last dot-segment counts. |
| GltfImporter.DecodeAllSpec | src/utils/gltf/importer/gltfImporter.js:121-134 | The walk succeeds iff every URI decodes, giving each decoded URI in place. Otherwise it fails with the first failing URI's error. |
| GltfImporter.DependenciesFailure | src/utils/gltf/importer/gltfImporter.js:116-139 | Finding dependencies throws iff `images` or `buffers` is a truthy non-array, or one of their external URIs does not decode. Images go first. |
| GltfImporter.DependenciesSpec | src/utils/gltf/importer/gltfImporter.js:116-139 | The dependencies are distinct, in first-seen order, images before buffers. A name is one iff some non-`data:` URI decodes to it. |
| GltfImporter.AddExternal | src/utils/gltf/importer/gltfImporter.js:120-135 | One field's loop decodes and adds each external URI, stopping at the first that throws. |
| GltfImporter.FindGLTFDependencies | src/utils/gltf/importer/gltfImporter.js:116-139 | The method's outcome is the specified dependencies or error. |
| GltfImporter.FileMapKeys | src/utils/gltf/importer/gltfImporter.js:144-152 | A name is mapped iff some file has it. |
| GltfImporter.FileMapLastWins | src/utils/gltf/importer/gltfImporter.js:144-152 | Each name maps to the last file that has it. |
| GltfImporter.BuildFileMap | src/utils/gltf/importer/gltfImporter.js:144-152 | The loop builds the specified file map. |
| GltfImporter.Missing | src/utils/gltf/importer/gltfImporter.js:50 | Exactly the dependencies absent from the map; none iff every dependency is present. |
| GltfImporter.Resources | src/utils/gltf/importer/gltfImporter.js:174-186 | Exactly the dependencies present in the map, each to its file's bytes. |
| GltfImporter.LoadResources | src/utils/gltf/importer/gltfImporter.js:174-186 | The loop loads the specified resources. |
| GltfImporter.NoGltfFails | src/utils/gltf/importer/gltfImporter.js:19-27 | Without a `.gltf` file, in any case, the import fails with the no-file message. |
| GltfImporter.ReadFailureFails | src/utils/gltf/importer/gltfImporter.js:30-41 | The first `.gltf` file is read. An unreadable text fails through the outer catch, and unparsable JSON fails with `Invalid GLTF file`. |
| GltfImporter.DependencyFailureFails | src/utils/gltf/importer/gltfImporter.js:44 | A dependency error fails the import through the outer catch, before any lookup. |
| GltfImporter.MissingFails | src/utils/gltf/importer/gltfImporter.js:50-58 | Missing dependencies fail the import with exactly those names listed, in order. |
| GltfImporter.AllPresent | src/utils/gltf/importer/gltfImporter.js:50-67 | With every dependency present nothing is missing, and every dependency's bytes are loaded. |
| GltfImporter.SuccessMetadata | src/utils/gltf/importer/gltfImporter.js:89-101 | The success metadata: the name, type `gltf`, the summed size (null when 0), and the resource and file counts. |
| GltfImporter.TotalSizeBounds | src/utils/gltf/importer/gltfImporter.js:96 | The reported size is at least each file's size, and it is 0 only when every file is empty. |
| GltfImporter.AfterParseSuccess | src/utils/gltf/importer/gltfImporter.js:44-110 | With every dependency present, the import succeeds iff the conversion does, and then carries the success data. |
| GltfImporter.ImportGLTFWithTextures | src/utils/gltf/importer/gltfImporter.js:11-111 | The imperative import equals the specified result. |
| StrokeUtils.GetSvgPathFromStrokeSpec | src/utils/drawing/strokeUtils.js:12-26 | As written, a path is `M <p0> L`, then p2 … p(n-1) and p0, then ` Z`. That is n pairs, and p1 never appears. |
| StrokeUtils.TwoPointsAsWritten | src/utils/drawing/strokeUtils.js:10-16 | `[[10,20],[30,40]]` gives `M p0 L p0 Z` as written. |
| StrokeUtils.IntendedSvgPathSpec | src/utils/drawing/strokeUtils.js:10-25 | Intended: `M <p0> L`, then p1 … p(n-1) in order, then ` Z`. The empty stroke gives the empty string. |
| StrokeUtils.TwoPointsIntended | src/utils/drawing/strokeUtils.js:10 | The documented example `M p0 L p1 Z`, which differs from the as-written path. |
| Text.TrimIdempotent | src/utils/gltf/importer/urlImporter.js:137 | Trimming a trimmed string changes nothing. |
| Text.ParseNatStr | src/utils/gltf/separator.js:27 | `parseInt` reads back the decimal text of any natural number. |
| Seqs.DedupeFirstSeenOrder | src/utils/gltf/importer/gltfImporter.js:117-138 | The insertion-ordered set keeps the first occurrence of each element, in order. |

## Left out

- SceneGraph.Acyclic: every builder that recurses over `children` requires an acyclic child relation, witnessed by a rank map. The glTF 2.0 specification, in its section on nodes and hierarchy, requires the node hierarchy to be a set of disjoint strict trees. On a cyclic relation, `findNonJointChildren` and `layoutNodeTree` recurse without end, and a cycle without meshes gives no roots. The model does not cover such inputs.
- TreeLayout.Ranked: the same acyclicity requirement, for the tidy-tree layout shared by the hierarchy view and the skeleton view.
- SceneGraph.SceneGraphOf, FlatGraph.FlatGraphOf, MaterialGraph.MaterialGraphOf, SkinGraph.SkinViewOf: labels, styles, colours, themes, border colours, the `type: 'default'` and `animated` flags, and the `data` payloads are not modelled. Only ids, positions, node kinds, roles and edges are.
- SceneGraph.SceneGraphOf: `src/utils/graph/graphBuilder.js:1` imports `getNodeSubtypeColor` and `getNodeSubtypeIcon`. `src/constants/colorConstants.js` exports only `NODE_COLORS` (line 2), `THEME_COLORS` (line 9) and `getNodeColor` (line 28). Neither name is exported, so the import cannot be satisfied. What follows from that depends on the module loader: an ES-module linker or bundler rejects the module before any of it runs. `src/components/node-editor/NodeFilterControls.jsx:4` has the same import. The model builds the graph the code in `graphBuilder.js` describes.
- Isolation.BuildIsolatedDocument, IsolationLegacy.LegacyBuildIsolatedDocument: the default `useGreyMaterial = true` is not modelled; the flag is always passed.
- ImporterCommon.CreateImportResult: the defaults `data = {}` and `error = null` are not modelled; both are always passed.
- Isolation.CopyTexture: the getters that `copyTexture` probes with `typeof … === 'function'` are inputs that may be absent. Its `try`/`catch` around the sampler copy is not modelled; an error there has no effect on the model.
- Isolation.IsolatedDocument: `listMaterials().push(...)` returns a fresh array in glTF-Transform, so the model treats it as a no-op.
- exportIsolatedGLB (`src/utils/gltf/separator.js:296-314` and `src/utils/separator.js:162-180`): not modelled. It only calls the isolation build and the library's GLB writer.
- Foreign calls are parameters:
  - JSON parsing, reading a file's text and `decodeURIComponent`, in `GltfImporter`;
  - the glTF-Transform read, GLB write and object-URL creation, merged into one `convert` parameter;
  - URL parsing (`new URL`) and `fetch`, in `UrlImporter`;
  - the canvas image load and `toBlob` encoding, in `ChannelSplitter`;
  - `Number.prototype.toFixed`, in `StrokeUtils`;
  - the library's cross-document error, as `linkError`, in `IsolationLegacy`.

  Error messages the engine generates come in through these parameters.
- Logging (`console.warn`, `console.error`) is not modelled: they have no effect on results.
- Asynchrony is not modelled: `await`, Promise ordering and `Promise.all` for the three channel encodes. Each awaited step is taken to complete in program order.
- `Text.Lower`: case folding is ASCII only, which is what every extension check needs. `Text.IsSpace` covers the full ECMAScript WhiteSpace and LineTerminator set.
- ImporterCommon.URLCleanupTracker: its use inside `importGLTFWithTextures` is not modelled. The tracker and its `cleanup` call only revoke object URLs, which is outside the import result. `formatFileSize` (`importerCommon.js:78-86`) is not modelled: it uses floating-point logarithms.
- GltfImporter.ImportGLTFWithTextures: `createResourceResolver` (lines 157-169) is built but never passed to the library, so it is not modelled. The `.gltf` to `.glb` rename, `cacheDocument` and `glbToNodes` are part of `convert`.
- GltfImporter.DependenciesSpec: a `uri` that is truthy but not a string, a `null` entry in `images` or `buffers`, and JSON that is no object are not modelled.
- UrlImporter.ImportFromURL: the final `Unsupported file type` branch (lines 77-81) is unreachable once `detectFileType` returns `glb` or `gltf`. The model has no such branch.
- SkinGraph.SkeletonIds: the exact depth-first order of the added descendants is not stated. The contract pins down the set (the least closed set holding the joints), the absence of duplicates, the joints first in first-seen order, and that every id derives from an earlier one.
- SkinGraph.SkinViewOf: skeleton nodes missing from the scene are dropped before layout, as in the source. The positions of nodes the layout never reaches default to (0, 0).
- FileValidation.ValidateGLTFFile: the MIME check (`fileValidation.js:36`) computes a value that is never used, so the model has no MIME check. The MIME type is an input that never matters.
- MaterialGraph.BuildMaterialGraph: the eight value `if` blocks are written as one loop over a fixed table with a presence flag per entry. The order, ids, rows and edges are the source's.
- `src/utils/gltf/importer/glbImporter.js`, `src/utils/gltf/glbToNodes.js`, `src/utils/gltf/parser.js` and the React components other than the `initialGraph` of `SkinDetailView` are not part of this model.

## Findings

| source | as written | input that shows it | evidently intended | confidence | as-written member | corrected member |
|---|---|---|---|---|---|---|
| src/utils/drawing/strokeUtils.js:16 | Each step after the first appends `arr[(i+1) % n]`, so p1 is never emitted and p0 is emitted last. | `[[10,20],[30,40]]` gives `M 10.00,20.00 L 10.00,20.00 Z` | Every point once, in order: `M 10,20 L 30,40 Z`, the doc comment's example (line 10) | not executed | StrokeUtils.TwoPointsAsWritten | StrokeUtils.TwoPointsIntended |
| src/utils/separator.js:131-133 | With the grey option off, the source material's `clone()` lives in the source document. It is then set on a primitive of the new document, which glTF-Transform refuses as a link between two graphs, so the build throws. | a mesh with one primitive that has a material, `useGreyMaterial = false` | A material copy created in the new document, as the later version does (`src/utils/gltf/separator.js:186`) | not executed | IsolationLegacy.LegacyCloneThrowsExample | IsolationLegacy.LegacyClones |
