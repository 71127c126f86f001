/**
 * Shared importer utilities (src/utils/gltf/importer/importerCommon.js): the
 * standard import result, the blob-URL cleanup tracker and file-type
 * detection from a file name.
 */
module ImporterCommon {
  import opened Wrappers
  import opened Text
  import opened Seqs
  import opened SceneModel
  import opened GraphTypes

  /** A metadata value: a string, a number, or null. */
  datatype MetaValue = MetaString(s: string) | MetaNumber(n: nat) | MetaNull

  /**
   * The `data` argument of `createImportResult`; `None` is an absent
   * (undefined) or null field. `metadata` is the extra metadata object whose
   * keys are spread last.
   */
  datatype ImportData = ImportData(
    modelUrl: Option<string>,
    nodes: Option<seq<GraphNode>>,
    edges: Option<seq<GraphEdge>>,
    sceneData: Option<SceneData>,
    filename: Option<string>,
    fileType: Option<string>,
    fileSize: Option<nat>,
    metadata: map<string, MetaValue>)

  /** `{}`: every field absent. */
  const NoData := ImportData(None, None, None, None, None, None, None, map[])

  datatype ImportResult = ImportResult(
    success: bool,
    modelUrl: Option<string>,
    nodes: seq<GraphNode>,
    edges: seq<GraphEdge>,
    sceneData: Option<SceneData>,
    error: Option<string>,
    metadata: map<string, MetaValue>)

  /** `s || null` for an optional string: the empty string is falsy. */
  function StringOrNull(s: Option<string>): MetaValue {
    if Truthy(s) then MetaString(s.value) else MetaNull
  }

  /** `n || null` for an optional number: 0 is falsy. */
  function NumberOrNull(n: Option<nat>): MetaValue {
    if n.Some? && n.value != 0 then MetaNumber(n.value) else MetaNull
  }

  /**
   * The standard import result: the flags and the graph given, absent fields
   * defaulted (no model for an empty URL, an empty graph), and metadata
   * holding the file name, type and size (null when empty or zero) overlaid
   * by the extra metadata.
   */
  function CreateImportResult(success: bool, data: ImportData, error: Option<string>): (r: ImportResult)
    ensures r.success == success && r.error == error
    ensures r.modelUrl == (if Truthy(data.modelUrl) then data.modelUrl else None)
    ensures r.nodes == (if data.nodes.Some? then data.nodes.value else [])
    ensures r.edges == (if data.edges.Some? then data.edges.value else [])
    ensures r.sceneData == data.sceneData
    ensures r.metadata.Keys == {"filename", "fileType", "fileSize"} + data.metadata.Keys
    ensures forall k :: k in data.metadata ==> r.metadata[k] == data.metadata[k]
  {
    var base := map["filename" := StringOrNull(data.filename), "fileType" := StringOrNull(data.fileType),
                    "fileSize" := NumberOrNull(data.fileSize)];
    ImportResult(success, if Truthy(data.modelUrl) then data.modelUrl else None,
                 if data.nodes.Some? then data.nodes.value else [],
                 if data.edges.Some? then data.edges.value else [],
                 data.sceneData, error, base + data.metadata)
  }

  /**
   * Without an override in `data.metadata`, the filename and file type are
   * kept when non-empty and the size when non-zero; otherwise they are null.
   */
  lemma {:induction false} CreateImportResultDefaults(success: bool, data: ImportData, error: Option<string>)
    ensures var m := CreateImportResult(success, data, error).metadata;
      && ("filename" !in data.metadata ==>
            m["filename"] == (if data.filename.Some? && data.filename.value != "" then MetaString(data.filename.value) else MetaNull))
      && ("fileType" !in data.metadata ==>
            m["fileType"] == (if data.fileType.Some? && data.fileType.value != "" then MetaString(data.fileType.value) else MetaNull))
      && ("fileSize" !in data.metadata ==>
            m["fileSize"] == (if data.fileSize.Some? && data.fileSize.value > 0 then MetaNumber(data.fileSize.value) else MetaNull))
  {
  }

  /** A failure built from `{}`: no model, empty graph, no scene, all metadata null. */
  lemma {:induction false} FailureResult(error: string)
    ensures var r := CreateImportResult(false, NoData, Some(error));
      && !r.success && r.error == Some(error) && r.modelUrl.None? && r.nodes == [] && r.edges == [] && r.sceneData.None?
      && r.metadata == map["filename" := MetaNull, "fileType" := MetaNull, "fileSize" := MetaNull]
  {
    var r := CreateImportResult(false, NoData, Some(error));
    assert r.metadata.Keys == {"filename", "fileType", "fileSize"};
  }

  // ---------------------------------------------------------------- URLCleanupTracker

  /**
   * `URLCleanupTracker`: the tracked blob URLs as an insertion-ordered set,
   * and the log of `URL.revokeObjectURL` calls and of the ones that threw.
   */
  class URLCleanupTracker {
    var urls: seq<string>
    var revokeCalls: seq<string>
    var warnings: seq<string>

    ghost predicate Valid()
      reads this
    {
      NoDup(urls)
    }

    /** `count`: the size of the set. */
    function Count(): nat
      reads this
    {
      |urls|
    }

    constructor ()
      ensures Valid() && urls == [] && revokeCalls == [] && warnings == []
    {
      urls, revokeCalls, warnings := [], [], [];
    }

    /** Track a blob URL: add it to the set and hand it back. */
    method Track(url: string) returns (r: string)
      requires Valid()
      modifies this
      ensures Valid() && r == url
      ensures urls == AddNew(old(urls), url) && url in urls
      ensures revokeCalls == old(revokeCalls) && warnings == old(warnings)
      ensures Count() == old(Count()) + (if url in old(urls) then 0 else 1)
    {
      if url !in urls {
        urls := urls + [url];
      }
      r := url;
    }

    /**
     * `cleanup()`: attempt to revoke every tracked URL in insertion order,
     * logging (and otherwise ignoring) the ones whose revoke throws, then
     * clear the set. `throws` says which revokes throw.
     */
    method Cleanup(throws: string -> bool)
      requires Valid()
      modifies this
      ensures Valid() && urls == [] && Count() == 0
      ensures revokeCalls == old(revokeCalls) + old(urls)
      ensures warnings == old(warnings) + Filter(old(urls), throws)
    {
      var tracked := urls;
      var calls, logged := revokeCalls, warnings;
      for i := 0 to |tracked|
        invariant calls == revokeCalls + tracked[..i]
        invariant logged == warnings + Filter(tracked[..i], throws)
        modifies {}
      {
        var url := tracked[i];
        calls := calls + [url];
        if throws(url) {
          logged := logged + [url];
        }
        assert tracked[..i + 1] == tracked[..i] + [url];
        FilterAppend(tracked[..i], url, throws);
      }
      assert tracked[..|tracked|] == tracked;
      revokeCalls, warnings, urls := calls, logged, [];
    }
  }

  /** Tracking a URL that is already tracked changes nothing: the same URL counts once. */
  lemma {:induction false} TrackTwice(urls: seq<string>, url: string)
    ensures AddNew(AddNew(urls, url), url) == AddNew(urls, url)
    ensures |AddNew(AddNew(urls, url), url)| == |urls| + (if url in urls then 0 else 1)
  {
  }

  // ---------------------------------------------------------------- detectFileType

  datatype FileType = Glb | Gltf
  {
    function Name(): string {
      match this
      case Glb => "glb"
      case Gltf => "gltf"
    }
  }

  /** The lower-cased part of a file name after its last dot: the whole name when it has none. */
  function Extension(filename: string): string {
    Lower(LastSegment(filename, '.'))
  }

  /** The file type a name's extension names, if it is `glb` or `gltf`. */
  function DetectFileType(filename: string): (r: Option<FileType>)
    ensures r == Some(Glb) <==> Extension(filename) == "glb"
    ensures r == Some(Gltf) <==> Extension(filename) == "gltf"
    ensures r.None? <==> Extension(filename) != "glb" && Extension(filename) != "gltf"
  {
    var ext := Extension(filename);
    if ext == "glb" then Some(Glb)
    else if ext == "gltf" then Some(Gltf)
    else None
  }

  /** The part after a last separator is what follows it. */
  lemma {:induction false} LastSegmentAfter(s: string, sep: char, t: string)
    requires sep !in t
    ensures LastSegment(s + [sep] + t, sep) == t
  {
    if t != [] {
      var u := s + [sep] + t;
      assert u[..|u| - 1] == s + [sep] + t[..|t| - 1];
      LastSegmentAfter(s, sep, t[..|t| - 1]);
      assert t[..|t| - 1] + [t[|t| - 1]] == t;
    } else {
      assert (s + [sep])[|s|] == sep;
    }
  }

  /** Any name ending in `.glb` or `.gltf`, in any case, is detected; the base name does not matter. */
  lemma {:induction false} DetectFileTypeOfName(base: string, ext: string)
    requires Lower(ext) == "glb" || Lower(ext) == "gltf"
    ensures DetectFileType(base + "." + ext) == Some(if Lower(ext) == "glb" then Glb else Gltf)
  {
    LastSegmentAfter(base, '.', ext);
  }

  /** A name without a dot is all extension: `glb` itself is a GLB name and `model` is no known type. */
  lemma {:induction false} DetectFileTypeNoDot()
    ensures DetectFileType("glb") == Some(Glb) && DetectFileType("model") == None
  {
    assert LastSegment("glb", '.') == "glb";
    assert LastSegment("model", '.') == "model";
  }

  /** Only the last dot-segment counts: `scene.glb.zip` is no known type. */
  lemma {:induction false} DetectFileTypeLastDot()
    ensures DetectFileType("scene.glb.zip") == None
  {
    LastSegmentAfter("scene.glb", '.', "zip");
    assert "scene.glb" + ['.'] + "zip" == "scene.glb.zip";
  }
}
