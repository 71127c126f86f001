/**
 * Importing a `.gltf` file together with its external resources
 * (src/utils/gltf/importer/gltfImporter.js). Reading a file's text, JSON
 * parsing, `decodeURIComponent` and the glTF-Transform read/convert step are
 * parameters; what is modelled is which file is taken, which resources are
 * required, how they are looked up, and which result each branch returns,
 * including the outer catch that turns any thrown error into a failure.
 */
module GltfImporter {
  import opened Wrappers
  import opened Bytes
  import opened Text
  import opened Seqs
  import opened SceneModel
  import opened GraphTypes
  import opened ImporterCommon

  /** An image or buffer entry of the glTF JSON: only its `uri` is read. */
  datatype UriRef = UriRef(uri: Option<string>)

  /**
   * The `images` or `buffers` field of the glTF JSON: absent or falsy, and
   * then skipped; an array of entries; or a truthy value that is no array,
   * whose `forEach` throws a TypeError carrying `error`.
   */
  datatype UriList = Skipped | Listed(refs: seq<UriRef>) | NotList(error: string)

  /** The parsed glTF JSON, reduced to its `images` and `buffers` fields. */
  datatype GltfJson = GltfJson(images: UriList, buffers: UriList)

  /** A selected file: name, size and contents. */
  datatype ImportFile = ImportFile(name: string, size: nat, data: seq<byte>)

  /** What the glTF-Transform read, GLB conversion, object URL and graph extraction produce. */
  datatype Converted = Converted(modelUrl: string, nodes: seq<GraphNode>, edges: seq<GraphEdge>, sceneData: SceneData)

  const NoGltfMessage := "No .gltf file found. Please include a .gltf file in your selection."

  /** The prefix of every error that reaches the outer catch. */
  const ImportFailedPrefix := "Failed to import GLTF: "

  // ---------------------------------------------------------------- findGLTFDependencies

  /** A non-empty URI that does not start with `data:`, i.e. one naming an external file. */
  predicate IsExternal(r: UriRef) {
    Truthy(r.uri) && !StartsWith(r.uri.value, "data:")
  }

  /** The external URIs of `refs`, in order, repeats included, not yet decoded. */
  function ExternalUris(refs: seq<UriRef>): seq<string> {
    if refs == [] then []
    else
      var last := refs[|refs| - 1];
      ExternalUris(refs[..|refs| - 1]) + (if IsExternal(last) then [last.uri.value] else [])
  }

  /**
   * Decoding each URI in turn: the first URI that does not decode (a
   * malformed escape, for which `decodeURIComponent` throws) ends the walk
   * with its error; otherwise every decoded URI, in order.
   */
  function DecodeAll(us: seq<string>, decode: string -> Result<string>): Result<seq<string>> {
    if us == [] then Success([])
    else
      match DecodeAll(us[..|us| - 1], decode)
      case Failure(e) => Failure(e)
      case Success(ds) =>
        match decode(us[|us| - 1])
        case Failure(e) => Failure(e)
        case Success(d) => Success(ds + [d])
  }

  /** One field's decoded external URIs, or the error its walk throws. */
  function ListUris(l: UriList, decode: string -> Result<string>): Result<seq<string>> {
    match l
    case Skipped => Success([])
    case NotList(e) => Failure(e)
    case Listed(refs) => DecodeAll(ExternalUris(refs), decode)
  }

  /**
   * What `findGLTFDependencies` returns or throws: the images are walked
   * first, then the buffers, and the decoded URIs go into an
   * insertion-ordered set.
   */
  function Dependencies(json: GltfJson, decode: string -> Result<string>): Result<seq<string>> {
    match ListUris(json.images, decode)
    case Failure(e) => Failure(e)
    case Success(a) =>
      match ListUris(json.buffers, decode)
      case Failure(e) => Failure(e)
      case Success(b) => Success(Dedupe(a + b))
  }

  lemma {:induction false} ExternalUrisSpec(refs: seq<UriRef>)
    ensures forall u :: u in ExternalUris(refs) <==> exists i :: 0 <= i < |refs| && IsExternal(refs[i]) && u == refs[i].uri.value
  {
    if refs != [] {
      var init := refs[..|refs| - 1];
      ExternalUrisSpec(init);
      forall u ensures u in ExternalUris(refs) <==> exists i :: 0 <= i < |refs| && IsExternal(refs[i]) && u == refs[i].uri.value
      {
        if i :| 0 <= i < |refs| && IsExternal(refs[i]) && u == refs[i].uri.value {
          if i < |refs| - 1 {
            assert init[i] == refs[i];
          }
        }
        if u in ExternalUris(init) {
          var i :| 0 <= i < |init| && IsExternal(init[i]) && u == init[i].uri.value;
          assert refs[i] == init[i];
        }
      }
    }
  }

  lemma {:induction false} ExternalUrisAppend(a: seq<UriRef>, b: seq<UriRef>)
    ensures ExternalUris(a + b) == ExternalUris(a) + ExternalUris(b)
    decreases |b|
  {
    if b != [] {
      assert (a + b)[..|a + b| - 1] == a + b[..|b| - 1];
      ExternalUrisAppend(a, b[..|b| - 1]);
    } else {
      assert a + b == a;
    }
  }

  /**
   * The walk succeeds exactly when every URI decodes, and then yields each
   * URI decoded, in place; when it fails, its error is that of the first URI
   * that does not decode.
   */
  lemma {:induction false} DecodeAllSpec(us: seq<string>, decode: string -> Result<string>)
    ensures var r := DecodeAll(us, decode);
      && (r.Success? <==> forall i :: 0 <= i < |us| ==> decode(us[i]).Success?)
      && (r.Success? ==> |r.value| == |us| && forall i :: 0 <= i < |us| ==> r.value[i] == decode(us[i]).value)
      && (r.Failure? ==> exists k :: 0 <= k < |us| && decode(us[k]).Failure? && r.error == decode(us[k]).error
                                  && forall j :: 0 <= j < k ==> decode(us[j]).Success?)
  {
    if us != [] {
      var init := us[..|us| - 1];
      DecodeAllSpec(init, decode);
      assert forall i :: 0 <= i < |init| ==> init[i] == us[i];
    }
  }

  /** Once a prefix fails to decode, so does the whole, with the same error. */
  lemma {:induction false} DecodeAllStops(a: seq<string>, b: seq<string>, decode: string -> Result<string>)
    requires DecodeAll(a, decode).Failure?
    ensures DecodeAll(a + b, decode) == DecodeAll(a, decode)
    decreases |b|
  {
    if b != [] {
      assert (a + b)[..|a + b| - 1] == a + b[..|b| - 1];
      DecodeAllStops(a, b[..|b| - 1], decode);
    } else {
      assert a + b == a;
    }
  }

  /** Every external URI of the field decodes, and the field is skipped or an array. */
  predicate ListDecodes(l: UriList, decode: string -> Result<string>) {
    match l
    case Skipped => true
    case NotList(_) => false
    case Listed(refs) => forall i :: 0 <= i < |refs| && IsExternal(refs[i]) ==> decode(refs[i].uri.value).Success?
  }

  /** The names a field contributes: the decoded forms of its external URIs. */
  predicate FromList(l: UriList, decode: string -> Result<string>, s: string) {
    l.Listed? && exists i :: 0 <= i < |l.refs| && IsExternal(l.refs[i]) && decode(l.refs[i].uri.value) == Success(s)
  }

  lemma {:induction false} ListUrisSpec(l: UriList, decode: string -> Result<string>)
    ensures ListUris(l, decode).Success? <==> ListDecodes(l, decode)
    ensures ListUris(l, decode).Success? ==> forall s :: s in ListUris(l, decode).value <==> FromList(l, decode, s)
  {
    if l.Listed? {
      var us := ExternalUris(l.refs);
      ExternalUrisSpec(l.refs);
      DecodeAllSpec(us, decode);
      if ListDecodes(l, decode) {
        forall i | 0 <= i < |us| ensures decode(us[i]).Success? {
          assert us[i] in us;
        }
      } else {
        var i :| 0 <= i < |l.refs| && IsExternal(l.refs[i]) && decode(l.refs[i].uri.value).Failure?;
        var u := l.refs[i].uri.value;
        assert u in us;
        var k :| 0 <= k < |us| && us[k] == u;
      }
      var r := DecodeAll(us, decode);
      if r.Success? {
        forall s ensures s in r.value <==> FromList(l, decode, s) {
          if s in r.value {
            var k :| 0 <= k < |r.value| && r.value[k] == s;
            assert us[k] in us;
          }
          if FromList(l, decode, s) {
            var i :| 0 <= i < |l.refs| && IsExternal(l.refs[i]) && decode(l.refs[i].uri.value) == Success(s);
            assert l.refs[i].uri.value in us;
            var k :| 0 <= k < |us| && us[k] == l.refs[i].uri.value;
            assert r.value[k] == s;
          }
        }
      }
    }
  }

  /**
   * Finding the dependencies throws exactly when the images or buffers field
   * is a truthy non-array, or one of its external URIs does not decode; the
   * images are walked first, so their error wins.
   */
  lemma {:induction false} DependenciesFailure(json: GltfJson, decode: string -> Result<string>)
    ensures Dependencies(json, decode).Success? <==> ListDecodes(json.images, decode) && ListDecodes(json.buffers, decode)
    ensures !ListDecodes(json.images, decode) ==> Dependencies(json, decode) == ListUris(json.images, decode)
  {
    ListUrisSpec(json.images, decode);
    ListUrisSpec(json.buffers, decode);
  }

  /**
   * The dependencies found are distinct; a name is one exactly when some image
   * or buffer has an external URI that decodes to it; and they keep
   * first-seen order, images before buffers.
   */
  lemma {:induction false} DependenciesSpec(json: GltfJson, decode: string -> Result<string>)
    requires Dependencies(json, decode).Success?
    ensures var a := ListUris(json.images, decode).value;
      var b := ListUris(json.buffers, decode).value;
      var deps := Dependencies(json, decode).value;
      && NoDup(deps)
      && (forall s :: s in deps <==> FromList(json.images, decode, s) || FromList(json.buffers, decode, s))
      && forall i, j :: 0 <= i < j < |deps| ==>
           deps[i] in a + b && deps[j] in a + b && FirstIndex(a + b, deps[i]) < FirstIndex(a + b, deps[j])
  {
    ListUrisSpec(json.images, decode);
    ListUrisSpec(json.buffers, decode);
    var a := ListUris(json.images, decode).value;
    var b := ListUris(json.buffers, decode).value;
    var deps := Dependencies(json, decode).value;
    DedupeElements(a + b);
    forall i, j | 0 <= i < j < |deps|
      ensures deps[i] in a + b && deps[j] in a + b && FirstIndex(a + b, deps[i]) < FirstIndex(a + b, deps[j])
    {
      DedupeFirstSeenOrder(a + b, i, j);
    }
  }

  /** Adding to the insertion-ordered set: the set of a sequence grows by one candidate. */
  lemma {:induction false} DedupeSnoc(s: seq<string>, x: string)
    ensures Dedupe(s + [x]) == AddNew(Dedupe(s), x)
  {
    assert (s + [x])[..|s|] == s;
  }

  /** One entry more of the walk: only an external entry adds its URI. */
  lemma {:induction false} ExternalUrisSnoc(refs: seq<UriRef>, i: nat)
    requires i < |refs|
    ensures ExternalUris(refs[..i + 1]) == ExternalUris(refs[..i]) + (if IsExternal(refs[i]) then [refs[i].uri.value] else [])
  {
    assert refs[..i + 1][..i] == refs[..i];
  }

  /** The walk stops at entry `i` when its URI is the first that does not decode. */
  lemma {:induction false} WalkStops(refs: seq<UriRef>, i: nat, decode: string -> Result<string>)
    requires i < |refs| && IsExternal(refs[i]) && decode(refs[i].uri.value).Failure?
    requires DecodeAll(ExternalUris(refs[..i]), decode).Success?
    ensures DecodeAll(ExternalUris(refs), decode) == Failure(decode(refs[i].uri.value).error)
  {
    ExternalUrisSnoc(refs, i);
    var done := ExternalUris(refs[..i]);
    assert (done + [refs[i].uri.value])[..|done|] == done;
    assert refs == refs[..i + 1] + refs[i + 1..];
    ExternalUrisAppend(refs[..i + 1], refs[i + 1..]);
    DecodeAllStops(ExternalUris(refs[..i + 1]), ExternalUris(refs[i + 1..]), decode);
  }

  /** The walk goes past entry `i` when it is not external or its URI decodes, adding the decoded URI to the set. */
  lemma {:induction false} WalkContinues(refs: seq<UriRef>, i: nat, decode: string -> Result<string>, before: seq<string>)
    requires i < |refs| && (IsExternal(refs[i]) ==> decode(refs[i].uri.value).Success?)
    requires DecodeAll(ExternalUris(refs[..i]), decode).Success?
    ensures DecodeAll(ExternalUris(refs[..i + 1]), decode).Success?
    ensures var prev := Dedupe(before + DecodeAll(ExternalUris(refs[..i]), decode).value);
      Dedupe(before + DecodeAll(ExternalUris(refs[..i + 1]), decode).value)
        == if IsExternal(refs[i]) then AddNew(prev, decode(refs[i].uri.value).value) else prev
  {
    ExternalUrisSnoc(refs, i);
    var done := ExternalUris(refs[..i]);
    var ds := DecodeAll(done, decode).value;
    if IsExternal(refs[i]) {
      var uri := refs[i].uri.value;
      assert (done + [uri])[..|done|] == done;
      var u := decode(uri).value;
      assert DecodeAll(done + [uri], decode) == Success(ds + [u]);
      assert before + (ds + [u]) == (before + ds) + [u];
      DedupeSnoc(before + ds, u);
    } else {
      assert done + [] == done;
    }
  }

  /**
   * One walk of `findGLTFDependencies` over an array field: decode each
   * external URI and add it to `deps`, stopping at the first that throws.
   */
  method AddExternal(deps: seq<string>, refs: seq<UriRef>, decode: string -> Result<string>, ghost before: seq<string>)
    returns (r: Result<seq<string>>)
    requires deps == Dedupe(before)
    ensures var walk := DecodeAll(ExternalUris(refs), decode);
      && (walk.Failure? ==> r == Failure(walk.error))
      && (walk.Success? ==> r == Success(Dedupe(before + walk.value)))
  {
    var deps' := deps;
    assert refs[..0] == [];
    assert before + [] == before;
    for i := 0 to |refs|
      invariant DecodeAll(ExternalUris(refs[..i]), decode).Success?
      invariant deps' == Dedupe(before + DecodeAll(ExternalUris(refs[..i]), decode).value)
    {
      var ref := refs[i];
      if ref.uri.Some? && ref.uri.value != "" && !StartsWith(ref.uri.value, "data:") {
        var u := decode(ref.uri.value);
        if u.Failure? {
          WalkStops(refs, i, decode);
          return Failure(u.error);
        }
        WalkContinues(refs, i, decode, before);
        if u.value !in deps' {
          deps' := deps' + [u.value];
        }
      } else {
        WalkContinues(refs, i, decode, before);
      }
    }
    assert refs[..|refs|] == refs;
    r := Success(deps');
  }

  /** `findGLTFDependencies`, with the throw of any walk as a `Failure`. */
  method FindGLTFDependencies(json: GltfJson, decode: string -> Result<string>) returns (r: Result<seq<string>>)
    ensures r == Dependencies(json, decode)
  {
    var deps: seq<string> := [];
    ghost var a: seq<string> := [];
    match json.images {
      case NotList(e) => return Failure(e);
      case Skipped =>
      case Listed(refs) =>
        var walked := AddExternal(deps, refs, decode, []);
        if walked.Failure? {
          return walked;
        }
        a := DecodeAll(ExternalUris(refs), decode).value;
        assert [] + a == a;
        deps := walked.value;
    }
    assert ListUris(json.images, decode) == Success(a);
    match json.buffers {
      case NotList(e) => return Failure(e);
      case Skipped =>
        assert a + [] == a;
        r := Success(deps);
      case Listed(refs) =>
        r := AddExternal(deps, refs, decode, a);
    }
  }

  // ---------------------------------------------------------------- buildFileMap

  /** The file map: each name to its file, a later file overwriting an earlier one of the same name. */
  function FileMapOf(files: seq<ImportFile>): map<string, ImportFile> {
    if files == [] then map[] else FileMapOf(files[..|files| - 1])[files[|files| - 1].name := files[|files| - 1]]
  }

  /** A name is mapped iff some file has it. */
  lemma {:induction false} FileMapKeys(files: seq<ImportFile>)
    ensures forall name :: name in FileMapOf(files) <==> exists i :: 0 <= i < |files| && files[i].name == name
  {
    if files != [] {
      var init := files[..|files| - 1];
      FileMapKeys(init);
      forall name ensures name in FileMapOf(files) <==> exists i :: 0 <= i < |files| && files[i].name == name {
        if name in FileMapOf(init) {
          var i :| 0 <= i < |init| && init[i].name == name;
          assert files[i] == init[i];
        }
        if i :| 0 <= i < |files| && files[i].name == name {
          if i < |init| {
            assert init[i] == files[i];
          }
        }
      }
    }
  }

  /** A later file of the same name wins: each name maps to the last file that has it. */
  lemma {:induction false} FileMapLastWins(files: seq<ImportFile>, i: nat)
    requires i < |files| && forall j :: i < j < |files| ==> files[j].name != files[i].name
    ensures files[i].name in FileMapOf(files) && FileMapOf(files)[files[i].name] == files[i]
  {
    if i < |files| - 1 {
      var init := files[..|files| - 1];
      assert init[i] == files[i];
      assert forall j :: i < j < |init| ==> init[j] == files[j];
      FileMapLastWins(init, i);
    }
  }

  method BuildFileMap(files: seq<ImportFile>) returns (m: map<string, ImportFile>)
    ensures m == FileMapOf(files)
  {
    m := map[];
    for i := 0 to |files|
      invariant m == FileMapOf(files[..i])
    {
      assert files[..i + 1][..i] == files[..i];
      m := m[files[i].name := files[i]];
    }
    assert files[..|files|] == files;
  }

  // ---------------------------------------------------------------- missing files and resources

  /** The dependencies that no selected file is named after, in dependency order. */
  function Missing(deps: seq<string>, fileMap: map<string, ImportFile>): (r: seq<string>)
    ensures forall s :: s in r <==> s in deps && s !in fileMap
    ensures r == [] <==> forall i :: 0 <= i < |deps| ==> deps[i] in fileMap
  {
    if deps == [] then []
    else
      var r := Missing(deps[..|deps| - 1], fileMap);
      var last := deps[|deps| - 1];
      assert forall s :: s in deps <==> s in deps[..|deps| - 1] || s == last;
      assert forall i :: 0 <= i < |deps| - 1 ==> deps[i] == deps[..|deps| - 1][i];
      r + (if last in fileMap then [] else [last])
  }

  function MissingMessage(missing: seq<string>): string {
    "Missing required files: " + Join(missing, ", ") + ". Please include all referenced textures and buffers."
  }

  /** The resources loaded: each dependency present in the file map, to its file's bytes. */
  function Resources(deps: seq<string>, fileMap: map<string, ImportFile>): (r: map<string, seq<byte>>)
    ensures forall s :: s in r <==> s in deps && s in fileMap
    ensures forall s :: s in r ==> r[s] == fileMap[s].data
  {
    if deps == [] then map[]
    else
      var last := deps[|deps| - 1];
      var r := Resources(deps[..|deps| - 1], fileMap);
      assert forall s :: s in deps <==> s in deps[..|deps| - 1] || s == last;
      if last in fileMap then r[last := fileMap[last].data] else r
  }

  method LoadResources(deps: seq<string>, fileMap: map<string, ImportFile>) returns (resources: map<string, seq<byte>>)
    ensures resources == Resources(deps, fileMap)
  {
    resources := map[];
    for i := 0 to |deps|
      invariant resources == Resources(deps[..i], fileMap)
    {
      assert deps[..i + 1][..i] == deps[..i];
      var dep := deps[i];
      if dep in fileMap {
        resources := resources[dep := fileMap[dep].data];
      }
    }
    assert deps[..|deps|] == deps;
  }

  /** The total size of the selected files. */
  function TotalSize(files: seq<ImportFile>): nat {
    if files == [] then 0 else TotalSize(files[..|files| - 1]) + files[|files| - 1].size
  }

  lemma {:induction false} TotalSizeBounds(files: seq<ImportFile>)
    ensures forall i :: 0 <= i < |files| ==> files[i].size <= TotalSize(files)
    ensures TotalSize(files) == 0 <==> forall i :: 0 <= i < |files| ==> files[i].size == 0
  {
    if files != [] {
      var init := files[..|files| - 1];
      TotalSizeBounds(init);
      assert forall i :: 0 <= i < |init| ==> init[i] == files[i];
    }
  }

  // ---------------------------------------------------------------- importGLTFWithTextures

  /** A file name ending in `.gltf`, in any case. */
  predicate IsGltfFile(f: ImportFile) {
    EndsWith(Lower(f.name), ".gltf")
  }

  /**
   * The branches after the JSON has parsed: finding the dependencies (whose
   * throw reaches the outer catch), the missing-file check, then the
   * conversion.
   */
  function AfterParse(files: seq<ImportFile>, gltfName: string, json: GltfJson, decode: string -> Result<string>,
                      convert: (GltfJson, map<string, seq<byte>>) -> Result<Converted>): ImportResult
  {
    match Dependencies(json, decode)
    case Failure(e) => CreateImportResult(false, NoData, Some(ImportFailedPrefix + e))
    case Success(deps) =>
      var fileMap := FileMapOf(files);
      var missing := Missing(deps, fileMap);
      if |missing| > 0 then CreateImportResult(false, NoData, Some(MissingMessage(missing)))
      else
        match convert(json, Resources(deps, fileMap))
        case Failure(e) => CreateImportResult(false, NoData, Some(ImportFailedPrefix + e))
        case Success(c) => CreateImportResult(true, SuccessData(c, gltfName, TotalSize(files), |deps|, |files|), None)
  }

  /** The `data` of the success result. */
  function SuccessData(c: Converted, gltfName: string, size: nat, resourceCount: nat, totalFiles: nat): ImportData {
    ImportData(Some(c.modelUrl), Some(c.nodes), Some(c.edges), Some(c.sceneData), Some(gltfName), Some("gltf"), Some(size),
               map["resourceCount" := MetaNumber(resourceCount), "totalFiles" := MetaNumber(totalFiles)])
  }

  /**
   * The result of `importGLTFWithTextures(files)`. `read` reads a file's text
   * (a failure reaches the outer catch), `parse` parses text as JSON (its
   * failure carries the parser's message), `decode` is `decodeURIComponent`,
   * and `convert` stands for the glTF-Transform read of the JSON with the
   * loaded resources, the GLB conversion, the object URL and the graph
   * extraction.
   */
  function ImportResultOf(files: seq<ImportFile>, read: seq<byte> -> Result<string>, parse: string -> Result<GltfJson>,
                          decode: string -> Result<string>,
                          convert: (GltfJson, map<string, seq<byte>>) -> Result<Converted>): ImportResult
  {
    match FindFirst(files, IsGltfFile)
    case None => CreateImportResult(false, NoData, Some(NoGltfMessage))
    case Some(k) =>
      match read(files[k].data)
      case Failure(e) => CreateImportResult(false, NoData, Some(ImportFailedPrefix + e))
      case Success(text) =>
        match parse(text)
        case Failure(e) => CreateImportResult(false, NoData, Some("Invalid GLTF file: " + e))
        case Success(json) => AfterParse(files, files[k].name, json, decode, convert)
  }

  /** Without a `.gltf` file among the selection the import fails with the no-file message. */
  lemma {:induction false} NoGltfFails(files: seq<ImportFile>, read: seq<byte> -> Result<string>, parse: string -> Result<GltfJson>,
                                       decode: string -> Result<string>,
                                       convert: (GltfJson, map<string, seq<byte>>) -> Result<Converted>)
    requires forall i :: 0 <= i < |files| ==> !IsGltfFile(files[i])
    ensures var r := ImportResultOf(files, read, parse, decode, convert);
      !r.success && r.error == Some(NoGltfMessage) && r.modelUrl.None?
  {
  }

  /**
   * The first `.gltf` file is the one read: when its text cannot be read the
   * import fails through the outer catch, and when its JSON does not parse it
   * fails with the parser's message.
   */
  lemma {:induction false} ReadFailureFails(files: seq<ImportFile>, read: seq<byte> -> Result<string>, parse: string -> Result<GltfJson>,
                                            decode: string -> Result<string>,
                                            convert: (GltfJson, map<string, seq<byte>>) -> Result<Converted>, k: nat)
    requires k < |files| && IsGltfFile(files[k]) && forall j :: 0 <= j < k ==> !IsGltfFile(files[j])
    ensures var r := ImportResultOf(files, read, parse, decode, convert);
      && (read(files[k].data).Failure? ==> !r.success && r.error == Some(ImportFailedPrefix + read(files[k].data).error))
      && (read(files[k].data).Success? && parse(read(files[k].data).value).Failure? ==>
            !r.success && r.error == Some("Invalid GLTF file: " + parse(read(files[k].data).value).error))
      && (read(files[k].data).Success? && parse(read(files[k].data).value).Success? ==>
            r == AfterParse(files, files[k].name, parse(read(files[k].data).value).value, decode, convert))
  {
    assert FindFirst(files, IsGltfFile) == Some(k);
  }

  /**
   * A URI that does not decode, or a truthy non-array `images` or `buffers`,
   * fails the import through the outer catch with the thrown error, before
   * any file is looked up.
   */
  lemma {:induction false} DependencyFailureFails(files: seq<ImportFile>, gltfName: string, json: GltfJson,
                                                  decode: string -> Result<string>,
                                                  convert: (GltfJson, map<string, seq<byte>>) -> Result<Converted>)
    requires !ListDecodes(json.images, decode) || !ListDecodes(json.buffers, decode)
    ensures var r := AfterParse(files, gltfName, json, decode, convert);
      && Dependencies(json, decode).Failure?
      && !r.success && r.modelUrl.None? && r.error == Some(ImportFailedPrefix + Dependencies(json, decode).error)
  {
    DependenciesFailure(json, decode);
  }

  /**
   * A dependency that no selected file is named after fails the import with
   * the list of exactly those dependencies, in dependency order.
   */
  lemma {:induction false} MissingFails(files: seq<ImportFile>, gltfName: string, json: GltfJson, decode: string -> Result<string>,
                                        convert: (GltfJson, map<string, seq<byte>>) -> Result<Converted>, d: string)
    requires Dependencies(json, decode).Success?
    requires d in Dependencies(json, decode).value && forall i :: 0 <= i < |files| ==> files[i].name != d
    ensures var deps := Dependencies(json, decode).value;
      var r := AfterParse(files, gltfName, json, decode, convert);
      var missing := Missing(deps, FileMapOf(files));
      && !r.success && r.error == Some(MissingMessage(missing))
      && d in missing
      && forall s :: s in missing <==> s in deps && forall i :: 0 <= i < |files| ==> files[i].name != s
  {
    FileMapKeys(files);
  }

  /** With every dependency among the selected files nothing is missing and every dependency's bytes are loaded. */
  lemma {:induction false} AllPresent(files: seq<ImportFile>, deps: seq<string>)
    requires forall d :: d in deps ==> exists i :: 0 <= i < |files| && files[i].name == d
    ensures Missing(deps, FileMapOf(files)) == []
    ensures forall s :: s in Resources(deps, FileMapOf(files)) <==> s in deps
    ensures forall s :: s in Resources(deps, FileMapOf(files)) ==> Resources(deps, FileMapOf(files))[s] == FileMapOf(files)[s].data
  {
    FileMapKeys(files);
    forall i | 0 <= i < |deps| ensures deps[i] in FileMapOf(files) {
      assert deps[i] in deps;
    }
  }

  /** The success result's metadata: the name, type `gltf`, the size (null when 0) and the two counts. */
  lemma {:induction false} SuccessMetadata(c: Converted, gltfName: string, size: nat, resourceCount: nat, totalFiles: nat)
    ensures var r := CreateImportResult(true, SuccessData(c, gltfName, size, resourceCount, totalFiles), None);
      && r.success && r.error.None? && r.modelUrl == (if c.modelUrl != "" then Some(c.modelUrl) else None)
      && r.nodes == c.nodes && r.edges == c.edges && r.sceneData == Some(c.sceneData)
      && r.metadata["filename"] == (if gltfName != "" then MetaString(gltfName) else MetaNull)
      && r.metadata["fileType"] == MetaString("gltf")
      && r.metadata["fileSize"] == (if size > 0 then MetaNumber(size) else MetaNull)
      && r.metadata["resourceCount"] == MetaNumber(resourceCount)
      && r.metadata["totalFiles"] == MetaNumber(totalFiles)
  {
    CreateImportResultDefaults(true, SuccessData(c, gltfName, size, resourceCount, totalFiles), None);
  }

  /**
   * Once the dependencies are found and every one is among the selected
   * files, the import succeeds exactly when the conversion of the JSON with
   * the loaded resources does, and then carries the success data; otherwise
   * it fails with the conversion's message.
   */
  lemma {:induction false} AfterParseSuccess(files: seq<ImportFile>, gltfName: string, json: GltfJson, decode: string -> Result<string>,
                                             convert: (GltfJson, map<string, seq<byte>>) -> Result<Converted>)
    requires Dependencies(json, decode).Success?
    requires forall d :: d in Dependencies(json, decode).value ==> exists i :: 0 <= i < |files| && files[i].name == d
    ensures var deps := Dependencies(json, decode).value;
      var converted := convert(json, Resources(deps, FileMapOf(files)));
      var r := AfterParse(files, gltfName, json, decode, convert);
      && (r.success <==> converted.Success?)
      && (converted.Success? ==> r == CreateImportResult(true, SuccessData(converted.value, gltfName, TotalSize(files), |deps|, |files|), None))
      && (converted.Failure? ==> r.error == Some(ImportFailedPrefix + converted.error))
  {
    AllPresent(files, Dependencies(json, decode).value);
  }

  /** The index of the first `.gltf` file, or none. */
  method FindGltfFile(files: seq<ImportFile>) returns (k: Option<nat>)
    ensures k == FindFirst(files, IsGltfFile)
  {
    for i := 0 to |files|
      invariant forall j :: 0 <= j < i ==> !IsGltfFile(files[j])
    {
      if EndsWith(Lower(files[i].name), ".gltf") {
        assert IsGltfFile(files[i]);
        return Some(i);
      }
    }
    return None;
  }

  /** `importGLTFWithTextures`, with the loops of the helpers it calls. */
  method ImportGLTFWithTextures(files: seq<ImportFile>, read: seq<byte> -> Result<string>, parse: string -> Result<GltfJson>,
                                decode: string -> Result<string>,
                                convert: (GltfJson, map<string, seq<byte>>) -> Result<Converted>)
    returns (r: ImportResult)
    ensures r == ImportResultOf(files, read, parse, decode, convert)
  {
    var found := FindGltfFile(files);
    if found.None? {
      return CreateImportResult(false, NoData, Some(NoGltfMessage));
    }
    var gltfFile := files[found.value];
    var text := read(gltfFile.data);
    if text.Failure? {
      return CreateImportResult(false, NoData, Some(ImportFailedPrefix + text.error));
    }
    var parsed := parse(text.value);
    if parsed.Failure? {
      return CreateImportResult(false, NoData, Some("Invalid GLTF file: " + parsed.error));
    }
    var dependencies := FindGLTFDependencies(parsed.value, decode);
    if dependencies.Failure? {
      return CreateImportResult(false, NoData, Some(ImportFailedPrefix + dependencies.error));
    }
    var fileMap := BuildFileMap(files);
    var missingFiles := Missing(dependencies.value, fileMap);
    if |missingFiles| > 0 {
      return CreateImportResult(false, NoData, Some(MissingMessage(missingFiles)));
    }
    var resources := LoadResources(dependencies.value, fileMap);
    var converted := convert(parsed.value, resources);
    if converted.Failure? {
      return CreateImportResult(false, NoData, Some(ImportFailedPrefix + converted.error));
    }
    r := CreateImportResult(true, SuccessData(converted.value, gltfFile.name, TotalSize(files), |dependencies.value|, |files|), None);
  }
}
