/**
 * Import from a URL (src/utils/gltf/importer/urlImporter.js): the protocol
 * check, the filename taken from the URL path with its fallbacks, the
 * validation of user input and the routing of a fetched file to the GLB or
 * glTF importer. URL parsing, `fetch` and the two importers are parameters.
 */
module UrlImporter {
  import opened Wrappers
  import opened Text
  import opened ImporterCommon

  /** The parts of a parsed `URL` the importer reads. */
  datatype ParsedUrl = ParsedUrl(protocol: string, pathname: string)

  /** A parsed URL, `None` when the URL constructor throws. */
  type UrlParser = string -> Option<ParsedUrl>

  const DefaultName := "model.glb"
  const GltfName := "model.gltf"

  /** `isValidURL(s)`: it parses and its protocol is `http:` or `https:`. */
  predicate IsValidURL(s: string, parse: UrlParser) {
    parse(s).Some? && (parse(s).value.protocol == "http:" || parse(s).value.protocol == "https:")
  }

  /** The last `/`-segment of the path, when the URL parses. */
  function PathFilename(url: string, parse: UrlParser): Option<string> {
    if parse(url).Some? then Some(LastSegment(parse(url).value.pathname, '/')) else None
  }

  /** The last path segment is a usable filename: non-empty and containing a dot. */
  predicate HasDottedFilename(url: string, parse: UrlParser) {
    PathFilename(url, parse).Some? && '.' in PathFilename(url, parse).value
  }

  /** `extractFilenameFromURL(url)`. */
  function ExtractFilename(url: string, parse: UrlParser): (r: string)
    ensures '.' in r
    ensures HasDottedFilename(url, parse) ==> r == PathFilename(url, parse).value
    ensures !HasDottedFilename(url, parse) ==> r == DefaultName || r == GltfName
  {
    assert DefaultName[5] == '.' && GltfName[5] == '.';
    if parse(url).None? then DefaultName
    else
      var f := LastSegment(parse(url).value.pathname, '/');
      if f != "" && '.' in f then f
      else if Contains(Lower(url), ".glb") then DefaultName
      else if Contains(Lower(url), ".gltf") then GltfName
      else DefaultName
  }

  /**
   * Without a dotted last path segment the name is `model.gltf` exactly when
   * the URL parses and its lower-cased text mentions `.gltf` but not `.glb`;
   * in every other case it is `model.glb`.
   */
  lemma {:induction false} FallbackName(url: string, parse: UrlParser)
    requires !HasDottedFilename(url, parse)
    ensures ExtractFilename(url, parse) == GltfName <==>
      parse(url).Some? && !Contains(Lower(url), ".glb") && Contains(Lower(url), ".gltf")
    ensures ExtractFilename(url, parse) != GltfName ==> ExtractFilename(url, parse) == DefaultName
  {
    assert DefaultName != GltfName by {
      assert |DefaultName| != |GltfName|;
    }
  }

  /** The two fallback names are always recognised. */
  lemma {:induction false} FallbackNamesDetected()
    ensures DetectFileType(DefaultName) == Some(Glb)
    ensures DetectFileType(GltfName) == Some(Gltf)
  {
    DetectFileTypeOfName("model", "glb");
    assert "model" + "." + "glb" == DefaultName;
    DetectFileTypeOfName("model", "gltf");
    assert "model" + "." + "gltf" == GltfName;
  }

  /**
   * The file type of a URL is undetermined only when its last path segment
   * has a dot and an extension other than `glb`/`gltf`: every fallback name
   * is recognised.
   */
  lemma {:induction false} UndetectedMeansDottedFilename(url: string, parse: UrlParser)
    requires DetectFileType(ExtractFilename(url, parse)).None?
    ensures HasDottedFilename(url, parse)
    ensures ExtractFilename(url, parse) == PathFilename(url, parse).value
  {
    FallbackNamesDetected();
  }

  /** A path ending in `/<base>.<ext>` names the file `<base>.<ext>`. */
  lemma {:induction false} FilenameFromPath(url: string, parse: UrlParser, dir: string, base: string, ext: string)
    requires parse(url).Some? && parse(url).value.pathname == dir + "/" + base + "." + ext
    requires '/' !in base && '/' !in ext
    ensures ExtractFilename(url, parse) == base + "." + ext
  {
    var name := base + "." + ext;
    NoSlashIn(base, ext);
    assert dir + "/" + base + "." + ext == dir + ['/'] + name;
    LastSegmentAfter(dir, '/', name);
    assert name[|base|] == '.';
  }

  lemma {:induction false} NoSlashIn(base: string, ext: string)
    requires '/' !in base && '/' !in ext
    ensures '/' !in base + "." + ext
  {
    var name := base + "." + ext;
    forall i | 0 <= i < |name| ensures name[i] != '/' {
      if i < |base| { assert name[i] == base[i]; }
      else if i > |base| { assert name[i] == ext[i - |base| - 1]; }
    }
  }

  /** Such a URL's type is given by the extension, in any letter case. */
  lemma {:induction false} FileTypeFromPath(url: string, parse: UrlParser, dir: string, base: string, ext: string)
    requires parse(url).Some? && parse(url).value.pathname == dir + "/" + base + "." + ext
    requires '/' !in base && '/' !in ext
    requires Lower(ext) == "glb" || Lower(ext) == "gltf"
    ensures DetectFileType(ExtractFilename(url, parse)) == Some(if Lower(ext) == "glb" then Glb else Gltf)
  {
    FilenameFromPath(url, parse, dir, base, ext);
    DetectFileTypeOfName(base, ext);
  }

  // ---------------------------------------------------------------- validateURL

  datatype UrlValidation = Invalid(error: string) | Valid(url: string, fileType: FileType)

  const RequiredMessage := "URL is required"
  const FormatMessage := "Invalid URL format"
  const TypeMessage := "URL must point to a .glb or .gltf file"

  /** `validateURL(input)`; `None` is a missing or non-string input. */
  function ValidateURL(input: Option<string>, parse: UrlParser): (r: UrlValidation)
    ensures r.Valid? ==> input.Some? && r.url == Trim(input.value) && IsValidURL(r.url, parse)
                         && DetectFileType(ExtractFilename(r.url, parse)) == Some(r.fileType)
    ensures r.Invalid? ==> r.error in {RequiredMessage, FormatMessage, TypeMessage}
  {
    if input.None? || input.value == "" then Invalid(RequiredMessage)
    else
      var url := Trim(input.value);
      if !IsValidURL(url, parse) then Invalid(FormatMessage)
      else
        var fileType := DetectFileType(ExtractFilename(url, parse));
        if fileType.None? then Invalid(TypeMessage)
        else Valid(url, fileType.value)
  }

  /**
   * The outcome of `validateURL` case by case, in the order the checks run:
   * a missing or empty input, a trimmed string that is no HTTP(S) URL, a
   * filename of unknown type (only possible with a dotted last path
   * segment), and otherwise success with the trimmed URL.
   */
  lemma {:induction false} ValidateURLSpec(input: Option<string>, parse: UrlParser)
    ensures var r := ValidateURL(input, parse);
      && (r == Invalid(RequiredMessage) <==> input.None? || input.value == "")
      && (r == Invalid(FormatMessage) <==> input.Some? && input.value != "" && !IsValidURL(Trim(input.value), parse))
      && (r == Invalid(TypeMessage) ==> HasDottedFilename(Trim(input.value), parse))
      && (r.Valid? <==> input.Some? && input.value != "" && IsValidURL(Trim(input.value), parse)
                        && DetectFileType(ExtractFilename(Trim(input.value), parse)).Some?)
  {
    var r := ValidateURL(input, parse);
    if r == Invalid(TypeMessage) {
      UndetectedMeansDottedFilename(Trim(input.value), parse);
    }
  }

  /**
   * Validating the URL a successful validation returned gives the same
   * result, for a parser that, like `new URL`, rejects the empty string.
   */
  lemma {:induction false} ValidateURLIdempotent(input: Option<string>, parse: UrlParser)
    requires parse("").None?
    requires ValidateURL(input, parse).Valid?
    ensures ValidateURL(Some(ValidateURL(input, parse).url), parse) == ValidateURL(input, parse)
  {
    var t := Trim(input.value);
    TrimIdempotent(input.value);
    assert t != "";
  }

  /** An HTTP(S) URL whose path ends in a file without a dot still validates, through the fallback names. */
  lemma {:induction false} UndottedPathValidates(input: string, parse: UrlParser)
    requires input != "" && IsValidURL(Trim(input), parse) && !HasDottedFilename(Trim(input), parse)
    ensures ValidateURL(Some(input), parse).Valid?
  {
    FallbackNamesDetected();
    var f := ExtractFilename(Trim(input), parse);
    assert DetectFileType(f).Some? by {
      if f == DefaultName { } else { assert f == GltfName; }
    }
  }

  // ---------------------------------------------------------------- importFromURL

  /** What `fetch(url)` and `response.blob()` produced. */
  datatype FetchOutcome =
    | NetworkFailure                                   // a `TypeError` whose message mentions "Failed to fetch"
    | Threw(message: string)                           // any other error, caught by the outer handler
    | Response(ok: bool, status: nat, statusText: string, blobType: string, blob: seq<bv8>)

  /** The `File` handed to an importer. */
  datatype ModelFile = ModelFile(name: string, mimeType: string, data: seq<bv8>)

  const InvalidUrlMessage := "Invalid URL. Please provide a valid HTTP or HTTPS URL."
  const NetworkMessage := "Failed to fetch URL. This might be due to CORS restrictions or network issues."
  const UnknownTypeMessage := "Unable to determine file type. URL must end with .glb or .gltf"

  /** `blob.type`, or the standard MIME type of the detected kind when the blob has none. */
  function MimeTypeFor(blobType: string, fileType: FileType): string {
    if blobType != "" then blobType
    else if fileType == Glb then "model/gltf-binary" else "model/gltf+json"
  }

  /** A failed import result carrying only a message. */
  function Fail(message: string): ImportResult {
    CreateImportResult(false, NoData, Some(message))
  }

  /**
   * `importFromURL(url)`: `fetch` is the outcome of fetching a URL,
   * `importGlb` and `importGltf` the results of `importGLBFromFile(file)` and
   * `importGLTFWithTextures([file])`.
   */
  function ImportFromURL(url: string, parse: UrlParser, fetch: string -> FetchOutcome,
                         importGlb: ModelFile -> ImportResult,
                         importGltf: seq<ModelFile> -> ImportResult): (r: ImportResult)
    ensures !IsValidURL(url, parse) ==> r == Fail(InvalidUrlMessage)
    ensures IsValidURL(url, parse) && fetch(url).NetworkFailure? ==> r == Fail(NetworkMessage)
    ensures IsValidURL(url, parse) && fetch(url).Threw? ==> r == Fail("Failed to import from URL: " + fetch(url).message)
    ensures IsValidURL(url, parse) && fetch(url).Response? && !fetch(url).ok ==>
      r == Fail("Failed to fetch: " + NatStr(fetch(url).status) + " " + fetch(url).statusText)
  {
    if !IsValidURL(url, parse) then Fail(InvalidUrlMessage)
    else match fetch(url)
      case NetworkFailure => Fail(NetworkMessage)
      case Threw(message) => Fail("Failed to import from URL: " + message)
      case Response(ok, status, statusText, blobType, blob) =>
        if !ok then Fail("Failed to fetch: " + NatStr(status) + " " + statusText)
        else
          var filename := ExtractFilename(url, parse);
          match DetectFileType(filename)
          case None => Fail(UnknownTypeMessage)
          case Some(fileType) =>
            var file := ModelFile(filename, MimeTypeFor(blobType, fileType), blob);
            if fileType == Glb then importGlb(file) else importGltf([file])
  }

  /**
   * A fetched file goes to the GLB importer when its filename is a GLB
   * name, and alone to the glTF importer when it is a glTF name; it keeps
   * the extracted filename and the fetched bytes, and its MIME type is the
   * blob's or the kind's standard one. A file of neither kind is refused.
   */
  lemma {:induction false} ImportFromURLRoutes(url: string, parse: UrlParser, fetch: string -> FetchOutcome,
                            importGlb: ModelFile -> ImportResult, importGltf: seq<ModelFile> -> ImportResult)
    requires IsValidURL(url, parse) && fetch(url).Response? && fetch(url).ok
    ensures var o := fetch(url);
      var name := ExtractFilename(url, parse);
      var r := ImportFromURL(url, parse, fetch, importGlb, importGltf);
      && (DetectFileType(name) == Some(Glb) ==>
            r == importGlb(ModelFile(name, if o.blobType != "" then o.blobType else "model/gltf-binary", o.blob)))
      && (DetectFileType(name) == Some(Gltf) ==>
            r == importGltf([ModelFile(name, if o.blobType != "" then o.blobType else "model/gltf+json", o.blob)]))
      && (DetectFileType(name).None? ==> r == Fail(UnknownTypeMessage) && HasDottedFilename(url, parse))
  {
    var o := fetch(url);
    var name := ExtractFilename(url, parse);
    var r := ImportFromURL(url, parse, fetch, importGlb, importGltf);
    match DetectFileType(name)
    case None =>
      UndetectedMeansDottedFilename(url, parse);
    case Some(ft) =>
      var file := ModelFile(name, MimeTypeFor(o.blobType, ft), o.blob);
      assert r == if ft == Glb then importGlb(file) else importGltf([file]);
  }

  /** Every early failure is the standard failure result: no model, an empty graph and null metadata. */
  lemma {:induction false} FailShape(message: string)
    ensures var r := Fail(message);
      && !r.success && r.error == Some(message) && r.modelUrl.None? && r.nodes == [] && r.edges == []
      && r.metadata == map["filename" := MetaNull, "fileType" := MetaNull, "fileSize" := MetaNull]
  {
    FailureResult(message);
  }
}
