/**
 * Validation of a user-selected model file (src/utils/fileValidation.js):
 * a file must be present, end in `.glb` or `.gltf` in any case, and be at
 * most 100 MiB. The MIME type is read but never decides anything.
 */
module FileValidation {
  import opened Wrappers
  import opened Text

  const ValidExtensions := [".glb", ".gltf"]
  const MaxFileSize: nat := 100 * 1024 * 1024

  const NoFileMessage := "No file provided"
  const BadTypeMessage := "Invalid file type. Please upload a .glb or .gltf file"
  const TooLargeMessage := "File too large. Maximum size is 100MB"

  /** The parts of a `File` the validation reads. */
  datatype SelectedFile = SelectedFile(name: string, size: nat, mimeType: string)

  datatype Validation = Validation(isValid: bool, error: Option<string>)

  /** The lower-cased name ends with one of the accepted extensions. */
  predicate HasValidExtension(name: string) {
    exists i :: 0 <= i < |ValidExtensions| && EndsWith(Lower(name), ValidExtensions[i])
  }

  /** The verdict of `validateGLTFFile` on a file, `None` standing for a missing one. */
  function ValidateGLTFFile(file: Option<SelectedFile>): Validation {
    if file.None? then Validation(false, Some(NoFileMessage))
    else if !HasValidExtension(file.value.name) then Validation(false, Some(BadTypeMessage))
    else if file.value.size > MaxFileSize then Validation(false, Some(TooLargeMessage))
    else Validation(true, None)
  }

  /**
   * A file is valid exactly when it is present, its lower-cased name ends in
   * `.glb` or `.gltf`, and it is at most 104857600 bytes; a valid file has no
   * error and an invalid one always has one.
   */
  lemma {:induction false} ValidateSpec(file: Option<SelectedFile>)
    ensures var r := ValidateGLTFFile(file);
      && (r.isValid <==> file.Some? && (EndsWith(Lower(file.value.name), ".glb") || EndsWith(Lower(file.value.name), ".gltf"))
                         && file.value.size <= 104857600)
      && (r.isValid <==> r.error.None?)
  {
    if file.Some? {
      var n := Lower(file.value.name);
      assert HasValidExtension(file.value.name) <==> EndsWith(n, ".glb") || EndsWith(n, ".gltf") by {
        if EndsWith(n, ".glb") { assert EndsWith(n, ValidExtensions[0]); }
        if EndsWith(n, ".gltf") { assert EndsWith(n, ValidExtensions[1]); }
      }
    }
  }

  /** The checks run in order: a missing file, then the extension, then the size. */
  lemma {:induction false} ValidateOrder(file: Option<SelectedFile>)
    ensures file.None? ==> ValidateGLTFFile(file).error == Some("No file provided")
    ensures file.Some? && !HasValidExtension(file.value.name) ==>
      ValidateGLTFFile(file).error == Some("Invalid file type. Please upload a .glb or .gltf file")
    ensures file.Some? && HasValidExtension(file.value.name) && file.value.size > MaxFileSize ==>
      ValidateGLTFFile(file).error == Some("File too large. Maximum size is 100MB")
  {
  }

  /** A bad extension is reported as such even for an oversized file. */
  lemma {:induction false} ExtensionBeforeSize(name: string, size: nat, mimeType: string)
    requires !HasValidExtension(name) && size > MaxFileSize
    ensures ValidateGLTFFile(Some(SelectedFile(name, size, mimeType))).error == Some(BadTypeMessage)
  {
  }

  /** Exactly 100 MiB is accepted and one byte more rejected. */
  lemma {:induction false} SizeBoundary(name: string, mimeType: string)
    requires HasValidExtension(name)
    ensures ValidateGLTFFile(Some(SelectedFile(name, 104857600, mimeType))).isValid
    ensures ValidateGLTFFile(Some(SelectedFile(name, 104857601, mimeType))).error == Some(TooLargeMessage)
  {
  }

  /** The MIME type never changes the outcome. */
  lemma {:induction false} MimeTypeIgnored(file: SelectedFile, mimeType: string)
    ensures ValidateGLTFFile(Some(file.(mimeType := mimeType))) == ValidateGLTFFile(Some(file))
  {
  }

  /** Any letter case of the extension is accepted, whatever the base name. */
  lemma {:induction false} CaseInsensitive(base: string, ext: string, size: nat, mimeType: string)
    requires Lower(ext) == ".glb" || Lower(ext) == ".gltf"
    requires size <= MaxFileSize
    ensures ValidateGLTFFile(Some(SelectedFile(base + ext, size, mimeType))).isValid
  {
    LowerAppend(base, ext);
    var n := Lower(base + ext);
    assert n[|n| - |ext|..] == Lower(ext);
    if Lower(ext) == ".glb" {
      assert EndsWith(n, ValidExtensions[0]);
    } else {
      assert EndsWith(n, ValidExtensions[1]);
    }
  }
}
