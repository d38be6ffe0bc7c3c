/** The job-description upload component: a file is accepted by extension (any case) and
    size, and handed to the parent. */
module JdUploader {
  import opened Wrappers
  import Text

  datatype FileInfo = FileInfo(name: string, size: int)

  const JdLimit: int := 10 * 1024 * 1024
  const AllowedExtensions: seq<string> := [".pdf", ".docx", ".txt"]

  /** `name.substring(name.lastIndexOf('.')).toLowerCase()`: from the last dot on, or the
      whole name when there is none (`substring(-1)` starts at 0). */
  function Extension(name: string): (e: string)
    ensures |e| <= |name|
  {
    var dot := Text.LastIndexOf(name, '.');
    Text.AsciiLower(name[if dot < 0 then 0 else dot..])
  }

  /** `validateFile`: the extension first, then the 10 MiB limit. */
  function ValidateFile(f: FileInfo): (msg: string)
    ensures msg == "" <==> Extension(f.name) in AllowedExtensions && f.size <= JdLimit
    ensures Extension(f.name) !in AllowedExtensions ==> msg == "Please upload a PDF, DOCX, or TXT file"
    ensures Extension(f.name) in AllowedExtensions && f.size > JdLimit ==> msg == "File size exceeds 10MB limit"
  {
    if Extension(f.name) !in AllowedExtensions then "Please upload a PDF, DOCX, or TXT file"
    else if f.size > 10 * 1024 * 1024 then "File size exceeds 10MB limit"
    else ""
  }

  /** The extension is what follows the last dot, whatever comes before it, lowercased. */
  lemma ExtensionOf(base: string, ext: string)
    requires '.' !in ext
    ensures Extension(base + "." + ext) == Text.AsciiLower("." + ext)
  {
    var name := base + "." + ext;
    assert name[|base|] == '.';
    assert forall k :: |base| < k < |name| ==> name[k] == ext[k - |base| - 1];
    assert Text.LastIndexOf(name, '.') == |base|;
    assert name[|base|..] == "." + ext;
  }

  /** A name without any dot is always refused. */
  lemma NoDotRefused(f: FileInfo)
    requires '.' !in f.name
    ensures ValidateFile(f) == "Please upload a PDF, DOCX, or TXT file"
  {
    var e := Extension(f.name);
    assert e == Text.AsciiLower(f.name);
    assert '.' !in e;
    assert ".pdf"[0] == '.' && ".docx"[0] == '.' && ".txt"[0] == '.';
  }

  /** An allowed extension is accepted in any letter case, at any size within the limit. */
  lemma AnyCaseAccepted(base: string, ext: string, size: int)
    requires '.' !in ext && Text.AsciiLower("." + ext) in AllowedExtensions && size <= JdLimit
    ensures ValidateFile(FileInfo(base + "." + ext, size)) == ""
  {
    ExtensionOf(base, ext);
  }

  class Component {
    var file: Option<FileInfo>
    var error: string

    constructor ()
      ensures file == None && error == ""
    {
      file := None;
      error := "";
    }

    /** `handleFileChange`: `upload` is what `onUpload` receives — the file when it is valid,
        null otherwise. */
    method HandleFileChange(selected: Option<FileInfo>) returns (upload: Option<FileInfo>)
      modifies this
      ensures upload.Some? <==> selected.Some? && ValidateFile(selected.value) == ""
      ensures upload.Some? ==> upload == selected && file == selected && error == ""
      ensures selected.None? ==> file == None && error == ""
      ensures selected.Some? && ValidateFile(selected.value) != "" ==> file == None && error == ValidateFile(selected.value)
    {
      if selected.None? {
        file, error := None, "";
        return None;
      }
      var validationError := ValidateFile(selected.value);
      if validationError != "" {
        file, error := None, validationError;
        return None;
      }
      file, error := selected, "";
      return selected;
    }
  }
}
