/** The roster upload component: a file is checked by name and size, parsed with a header
    row, previewed (first five rows) and handed to the parent. The parser is a parameter. */
module CsvUploader {
  import opened Wrappers
  import Text
  import Records

  /** The browser's `File`: its name and size in bytes. */
  datatype FileInfo = FileInfo(name: string, size: int)

  const CsvLimit: int := 5 * 1024 * 1024

  /** `validateFile`: the name must end in `.csv` (case-sensitive), then the size must not
      exceed 5 MiB; the empty message means valid. */
  function ValidateFile(f: FileInfo): (msg: string)
    ensures msg == "" <==> Text.EndsWith(f.name, ".csv") && f.size <= CsvLimit
    ensures !Text.EndsWith(f.name, ".csv") ==> msg == "Please upload a CSV file"
    ensures Text.EndsWith(f.name, ".csv") && f.size > CsvLimit ==> msg == "File size exceeds 5MB limit"
  {
    if !Text.EndsWith(f.name, ".csv") then "Please upload a CSV file"
    else if f.size > 5 * 1024 * 1024 then "File size exceeds 5MB limit"
    else ""
  }

  /** A name whose extension is `csv` in any other letter case is refused, whatever its size. */
  lemma CaseVariantRefused(base: string, ext: string, size: int)
    requires Text.AsciiLower(ext) == "csv" && ext != "csv"
    ensures ValidateFile(FileInfo(base + "." + ext, size)) == "Please upload a CSV file"
  {
    var n := base + "." + ext;
    assert |ext| == 3;
    assert n[|n| - 4..] == "." + ext;
    assert ("." + ext)[1..] == ext;
  }

  /** What the parent receives: the file and every parsed row. */
  datatype Upload = Upload(file: FileInfo, data: seq<Records.Row>)

  function Preview(data: seq<Records.Row>): (p: seq<Records.Row>)
    ensures |p| <= 5 && |p| <= |data| && p == data[..|p|] && (|data| >= 5 ==> |p| == 5) && (|data| < 5 ==> p == data)
  {
    if |data| <= 5 then data else data[..5]
  }

  /** The component's state. */
  class Component {
    var file: Option<FileInfo>
    var error: string
    var preview: Option<seq<Records.Row>>

    constructor ()
      ensures file == None && error == "" && preview == None
    {
      file := None;
      error := "";
      preview := None;
    }

    /** `handleFileChange` with the parse completing: `upload` is what `onUpload` receives.
        The parent gets the file and all rows only for a valid file whose parse yields rows;
        in every other case it gets null. */
    method HandleFileChange(selected: Option<FileInfo>, parsed: Result<seq<Records.Row>, string>)
      returns (upload: Option<Upload>)
      modifies this
      ensures upload.Some? <==> selected.Some? && ValidateFile(selected.value) == "" && parsed.Ok? && |parsed.value| > 0
      ensures upload.Some? ==> upload.value == Upload(selected.value, parsed.value)
      ensures selected.None? ==> file == None && error == "" && preview == None
      ensures selected.Some? && ValidateFile(selected.value) != "" ==>
                file == None && error == ValidateFile(selected.value) && preview == None
      ensures selected.Some? && ValidateFile(selected.value) == "" ==>
                file == selected
                && (parsed.Ok? ==> preview == Some(Preview(parsed.value))
                                   && error == (if |parsed.value| > 0 then "" else "No data found in CSV file"))
                && (parsed.Err? ==> preview == None && error == "Error parsing CSV: " + parsed.error)
    {
      if selected.None? {
        file, error, preview := None, "", None;
        return None;
      }
      var validationError := ValidateFile(selected.value);
      if validationError != "" {
        file, error, preview := None, validationError, None;
        return None;
      }
      file, error := selected, "";
      match parsed {
        case Ok(data) =>
          preview := Some(Preview(data));
          if |data| > 0 {
            upload := Some(Upload(selected.value, data));
          } else {
            error := "No data found in CSV file";
            upload := None;
          }
        case Err(message) =>
          error := "Error parsing CSV: " + message;
          preview := None;
          upload := None;
      }
    }
  }
}
