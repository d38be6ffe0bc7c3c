/** The document-store validation rules the three schemas rely on: a `required` String
    rejects a missing value and the empty string, an `enum` String rejects any value outside
    its list, and a failed save reports "<Model> validation failed: <path>: <message>, ...". */
module SchemaRules {
  import opened Wrappers
  import Text

  /** A required String field passes when present and non-empty. */
  predicate RequiredString(v: Option<string>) {
    v.Some? && v.value != ""
  }

  datatype FieldError = FieldError(path: string, message: string)

  function RequiredError(path: string, name: string): FieldError {
    FieldError(path, "Path `" + name + "` is required.")
  }

  function EnumError(path: string, name: string, value: string): FieldError {
    FieldError(path, "`" + value + "` is not a valid enum value for path `" + name + "`.")
  }

  /** The error for a required String `name` at `path`, if it fails. */
  function CheckRequired(path: string, name: string, v: Option<string>): (errs: seq<FieldError>)
    ensures errs == [] <==> RequiredString(v)
  {
    if RequiredString(v) then [] else [RequiredError(path, name)]
  }

  function ErrorLines(errs: seq<FieldError>): seq<string> {
    if errs == [] then [] else [errs[0].path + ": " + errs[0].message] + ErrorLines(errs[1..])
  }

  /** The message a failed save carries. */
  function ValidationMessage(model: string, errs: seq<FieldError>): (m: string)
    ensures Text.StartsWith(m, model + " validation failed: ")
  {
    model + " validation failed: " + Text.Join(ErrorLines(errs), ", ")
  }
}
