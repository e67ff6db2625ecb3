/**
 * The JSON shapes exchanged between the browser client and the server, kept
 * to what either side reads.
 */
module Wire {
  import opened Wrappers

  /** A JSON scalar as it appears in a member object. */
  datatype Value = Str(s: string) | Int(n: int) | Null

  /** A JSON object: field name to value. Spreading `{...a, ...b}` is `a + b`. */
  type Fields = map<string, Value>

  /**
   * An error response body: either a bare string, or an object whose listed
   * fields (`non_field_errors`, `username`, `password`, ...) hold lists of
   * messages and whose optional `detail` holds one message.
   */
  datatype Body = Text(text: string) | Object(lists: map<string, seq<string>>, detail: Option<string>)

  /** How a read request ended: with the response data, or with any error. */
  datatype Fetched<T> = Fetched(data: T) | FetchFailed

  const NonFieldErrors := "non_field_errors"
  const UsernameField := "username"
  const PasswordField := "password"

  /** JavaScript truthiness of an optional string: present and not "". */
  predicate Truthy(o: Option<string>) {
    o.Some? && o.value != ""
  }

  /** `details.f && details.f.length > 0`: the list field is present and non-empty. */
  predicate HasEntries(lists: map<string, seq<string>>, f: string) {
    f in lists && |lists[f]| > 0
  }
}
