/** Browser values the dashboard sends: a `File`, and the entries of a `FormData`. */
module WebFile {
  import Wrappers

  /** A `File`: its name, its MIME type and its size in bytes. */
  datatype File = File(name: string, mimeType: string, size: nat)

  /** A FormData value: a string, or a file sent under a file name. */
  datatype Part = TextPart(text: string) | FilePart(file: File, filename: string)

  /** One `formData.append(key, value)`. */
  datatype Entry = Entry(key: string, part: Part)

  /** A string read for its truthiness: `undefined`, `null` and "" are false. */
  predicate Truthy(s: Wrappers.Option<string>)
  {
    s.Some? && s.value != ""
  }
}
