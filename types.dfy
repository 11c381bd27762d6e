/** The data shapes of `types.ts`, plus the browser `File` they are built from. */
module Types {

  /** A browser `File`: the core reads only its declared MIME type (`file.type`); the
      name stands for the rest of the file's identity. */
  datatype File = File(name: string, mimeType: string)

  /** A cited web source; never produced in structured-output mode. */
  datatype Source = Source(uri: string, title: string)

  /** Category name to evidence strings. Key order of the JavaScript object is not modelled. */
  type Justification = map<string, seq<string>>

  /** The display-ready result of one analysis (`sources` is optional in TypeScript; here it is always present). */
  datatype AnalysisResult = AnalysisResult(
    location: string,
    confidence: string,
    justification: Justification,
    sources: seq<Source>)
}
