/** The JSON responses the API routes return through `NextResponse.json`. */
module Http {
  import opened Js

  /** The JSON object sent back: `{error}`, `{output, toolType}` or `{message}`. */
  datatype Body =
    | ErrorBody(error: string)
    | OutputBody(output: string, toolType: JsValue)
    | MessageBody(message: string)

  /** A status code with its JSON body; `NextResponse.json` without a status gives 200. */
  datatype Response = Response(status: int, body: Body)

  function Failure(status: int, error: string): Response {
    Response(status, ErrorBody(error))
  }
}
