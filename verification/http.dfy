/** The HTTP responses the service hands back, as FastAPI builds them. */
module Http {
  import opened Wrappers
  import opened Outcomes

  datatype Body =
    | Content(data: bytes)       // raw bytes, `Response(content=...)`
    | PlainText(text: string)    // `Response("...")`
    | JsonDetail(detail: string) // `JSONResponse({"detail": ...})`
    | JsonString(text: string)   // a string returned by a handler, serialised as JSON

  datatype Response = Response(status: int, body: Body, mediaType: Option<string>, headers: map<string, string>)

  const PdfMediaType := "application/pdf"
  const XlsxMediaType := "application/xlsx"
  const JsonMediaType := "application/json"

  /** `Response(content=data, media_type=mediaType)`, optionally with headers. */
  function BytesResponse(data: bytes, mediaType: string, headers: map<string, string>): Response {
    Response(200, Content(data), Some(mediaType), headers)
  }

  /** `Response(text, status_code=status)`: no media type, no headers. */
  function TextResponse(text: string, status: int): Response {
    Response(status, PlainText(text), None, map[])
  }
}
