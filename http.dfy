/** Responses as the route handlers build them with `NextResponse`: a status,
    a body and at most one `Set-Cookie` header. */
module Http {
  import opened Wrappers

  /** A cookie as `serialize(name, value, options)` describes it, before it
      is rendered as a header line (RFC 6265, section 5.2). */
  datatype Cookie = Cookie(
    name: string,
    value: string,
    httpOnly: bool,
    secure: bool,
    maxAge: nat,
    path: string)

  /** `new NextResponse(text, ...)` or `NextResponse.json(value)`. */
  datatype Body<+J> = Text(text: string) | Json(value: J)

  datatype Response<+J> = Response(status: nat, body: Body<J>, setCookie: Option<Cookie>)

  /** `new NextResponse(text, { status })`. */
  function Plain<J>(status: nat, text: string): Response<J> {
    Response(status, Text(text), None)
  }

  /** `NextResponse.json(value)`, whose default status is 200. */
  function JsonOk<J>(value: J): Response<J> {
    Response(200, Json(value), None)
  }

  const InternalErrorText := "服务器内部错误"
}
