/** What a Hono handler or middleware answers with `c.text(body, status)`. */
module Http {

  datatype Response = Response(status: int, body: string)

  /** `c.text(body)`: status 200 unless another is given. */
  function Text(body: string): Response
  {
    Response(200, body)
  }
}
