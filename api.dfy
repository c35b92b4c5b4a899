/**
 * One activity-log request (`rest_api_request`). The HTTP exchange is not
 * modelled: the server's reply, with its status and its body as parsed
 * JSON (or None when the text is not JSON), is an input.
 */
module Api {
  import opened Wrappers

  /** The two fields of a decoded reply the export reads; records are opaque values of type R. */
  datatype Body<R> = Body(value: Option<seq<R>>, nextLink: Option<string>)

  /** A reply from the server: its status code and its parsed body. */
  datatype Reply<R> = Reply(status: int, body: Option<Body<R>>)

  /** What was sent: the URL, the Authorization header and the query parameters. */
  datatype Request = Request(url: string, authorization: string, params: map<string, string>)

  /** What the call gives back to `main`: a decoded body, or a JSON decoding error that escapes. */
  datatype Response<R> = Returned(page: Body<R>) | DecodeError

  /** An error reply's body `{"code": ..., "message": ...}` as the export sees it. */
  function ErrorBody<R>(): Body<R> {
    Body(None, None)
  }

  /**
   * On 200 the body is decoded and returned. On any other status the error
   * fields are logged and an exception is raised, which the handler catches
   * by decoding the same text again: the error body is returned as if it
   * were a page. A text that is not JSON raises in both paths and escapes.
   */
  function RestApiRequest<R>(reply: Reply<R>): (r: Response<R>)
    ensures r.Returned? <==> reply.body.Some?
    ensures r.Returned? ==> r.page == reply.body.value
  {
    if reply.status == 200 then
      match reply.body
      case Some(b) => Returned(b)
      case None => DecodeError
    else
      match reply.body
      case Some(b) => Returned(b)
      case None => DecodeError
  }

  /** The status code never changes what the call returns. */
  lemma StatusIgnored<R>(status1: int, status2: int, body: Option<Body<R>>)
    ensures RestApiRequest(Reply(status1, body)) == RestApiRequest(Reply(status2, body))
  {
  }
}
