/**
 * What `get_token` does with the identity provider's reply. The client
 * construction and the token request itself are outside the model; the
 * reply arrives here as a dictionary of string fields.
 */
module Auth {

  const Resource := "https://management.core.windows.net//.default"

  datatype TokenResult =
    | Token(access: string)   // the reply held `token_type`: its `access_token` is returned
    | NoToken                 // the error was logged and the function fell through (Python `None`)
    | LookupFailed            // a KeyError escaped: a field the code reads was missing

  function GetToken(reply: map<string, string>): (r: TokenResult)
    ensures r.Token? <==> "token_type" in reply && "access_token" in reply
    ensures r.Token? ==> r.access == reply["access_token"]
    ensures r.NoToken? <==> "token_type" !in reply && "error" in reply && "error_description" in reply
  {
    if "token_type" in reply then
      if "access_token" in reply then Token(reply["access_token"]) else LookupFailed
    else
      // the error line reads `error` and `error_description` before falling through
      if "error" in reply && "error_description" in reply then NoToken else LookupFailed
  }

  /** The Authorization header `'Bearer {0}'.format(token)`; a missing token prints as `None`. */
  function Authorization(t: TokenResult): (h: string)
    requires !t.LookupFailed?
    ensures |h| >= 7 && h[..7] == "Bearer "
    ensures t.Token? ==> h[7..] == t.access
    ensures t.NoToken? ==> h == "Bearer None"
  {
    "Bearer " + (if t.Token? then t.access else "None")
  }
}
