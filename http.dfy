/** What a handler leaves on the HTTP response: the `jid` refresh cookie it set,
    if any, and the JSON body it sent. Cookie attributes are not modelled. */
module Http {
  import opened Wrappers

  /** The `{ ok, accessToken }` body of the refresh route. */
  datatype RefreshBody = RefreshBody(ok: bool, accessToken: string)

  class Response {
    var jid: Option<string>
    var body: Option<RefreshBody>

    constructor ()
      ensures jid == None && body == None
    {
      jid := None;
      body := None;
    }
  }
}
