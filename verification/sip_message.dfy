/**
 * Parsed SIP messages as the responder sees them: a header table mapping
 * each header name to the ordered list of its values (a header may repeat),
 * and a body.
 */
module SipMessage {

  /** Header name to its values, topmost first. */
  type Headers = map<string, seq<string>>

  datatype Message =
    | Request(methodName: string, headers: Headers, body: string)
    | Response(code: int, headers: Headers, body: string)

  /** `headers.get(name, [])`: the values of a header, none when it is absent. */
  function Values(h: Headers, name: string): seq<string> {
    if name in h then h[name] else []
  }
}
