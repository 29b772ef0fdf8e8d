/**
 * Where a SIP response is sent: the address taken from the topmost Via
 * header of the request it answers (section 18.2.2 of RFC 3261, with the
 * `received` and `rport` parameters of section 4 of RFC 3581).
 */
module Routing {
  import opened Wrappers
  import opened Net
  import opened SipMessage

  /** The SIP library's default port, the last-resort destination port. */
  const DefaultPort: int := 5060

  /**
   * A parsed Via header value. `port` and `rport` are absent when the header
   * does not give them; Python treats an absent value and zero alike.
   */
  datatype Via = Via(host: string, port: Option<int>, received: Option<string>, rport: Option<int>)

  /** `a or b` on an optional port: the first one that is present and non-zero. */
  function PortOr(p: Option<int>, fallback: int): int {
    if p.Some? && p.value != 0 then p.value else fallback
  }

  /** `received or host`: the address the request actually came from wins. */
  function HostOf(v: Via): string {
    if v.received.Some? && v.received.value != "" then v.received.value else v.host
  }

  /**
   * The destination of a response whose topmost Via is `v`: `received` over
   * the declared host, and `rport` over the declared port over the default.
   */
  function Route(v: Via): (a: Address)
    ensures v.received.Some? && v.received.value != "" ==> a.host == v.received.value
    ensures v.received.None? || v.received.value == "" ==> a.host == v.host
    ensures v.rport.Some? && v.rport.value != 0 ==> a.port == v.rport.value
    ensures (v.rport.None? || v.rport.value == 0) && v.port.Some? && v.port.value != 0 ==> a.port == v.port.value
    ensures (v.rport.None? || v.rport.value == 0) && (v.port.None? || v.port.value == 0) ==> a.port == DefaultPort
    ensures a.port != 0
  {
    Address(HostOf(v), PortOr(v.rport, PortOr(v.port, DefaultPort)))
  }

  /** Why delivering a response raised instead of sending. */
  datatype DeliveryError =
    | MissingVia                    // `headers["via"]` raises KeyError
    | EmptyVia                      // `headers["via"][0]` raises IndexError
    | MalformedVia(value: string)   // the Via parser rejects the topmost value

  /**
   * `deliverResponse`: route a response by its topmost Via value, parsed by
   * `parseVia` (the SIP library's Via parser, given as a parameter).
   */
  function Deliver(response: Message, parseVia: string -> Option<Via>): (r: Result<Address, DeliveryError>)
    ensures "via" !in response.headers ==> r == Failure(MissingVia)
    ensures "via" in response.headers && response.headers["via"] == [] ==> r == Failure(EmptyVia)
    ensures r.Success? <==>
      "via" in response.headers && |response.headers["via"]| > 0 && parseVia(response.headers["via"][0]).Some?
    ensures r.Success? ==> r.value == Route(parseVia(response.headers["via"][0]).value)
  {
    if "via" !in response.headers then Failure(MissingVia)
    else if |response.headers["via"]| == 0 then Failure(EmptyVia)
    else
      var top := response.headers["via"][0];
      match parseVia(top)
      case None => Failure(MalformedVia(top))
      case Some(v) => Success(Route(v))
  }

  /** Only the topmost Via value matters: the values below it never change the outcome. */
  lemma DeliverUsesTopmostOnly(a: Message, b: Message, parseVia: string -> Option<Via>)
    requires "via" in a.headers && "via" in b.headers
    requires |a.headers["via"]| > 0 && |b.headers["via"]| > 0
    requires a.headers["via"][0] == b.headers["via"][0]
    ensures Deliver(a, parseVia) == Deliver(b, parseVia)
  {
  }
}
