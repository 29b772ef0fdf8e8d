/**
 * The fake SIP endpoint's request handling: dispatch on the request method,
 * build a 200 response that echoes the request's correlation headers
 * (section 8.2.6.2 of RFC 3261), add the method's own headers and body, and
 * route it by the topmost Via.
 *
 * The service's own address (`ServiceIp` in the deployed fixture) is the
 * parameter `ip`: it appears in the Contact header and in the session
 * description.
 */
module Responder {
  import opened Wrappers
  import opened Net
  import opened SipMessage
  import opened Decimal
  import opened SessionDescription
  import opened Routing

  /** The headers a response copies from its request, by their parsed (lower-case) names. */
  const CorrelationNames: set<string> := {"via", "to", "from", "call-id", "cseq"}

  /** The only headers the handlers add on top of the copied ones. */
  const AnswerNames: set<string> := {"Contact", "Content-Type", "Content-Disposition", "Content-Length"}

  const StatusOk: int := 200

  /** The service's own contact address: port 8081 over TCP. */
  function ContactValue(ip: string): string {
    "<sip:3003@" + ip + ":8081;transport=tcp>"
  }

  /** The methods that have a handler; every other method falls to the default handler. */
  datatype Method = Invite | Info | Bye | Unhandled(name: string)

  function Classify(name: string): (m: Method)
    ensures m == Invite <==> name == "INVITE"
    ensures m == Info <==> name == "INFO"
    ensures m == Bye <==> name == "BYE"
    ensures m.Unhandled? ==> m.name == name
  {
    if name == "INVITE" then Invite
    else if name == "INFO" then Info
    else if name == "BYE" then Bye
    else Unhandled(name)
  }

  /** The response carries exactly the request's values for each correlation header. */
  predicate Correlated(request: Message, response: Message) {
    forall n :: n in CorrelationNames ==>
      n in response.headers && response.headers[n] == Values(request.headers, n)
  }

  /** A 200 answer to `request` that echoes its correlation headers and adds only the answer headers. */
  predicate OkAnswer(request: Message, r: Message) {
    && r.Response? && r.code == StatusOk
    && Correlated(request, r)
    && r.headers.Keys <= CorrelationNames + AnswerNames
  }

  /** `responseFromRequest`: a fresh response whose correlation headers are copied from the request. */
  function ResponseFromRequest(code: int, request: Message): (r: Message)
    ensures r.Response? && r.code == code && r.body == ""
    ensures Correlated(request, r)
    ensures r.headers.Keys == CorrelationNames
  {
    Response(code, map n | n in CorrelationNames :: Values(request.headers, n), "")
  }

  /** Requests that agree on the correlation headers get the same response skeleton. */
  lemma ResponseIgnoresOtherHeaders(code: int, a: Message, b: Message)
    requires forall n :: n in CorrelationNames ==> Values(a.headers, n) == Values(b.headers, n)
    ensures ResponseFromRequest(code, a) == ResponseFromRequest(code, b)
  {
    var ra := ResponseFromRequest(code, a);
    var rb := ResponseFromRequest(code, b);
    assert ra.headers == rb.headers;
  }

  /** `str(len(body))`: the Content-Length value, which reads back as the body's length. */
  function ContentLength(body: string): (v: string)
    ensures |v| > 0 && AllDigits(v) && ParseDigits(v) == |body|
    ensures |v| > 1 ==> v[0] != '0'
  {
    ParseNatToString(|body|);
    NatToString(|body|)
  }

  /** A 200 answer carrying `body` as a session description, with its framing headers. */
  function SessionAnswer(request: Message, ip: string, body: string): (r: Message)
    ensures r.Response? && r.code == StatusOk && r.body == body
    ensures Correlated(request, r)
    ensures r.headers.Keys == CorrelationNames + AnswerNames
    ensures "Contact" in r.headers && r.headers["Contact"] == [ContactValue(ip)]
    ensures "Content-Type" in r.headers && r.headers["Content-Type"] == ["application/sdp"]
    ensures "Content-Disposition" in r.headers && r.headers["Content-Disposition"] == ["session"]
    ensures "Content-Length" in r.headers && r.headers["Content-Length"] == [ContentLength(body)]
  {
    var base := ResponseFromRequest(StatusOk, request);
    Response(StatusOk,
      base.headers["Contact" := [ContactValue(ip)]]
                  ["Content-Type" := ["application/sdp"]]
                  ["Content-Disposition" := ["session"]]
                  ["Content-Length" := [ContentLength(body)]],
      body)
  }

  /**
   * `handle_INVITE_request`'s answer: the session description for `ip`,
   * every line CRLF-terminated, its byte length stated in Content-Length.
   */
  function HandleInvite(request: Message, ip: string): (r: Message)
    ensures r.Response? && r.code == StatusOk
    ensures Correlated(request, r)
    ensures r.headers.Keys == CorrelationNames + AnswerNames
    ensures r.body == Body(ip)
    ensures "Contact" in r.headers && r.headers["Contact"] == [ContactValue(ip)]
    ensures "Content-Type" in r.headers && r.headers["Content-Type"] == ["application/sdp"]
    ensures "Content-Disposition" in r.headers && r.headers["Content-Disposition"] == ["session"]
    ensures "Content-Length" in r.headers && r.headers["Content-Length"] == [ContentLength(r.body)]
    ensures NoLineBreak(ip) ==> CrlfOnly(r.body)
    ensures EndsWithCrlf(r.body)
    ensures OkAnswer(request, r)
  {
    BodyEndsWithCrlf(ip);
    if NoLineBreak(ip) then
      BodyCrlfOnly(ip);
      SessionAnswer(request, ip, Body(ip))
    else
      SessionAnswer(request, ip, Body(ip))
  }

  /** The INFO and BYE answer: 200 with an empty body and an explicit zero length. */
  function EmptyAnswer(request: Message): (r: Message)
    ensures r.Response? && r.code == StatusOk
    ensures Correlated(request, r)
    ensures r.headers.Keys == CorrelationNames + {"Content-Length"}
    ensures "Content-Length" in r.headers && r.headers["Content-Length"] == ["0"]
    ensures r.body == ""
    ensures OkAnswer(request, r)
  {
    var base := ResponseFromRequest(StatusOk, request);
    Response(StatusOk, base.headers["Content-Length" := ["0"]], "")
  }

  function HandleInfo(request: Message): (r: Message)
    ensures OkAnswer(request, r)
    ensures r.headers.Keys == CorrelationNames + {"Content-Length"}
    ensures "Content-Length" in r.headers && r.headers["Content-Length"] == ["0"] && r.body == ""
  {
    EmptyAnswer(request)
  }

  function HandleBye(request: Message): (r: Message)
    ensures OkAnswer(request, r)
    ensures r.headers.Keys == CorrelationNames + {"Content-Length"}
    ensures "Content-Length" in r.headers && r.headers["Content-Length"] == ["0"] && r.body == ""
  {
    EmptyAnswer(request)
  }

  /** What handling one request amounts to. */
  datatype Outcome =
    | Ignored                       // the default handler: logged, no response
    | Answered(response: Message, delivery: Result<Address, DeliveryError>)

  /** `handle_request`: dispatch by method, answer, and route the answer. */
  function HandleRequest(request: Message, ip: string, parseVia: string -> Option<Via>): (o: Outcome)
    requires request.Request?
    ensures o.Ignored? <==> request.methodName !in {"INVITE", "INFO", "BYE"}
    ensures o.Answered? ==> OkAnswer(request, o.response)
    ensures o.Answered? ==> o.delivery == Deliver(o.response, parseVia)
    ensures request.methodName == "INVITE" ==>
      && o.Answered? && o.response.body == Body(ip)
      && "Content-Type" in o.response.headers && o.response.headers["Content-Type"] == ["application/sdp"]
      && "Contact" in o.response.headers && o.response.headers["Contact"] == [ContactValue(ip)]
      && o.response.headers.Keys == CorrelationNames + AnswerNames
      && o.response.headers["Content-Disposition"] == ["session"]
      && o.response.headers["Content-Length"] == [ContentLength(o.response.body)]
    ensures request.methodName in {"INFO", "BYE"} ==>
      && o.Answered? && o.response.body == ""
      && o.response.headers.Keys == CorrelationNames + {"Content-Length"}
      && o.response.headers["Content-Length"] == ["0"]
  {
    match Classify(request.methodName)
    case Invite => Answer(HandleInvite(request, ip), parseVia)
    case Info => Answer(HandleInfo(request), parseVia)
    case Bye => Answer(HandleBye(request), parseVia)
    case Unhandled(_) => Ignored
  }

  function Answer(response: Message, parseVia: string -> Option<Via>): Outcome {
    Answered(response, Deliver(response, parseVia))
  }

  /**
   * An answered request is routed by the request's own topmost Via value:
   * delivery fails exactly when the request has no Via value or the top one
   * does not parse, and otherwise goes where that Via says.
   */
  lemma AnswerRoutedByRequestVia(request: Message, ip: string, parseVia: string -> Option<Via>)
    requires request.Request?
    requires HandleRequest(request, ip, parseVia).Answered?
    ensures var o := HandleRequest(request, ip, parseVia);
      var vias := Values(request.headers, "via");
      && (o.delivery == Failure(EmptyVia) <==> vias == [])
      && (o.delivery.Success? <==> |vias| > 0 && parseVia(vias[0]).Some?)
      && (o.delivery.Success? ==> o.delivery.value == Route(parseVia(vias[0]).value))
  {
    var o := HandleRequest(request, ip, parseVia);
    assert "via" in CorrelationNames;
    assert o.response.headers["via"] == Values(request.headers, "via");
  }
}
