# Fake SIP/RTP test server and bit-mask options, in Dafny

This project models the logic of the test server that stands in for a
doorbell's call endpoint. It also models the bit-mask option helpers of the
Swift media-streamer bindings.

- **SIP responder** (`Responder`, `SipMessage`, `SessionDescription`,
  `Decimal`). A request is dispatched by its method name. INVITE, INFO and BYE
  are answered with 200. Any other method is only logged. Every answer copies
  the request's `via`, `to`, `from`, `call-id` and `cseq` header lists (section
  8.2.6.2 of RFC 3261). The INVITE answer carries a fixed SDP body (RFC 4566).
  Its lines are rewritten to CRLF, and its Content-Length is the body length in
  decimal (section 20.14 of RFC 3261).
- **Response routing** (`Routing`). The answer goes to the topmost Via's
  `received` host, or else its declared host. The port is `rport`, or else the
  declared port, or else the SIP default port (section 18.2.2 of RFC 3261 and
  section 4 of RFC 3581).
- **Capture replay** (`Replay`). This is a two-state scheduler. The first
  trigger datagram starts a run to its sender, beginning at capture index 918.
  Each RTP packet (RFC 3550) is sent with its 42 link, IP and UDP header bytes
  removed. The next send is scheduled after the capture-time gap. The last
  packet ends the run. Triggers that arrive during a run are ignored. A
  capture-time gap that goes backwards wedges the replayer, because the
  reactor's `callLater` rejects a negative delay.
- **Bit-mask options** (`BitMask`). `flags` ORs raw values together.
  `isContained(in:)` is a bitwise-AND test. `from(flags:)` reads a mask back as
  the set of cases it contains.

The model is made of pure functions over immutable values. A header table is a
`map<string, seq<string>>`. A capture is a `seq<Packet>`. Raw values are
`bv32`. The replay scheduler is stepped by `Handle` over `Event`s, and
`ReplayRun` drives one complete run.

Three facts about the code are easy to misread, and the model follows what
the code does:

- The last-resort port is the SIP library's default port, 5060
  (`self.PORT`). It is not 8081, the port the server listens on.
- A run sends the packets from index 918 to N−1, the end of the capture. The
  packets before index 918 are never sent.
- Despite its name, the capture's `timestamp_ms` field holds microseconds.

## Model

| member | source | states |
|---|---|---|
| Responder.Classify | FakeServer/server.py:108-114 | INVITE, INFO and BYE map to their own handlers, each for exactly that name. Every other name goes to the default handler and keeps the name. |
| Responder.HandleRequest | FakeServer/server.py:108-154 | A request is ignored (no response, no delivery) exactly when its method is not INVITE, INFO or BYE. An answered request gets a 200 response that echoes its correlation headers and adds only Contact, Content-Type, Content-Disposition and Content-Length. The response is then routed by `Deliver`. INVITE is answered with all four of those headers: the session description for the service address, typed `application/sdp`, with the service's Contact, `Content-Disposition: session` and the body's canonical length. INFO and BYE are answered with an empty body and only `Content-Length: 0` added. |
| Responder.ResponseFromRequest | FakeServer/server.py:168-173 | The response has the given status and an empty body. Its headers are exactly the five correlation names. Each one holds the request's list for that name, or the empty list when the request lacks it. Lists are values, so a later change to either message cannot reach the other. |
| Responder.ResponseIgnoresOtherHeaders | FakeServer/server.py:168-173 | Two requests that agree on the five correlation headers get the same response. No other header of the request matters. |
| Responder.ContentLength | FakeServer/server.py:137 | `str(len(body))` is a non-empty string of decimal digits with no leading zero, so `"0"` for an empty body. It reads back as exactly the body's length. So it is the one canonical numeral for that length. |
| Responder.SessionAnswer | FakeServer/server.py:116-137 | The answer is a 200 that echoes the correlation headers. It adds exactly the Contact (own address, port 8081, TCP), `application/sdp` Content-Type, `session` Content-Disposition and Content-Length headers. Content-Length states the length of the body it carries. |
| Responder.HandleInvite | FakeServer/server.py:116-138 | The INVITE answer carries the session description for the service address. Its Contact is the service's own address (port 8081, TCP), its Content-Type is `application/sdp` and its Content-Disposition is `session`. Its Content-Length is the canonical decimal numeral of the body's length and parses back to it. Every LF in the body follows a CR, and the body ends with CRLF. |
| Responder.EmptyAnswer | FakeServer/server.py:140-150 | The INFO/BYE answer is a 200 that echoes the correlation headers. It adds only `Content-Length: 0` and has an empty body. |
| Responder.HandleInfo | FakeServer/server.py:140-144 | The INFO answer is a correlated 200 with `Content-Length: 0` as its only added header, and no body. |
| Responder.HandleBye | FakeServer/server.py:146-150 | The BYE answer is a correlated 200 with `Content-Length: 0` as its only added header, and no body. |
| Responder.AnswerRoutedByRequestVia | FakeServer/server.py:156-173 | An answer is routed by the request's own topmost Via value. Delivery raises the empty-Via error exactly when the request has no Via value. It succeeds exactly when the top value parses, and then goes where that Via says. |
| Routing.Route | FakeServer/server.py:161-164 | The host is a present, non-empty `received`, else the Via host. The port is a non-zero `rport`, else a non-zero Via port, else 5060. The chosen port is never 0. |
| Routing.Deliver | FakeServer/server.py:156-166 | A missing `via` header raises KeyError and an empty list raises IndexError. Delivery succeeds exactly when the topmost value parses. It then routes by that value alone. |
| Routing.DeliverUsesTopmostOnly | FakeServer/server.py:159 | Responses whose topmost Via values are equal are routed alike, whatever Via values lie below. |
| Decimal.NatToString | FakeServer/server.py:137 | `str(n)` is a non-empty string of digits with no leading zero, except for `"0"` itself. |
| Decimal.ParseNatToString | FakeServer/server.py:137 | Parsing `str(n)` gives back `n`. |
| Decimal.NatToStringInjective | FakeServer/server.py:137 | Distinct lengths give distinct Content-Length values. |
| SessionDescription.ReplaceLf | FakeServer/server.py:136 | `replace('\n', '\r\n')` lengthens the text by exactly one character per LF. |
| SessionDescription.ReplaceLfCrlfOnly | FakeServer/server.py:136 | After the rewrite, every LF is directly preceded by a CR. |
| SessionDescription.ReplaceLfEndsWithCrlf | FakeServer/server.py:121-136 | A text ending in LF ends in CRLF after the rewrite. |
| SessionDescription.ReplaceLfConcat | FakeServer/server.py:121-136 | The rewrite of a concatenation is the concatenation of the rewrites. So rewriting the format string's text pieces one at a time equals rewriting the whole string. |
| SessionDescription.CollapseReplaceLf | FakeServer/server.py:136 | On CR-free text, turning CRLF back into LF undoes the rewrite, so no content is lost. |
| SessionDescription.CrlfTemplate | FakeServer/server.py:121-136 | Rewriting the format string keeps its `%(ip)s` slots in place and rewrites each text piece. |
| SessionDescription.RenderCrlfIsFormat | FakeServer/server.py:121-136 | The one-pass rendering equals `handle_INVITE_request`'s order of operations: rewrite to CRLF, then `% {'ip': ip}`. |
| SessionDescription.BodyIsFormattedTemplate | FakeServer/server.py:121-136 | The INVITE body is the template, rewritten to CRLF and formatted with the service address. |
| SessionDescription.RenderCrlfOnly | FakeServer/server.py:121-136 | With an address free of CR and LF, the rendered template has no bare LF. |
| SessionDescription.RenderEndsWithCrlf | FakeServer/server.py:121-136 | A template whose last text piece ends in LF renders to text that ends in CRLF. |
| SessionDescription.BodyCrlfOnly | FakeServer/server.py:121-136 | The SDP body has no bare LF. |
| SessionDescription.BodyEndsWithCrlf | FakeServer/server.py:121-136 | The SDP body ends with CRLF. |
| SessionDescription.ServiceIpNoLineBreak | FakeServer/server.py:11 | The deployed address `127.0.0.1` contains neither CR nor LF, so `HandleInvite`'s CRLF guarantee applies to it. |
| Replay.Payload | FakeServer/server.py:204 | `raw[42:]` is what follows the 42 header bytes, so the headers plus the payload give back the frame. A frame of 42 bytes or fewer yields nothing. |
| Replay.DelayMicros | FakeServer/server.py:206-211 | In integer microseconds, both branches give exactly the capture-time difference. So the delay is non-negative when time does not go backwards. |
| Replay.DelayAcrossSeconds | FakeServer/server.py:206-211 | (10 s, 900000 µs) to (11 s, 100000 µs) waits 0.2 s. (10 s, 500000 µs) to (12 s, 500000 µs) waits 2 s. |
| Replay.PushDataIndex | FakeServer/server.py:201-216 | An index past the end raises, sends nothing and leaves the flag alone. Otherwise the packet's payload is sent to the run's address. If a successor follows after a gap that is not negative, it is scheduled after that gap and the flag is kept. If the gap is negative, `callLater` raises, so nothing is scheduled and the flag stays as it was. After the last packet nothing is scheduled and the flag drops. |
| Replay.DatagramReceived | FakeServer/server.py:193-216 | While started, a trigger is a no-op. Otherwise packet 918 goes to the trigger's sender. On a capture of more than 919 packets the flag rises. Packet 919 is then scheduled for that sender after the capture-time gap between packets 918 and 919, or, when that gap is negative, the call raises with nothing scheduled. On a capture of exactly 919 packets packet 918 is the last, so the flag drops and nothing is scheduled. On a capture of 918 packets or fewer the flag stays up and the call raises. |
| Replay.Handle | FakeServer/server.py:193-216 | One reactor event. A trigger while a run is in progress changes nothing. A trigger while idle sends packet 918 to its sender and schedules packet 919 after the capture-time gap, if there is one. A firing sends the pending timer's packet to the run's address and schedules the next packet after its capture-time gap. After the last packet the scheduler goes idle. A negative gap leaves the flag up with no timer. A firing past the end of the capture sends nothing and drops the timer. |
| Replay.HandleKeepsConsistent | FakeServer/server.py:193-216 | Every event keeps the scheduler consistent. A pending timer belongs to a run in progress, points past the start index and inside the capture, and has a delay that is not negative. On a chronological capture that is long enough, a run in progress has a timer pending. |
| Replay.NegativeGapWedges | FakeServer/server.py:201-213 | When the gap after the pending packet is negative, firing sends that packet and leaves the flag up with no timer. Every later event is then a no-op. |
| Replay.NewRunAfterFinish | FakeServer/server.py:193-216 | Firing the timer for the last packet leaves the scheduler idle. The next trigger then starts a new run to its own sender. |
| Replay.ShortCaptureWedges | FakeServer/server.py:193-202 | On a capture of 918 packets or fewer, the first trigger sends nothing and leaves the flag up with no timer. Every later event is then a no-op. |
| Replay.ReplayRun | FakeServer/server.py:193-216 | A run sends the payloads of packets from 918 on to the trigger's sender, in capture order. Each wait equals the capture-time gap to the previous packet and is never negative. It either reaches packet N−1 and ends idle, or stops at the first negative gap and wedges. On a chronological capture it always sends 918 to N−1 and ends idle. |
| Replay.Run | FakeServer/server.py:193-216 | Any sequence of events keeps a consistent scheduler consistent, and sends no more datagrams than there are events. |
| Replay.RunIgnoresTriggers | FakeServer/server.py:193-216 | During a run over gaps that are not negative, any mix of triggers and f timer firings sends exactly the next f packets to the run's address. Packet i+f is then next. |
| BitMask.Flags | Sources/MediaStreamer/BitMaskOption.swift:18-22 | The flags of an empty collection are 0. Every element's raw value lies within the flags. |
| BitMask.FlagsLeast | Sources/MediaStreamer/BitMaskOption.swift:18-22 | The flags are the least mask covering every element's raw value. |
| BitMask.FlagsOrderFree | Sources/MediaStreamer/BitMaskOption.swift:18-22 | Collections with the same cases have the same flags, whatever the order and the repeats. |
| BitMask.IsContained | Sources/MediaStreamer/BitMaskOption.swift:29-32 | A raw value is contained exactly when it shares a bit with the mask, that is, when it does not lie wholly within the mask's complement. So a raw value 3 is contained in mask 1. Nothing is contained in 0, and a raw value of 0 is contained in nothing. A non-zero raw value is contained in any mask that covers it. |
| BitMask.From | Sources/MediaStreamer/BitMaskOption.swift:35-38 | The result is a subset of `all`. It holds exactly the cases whose raw value shares a bit with the mask, and it is empty for mask 0. |
| BitMask.FromMonotone | Sources/MediaStreamer/BitMaskOption.swift:35-38 | A wider mask reads back at least the same cases. |
| BitMask.FromFlagsIncludes | Sources/MediaStreamer/BitMaskOption.swift:18-38 | Storing cases of `all` that have non-zero raw values and reading the mask back keeps every one of them. |
| BitMask.AbsentCaseOutsideFlags | Sources/MediaStreamer/BitMaskOption.swift:18-38 | If the cases' raw values are non-zero and no two share a bit, a case missing from a collection shares no bit with its flags. |
| BitMask.FromFlagsExact | Sources/MediaStreamer/BitMaskOption.swift:18-38 | If the cases' raw values are non-zero and no two share a bit, reading back a collection's flags yields exactly its cases. |

## Left out

- The HTTP control-plane resource (`Simple`) is static JSON glue, and it reads the wall clock.
- The Twisted reactor, socket binding, TCP stream framing (`dataReceived`) and `callLater` timing are not modelled. A scheduled call is a `Timer` value, and its expiry is a `Fire` event. Real time is not modelled.
- The `pcapfile` loader is not modelled. The capture is a parameter (`seq<Packet>`), and a missing or malformed file is outside the model.
- The SIP library's Via parser is the parameter `parseVia`, and its default port is the constant 5060. Its `Message.toString` serialisation, header-name capitalisation and header order are not modelled. A bare `rport` parameter with no value, which that library reports as `True`, is not modelled.
- `sendMessage` ignores the routed address and writes to the TCP connection. The model returns the routed address as a value.
- The replay delay is computed in float seconds. The model uses integer microseconds, which are exact and have the same sign.
- Twisted's `callLater` rejects a negative delay with an `assert`. The model follows that. Under `python -O` the assert is stripped and the call would run at once instead, which is not modelled.
- Logging (`print`) is not modelled, including the only effect of the default handler and of the RTCP sink (`RTCPHandler`).
- What Twisted does after a handler raises is not modelled. It is recorded as a `Failure` delivery or a `Step.fault`.
- Responder.HandleInvite: it takes the service address as the parameter `ip` rather than the constant `127.0.0.1`. It promises CRLF-only lines for addresses free of CR and LF, which `SessionDescription.ServiceIpNoLineBreak` shows for the deployed address.
- The body is a string of characters. Python 2's `len` counts bytes, and the two agree because the body is ASCII.
- BitMask: `RawValue` is fixed to 32 bits, the width of the C flag enums it is used with. Other integer widths and signed raw values are not modelled.
- The C constants behind `Filter.Flag`'s raw values are not visible. `BitMask` is therefore stated for any option type, given by its cases and its raw-value function.
- The Swift wrappers over liblinphone, mediastreamer2 and belle-sip, `CopyOnWrite`, the enum-to-C-constant mappings and the tests all need the C libraries, which are not part of this model.
