/**
 * The session description (SDP, RFC 4566) that the responder sends with its
 * answer to an INVITE, and the line-ending rewrite applied to it.
 *
 * The body is written as a `%`-format string with `%(ip)s` directives whose
 * lines end in a bare LF; every LF is first rewritten to CRLF, then the
 * service address is substituted. The format string is modelled as the
 * sequence of pieces Python's `%` operator parses it into: literal text and
 * `%(ip)s` slots.
 */
module SessionDescription {

  /** The address the service is configured with and advertises. */
  const ServiceIp: string := "127.0.0.1"

  /** An address that cannot break a line of the body. */
  predicate NoLineBreak(ip: string) {
    forall i :: 0 <= i < |ip| ==> ip[i] != '\n' && ip[i] != '\r'
  }

  lemma ServiceIpNoLineBreak()
    ensures NoLineBreak(ServiceIp)
  {
    var ip := ServiceIp;
    assert ip == "127.0.0.1";
  }

  datatype Piece = Text(text: string) | IpSlot

  /** The body's format string, split at its `%(ip)s` directives. */
  const Template: seq<Piece> := [
    Text("v=0\no=FreeSWITCH 1427284875 1427284876 IN IP4 "), IpSlot,
    Text("\ns=FreeSWITCH\nc=IN IP4 "), IpSlot,
    Text("\nt=0 0\nm=audio 30510 RTP/AVP 0 101\na=rtpmap:0 PCMU/8000\na=rtpmap:101 telephone-event/8000\na=fmtp:101 0-16\na=ptime:20\na=rtcp:30511 IN IP4 "), IpSlot,
    Text("\nm=video 30304 RTP/AVP 97\na=rtpmap:97 H264/90000\na=fmtp:97 profile-level-id=42801F\na=rtcp:30305 IN IP4 "), IpSlot,
    Text("\n")
  ]

  /** Every LF is immediately preceded by a CR: the canonical SIP/SDP line ending. */
  predicate CrlfOnly(s: string) {
    forall i :: 0 <= i < |s| && s[i] == '\n' ==> 0 < i && s[i - 1] == '\r'
  }

  predicate EndsWithCrlf(s: string) {
    |s| >= 2 && s[|s| - 2..] == "\r\n"
  }

  function LfCount(s: string): nat {
    if |s| == 0 then 0 else (if s[0] == '\n' then 1 else 0) + LfCount(s[1..])
  }

  /** `s.replace('\n', '\r\n')`. */
  function ReplaceLf(s: string): (r: string)
    ensures |r| == |s| + LfCount(s)
  {
    if |s| == 0 then ""
    else if s[0] == '\n' then "\r\n" + ReplaceLf(s[1..])
    else [s[0]] + ReplaceLf(s[1..])
  }

  /** Turns each CRLF back into LF; the inverse of `ReplaceLf` on CR-free text. */
  function CollapseCrlf(s: string): string {
    if |s| == 0 then ""
    else if |s| >= 2 && s[0] == '\r' && s[1] == '\n' then "\n" + CollapseCrlf(s[2..])
    else [s[0]] + CollapseCrlf(s[1..])
  }

  /** After the rewrite no bare LF is left. */
  lemma {:induction false} ReplaceLfCrlfOnly(s: string)
    ensures CrlfOnly(ReplaceLf(s))
    decreases |s|
  {
    if |s| > 0 {
      ReplaceLfCrlfOnly(s[1..]);
      var rest := ReplaceLf(s[1..]);
      if s[0] == '\n' {
        CrlfOnlyConcat("\r\n", rest);
      } else {
        CrlfOnlyConcat([s[0]], rest);
      }
    }
  }

  /** A text whose last character is LF ends with CRLF after the rewrite. */
  lemma {:induction false} ReplaceLfEndsWithCrlf(s: string)
    requires |s| > 0 && s[|s| - 1] == '\n'
    ensures EndsWithCrlf(ReplaceLf(s))
    decreases |s|
  {
    if |s| > 1 {
      ReplaceLfEndsWithCrlf(s[1..]);
      var rest := ReplaceLf(s[1..]);
      var r := ReplaceLf(s);
      assert r == (if s[0] == '\n' then "\r\n" else [s[0]]) + rest;
      assert r[|r| - 2..] == rest[|rest| - 2..];
    }
  }

  /** The rewrite works character by character, so it may be applied piece by piece. */
  lemma {:induction false} ReplaceLfConcat(a: string, b: string)
    ensures ReplaceLf(a + b) == ReplaceLf(a) + ReplaceLf(b)
    decreases |a|
  {
    if |a| > 0 {
      assert (a + b)[1..] == a[1..] + b;
      ReplaceLfConcat(a[1..], b);
    } else {
      assert a + b == b;
    }
  }

  /** Collapsing CRLF undoes the rewrite on text that has no CR of its own. */
  lemma {:induction false} CollapseReplaceLf(s: string)
    requires forall i :: 0 <= i < |s| ==> s[i] != '\r'
    ensures CollapseCrlf(ReplaceLf(s)) == s
    decreases |s|
  {
    if |s| > 0 {
      CollapseReplaceLf(s[1..]);
      var rest := ReplaceLf(s[1..]);
      if s[0] == '\n' {
        assert ("\r\n" + rest)[2..] == rest;
      } else {
        assert ([s[0]] + rest)[1..] == rest;
      }
    }
  }

  lemma CrlfOnlyConcat(a: string, b: string)
    requires CrlfOnly(a) && CrlfOnly(b)
    requires |a| > 0 ==> a[|a| - 1] != '\r' || |b| == 0 || b[0] != '\n'
    ensures CrlfOnly(a + b)
  {
    var s := a + b;
    forall i | 0 <= i < |s| && s[i] == '\n'
      ensures 0 < i && s[i - 1] == '\r'
    {
      if i >= |a| {
        assert b[i - |a|] == '\n';
      }
    }
  }

  /** The format string with every LF of its literal text rewritten to CRLF. */
  function CrlfTemplate(t: seq<Piece>): (r: seq<Piece>)
    ensures |r| == |t|
    ensures forall k :: 0 <= k < |t| ==> (t[k].IpSlot? <==> r[k].IpSlot?)
    ensures forall k :: 0 <= k < |t| && t[k].Text? ==> r[k].text == ReplaceLf(t[k].text)
  {
    if |t| == 0 then [] else
      [match t[0] case Text(s) => Text(ReplaceLf(s)) case IpSlot => IpSlot] + CrlfTemplate(t[1..])
  }

  /** `template % {'ip': ip}`. */
  function Format(t: seq<Piece>, ip: string): string {
    if |t| == 0 then "" else
      (match t[0] case Text(s) => s case IpSlot => ip) + Format(t[1..], ip)
  }

  /** Rewrite and format in one pass: each text piece gets CRLF endings, each slot the address. */
  function RenderCrlf(t: seq<Piece>, ip: string): string {
    if |t| == 0 then "" else
      (match t[0] case Text(s) => ReplaceLf(s) case IpSlot => ip) + RenderCrlf(t[1..], ip)
  }

  /** The one-pass rendering is `handle_INVITE_request`'s rewrite followed by formatting. */
  lemma {:induction false} RenderCrlfIsFormat(t: seq<Piece>, ip: string)
    ensures RenderCrlf(t, ip) == Format(CrlfTemplate(t), ip)
    decreases |t|
  {
    if |t| > 0 {
      RenderCrlfIsFormat(t[1..], ip);
      assert CrlfTemplate(t)[1..] == CrlfTemplate(t[1..]);
    }
  }

  /** The INVITE answer's body for a service reachable at `ip`. */
  function Body(ip: string): string {
    RenderCrlf(Template, ip)
  }

  /** Rendering with an address free of CR and LF leaves no bare LF. */
  lemma {:induction false} RenderCrlfOnly(t: seq<Piece>, ip: string)
    requires NoLineBreak(ip)
    ensures CrlfOnly(RenderCrlf(t, ip))
    decreases |t|
  {
    if |t| > 0 {
      RenderCrlfOnly(t[1..], ip);
      var rest := RenderCrlf(t[1..], ip);
      var head := match t[0] case Text(s) => ReplaceLf(s) case IpSlot => ip;
      if t[0].Text? {
        ReplaceLfCrlfOnly(t[0].text);
      }
      if |head| > 0 && |rest| > 0 {
        assert rest[0] != '\n';
      }
      CrlfOnlyConcat(head, rest);
    }
  }

  /** A template whose last piece is text ending in LF renders to a text ending in CRLF. */
  lemma {:induction false} RenderEndsWithCrlf(t: seq<Piece>, ip: string)
    requires |t| > 0 && t[|t| - 1].Text?
    requires |t[|t| - 1].text| > 0 && t[|t| - 1].text[|t[|t| - 1].text| - 1] == '\n'
    ensures EndsWithCrlf(RenderCrlf(t, ip))
    decreases |t|
  {
    var head := match t[0] case Text(s) => ReplaceLf(s) case IpSlot => ip;
    var rest := RenderCrlf(t[1..], ip);
    if |t| == 1 {
      ReplaceLfEndsWithCrlf(t[0].text);
      assert RenderCrlf(t, ip) == head;
    } else {
      RenderEndsWithCrlf(t[1..], ip);
      var r := head + rest;
      assert r[|r| - 2..] == rest[|rest| - 2..];
    }
  }

  /** The body is `handle_INVITE_request`'s template, rewritten to CRLF and formatted with `ip`. */
  lemma BodyIsFormattedTemplate(ip: string)
    ensures Body(ip) == Format(CrlfTemplate(Template), ip)
  {
    RenderCrlfIsFormat(Template, ip);
  }

  /** The body has no bare LF: every line ends in CRLF. */
  lemma BodyCrlfOnly(ip: string)
    requires NoLineBreak(ip)
    ensures CrlfOnly(Body(ip))
  {
    RenderCrlfOnly(Template, ip);
  }

  /** The body's last line is terminated too. */
  lemma BodyEndsWithCrlf(ip: string)
    ensures EndsWithCrlf(Body(ip))
  {
    RenderEndsWithCrlf(Template, ip);
  }
}
