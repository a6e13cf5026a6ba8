/**
 * `RequestUtil`: what a visit records about the client, taken from the
 * servlet request's headers. `InetAddress.getByName`, which may resolve a
 * host name, is the caller-supplied predicate `isValidAddress`.
 */
module RequestUtil {
  import opened Common
  import opened Text

  const ForwardedForHeader := "X-Forwarded-For"
  const UserAgentHeader := "User-Agent"
  const UserAgentMaxLength: nat := 100

  /** One header line of the request, as the client sent it. */
  datatype Header = Header(name: string, value: string)

  /** The parts of an `HttpServletRequest` the core reads: its header lines in arrival order. */
  datatype ServletRequest = ServletRequest(headers: seq<Header>, remoteAddr: string)

  /** ASCII case folding: header names are compared ignoring the case of letters. */
  function LowerAscii(c: char): (l: char)
    ensures 'A' <= c <= 'Z' ==> 'a' <= l <= 'z' && l as int == c as int + 32
    ensures !('A' <= c <= 'Z') ==> l == c
  {
    if 'A' <= c <= 'Z' then (c as int + 32) as char else c
  }

  /** Two header names are the same name up to the case of their letters. */
  predicate SameName(a: string, b: string) {
    |a| == |b| && forall i :: 0 <= i < |a| ==> LowerAscii(a[i]) == LowerAscii(b[i])
  }

  /** The position of the first header line named `name`, ignoring case; `|hs|` when there is none. */
  function FirstHeader(hs: seq<Header>, name: string): (k: nat)
    ensures k <= |hs|
    ensures k < |hs| ==> SameName(hs[k].name, name)
    ensures forall j :: 0 <= j < k ==> !SameName(hs[j].name, name)
  {
    if hs == [] then 0
    else if SameName(hs[0].name, name) then 0
    else 1 + FirstHeader(hs[1..], name)
  }

  /**
   * `getHeader(name)`: the value of the first header line whose name matches
   * ignoring case, or null when no line matches.
   */
  function GetHeader(req: ServletRequest, name: string): (h: Option<string>)
    ensures h.None? <==> forall j :: 0 <= j < |req.headers| ==> !SameName(req.headers[j].name, name)
    ensures h.Some? ==> FirstHeader(req.headers, name) < |req.headers|
                        && h.value == req.headers[FirstHeader(req.headers, name)].value
  {
    var k := FirstHeader(req.headers, name);
    if k < |req.headers| then Some(req.headers[k].value) else None
  }

  lemma SameNameTrans(a: string, b: string, c: string)
    requires SameName(a, b) && SameName(b, c)
    ensures SameName(a, c)
  {
  }

  lemma {:induction false} FirstHeaderIgnoresCase(hs: seq<Header>, a: string, b: string)
    requires SameName(a, b)
    ensures FirstHeader(hs, a) == FirstHeader(hs, b)
    decreases |hs|
  {
    if hs != [] {
      FirstHeaderIgnoresCase(hs[1..], a, b);
      if SameName(hs[0].name, a) {
        SameNameTrans(hs[0].name, a, b);
      }
    }
  }

  /** Looking a header up under two spellings that differ only in case gives the same answer. */
  lemma GetHeaderIgnoresCase(req: ServletRequest, a: string, b: string)
    requires SameName(a, b)
    ensures GetHeader(req, a) == GetHeader(req, b)
  {
    FirstHeaderIgnoresCase(req.headers, a, b);
  }

  /**
   * The candidate taken from an X-Forwarded-For value: its first
   * comma-separated segment, trimmed. It holds no comma, has no whitespace at
   * either end, is at most as long as the header, and is empty exactly when
   * that segment is blank.
   */
  function ForwardedCandidate(h: string): (ip: string)
    ensures |ip| <= |h|
    ensures forall i :: 0 <= i < |ip| ==> ip[i] != ','
    ensures ip != [] ==> !IsWhitespace(ip[0]) && !IsWhitespace(ip[|ip| - 1])
    ensures ip == [] <==> IsBlank(FirstSegment(h))
  {
    var seg := FirstSegment(h);
    TrimKeepsNoComma(seg);
    Trim(seg)
  }

  /** Trimming a string without commas leaves none. */
  lemma TrimKeepsNoComma(seg: string)
    requires forall i :: 0 <= i < |seg| ==> seg[i] != ','
    ensures forall i :: 0 <= i < |Trim(seg)| ==> Trim(seg)[i] != ','
  {
    var t := Trim(seg);
    forall i | 0 <= i < |t|
      ensures t[i] != ','
    {
      assert t[i] == seg[TrimStart(seg) + i];
    }
  }

  /**
   * The address candidate: taken from X-Forwarded-For when that header is
   * present, the socket's remote address only when it is absent.
   */
  function RawIp(req: ServletRequest): (ip: string)
    ensures GetHeader(req, ForwardedForHeader).None? ==> ip == req.remoteAddr
    ensures GetHeader(req, ForwardedForHeader).Some? ==> ip == ForwardedCandidate(GetHeader(req, ForwardedForHeader).value)
  {
    match GetHeader(req, ForwardedForHeader)
    case Some(h) => ForwardedCandidate(h)
    case None => req.remoteAddr
  }

  /** `getClientIpSafe`: the candidate unchanged when it is a valid address, null otherwise. */
  function GetClientIpSafe(req: ServletRequest, isValidAddress: string -> bool): (r: Option<string>)
    ensures r.Some? <==> isValidAddress(RawIp(req))
    ensures r.Some? ==> r.value == RawIp(req)
  {
    var ip := RawIp(req);
    if isValidAddress(ip) then Some(ip) else None
  }

  /** A present but empty X-Forwarded-For gives the empty candidate, never the remote address. */
  lemma EmptyForwardedFor(req: ServletRequest)
    requires GetHeader(req, ForwardedForHeader) == Some("")
    ensures RawIp(req) == ""
  {
  }

  lemma {:induction false} FirstSegmentOf(first: string, rest: string)
    requires forall i :: 0 <= i < |first| ==> first[i] != ','
    ensures FirstSegment(first + "," + rest) == first
    decreases |first|
  {
    if first != [] {
      assert (first + "," + rest)[1..] == first[1..] + "," + rest;
      FirstSegmentOf(first[1..], rest);
    }
  }

  /** Only the first segment counts: whatever follows the first comma is ignored. */
  lemma SegmentsAfterFirstIgnored(req: ServletRequest, first: string, rest: string)
    requires GetHeader(req, ForwardedForHeader) == Some(first + "," + rest)
    requires forall i :: 0 <= i < |first| ==> first[i] != ','
    ensures RawIp(req) == Trim(first)
  {
    FirstSegmentOf(first, rest);
  }

  /**
   * `getUserAgent`: the first 100 characters of User-Agent. The header value
   * is a platform type, so `take` runs on null before the elvis operator and
   * an absent header throws instead of giving null.
   */
  function GetUserAgent(req: ServletRequest): (r: Result<string>)
    ensures r.Success? <==> GetHeader(req, UserAgentHeader).Some?
    ensures r.Failure? ==> r.error == MissingHeader(UserAgentHeader)
    ensures r.Success? ==>
              var h := GetHeader(req, UserAgentHeader).value;
              |r.value| == (if |h| < UserAgentMaxLength then |h| else UserAgentMaxLength)
              && r.value == h[..|r.value|]
  {
    match GetHeader(req, UserAgentHeader)
    case Some(h) => Success(if |h| < UserAgentMaxLength then h else h[..UserAgentMaxLength])
    case None => Failure(MissingHeader(UserAgentHeader))
  }

  /** A lower-case header name, as HTTP/2 always sends, is found all the same. */
  lemma LowerCaseUserAgent(agent: string, remoteAddr: string)
    requires |agent| <= UserAgentMaxLength
    ensures GetUserAgent(ServletRequest([Header("user-agent", agent)], remoteAddr)) == Success(agent)
  {
    var req := ServletRequest([Header("user-agent", agent)], remoteAddr);
    assert SameName("user-agent", UserAgentHeader);
    assert FirstHeader(req.headers, UserAgentHeader) == 0;
    assert GetHeader(req, UserAgentHeader) == Some(agent);
    assert agent[..|agent|] == agent;
  }
}
