/** model/proxy.go: one agent's step of a proxy chain. Each agent pops its
    own hop, re-wraps the request for the next agent, posts it and maps the
    outcome of the HTTP call to a status code and body. The HTTP client is
    a parameter (`Transport`); JSON encoding is represented by the
    `Marshalled` payload and the `ErrorBody` reply. */
module Proxy {
  import opened Wrappers
  import opened Text
  import opened HaLib
  import Tool

  /** How the POST to the next agent ends. */
  datatype Outcome =
    | Timeout(err: string)       // the client's timeout expired
    | Failed(err: string)        // any other transport error
    | ReadFailed(err: string)    // the response body could not be read
    | Received(statusCode: int, body: string)

  /** The HTTP client: the outcome of posting a body to a URI. */
  type Transport = (string, Payload) -> Outcome

  /** What postToAgent returns: status code, body and error. */
  datatype Posted = Posted(code: int, body: string, err: Option<string>)

  /** The body Proxy answers with: the next agent's body, or the JSON
      encoding of a monitor response carrying the error. */
  datatype ProxyBody = Verbatim(text: string) | ErrorBody(response: MonitorResponse)

  datatype ProxyReply = ProxyReply(code: int, body: ProxyBody)

  /** fmt.Sprintf("https://%s:%d/%s", host, port, requestType). */
  function Uri(host: string, port: int, requestType: string): string
  {
    "https://" + host + ":" + IntToString(port) + "/" + requestType
  }

  /** postToAgent: a received response passes through unchanged; a timeout
      is 504 and any other failure 502, both with an empty body. */
  function PostToAgent(host: string, port: int, requestType: string, jsonData: Payload, send: Transport)
    : (r: Posted)
    ensures var outcome := send(Uri(host, port, requestType), jsonData);
      && (r.err.None? <==> outcome.Received?)
      && (outcome.Received? ==> r.code == outcome.statusCode && r.body == outcome.body)
      && (!outcome.Received? ==> r.body == "" && r.err == Some(outcome.err))
      && (outcome.Timeout? ==> r.code == StatusGatewayTimeout)
      && (outcome.Failed? || outcome.ReadFailed? ==> r.code == StatusBadGateway)
  {
    match send(Uri(host, port, requestType), jsonData)
    case Timeout(err) => Posted(StatusGatewayTimeout, "", Some(err))
    case Failed(err) => Posted(StatusBadGateway, "", Some(err))
    case ReadFailed(err) => Posted(StatusBadGateway, "", Some(err))
    case Received(statusCode, body) => Posted(statusCode, body, None)
  }

  /** The next agent named by a hop: the host before the first ':', and the
      port after it when the hop has exactly one ':' and the port parses;
      DefaultAgentPort otherwise. */
  function NextHop(hostport: string): (h: (string, int))
    ensures HasPrefix(hostport, h.0) && ':' !in h.0
    ensures ':' in hostport ==> |h.0| < |hostport| && hostport[|h.0|] == ':'
    ensures ':' !in hostport ==> h == (hostport, DefaultAgentPort)
    ensures Occurrences(hostport, ':') != 1 ==> h.1 == DefaultAgentPort
    ensures Occurrences(hostport, ':') == 1 ==>
      |h.0| < |hostport| &&
      h.1 == match Atoi(hostport[|h.0| + 1..]) case Some(p) => p case None => DefaultAgentPort
  {
    var nextHostdata := Split(hostport, ':');
    SplitPieces(hostport, ':');
    SplitFirst(hostport, ':');
    var nextHost := nextHostdata[0];
    if |nextHostdata| == 2 then
      SplitOnce(hostport, ':');
      match Atoi(nextHostdata[1])
      case Some(p) => (nextHost, p)
      case None => (nextHost, DefaultAgentPort)
    else (nextHost, DefaultAgentPort)
  }

  /** The request with its own hop popped: what the next agent decodes
      from a "proxy" payload. */
  function Popped(request: ProxyRequest): (r: ProxyRequest)
    requires |request.proxyHostPort| >= 1
    ensures |r.proxyHostPort| == |request.proxyHostPort| - 1
    ensures r.proxyHostPort == request.proxyHostPort[1..]
    ensures r.requestType == request.requestType && r.requestJson == request.requestJson
  {
    request.(proxyHostPort := request.proxyHostPort[1..])
  }

  /** The request type and body sent to the next agent: the original ones
      at the last hop, otherwise a "proxy" request carrying the rest. */
  function Forwarded(request: ProxyRequest): (f: (string, Payload))
    requires |request.proxyHostPort| >= 1
    ensures |request.proxyHostPort| == 1 ==> f == (request.requestType, request.requestJson)
    ensures |request.proxyHostPort| > 1 ==> f.0 == "proxy" && f.1 == Marshalled(Popped(request))
  {
    if |request.proxyHostPort| == 1 then (request.requestType, request.requestJson)
    else ("proxy", Marshalled(Popped(request)))
  }

  /** Proxy. The hop list must not be empty (its first element is read). */
  function Proxy(proxyRequest: ProxyRequest, send: Transport): (r: ProxyReply)
    requires |proxyRequest.proxyHostPort| >= 1
    ensures var (host, port) := NextHop(proxyRequest.proxyHostPort[0]);
      var (requestType, requestJson) := Forwarded(proxyRequest);
      var posted := PostToAgent(host, port, requestType, requestJson, send);
      && r.code == posted.code
      && (posted.err.None? ==> r.body == Verbatim(posted.body))
      && (posted.err.Some? ==> r.body == ErrorBody(MonitorResponse(MonitorUnknown, posted.err.value)))
  {
    var (nextHost, nextPort) := NextHop(proxyRequest.proxyHostPort[0]);
    var (requestType, requestJson) := Forwarded(proxyRequest);
    var posted := PostToAgent(nextHost, nextPort, requestType, requestJson, send);
    match posted.err
    case Some(err) => ProxyReply(posted.code, ErrorBody(MonitorResponse(MonitorUnknown, err)))
    case None => ProxyReply(posted.code, Verbatim(posted.body))
  }

  // ---------------------------------------------------------------------
  // A whole chain

  /** The request the agent at position `k` of the chain receives. */
  function AtHop(request: ProxyRequest, k: nat): (r: ProxyRequest)
    requires k < |request.proxyHostPort|
    ensures r.proxyHostPort == request.proxyHostPort[k..]
    ensures r.requestType == request.requestType && r.requestJson == request.requestJson
    decreases k
  {
    if k == 0 then request else Popped(AtHop(request, k - 1))
  }

  /** Along a chain every agent but the last forwards a "proxy" request to
      the next hop, holding exactly the hops still ahead of it; the last
      forwards the original type and body. */
  lemma {:induction false} ChainForwards(request: ProxyRequest, k: nat)
    requires k < |request.proxyHostPort|
    ensures var hops := request.proxyHostPort;
      k + 1 < |hops| ==> Forwarded(AtHop(request, k)) == ("proxy", Marshalled(AtHop(request, k + 1)))
    ensures k + 1 == |request.proxyHostPort| ==>
      Forwarded(AtHop(request, k)) == (request.requestType, request.requestJson)
  {
    var r := AtHop(request, k);
    assert r.proxyHostPort[1..] == request.proxyHostPort[k + 1..];
  }

  /** A request built by GetProxyJSON reaches the requested host and port
      with the caller's request type and body: the last agent of the chain
      receives a request whose only hop is `host:port`, and forwards the
      original type and bytes there. */
  lemma ChainDelivers(proxyHosts: seq<string>, host: string, port: int64,
                      requestType: string, proxyJsonStr: seq<byte>)
    requires |proxyHosts| >= 1 && ':' !in host
    requires Tool.GetProxyJSON(proxyHosts, host, port, requestType, proxyJsonStr).Ok?
    ensures var request := Tool.GetProxyJSON(proxyHosts, host, port, requestType, proxyJsonStr).value.request;
      var last := AtHop(request, |request.proxyHostPort| - 1);
      && last.proxyHostPort == [Tool.HopAddress(host, port)]
      && NextHop(last.proxyHostPort[0]) == (host, port as int)
      && Forwarded(last) == (requestType, Opaque(proxyJsonStr))
  {
    Tool.HopAddressSplits(host, port);
    var request := Tool.GetProxyJSON(proxyHosts, host, port, requestType, proxyJsonStr).value.request;
    var hops := request.proxyHostPort;
    assert hops[|hops| - 1..] == [Tool.HopAddress(host, port)];
  }
}
