/** halib/tool.go: the request a client posts to the first agent of a
    proxy chain. The JSON encoding of the request is not modelled: the
    request value itself stands for its encoding. */
module Tool {
  import opened Wrappers
  import opened Text
  import opened HaLib

  /** What GetProxyJSON returns: the request to post and the host and port
      of the first agent. */
  datatype ProxyJson = ProxyJson(request: ProxyRequest, agentHost: string, agentPort: int)

  /** fmt.Sprintf("%s:%d", host, port). */
  function HopAddress(host: string, port: int): string
  {
    host + ":" + IntToString(port)
  }

  /** GetProxyJSON: the first element of `proxyHosts` names the first agent;
      the rest, followed by the final target, is the hop list it forwards. */
  function GetProxyJSON(proxyHosts: seq<string>, host: string, port: int64,
                        requestType: string, proxyJsonStr: seq<byte>): (r: Result<ProxyJson>)
    requires |proxyHosts| >= 1
    ensures var parts := Split(proxyHosts[0], ':');
      && (r.Err? <==> |parts| == 2 && Atoi(parts[1]).None?)
      && (r.Err? ==> r.error == AtoiError(parts[1]))
    ensures r.Ok? ==>
      var first := proxyHosts[0];
      && HasPrefix(first, r.value.agentHost) && ':' !in r.value.agentHost
      && (':' in first ==> first[|r.value.agentHost|] == ':')
      && (Occurrences(first, ':') == 1 ==>
            |r.value.agentHost| < |first| &&
            Some(r.value.agentPort) == Atoi(first[|r.value.agentHost| + 1..]))
      && (Occurrences(first, ':') != 1 ==> r.value.agentPort == DefaultAgentPort)
    ensures r.Ok? ==>
      && |r.value.request.proxyHostPort| == |proxyHosts|
      && r.value.request.proxyHostPort == proxyHosts[1..] + [HopAddress(host, port)]
      && r.value.request.requestType == requestType
      && r.value.request.requestJson == Opaque(proxyJsonStr)
  {
    var agentHostport := Split(proxyHosts[0], ':');
    SplitPieces(proxyHosts[0], ':');
    SplitFirst(proxyHosts[0], ':');
    var agentHost := agentHostport[0];
    var request := ProxyRequest(proxyHosts[1..] + [HopAddress(host, port)], requestType, Opaque(proxyJsonStr));
    if |agentHostport| == 2 then
      SplitOnce(proxyHosts[0], ':');
      match Atoi(agentHostport[1])
      case None => Err(AtoiError(agentHostport[1]))
      case Some(agentPort) => Ok(ProxyJson(request, agentHost, agentPort))
    else Ok(ProxyJson(request, agentHost, DefaultAgentPort))
  }

  /** A first hop written as `host:port` names that host and port. */
  lemma FirstHopRoundTrip(proxyHosts: seq<string>, agentHost: string, agentPort: int64,
                          host: string, port: int64, requestType: string, proxyJsonStr: seq<byte>)
    requires |proxyHosts| >= 1 && proxyHosts[0] == HopAddress(agentHost, agentPort)
    requires ':' !in agentHost
    ensures var r := GetProxyJSON(proxyHosts, host, port, requestType, proxyJsonStr);
      r.Ok? && r.value.agentHost == agentHost && r.value.agentPort == agentPort
  {
    HopAddressSplits(agentHost, agentPort);
  }

  /** A first hop without a port names the default agent port. */
  lemma FirstHopDefaultPort(proxyHosts: seq<string>, host: string, port: int64,
                            requestType: string, proxyJsonStr: seq<byte>)
    requires |proxyHosts| >= 1 && ':' !in proxyHosts[0]
    ensures var r := GetProxyJSON(proxyHosts, host, port, requestType, proxyJsonStr);
      r.Ok? && r.value.agentHost == proxyHosts[0] && r.value.agentPort == DefaultAgentPort
  {
    SplitFirst(proxyHosts[0], ':');
  }

  /** `host:port` splits into the host and the decimal port, which parses back. */
  lemma HopAddressSplits(host: string, port: int64)
    requires ':' !in host
    ensures Split(HopAddress(host, port), ':') == [host, IntToString(port)]
    ensures Atoi(IntToString(port)) == Some(port as int)
  {
    IntToStringNoChar(port, ':');
    SplitTwo(host, IntToString(port), ':');
    assert HopAddress(host, port) == host + [':'] + IntToString(port);
    AtoiIntToString(port);
  }
}
