/** Records and constants shared by the agent's packages (halib/struct.go,
    halib/config.go, halib/constant.go and their lib/ twins). */
module HaLib {

  // --- constants (halib/constant.go)

  /** Default listen port of an agent. */
  const DefaultAgentPort: int := 6777

  /** Nagios-style plugin exit codes. */
  const MonitorOK: int := 0
  const MonitorWarning: int := 1
  const MonitorError: int := 2
  const MonitorUnknown: int := 3

  const DefaultErrorLogIntervalSeconds: int := 600

  const DefaultNagiosPluginPaths: string :=
    "/usr/local/hb-agent/bin,/usr/lib64/nagios/plugins,/usr/lib/nagios/plugins,/usr/local/nagios/libexec,/usr/local/bin"

  // --- HTTP status codes used by the handlers

  const StatusOK: int := 200
  const StatusNoContent: int := 204
  const StatusBadRequest: int := 400
  const StatusForbidden: int := 403
  const StatusNotFound: int := 404
  const StatusInternalServerError: int := 500
  const StatusBadGateway: int := 502
  const StatusServiceUnavailable: int := 503
  const StatusGatewayTimeout: int := 504

  // --- records

  newtype byte = x: int | 0 <= x < 256

  /** One metric plugin attached to an auto-scaling slot. */
  datatype MetricPlugin = MetricPlugin(pluginName: string, pluginOption: string)

  /** The record stored for one auto-scaling slot. */
  datatype InstanceData = InstanceData(instanceId: string, ip: string, metricPlugins: seq<MetricPlugin>)

  /** A batch entry of the metric buffer; metric values are carried as reals
      (floating-point rounding is not modelled). */
  datatype MetricsData = MetricsData(hostName: string, timestamp: int, metrics: map<string, real>)

  /** The body of a /proxy request. `requestJson` is either bytes supplied
      by the caller, or the JSON encoding of another ProxyRequest; the JSON
      text itself is not modelled. */
  datatype ProxyRequest = ProxyRequest(proxyHostPort: seq<string>, requestType: string, requestJson: Payload)

  datatype Payload = Opaque(bytes: seq<byte>) | Marshalled(request: ProxyRequest)

  /** The body of a /monitor response. */
  datatype MonitorResponse = MonitorResponse(returnValue: int, message: string)

  /** One entry of the auto-scaling configuration file. */
  datatype AutoScalingConfig = AutoScalingConfig(autoScalingGroupName: string, autoScalingCount: int, hostPrefix: string)

  /** One group of the auto-scaling listing: its slots by alias. */
  datatype AutoScalingData = AutoScalingData(autoScalingGroupName: string, instanceData: map<string, InstanceData>)
}
