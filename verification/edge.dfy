/**
  The agent side of a relay (edge/app.py `handle_proxy_request`): run the
  dispatched HTTP request upstream and build the reply envelope, either from
  the upstream response or, when the HTTP client raised, a synthesized 502.
 */
module Edge {
  import opened Wrappers
  import opened Wire
  import HopByHop

  /** The `payload` of a dispatch envelope; `None` marks a missing key. */
  datatype DispatchPayload =
    DispatchPayload(httpMethod: Option<string>, url: Option<string>, headers: Option<Headers>, body: Option<string>)

  /** How the upstream call ended; the HTTP client itself is not modelled. */
  datatype Upstream =
    | Completed(statusCode: int, headers: Headers, text: string)
    | HttpFailed(message: string)     // an `httpx.HTTPError`, rendered by `str(e)`
    | OtherException                  // any other exception: the task dies and nothing is sent

  /** The reply envelope the agent sends back over its connection. */
  datatype ReplyEnvelope = ReplyEnvelope(requestId: string, statusCode: int, headers: Headers, body: string)

  const BadGateway: int := 502
  const FailurePrefix: string := "HTTP请求失败: "

  /** The payload has all four keys the agent reads before calling upstream. */
  predicate Complete(p: DispatchPayload)
  {
    p.httpMethod.Some? && p.url.Some? && p.headers.Some? && p.body.Some?
  }

  /**
    The reply sent for one dispatch. A missing payload key raises `KeyError`
    and an exception other than an HTTP error escapes the task. `sendOk` says
    whether the agent's own send returns: when its connection dropped during
    the upstream call the send raises `ConnectionClosed`, which is no HTTP
    error either. In all three cases no reply is sent (`None`).
   */
  function HandleProxyRequest(requestId: string, p: DispatchPayload, up: Upstream, sendOk: bool): (r: Option<ReplyEnvelope>)
    ensures r.Some? <==> Complete(p) && !up.OtherException? && sendOk
    ensures r.Some? ==> r.value.requestId == requestId
    ensures r.Some? && up.Completed? ==>
              && r.value.statusCode == up.statusCode
              && r.value.body == up.text
              && (forall k :: k in r.value.headers ==> k in up.headers && r.value.headers[k] == up.headers[k])
              && (forall k :: k in up.headers && HopByHop.Lower(k) !in HopByHop.RemoveLower ==> k in r.value.headers)
    ensures r.Some? && up.HttpFailed? ==>
              && r.value.statusCode == BadGateway
              && r.value.headers == map[]
              && r.value.body == FailurePrefix + up.message
    ensures r.Some? ==> forall k :: k in r.value.headers ==> HopByHop.Lower(k) !in HopByHop.RemoveLower
  {
    if !Complete(p) || !sendOk then None
    else
      match up
      case Completed(status, headers, text) =>
        Some(ReplyEnvelope(requestId, status, HopByHop.Filter(headers), text))
      case HttpFailed(message) =>
        Some(ReplyEnvelope(requestId, BadGateway, map[], FailurePrefix + message))
      case OtherException => None
  }

  /** The frame the coordinator decodes from a reply envelope (JSON round trip taken as exact). */
  function Encode(e: ReplyEnvelope): (f: Frame)
    ensures f.requestId == Some(IdText(e.requestId))
    ensures f.payload.Some? && Validate(f.payload.value) == Some(AgentResponse(e.body, e.statusCode, e.headers))
  {
    Frame(Some(IdText(e.requestId)), Some(RawReply(Some(e.body), Some(e.statusCode), Some(e.headers))))
  }
}
