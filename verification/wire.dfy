/**
  The data exchanged between an edge agent and the coordinator, after JSON
  decoding: the reply envelope the coordinator reads, its validation into an
  `AgentResponse`, and the HTTP response the coordinator hands to its caller.
 */
module Wire {
  import opened Wrappers

  /** A header dictionary; keys are compared exactly, as in a Python dict. */
  type Headers = map<string, string>

  /** The `request_id` member of a decoded reply frame, by JSON kind. */
  datatype IdValue =
    | IdText(text: string)   // a JSON string
    | IdScalar               // null, a number or a boolean: hashable, never equal to a string key
    | IdComposite            // an array or an object: unhashable, so a dict lookup raises

  /**
    The `payload` member of a reply frame before validation; a field that is
    absent or of a type validation rejects is `None`.
   */
  datatype RawReply = RawReply(body: Option<string>, statusCode: Option<int>, headers: Option<Headers>)

  /** A decoded reply frame; `None` marks a missing member. */
  datatype Frame = Frame(requestId: Option<IdValue>, payload: Option<RawReply>)

  /** What one `receive_json` call yields on a connection. */
  datatype Received =
    | Closed               // the peer disconnected
    | Malformed            // the text is not JSON, or is JSON but not an object
    | Object(frame: Frame)

  /** A reply payload that passed validation (master/app.py `AgentResponse`). */
  datatype AgentResponse = AgentResponse(body: string, statusCode: int, headers: Headers)

  /** The HTTP response the coordinator returns to the caller of `/proxy`. */
  datatype Response = Response(content: string, statusCode: int, headers: Headers, mediaType: string)

  const ContentType: string := "Content-Type"
  const DefaultMediaType: string := "application/octet-stream"

  /** Validation of the payload: it succeeds exactly when every required field is present. */
  function Validate(p: RawReply): (r: Option<AgentResponse>)
    ensures r.Some? <==> p.body.Some? && p.statusCode.Some? && p.headers.Some?
    ensures r.Some? ==> r.value.body == p.body.value
    ensures r.Some? ==> r.value.statusCode == p.statusCode.value
    ensures r.Some? ==> r.value.headers == p.headers.value
  {
    if p.body.Some? && p.statusCode.Some? && p.headers.Some? then
      Some(AgentResponse(p.body.value, p.statusCode.value, p.headers.value))
    else
      None
  }

  /** The media type of the relayed response: an exact-key lookup with a default. */
  function MediaType(h: Headers): (t: string)
    ensures ContentType in h ==> t == h[ContentType]
    ensures ContentType !in h ==> t == DefaultMediaType
  {
    if ContentType in h then h[ContentType] else DefaultMediaType
  }

  /**
    The `media_type` argument reads only the exact key `Content-Type`: adding
    or changing any other header, `content-type` included, leaves it as it was.
   */
  lemma MediaTypeReadsOnlyExactKey(h: Headers, k: string, v: string)
    requires k != ContentType
    ensures MediaType(h[k := v]) == MediaType(h)
  {
  }

  /** U+212A KELVIN SIGN, the one non-ASCII character whose lower-case form is ASCII ('k'). */
  const KelvinSign: char := '\U{212A}'

  /** Whether a character is in Latin-1, the encoding of response header lines. */
  predicate IsLatin1(c: char)
  {
    c as int < 256
  }

  /**
    The characters outside Latin-1 whose Python lower-case form lies inside it:
    U+0178 (to U+00FF), U+1E9E (to U+00DF), U+212A KELVIN SIGN (to 'k') and
    U+212B ANGSTROM SIGN (to U+00E5).
   */
  predicate LowersIntoLatin1(c: char)
  {
    c == '\U{0178}' || c == '\U{1E9E}' || c == KelvinSign || c == '\U{212B}'
  }

  /** A header name whose lower-case form encodes as Latin-1. */
  predicate EncodableName(k: string)
  {
    forall i :: 0 <= i < |k| ==> IsLatin1(k[i]) || LowersIntoLatin1(k[i])
  }

  /** A header value that encodes as Latin-1. */
  predicate EncodableValue(v: string)
  {
    forall i :: 0 <= i < |v| ==> IsLatin1(v[i])
  }

  /**
    Building the relayed response from a validated reply. The response raises
    while encoding its header lines unless every lower-cased name and every
    value is Latin-1; otherwise it carries the reply's body, status and headers
    unchanged, with the media type read from `Content-Type`.
   */
  function ToResponse(a: AgentResponse): (r: Option<Response>)
    ensures r.Some? <==> forall k :: k in a.headers ==> EncodableName(k) && EncodableValue(a.headers[k])
    ensures r.Some? ==> r.value.content == a.body && r.value.statusCode == a.statusCode && r.value.headers == a.headers
    ensures r.Some? && ContentType in a.headers ==> r.value.mediaType == a.headers[ContentType]
    ensures r.Some? && ContentType !in a.headers ==> r.value.mediaType == DefaultMediaType
  {
    if forall k :: k in a.headers ==> EncodableName(k) && EncodableValue(a.headers[k]) then
      Some(Response(a.body, a.statusCode, a.headers, MediaType(a.headers)))
    else
      None
  }

  /** A header value outside Latin-1 makes building the response raise. */
  lemma NonLatin1ValueRaises(a: AgentResponse, k: string)
    requires k in a.headers && exists i :: 0 <= i < |a.headers[k]| && !IsLatin1(a.headers[k][i])
    ensures ToResponse(a) == None
  {
  }
}
