# Edge proxy relay: coordinator bookkeeping and agent replies

This project models two pieces of sequential logic in a WebSocket relay. In the
relay, a coordinator forwards HTTP requests through connected edge agents.

- **The coordinator's `AgentManager`** is modelled as a state machine. Its
  state has three parts:
  - the pool of connected agents (`_agents`, a list of connection identities);
  - the correlation table (`_futures`), which maps a request-id string to a
    future object;
  - the state of every future: waiting, done with a response, or cancelled.

  A request keeps a handle on its own future. So it still sees its result
  after its id has been overwritten or deleted, as the code's local `future`
  does. Each transition runs between two suspension points of the event loop:
  - a connection joining;
  - the reader of one connection taking one received item;
  - a `request` call registering its future after its `send_json` has
    returned;
  - that call's timer firing and cancelling the future;
  - the call resuming and deleting its id.

  Choosing an agent, drawing an id and sending change nothing in the manager.
  They produce the value the registration takes. A reply can therefore be read
  between a send and its registration, or between a timer firing and the
  clean-up. `random.choice`, `random.randint`, the success of a send and timer
  expiry are inputs.
- **The agent's reply construction** is modelled as pure functions. These
  cover the hop-by-hop header filter, the success envelope that echoes the
  request id, and the synthesized 502 envelope for a failed upstream call.

Modules: `Wrappers` (Option/Result), `Wire` (decoded frames, validation, the
relayed response and its media type), `HopByHop` (lower-casing and the header
filter), `Edge` (the agent's reply), `Decimal` (the request id text), `Pool`
(the agent list) and `Coordinator` (the manager's transitions, interleavings,
and end-to-end relays).

## Behaviour of the code worth knowing

- Any exception in the reader loop ends the loop, and its `finally` evicts the connection (master/app.py:61-84). `Coordinator.ReadFrame` models each of these except the lone surrogate:
  - text that is not JSON, or JSON that is not an object;
  - a missing `payload`;
  - a failed validation;
  - an unhashable `request_id`;
  - a response whose header lines do not encode as Latin-1;
  - a body holding a lone surrogate (a JSON `\ud800` escape), which cannot be rendered as UTF-8. See "## Left out";
  - `set_result` on a future that is done or cancelled.
- The request registers its future only after `send_json` returns (master/app.py:95-103).
  - A failed send leaves the table untouched, and the connection stays pooled.
  - A reply read between the send and the registration is ignored, and the request then times out (`Coordinator.ReplyBeforeRegistrationIsLost`).
  - If an older request still waits under the same id, that reply resolves the older request instead (`Coordinator.EarlyReplyResolvesOlderRequest`).
- A second reply for an id whose future is done evicts the connection that sent it (`Coordinator.DuplicateReplyEvicts`).
- So does a reply arriving after the timer cancelled the future but before the clean-up (`Coordinator.ReplyAfterExpiryEvicts`).
- Ids come from a six-digit range, and two waiting requests can draw the same one. The later registration overwrites the table entry. A reply then reaches the later request (`Coordinator.CollidingIdsCrossDeliver`). The earlier request's clean-up deletes the later request's entry (`Coordinator.ResolvedResultSurvivesCollision`).

## Model

| member | source | states |
|---|---|---|
| Wire.Validate | master/app.py:32-35 | a payload validates exactly when body, status code and headers are all present, and the result carries those three values |
| Wire.MediaType | master/app.py:73-75 | the media type is the value under the exact key `Content-Type` when present, otherwise `application/octet-stream` |
| Wire.MediaTypeReadsOnlyExactKey | master/app.py:73-75 | the `media_type` argument depends only on the exact key `Content-Type`: adding or changing any other header, `content-type` included, leaves it unchanged |
| Wire.NonLatin1ValueRaises | master/app.py:69-76 | a header value with a character outside Latin-1 makes building the response raise |
| Wire.ToResponse | master/app.py:69-76 | building the response succeeds exactly when every lower-cased header name and every value encodes as Latin-1; the response then carries the reply's body, status code and headers unchanged, with the media type chosen as above |
| HopByHop.LowerChar | edge/app.py:97 | an ASCII capital becomes the letter 32 code points later, the Kelvin sign becomes `k`, and every other character is unchanged; no result is a capital or the Kelvin sign |
| HopByHop.LowerCharIdempotent | edge/app.py:97 | lowering a character twice equals lowering it once |
| HopByHop.Lower | edge/app.py:97 | the string is lowered character by character in place, so its length is kept |
| HopByHop.LowerIdempotent | edge/app.py:97 | lowering a string twice equals lowering it once |
| HopByHop.LoweredRemoveIsLiteral | edge/app.py:87-97 | lowering the five listed names gives exactly `content-encoding`, `content-length`, `transfer-encoding`, `connection`, `keep-alive` |
| HopByHop.IsHopByHopIffCaseVariant | edge/app.py:97 | a name is stripped if and only if it equals one of the five listed names ignoring case, character by character |
| HopByHop.Filter | edge/app.py:94-98 | no kept name lowers to one of the five names; every other upstream header is kept with its value; nothing is invented or altered |
| HopByHop.FilterIdempotent | edge/app.py:94-98 | filtering an already filtered map returns it unchanged |
| HopByHop.CaseVariantIsStripped | edge/app.py:94-98 | any spelling of a listed name, in any letter case, is absent from the filtered headers |
| HopByHop.OtherNameIsKept | edge/app.py:94-98 | a name matching no listed name ignoring case keeps its value |
| HopByHop.KelvinKeepAliveIsStripped | edge/app.py:97 | `Keep-Alive` spelled with a Kelvin sign also lowers to `keep-alive` and is stripped |
| Edge.HandleProxyRequest | edge/app.py:72-125 | a reply is sent exactly when the payload has its four keys, upstream did not raise a non-HTTP exception, and the agent's own send did not raise (a dropped connection raises `ConnectionClosed`, which is no HTTP error, so nothing is sent and the caller times out); it echoes the request id; on success it carries the upstream status and text and the filtered headers; on an HTTP error it carries 502, no headers and the failure prefix followed by the error text; no hop-by-hop header ever appears |
| Edge.Encode | edge/app.py:100-110 | the coordinator decodes the agent's envelope into a frame with that request id whose payload validates to the envelope's body, status and headers |
| Decimal.DecimalString | master/app.py:93 | `str(n)` is a non-empty string of digits with a leading zero only for 0 |
| Decimal.ParseDecimalString | master/app.py:93 | parsing `str(n)` gives back n |
| Decimal.DecimalStringInjective | master/app.py:93 | distinct numbers give distinct id strings |
| Decimal.DecimalStringLength | master/app.py:93 | a number with k+1 digits renders as k+1 characters |
| Decimal.RandInt | master/app.py:93 | `randint(lo, hi)` yields a value in the closed range |
| Decimal.RandIntCoversRange | master/app.py:93 | every value of the closed range is the outcome of some draw |
| Decimal.RequestId | master/app.py:93 | every request id is six digits with no leading zero, denoting a number in [100000, 999999] |
| Decimal.RequestIdCoversRange | master/app.py:93 | every number in [100000, 999999] is the id of some draw, and that id denotes it |
| Pool.AddAgent | master/app.py:44-46 | the connection is appended: the old pool is a prefix and the new member is last |
| Pool.AddFreshKeepsNoDuplicates | master/app.py:44-46 | appending a connection not yet pooled keeps every connection pooled once |
| Pool.RemoveAgent | master/app.py:49-51 | `list.remove` raises exactly when the connection is absent; otherwise it drops its first occurrence and keeps the rest in order |
| Pool.Evict | master/app.py:82-84 | the guarded removal is a no-op for an absent connection; otherwise one occurrence goes and every other connection stays; with no duplicates the connection is no longer pooled |
| Pool.EvictIdempotent | master/app.py:82-84 | for a pool holding each connection once, evicting twice equals evicting once |
| Pool.GetAgent | master/app.py:53-57 | an empty pool raises the 400 error, and only an empty pool does; otherwise the choice is a pooled connection |
| Pool.GetAgentCanChooseAny | master/app.py:57 | every pooled connection can be the one chosen |
| Coordinator.Init | master/app.py:39-42 | the manager starts with no agents, an empty table, and the table invariant |
| Coordinator.Connect | master/app.py:44-46 | `add_agent` makes the connection a member and leaves the table and the futures unchanged |
| Coordinator.EvictAgent | master/app.py:82-84 | the reader's cleanup is a no-op on an absent connection, otherwise removes one occurrence, and never touches the table or the futures |
| Coordinator.Decoded | master/app.py:63-65 | an item yields a reply exactly when it is an object whose payload validates, paired with its `request_id` member |
| Coordinator.ReadFrame | master/app.py:59-84 | any raising item evicts the connection and changes nothing else; the table itself never changes; an id not in the table leaves everything unchanged; for a known id, a response that cannot be built evicts; a waiting future gets exactly its state set to the built response, every other future unchanged; a done or cancelled future evicts |
| Coordinator.ReadFrameKeepsSettled | master/app.py:67-68 | a future that is done or cancelled keeps its state whatever frame arrives |
| Coordinator.RunReader | master/app.py:61-84 | over any run of items the table is unchanged, no future appears or disappears, and every done or cancelled future keeps its state; the pool is unchanged while reading, and the connection is evicted when the loop ends |
| Coordinator.Register | master/app.py:102-103 | registration stores a fresh waiting future under the id, overwriting any prior entry, and leaves other entries and existing futures unchanged; it keeps the invariant |
| Coordinator.Expire | master/app.py:105 | the timer cancels the request's future if it is still waiting and changes nothing else |
| Coordinator.BeginRequest | master/app.py:92-100 | an empty pool fails with 400 and only it does; a failed send fails; otherwise the chosen agent is pooled and the id is the draw's six-digit string in range; no state changes, so a failed send creates no entry |
| Coordinator.Cleanup | master/app.py:106-110 | the `del` removes the id, leaves other entries unchanged, and is a no-op on an absent id |
| Coordinator.CleanupIdempotent | master/app.py:106-110 | cleaning the same id twice equals cleaning it once |
| Coordinator.EndRequest | master/app.py:104-110 | the wait returns a result exactly when the request's own future is done, and returns that future's response; otherwise it times out and a still-waiting future is cancelled; either way the id is deleted and nothing else in the table changes |
| Coordinator.Apply | master/app.py:44-110 | every transition keeps the invariant: joining, reading, registering, the timer firing, and clean-up |
| Coordinator.RunKeepsValid | master/app.py:44-110 | every interleaving of these transitions keeps the invariant, including replies read between a send and its registration and between a timer and its clean-up |
| Coordinator.ApplyKeepsUniquePool | master/app.py:44-84 | a transition whose joining connection is not yet pooled keeps each connection pooled at most once |
| Coordinator.RunKeepsUniquePool | master/app.py:44-84 | over any run in which each joining connection is fresh, as each connect call brings a new WebSocket (master/app.py:121-122), each connection is pooled at most once; so the reader's eviction removes its connection from the pool |
| Coordinator.ApplyKeepsPending | master/app.py:67-68 | an event unrelated to a request leaves its id mapped to its own future, and that future still waiting |
| Coordinator.ApplyKeepsSettled | master/app.py:67-68 | a done or cancelled future keeps its state across any transition, given the invariant |
| Coordinator.RunKeepsSettled | master/app.py:67-68 | a resolution is final: over any run a done or cancelled future keeps its result or its cancellation, and the invariant holds |
| Coordinator.RunKeepsPending | master/app.py:67-68 | a run of events unrelated to a request keeps the invariant, and keeps the request pending |
| Coordinator.ReplyReachesItsRequest | master/app.py:67-105 | a reply with a request's id, read from any connection right after the registration, is what that request returns when it resumes next; the id then leaves the table. A later resumption is covered by `Coordinator.ReplyReachesItsRequestAfterAnyRun` |
| Coordinator.ReplyReachesItsRequestAfterAnyRun | master/app.py:67-105 | take any interleaving that starts while a request's id maps to its own waiting future: first a run of unrelated events, then a reply with that id from any connection, then any events at all. The reply keeps its reader going, and the request returns exactly that reply when it resumes. Unrelated means: connections joining, items with other ids, registrations under other ids, and other requests' timers and clean-ups. A timer firing after the reply is the case named under `Coordinator.EndRequest` in "## Left out" |
| Coordinator.TimeoutIsFinal | master/app.py:104-110 | once the timer has cancelled a waiting request, no later run of events lets it return anything but the timeout |
| Coordinator.NoReplyTimesOut | master/app.py:102-110 | without a reply the request times out, and the table loses that id, including any entry the registration overwrote |
| Coordinator.LateReplyIsIgnored | master/app.py:67 | a reply read right after its request's clean-up changes nothing |
| Coordinator.DuplicateReplyEvicts | master/app.py:67-84 | a second reply for a done future evicts the sending connection, and the first result is returned |
| Coordinator.ReplyAfterExpiryEvicts | master/app.py:67-84 | a reply read after the timer cancelled the future, but before the clean-up, evicts the sending connection, and the request still times out |
| Coordinator.ReplyBeforeRegistrationIsLost | master/app.py:95-105 | a reply read between the send and the registration is ignored, and the request then times out |
| Coordinator.EarlyReplyResolvesOlderRequest | master/app.py:95-105 | a reply read between the send and the registration, while an older request waits under the same id, resolves the older request, and the new one times out |
| Coordinator.CollidingIdsCrossDeliver | master/app.py:93-105 | two registered requests with the same id share one entry: the reply reaches the later one, and the earlier one times out |
| Coordinator.ResolvedResultSurvivesCollision | master/app.py:102-110 | a request whose future is done keeps its result when a later request registers the same id; its clean-up deletes the later entry, and the later request times out |
| Coordinator.UpstreamFailureIsBrokerSuccess | edge/app.py:113-123 | an upstream HTTP failure at the agent reaches the caller as a successful relay with status 502, the failure text and no headers |

## Left out

- The HTTP framework, the `/proxy` and `/edge/ws/{uuid}` endpoints and server start-up (master/app.py:113-145) are framework plumbing. The endpoint's fresh connection per call appears only as the freshness premise of `Pool.AddFreshKeepsNoDuplicates` and, over runs, of `Coordinator.FreshJoins`.
- WebSocket I/O, the agent's connect-and-reconnect loop, its receive loop and its sleeps (edge/app.py:37-70) are I/O. Receiving is modelled as a received item. The coordinator's `send_json` and the agent's `self._websocket.send` are each modelled as a success flag (`Coordinator.BeginRequest`, `Edge.HandleProxyRequest`). After a reconnect the agent replies on its new connection, not the one the dispatch came on. The coordinator takes a reply from any connection, so the model does not track which one.
- The HTTP client call is not executed. Its outcome is an input: a completed response, an HTTP error with its text, or some other exception.
- JSON parsing and serialisation are left out. Frames arrive already decoded, and the agent's envelope is taken to decode exactly (`Edge.Encode`).
- Pydantic validation is modelled only as "a field that is absent or rejected is missing". Its type coercions are left out.
- Concurrency below the event loop's own scheduling is left out. The model covers the stretches between suspension points, and a timer firing is an event rather than a time.
- Coordinator.EndRequest: one case is not modelled. In it, the timer fires after `set_result` but before the waiting task resumes. Depending on the Python version, `wait_for` then returns the result or raises a timeout. The model returns the result.
- Coordinator.ReadFrame: header values are modelled as strings. A non-string value passes validation (`headers: dict`), but makes building the response raise and evict the connection. The model has no such value.
- Wire.ToResponse: a Python str can hold a lone surrogate, for example from a JSON `\ud800` escape. Rendering such a body as UTF-8 raises and evicts the agent, leaving the future waiting. Dafny strings hold only Unicode scalar values, so the model has no such body and always renders it.
- Wire.ToResponse: Starlette's `Response`, which is not part of this model, is not modelled beyond its Latin-1 encoding of header lines. The model records the constructor's arguments. Starlette's lower-casing of names and its added `content-length` and `content-type` lines are left out.
- HopByHop.Lower: Python's `str.lower` can lengthen a string. U+0130, for one, lowers to `i` followed by U+0307. The model lowers in place and keeps the length. The lengthened form still contains a non-ASCII character, so comparison against the five ASCII names gives the same answer.
- HopByHop.LowerChar: non-ASCII characters other than the Kelvin sign are left unchanged rather than lowered. Python lowers them to text that still contains a non-ASCII character. So comparison against the five ASCII names gives the same answer either way.
- httpx's own normalisation of response header names and merging of repeated headers are left out. Upstream headers are an arbitrary map.
- Logging and coloured log formatting (master/app.py:14-29, edge/app.py:13-28) are left out.
- The unused task set `_tasks` (master/app.py:42) is left out.
