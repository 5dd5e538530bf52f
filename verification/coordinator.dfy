/**
  The coordinator's `AgentManager` (master/app.py) as a state machine over the
  agent pool `_agents`, the correlation table `_futures` and the futures the
  table points at. Each transition is a stretch of the event loop between two
  suspension points: a connection joining, a reader taking one item, a
  `request` call registering its future once its send has returned, the timer
  of a waiting call firing, and that call resuming to clean up. Choices made by
  `random`, send failures and timer expiry are inputs.
 */
module Coordinator {
  import opened Wrappers
  import opened Wire
  import Pool
  import Decimal
  import Edge

  type Agent = Pool.Agent

  /** The state of one `asyncio.Future`: awaited, holding a result, or cancelled by a timer. */
  datatype SlotState = Waiting | Done(response: Response) | Cancelled

  /**
    The manager's state. `futures` maps a request id to the identity of a
    future object; `states` holds each allocated future's state, so a request
    keeps its own future even after its id is overwritten or deleted.
    `nextFuture` stands for the allocator of fresh future objects.
   */
  datatype Manager = Manager(agents: seq<Agent>, futures: map<string, nat>, states: map<nat, SlotState>, nextFuture: nat)

  /** Why a relay fails at the broker level. */
  datatype Failure =
    | NoAgent(error: Pool.HttpError)   // `_get_agent` on an empty pool
    | SendFailed                       // `send_json` raised
    | TimedOut                         // `wait_for` expired

  /** A `request` call whose dispatch has been sent, before it registers its future. */
  datatype Sent = Sent(id: string, target: Agent)

  /** What a `request` call holds while it waits: its id, its own future and the agent it chose. */
  datatype InFlight = InFlight(id: string, future: nat, target: Agent)

  /** The freshly constructed manager. */
  function Init(): (m: Manager)
    ensures Valid(m) && m.agents == [] && m.futures == map[]
  {
    Manager([], map[], map[], 0)
  }

  /**
    The table only points at allocated futures, allocated futures are below
    the allocator, and no future sits under two ids.
   */
  ghost predicate Valid(m: Manager)
  {
    && (forall id :: id in m.futures ==> m.futures[id] in m.states)
    && (forall f :: f in m.states ==> f < m.nextFuture)
    && (forall i, j :: i in m.futures && j in m.futures && i != j ==> m.futures[i] != m.futures[j])
  }

  // ---------------------------------------------------------------------------
  // Pool transitions

  /** `add_agent`: the connection joins the pool; the table is untouched. */
  function Connect(m: Manager, a: Agent): (r: Manager)
    ensures a in r.agents && r.agents == m.agents + [a]
    ensures r.futures == m.futures && r.states == m.states && r.nextFuture == m.nextFuture
  {
    m.(agents := Pool.AddAgent(m.agents, a))
  }

  /** The reader's `finally`: drop the connection if still pooled; the table is untouched. */
  function EvictAgent(m: Manager, a: Agent): (r: Manager)
    ensures a !in m.agents ==> r == m
    ensures a in m.agents ==> |r.agents| == |m.agents| - 1 && multiset(r.agents) == multiset(m.agents) - multiset{a}
    ensures Pool.NoDuplicates(m.agents) ==> a !in r.agents
    ensures r.futures == m.futures && r.states == m.states && r.nextFuture == m.nextFuture
  {
    m.(agents := Pool.Evict(m.agents, a))
  }

  // ---------------------------------------------------------------------------
  // The reader loop of `_handle_agent`

  /** After one frame the reader either keeps reading or has left its loop. */
  datatype ReaderStep = Continue(next: Manager) | Stop(next: Manager)

  /**
    The reply a received item carries once it is a JSON object with a `payload`
    that validates, together with its `request_id` member.
   */
  function Decoded(rx: Received): (d: Option<(Option<IdValue>, AgentResponse)>)
    ensures d.Some? <==> rx.Object? && rx.frame.payload.Some? && Validate(rx.frame.payload.value).Some?
    ensures d.Some? ==> d.value.0 == rx.frame.requestId && Some(d.value.1) == Validate(rx.frame.payload.value)
  {
    match rx
    case Object(Frame(rid, Some(p))) =>
      (match Validate(p)
       case Some(resp) => Some((rid, resp))
       case None => None)
    case _ => None
  }

  /** The id of a decoded reply when it is a string that is in the table. */
  predicate KnownId(m: Manager, rid: Option<IdValue>)
  {
    rid.Some? && rid.value.IdText? && rid.value.text in m.futures
  }

  /**
    One pass of the reader loop. A disconnect, undecodable text, a missing
    `payload`, a failed validation, an unhashable `request_id`, a response
    whose headers do not encode, or a result set on a future that is no longer
    waiting all raise: the loop ends and the connection is evicted. A decoded
    reply for a waiting id resolves that future; any other decoded reply is
    ignored.
   */
  function ReadFrame(m: Manager, a: Agent, rx: Received): (s: ReaderStep)
    ensures s.next.futures == m.futures && s.next.states.Keys == m.states.Keys && s.next.nextFuture == m.nextFuture
    ensures s.Stop? ==> s.next == EvictAgent(m, a)
    ensures s.Continue? ==> s.next.agents == m.agents
    // anything that does not decode ends the loop
    ensures Decoded(rx).None? ==> s.Stop?
    // an unhashable id ends the loop
    ensures Decoded(rx).Some? && Decoded(rx).value.0 == Some(IdComposite) ==> s.Stop?
    // an id that is not in the table leaves everything as it was
    ensures Decoded(rx).Some? && Decoded(rx).value.0 != Some(IdComposite) && !KnownId(m, Decoded(rx).value.0)
            ==> s == Continue(m)
    // for a known id, a response that cannot be built ends the loop
    ensures Decoded(rx).Some? && KnownId(m, Decoded(rx).value.0) && ToResponse(Decoded(rx).value.1).None? ==> s.Stop?
    // a waiting future gets exactly its state resolved; a finished or cancelled one ends the loop
    ensures forall id :: Decoded(rx).Some? && Decoded(rx).value.0 == Some(IdText(id)) && id in m.futures
                         && m.futures[id] in m.states && ToResponse(Decoded(rx).value.1).Some? ==>
              var f := m.futures[id];
              && (m.states[f].Waiting? ==>
                    s == Continue(m.(states := m.states[f := Done(ToResponse(Decoded(rx).value.1).value)])))
              && (!m.states[f].Waiting? ==> s.Stop?)
  {
    match Decoded(rx)
    case None => Stop(EvictAgent(m, a))
    case Some((rid, resp)) =>
      match rid
      case Some(IdComposite) => Stop(EvictAgent(m, a))
      case Some(IdText(id)) =>
        if id in m.futures then
          var f := m.futures[id];
          match ToResponse(resp)
          case None => Stop(EvictAgent(m, a))
          case Some(response) =>
            if f in m.states && m.states[f].Waiting? then
              Continue(m.(states := m.states[f := Done(response)]))
            else
              Stop(EvictAgent(m, a))
        else Continue(m)
      case _ => Continue(m)
  }

  /** A future that is no longer waiting keeps its state whatever frame arrives. */
  lemma ReadFrameKeepsSettled(m: Manager, a: Agent, rx: Received, f: nat)
    requires f in m.states && !m.states[f].Waiting?
    ensures ReadFrame(m, a, rx).next.states[f] == m.states[f]
  {
  }

  /**
    The reader over a run of received items: it stops at the first item that
    raises and otherwise keeps reading until the items run out.
   */
  function RunReader(m: Manager, a: Agent, rxs: seq<Received>): (s: ReaderStep)
    ensures s.next.futures == m.futures && s.next.states.Keys == m.states.Keys && s.next.nextFuture == m.nextFuture
    ensures forall f :: f in m.states && !m.states[f].Waiting? ==> s.next.states[f] == m.states[f]
    ensures s.Continue? ==> s.next.agents == m.agents
    ensures s.Stop? ==> s.next.agents == Pool.Evict(m.agents, a)
    decreases |rxs|
  {
    if rxs == [] then Continue(m)
    else
      match ReadFrame(m, a, rxs[0])
      case Stop(m') => Stop(m')
      case Continue(m') => RunReader(m', a, rxs[1..])
  }

  // ---------------------------------------------------------------------------
  // The phases of `request`

  /**
    Phases 1 to 3 of `request`: choose an agent (an empty pool raises 400),
    draw an id in [100000, 999999], and send the dispatch (a failed send
    raises). None of this touches the manager's state.
   */
  function BeginRequest(m: Manager, pick: nat, draw: nat, sendOk: bool): (r: Result<Sent, Failure>)
    ensures r.Ok? <==> |m.agents| > 0 && sendOk
    ensures |m.agents| == 0 ==> r == Err(NoAgent(Pool.HttpError(Pool.NoAgentStatus, Pool.NoAgentDetail)))
    ensures |m.agents| > 0 && !sendOk ==> r == Err(SendFailed)
    ensures r.Ok? ==>
              && r.value.target in m.agents
              && r.value.id == Decimal.RequestId(draw)
              && |r.value.id| == 6 && Decimal.AllDigits(r.value.id)
              && Decimal.IdLow <= Decimal.ParseDecimal(r.value.id) <= Decimal.IdHigh
  {
    match Pool.GetAgent(m.agents, pick)
    case Err(e) => Err(NoAgent(e))
    case Ok(target) =>
      var id := Decimal.RequestId(draw);
      if sendOk then Ok(Sent(id, target)) else Err(SendFailed)
  }

  /** Phase 4, after the send has returned: store a fresh waiting future under the id, replacing whatever was there. */
  function Register(m: Manager, sent: Sent): (r: (Manager, InFlight))
    ensures r.1.id == sent.id && r.1.target == sent.target
    ensures r.0.agents == m.agents
    ensures r.0.futures.Keys == m.futures.Keys + {sent.id} && r.0.futures[sent.id] == r.1.future
    ensures forall other :: other in m.futures && other != sent.id ==> r.0.futures[other] == m.futures[other]
    ensures r.1.future in r.0.states && r.0.states[r.1.future] == Waiting
    ensures Valid(m) ==> r.1.future !in m.states && Valid(r.0)
    ensures Valid(m) ==> forall f :: f in m.states ==> f in r.0.states && r.0.states[f] == m.states[f]
  {
    var f := m.nextFuture;
    (Manager(m.agents, m.futures[sent.id := f], m.states[f := Waiting], f + 1), InFlight(sent.id, f, sent.target))
  }

  /** Phase 5, timer side: `wait_for` cancels a future that is still waiting; nothing else changes. */
  function Expire(m: Manager, req: InFlight): (r: Manager)
    ensures r.agents == m.agents && r.futures == m.futures && r.nextFuture == m.nextFuture
    ensures req.future in m.states && m.states[req.future].Waiting? ==> r.states == m.states[req.future := Cancelled]
    ensures !(req.future in m.states && m.states[req.future].Waiting?) ==> r.states == m.states
  {
    if req.future in m.states && m.states[req.future].Waiting? then
      m.(states := m.states[req.future := Cancelled])
    else m
  }

  /** Phase 6: `del _futures[id]`, where a missing key is tolerated. */
  function Cleanup(futures: map<string, nat>, id: string): (r: map<string, nat>)
    ensures id !in r
    ensures r.Keys == futures.Keys - {id}
    ensures forall other :: other in futures && other != id ==> r[other] == futures[other]
    ensures id !in futures ==> r == futures
  {
    futures - {id}
  }

  /** Cleaning the same id twice is the same as once. */
  lemma CleanupIdempotent(futures: map<string, nat>, id: string)
    ensures Cleanup(Cleanup(futures, id), id) == Cleanup(futures, id)
  {
  }

  /**
    Phases 5 and 6, caller side: the wait returns its own future's result when
    it has one, and otherwise ends by the timer, which cancels a still waiting
    future; either way the `finally` deletes the id, whoever's entry it now
    holds.
   */
  function EndRequest(m: Manager, req: InFlight): (r: (Manager, Result<Response, Failure>))
    ensures r.0.agents == m.agents && r.0.nextFuture == m.nextFuture
    ensures r.0.futures == Cleanup(m.futures, req.id)
    ensures r.1.Ok? <==> req.future in m.states && m.states[req.future].Done?
    ensures r.1.Ok? ==> m.states[req.future] == Done(r.1.value) && r.0.states == m.states
    ensures r.1.Err? ==> r.1.error == TimedOut && r.0.states == Expire(m, req).states
  {
    if req.future in m.states && m.states[req.future].Done? then
      (m.(futures := Cleanup(m.futures, req.id)), Ok(m.states[req.future].response))
    else
      (Expire(m, req).(futures := Cleanup(m.futures, req.id)), Err(TimedOut))
  }

  // ---------------------------------------------------------------------------
  // Interleavings

  /**
    One step of the event loop that changes the manager. Choosing an agent,
    drawing an id and sending change nothing, so a call's send is not an event;
    what it yields is the `Sent` its registration takes.
   */
  datatype Event =
    | Joined(agent: Agent)                 // a connection arrives: `add_agent`
    | Read(agent: Agent, rx: Received)     // that connection's reader takes one item
    | Registered(sent: Sent)               // a `request` call resumes after its send and registers
    | Expired(req: InFlight)               // the timer of a waiting call fires
    | Ended(req: InFlight)                 // a waiting call resumes and cleans up

  function Apply(m: Manager, e: Event): (r: Manager)
    ensures Valid(m) ==> Valid(r)
  {
    match e
    case Joined(a) => Connect(m, a)
    case Read(a, rx) => ReadFrame(m, a, rx).next
    case Registered(sent) => Register(m, sent).0
    case Expired(req) => Expire(m, req)
    case Ended(req) => EndRequest(m, req).0
  }

  function Run(m: Manager, es: seq<Event>): (r: Manager)
    decreases |es|
  {
    if es == [] then m else Run(Apply(m, es[0]), es[1..])
  }

  /** Running two stretches of events one after the other is running them joined. */
  lemma {:induction false} RunAppend(m: Manager, a: seq<Event>, b: seq<Event>)
    ensures Run(m, a + b) == Run(Run(m, a), b)
    decreases |a|
  {
    if a != [] {
      var ab := a + b;
      assert ab[0] == a[0] && ab[1..] == a[1..] + b;
      assert Run(m, ab) == Run(Apply(m, a[0]), a[1..] + b);
      RunAppend(Apply(m, a[0]), a[1..], b);
    } else {
      assert a + b == b;
    }
  }

  /** Any interleaving of connections, frames, registrations, timers and clean-ups keeps the table well formed. */
  lemma {:induction false} RunKeepsValid(m: Manager, es: seq<Event>)
    requires Valid(m)
    ensures Valid(Run(m, es))
    decreases |es|
  {
    if es != [] {
      RunKeepsValid(Apply(m, es[0]), es[1..]);
    }
  }

  /**
    Every connection that joins during the run is not pooled at that moment,
    as each call of the connect endpoint brings a fresh WebSocket.
   */
  predicate FreshJoins(m: Manager, es: seq<Event>)
    decreases |es|
  {
    es == [] || ((es[0].Joined? ==> es[0].agent !in m.agents) && FreshJoins(Apply(m, es[0]), es[1..]))
  }

  /** One transition keeps each connection pooled at most once, given a fresh joiner. */
  lemma ApplyKeepsUniquePool(m: Manager, e: Event)
    requires Pool.NoDuplicates(m.agents) && (e.Joined? ==> e.agent !in m.agents)
    ensures Pool.NoDuplicates(Apply(m, e).agents)
  {
    if e.Joined? {
      Pool.AddFreshKeepsNoDuplicates(m.agents, e.agent);
    }
  }

  /**
    Over any run whose joining connections are fresh, each connection is
    pooled at most once; so the reader's eviction removes its connection
    from the pool entirely.
   */
  lemma {:induction false} RunKeepsUniquePool(m: Manager, es: seq<Event>)
    requires Pool.NoDuplicates(m.agents) && FreshJoins(m, es)
    ensures Pool.NoDuplicates(Run(m, es).agents)
    decreases |es|
  {
    if es != [] {
      ApplyKeepsUniquePool(m, es[0]);
      RunKeepsUniquePool(Apply(m, es[0]), es[1..]);
    }
  }

  /** The id of a request maps to its own future, which is still waiting. */
  predicate Pending(m: Manager, req: InFlight)
  {
    req.id in m.futures && m.futures[req.id] == req.future
    && req.future in m.states && m.states[req.future] == Waiting
  }

  /**
    An event that leaves a pending request alone: a connection joining, an
    item whose decoded id is not the request's, a registration under another
    id, or the timer or clean-up of another request.
   */
  predicate Untouched(req: InFlight, e: Event)
  {
    match e
    case Joined(_) => true
    case Read(_, rx) => Decoded(rx).None? || Decoded(rx).value.0 != Some(IdText(req.id))
    case Registered(sent) => sent.id != req.id
    case Expired(other) => other.future != req.future
    case Ended(other) => other.id != req.id && other.future != req.future
  }

  /** One untouched event keeps a request pending. */
  lemma ApplyKeepsPending(m: Manager, req: InFlight, e: Event)
    requires Valid(m) && Pending(m, req) && Untouched(req, e)
    ensures Pending(Apply(m, e), req)
  {
    match e
    case Read(a, rx) =>
      if Decoded(rx).Some? && Decoded(rx).value.0.Some? && Decoded(rx).value.0.value.IdText? {
        var id := Decoded(rx).value.0.value.text;
        if id in m.futures {
          assert m.futures[id] != req.future;
        }
      }
    case Registered(sent) =>
      assert req.future < m.nextFuture;
    case _ =>
  }

  /** A run of untouched events keeps a request pending. */
  lemma {:induction false} RunKeepsPending(m: Manager, req: InFlight, es: seq<Event>)
    requires Valid(m) && Pending(m, req)
    requires forall i :: 0 <= i < |es| ==> Untouched(req, es[i])
    ensures Valid(Run(m, es)) && Pending(Run(m, es), req)
    decreases |es|
  {
    if es != [] {
      ApplyKeepsPending(m, req, es[0]);
      RunKeepsPending(Apply(m, es[0]), req, es[1..]);
    }
  }

  /**
    A future that is done or cancelled keeps its state across any transition:
    `set_result` on it raises, the timer leaves it alone, and registration
    allocates a fresh one.
   */
  lemma ApplyKeepsSettled(m: Manager, e: Event, f: nat)
    requires Valid(m) && f in m.states && !m.states[f].Waiting?
    ensures f in Apply(m, e).states && Apply(m, e).states[f] == m.states[f]
  {
    match e
    case Read(a, rx) => ReadFrameKeepsSettled(m, a, rx, f);
    case Registered(sent) => assert f < m.nextFuture;
    case _ =>
  }

  /** A resolution is final: over any run, a settled future keeps its result or its cancellation. */
  lemma {:induction false} RunKeepsSettled(m: Manager, es: seq<Event>, f: nat)
    requires Valid(m) && f in m.states && !m.states[f].Waiting?
    ensures Valid(Run(m, es)) && f in Run(m, es).states && Run(m, es).states[f] == m.states[f]
    decreases |es|
  {
    if es != [] {
      ApplyKeepsSettled(m, es[0], f);
      RunKeepsSettled(Apply(m, es[0]), es[1..], f);
    }
  }

  // ---------------------------------------------------------------------------
  // Relays end to end

  /** The frame an agent sends for a validated reply under a given id. */
  function ReplyFrame(id: string, resp: AgentResponse): (rx: Received)
    ensures Decoded(rx) == Some((Some(IdText(id)), resp))
  {
    Object(Frame(Some(IdText(id)), Some(RawReply(Some(resp.body), Some(resp.statusCode), Some(resp.headers)))))
  }

  /**
    A reply carrying a registered request's id, read on any connection, is what
    that request returns; afterwards the id is gone from the table.
   */
  lemma ReplyReachesItsRequest(m: Manager, sent: Sent, b: Agent, resp: AgentResponse)
    requires Valid(m) && ToResponse(resp).Some?
    ensures
      var (m1, req) := Register(m, sent);
      var s := ReadFrame(m1, b, ReplyFrame(req.id, resp));
      && s.Continue?
      && EndRequest(s.next, req).1 == Ok(ToResponse(resp).value)
      && EndRequest(s.next, req).0.futures == Cleanup(m.futures, req.id)
  {
  }

  /**
    With no reply the wait ends by the timer, and the table loses the id, even
    an entry that the registration had overwritten.
   */
  lemma NoReplyTimesOut(m: Manager, sent: Sent)
    requires Valid(m)
    ensures
      var (m1, req) := Register(m, sent);
      && EndRequest(m1, req).1 == Err(TimedOut)
      && EndRequest(m1, req).0.futures == Cleanup(m.futures, sent.id)
  {
  }

  /**
    While a request's id still maps to its own waiting future, whatever
    unrelated events came before, a reply with that id read on any connection
    keeps that reader going and is exactly what the request returns, whatever
    events run between the reply and the request's resumption.
   */
  lemma ReplyReachesItsRequestAfterAnyRun(m: Manager, req: InFlight, es: seq<Event>, b: Agent, resp: AgentResponse, rest: seq<Event>)
    requires Valid(m) && Pending(m, req) && ToResponse(resp).Some?
    requires forall i :: 0 <= i < |es| ==> Untouched(req, es[i])
    ensures ReadFrame(Run(m, es), b, ReplyFrame(req.id, resp)).Continue?
    ensures EndRequest(Run(m, es + [Read(b, ReplyFrame(req.id, resp))] + rest), req).1 == Ok(ToResponse(resp).value)
  {
    RunKeepsPending(m, req, es);
    var reply := Read(b, ReplyFrame(req.id, resp));
    var m1 := Run(m, es);
    RunAppend(m, es + [reply], rest);
    RunAppend(m, es, [reply]);
    assert Run(m1, [reply]) == Apply(m1, reply);
    RunKeepsSettled(Apply(m1, reply), rest, req.future);
  }

  /** Once the timer has cancelled a waiting request, no later run lets it return anything but the timeout. */
  lemma TimeoutIsFinal(m: Manager, req: InFlight, rest: seq<Event>)
    requires Valid(m) && Pending(m, req)
    ensures EndRequest(Run(m, [Expired(req)] + rest), req).1 == Err(TimedOut)
  {
    var es := [Expired(req)] + rest;
    assert es[0] == Expired(req) && es[1..] == rest;
    RunKeepsSettled(Expire(m, req), rest, req.future);
  }

  /** A reply read right after its request has cleaned up is ignored. */
  lemma LateReplyIsIgnored(m: Manager, req: InFlight, b: Agent, resp: AgentResponse)
    ensures
      var m1 := EndRequest(m, req).0;
      ReadFrame(m1, b, ReplyFrame(req.id, resp)) == Continue(m1)
  {
  }

  /**
    A second reply for an id whose future already holds a result, read before
    the waiting request has cleaned up, raises in the reader: the connection
    that sent it is evicted and the first result stands.
   */
  lemma DuplicateReplyEvicts(m: Manager, req: InFlight, b: Agent, first: AgentResponse, second: AgentResponse)
    requires req.id in m.futures && m.futures[req.id] == req.future
    requires req.future in m.states && m.states[req.future] == Waiting
    requires ToResponse(first).Some? && ToResponse(second).Some?
    ensures
      var s1 := ReadFrame(m, b, ReplyFrame(req.id, first));
      var s2 := ReadFrame(s1.next, b, ReplyFrame(req.id, second));
      && s2 == Stop(EvictAgent(s1.next, b))
      && EndRequest(s2.next, req).1 == Ok(ToResponse(first).value)
  {
  }

  /**
    A reply read after the timer cancelled its future but before the caller
    cleaned up raises in the reader: the connection is evicted and the caller
    still times out.
   */
  lemma ReplyAfterExpiryEvicts(m: Manager, sent: Sent, b: Agent, resp: AgentResponse)
    requires Valid(m) && ToResponse(resp).Some?
    ensures
      var (m1, req) := Register(m, sent);
      var m2 := Expire(m1, req);
      var s := ReadFrame(m2, b, ReplyFrame(req.id, resp));
      && s == Stop(EvictAgent(m2, b))
      && EndRequest(s.next, req).1 == Err(TimedOut)
  {
  }

  /**
    A reply read after the send but before the registration finds no entry and
    is ignored; the request then waits in vain and times out.
   */
  lemma ReplyBeforeRegistrationIsLost(m: Manager, sent: Sent, b: Agent, resp: AgentResponse)
    requires Valid(m) && sent.id !in m.futures
    ensures
      var s := ReadFrame(m, b, ReplyFrame(sent.id, resp));
      var (m1, req) := Register(s.next, sent);
      && s == Continue(m)
      && EndRequest(m1, req).1 == Err(TimedOut)
  {
  }

  /**
    A reply read after the send but before the registration, while an older
    request still waits under the same id, resolves the older request instead.
   */
  lemma EarlyReplyResolvesOlderRequest(m: Manager, older: InFlight, sent: Sent, b: Agent, resp: AgentResponse)
    requires Valid(m) && ToResponse(resp).Some?
    requires older.id == sent.id && older.id in m.futures && m.futures[older.id] == older.future
    requires m.states[older.future] == Waiting
    ensures
      var s := ReadFrame(m, b, ReplyFrame(sent.id, resp));
      var (m1, req) := Register(s.next, sent);
      && EndRequest(m1, older).1 == Ok(ToResponse(resp).value)
      && EndRequest(m1, req).1 == Err(TimedOut)
  {
  }

  /**
    Two waiting requests that drew the same id share one table entry: the
    later registration replaces the earlier future, so a reply for that id
    goes to the later request and the earlier one can only time out.
   */
  lemma CollidingIdsCrossDeliver(m: Manager, sent1: Sent, sent2: Sent, b: Agent, resp: AgentResponse)
    requires Valid(m) && sent1.id == sent2.id && ToResponse(resp).Some?
    ensures
      var (m1, r1) := Register(m, sent1);
      var (m2, r2) := Register(m1, sent2);
      var s := ReadFrame(m2, b, ReplyFrame(r1.id, resp));
      && EndRequest(s.next, r1).1 == Err(TimedOut)
      && EndRequest(s.next, r2).1 == Ok(ToResponse(resp).value)
  {
  }

  /**
    A request whose future already holds its reply keeps that reply when a
    later request registers the same id before it resumes; the later request
    loses its entry to the earlier one's clean-up and times out.
   */
  lemma ResolvedResultSurvivesCollision(m: Manager, sent1: Sent, sent2: Sent, b: Agent, resp: AgentResponse)
    requires Valid(m) && sent1.id == sent2.id && ToResponse(resp).Some?
    ensures
      var (m1, r1) := Register(m, sent1);
      var s := ReadFrame(m1, b, ReplyFrame(r1.id, resp));
      var (m2, r2) := Register(s.next, sent2);
      var (m3, out1) := EndRequest(m2, r1);
      && out1 == Ok(ToResponse(resp).value)
      && r2.id !in m3.futures
      && EndRequest(m3, r2).1 == Err(TimedOut)
  {
  }

  /**
    An upstream failure at the agent is a successful relay at the broker: the
    caller gets status 502, the agent's failure text and no headers.
   */
  lemma UpstreamFailureIsBrokerSuccess(m: Manager, sent: Sent, p: Edge.DispatchPayload, message: string)
    requires Valid(m) && Edge.Complete(p)
    ensures
      var (m1, req) := Register(m, sent);
      var env := Edge.HandleProxyRequest(req.id, p, Edge.HttpFailed(message), true).value;
      var s := ReadFrame(m1, req.target, Object(Edge.Encode(env)));
      EndRequest(s.next, req).1 == Ok(Response(Edge.FailurePrefix + message, Edge.BadGateway, map[], DefaultMediaType))
  {
  }
}
