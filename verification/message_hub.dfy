/**
 * `FMessageHub`: the per-hub signal map, callback marks and message-body
 * stack, together with the process-wide tables the hub consults (signature
 * registry, pending responses, recursion counters, call history and the
 * sequence counter), gathered into one immutable state.
 *
 * Handlers run inside a dispatch and may call back into the hub. What they do
 * is given as a tree of operations: a dispatch carries the operations its
 * handlers perform while its body is on the stack, and a response carries
 * the operations of the callback it invokes.
 */
module MessageHub {
  import opened Wrappers
  import opened HubTypes
  import opened Signatures
  import opened SequenceIds
  import opened RecursionGuard
  import CallHistory

  /** A `UObject*` as the hub sees it: null, live (`IsValid`), or pending kill. */
  datatype ObjectRef = Null | Live(id: nat) | Stale(id: nat)

  /**
   * The signal store of one key (`FGMPMsgSignal`), kept abstract: its
   * operations are given, not defined here. `connect` answers 0 when no
   * connection was made; `fire` answers the store as firing left it (once-only
   * listeners dropped, stale ones pruned) and the keys of the handlers it reached.
   */
  datatype StoreOps<!S> = StoreOps(
    makeSignals: Name -> S,
    connect: (S, ObjectRef, Source) -> (S, Key),
    disconnectId: (S, Key) -> S,
    disconnectListener: (S, ObjectRef) -> S,
    disconnectListenerSource: (S, ObjectRef, Source) -> S,
    fire: (S, Source, Body) -> (S, seq<Key>),
    isAliveId: (S, Key) -> bool,
    isAliveListener: (S, ObjectRef, Source) -> bool)

  /**
   * Build switches and collaborators: `GIsEditor`, `GMP_WITH_DYNAMIC_CALL_CHECK`,
   * `GMP_WITH_TYPENAME`, the type-hierarchy queries, `UGMPMeta::GetSvrMeta`
   * and `FMessageBody::ToString`.
   */
  datatype Config<!S> = Config(
    editor: bool,
    dynamicCallCheck: bool,
    withTypeName: bool,
    rf: Reflection,
    responseMeta: Name -> Option<seq<Name>>,
    render: Body -> string,
    store: StoreOps<S>)

  /** `FResponseSig`: truthy when bound; `GetId` and `GetRec` (the response's message name). */
  datatype Responder = Responder(bound: bool, id: Key, rec: Name)

  /** What the pending-response table keeps of a responder once it is moved in. */
  datatype PendingResponse = PendingResponse(rec: Name)

  /** The three `UnbindMessageImpl` overloads. */
  datatype Unlisten = ById(id: Key) | ByListener(listener: ObjectRef) | ByListenerSource(listener: ObjectRef, source: Source)

  datatype Hub<S> = Hub(
    signals: map<Name, S>,
    callbackMarks: set<Name>,
    bodyStack: seq<Body>,
    responses: map<Key, PendingResponse>,
    registry: Registry,
    entrySources: EntrySources,
    history: map<Name, CallHistory.Ring>,
    sequence: int)

  datatype Op =
    | Notify(key: Name, source: Source, params: seq<Param>, handlers: seq<Op>)
      /** `movedId` is what `OnRsp.GetId()` reads after the responder was moved into the table. */
    | Request(key: Name, source: Source, params: seq<Param>, onRsp: Responder, movedId: Key, handlers: seq<Op>)
    | Respond(sequenceId: Key, params: seq<Param>, singleshot: Option<seq<Name>>, source: Source, callback: seq<Op>)
    | Listen(key: Name, source: Source, listener: ObjectRef)
    | Unbind(key: Name, how: Unlisten)
      /** A handler asking for `GetCurrentMessageBody`. */
    | Observe
    | ClearOnMapLoad
    | ClearOnPieBegin

  /** What the environment sees of a run: dispatches, callback invocations and body queries. */
  datatype Event = Fired(body: Body, reached: seq<Key>) | CallbackInvoked(body: Body) | Observed(current: Option<Body>)

  /** The state after one operation, what it printed and what it returned. */
  datatype Step<S> = Step(hub: Hub<S>, events: seq<Event>, result: Key)

  /** The state after a sequence of operations and what they printed. */
  datatype Trace<S> = Trace(hub: Hub<S>, events: seq<Event>)

  function Size(op: Op): (n: nat)
    ensures n >= 1
  {
    match op
    case Notify(_, _, _, handlers) => 1 + SizeAll(handlers)
    case Request(_, _, _, _, _, handlers) => 1 + SizeAll(handlers)
    case Respond(_, _, _, _, callback) => 1 + SizeAll(callback)
    case _ => 1
  }

  function SizeAll(ops: seq<Op>): nat
  {
    if |ops| == 0 then 0 else Size(ops[0]) + SizeAll(ops[1..])
  }

  /** No operation in the tree issues a request. */
  predicate NoRequest(op: Op)
    decreases Size(op), 0
  {
    match op
    case Notify(_, _, _, handlers) => NoRequests(handlers)
    case Request(_, _, _, _, _, _) => false
    case Respond(_, _, _, _, callback) => NoRequests(callback)
    case _ => true
  }

  predicate NoRequests(ops: seq<Op>)
    decreases SizeAll(ops), 1
  {
    |ops| == 0 || (NoRequest(ops[0]) && NoRequests(ops[1..]))
  }

  /** Facts every reachable state keeps: counts positive, the counter an int64, every ring well formed. */
  ghost predicate Wellformed<S>(h: Hub<S>)
  {
    Positive(h.entrySources) && IsInt64(h.sequence)
    && forall k :: k in h.history ==> CallHistory.Valid(h.history[k])
  }

  /**
   * What any run of operations leaves alone: the body stack is as it was,
   * every recursion count is as it was, callback marks are only removed and
   * signals only added.
   */
  ghost predicate Balanced<S>(h: Hub<S>, h': Hub<S>)
  {
    h'.bodyStack == h.bodyStack
    && (forall k, s :: Count(h'.entrySources, k, s) == Count(h.entrySources, k, s))
    && h'.callbackMarks <= h.callbackMarks
    && h.signals.Keys <= h'.signals.Keys
  }

  /** `GetCurrentMessageBody`: the innermost body being dispatched, or null outside any dispatch. */
  function CurrentMessageBody<S>(h: Hub<S>): (b: Option<Body>)
    ensures b.None? <==> |h.bodyStack| == 0
    ensures b.Some? ==> b.value == h.bodyStack[|h.bodyStack| - 1]
  {
    if |h.bodyStack| > 0 then Some(h.bodyStack[|h.bodyStack| - 1]) else None
  }

  /**
   * `GetSig<true>`: the key's signal, created with `MakeSignals` when absent.
   * `GetSig` is defined in the hub's header, which is not part of this model;
   * Notify, Request and Listen are taken to obtain their signal this way.
   */
  function WithSignal<S>(cfg: Config<S>, h: Hub<S>, key: Name): (h': Hub<S>)
    ensures key in h'.signals
    ensures h'.signals.Keys == h.signals.Keys + {key}
    ensures forall k :: k in h.signals ==> h'.signals[k] == h.signals[k]
    ensures h' == h.(signals := h'.signals)
  {
    if key in h.signals then h else h.(signals := h.signals[key := cfg.store.makeSignals(key)])
  }

  /**
   * The admission test of `RequestMessageImpl`: the responder must be bound,
   * the key must carry a callback mark and the id must not be pending yet.
   * An admitted request adds exactly one pending entry and changes nothing else.
   */
  function Admit<S>(h: Hub<S>, key: Name, onRsp: Responder): (r: Option<Hub<S>>)
    ensures r.Some? <==> onRsp.bound && key in h.callbackMarks && onRsp.id !in h.responses
    ensures r.Some? ==> r.value == h.(responses := r.value.responses)
    ensures r.Some? ==> r.value.responses.Keys == h.responses.Keys + {onRsp.id}
    ensures r.Some? ==> |r.value.responses| == |h.responses| + 1
    ensures r.Some? ==> r.value.responses[onRsp.id].rec == onRsp.rec
    ensures r.Some? ==> forall id :: id in h.responses ==> r.value.responses[id] == h.responses[id]
  {
    if onRsp.bound && key in h.callbackMarks && onRsp.id !in h.responses then
      Some(h.(responses := h.responses[onRsp.id := PendingResponse(onRsp.rec)]))
    else None
  }

  /**
   * The response list a response is checked against: the one given, else the
   * responder's reflected metadata, else (with type names compiled in) the
   * type names of the parameters, else none.
   */
  function ResponseTypes<S>(cfg: Config<S>, rec: Name, params: seq<Param>, singleshot: Option<seq<Name>>): (types: Option<seq<Name>>)
    ensures singleshot.Some? ==> types == singleshot
    ensures types.None? <==> singleshot.None? && cfg.responseMeta(rec).None? && !cfg.withTypeName
    ensures singleshot.None? && cfg.responseMeta(rec).Some? ==> types == cfg.responseMeta(rec)
    ensures singleshot.None? && cfg.responseMeta(rec).None? && cfg.withTypeName ==> types == Some(TypeNamesOf(params))
  {
    if singleshot.Some? then singleshot
    else if cfg.responseMeta(rec).Some? then cfg.responseMeta(rec)
    else if cfg.withTypeName then Some(TypeNamesOf(params))
    else None
  }

  /**
   * The signature check of `ResponseMessageImpl`, made as a call on the
   * responder's message name. With no list to check against, the callback
   * is invoked unchecked.
   */
  function ResponseCheck<S>(cfg: Config<S>, reg: Registry, rec: Name, params: seq<Param>, singleshot: Option<seq<Name>>): (c: Compatibility)
    ensures !cfg.dynamicCallCheck ==> c.ok && c.registry == reg
    ensures cfg.dynamicCallCheck && ResponseTypes(cfg, rec, params, singleshot).None? ==> c.ok && c.registry == reg
    ensures cfg.dynamicCallCheck && ResponseTypes(cfg, rec, params, singleshot).Some? ==>
      c.ok == ProcessTypes(cfg.rf, true, rec, reg.responses, ResponseTypes(cfg, rec, params, singleshot).value).ok
    ensures c.registry.parameters == reg.parameters
  {
    if !cfg.dynamicCallCheck then Compatibility(true, reg, None)
    else
      var types := ResponseTypes(cfg, rec, params, singleshot);
      if types.None? then Compatibility(true, reg, None)
      else IsSingleshotCompatible(cfg.rf, true, rec, types.value, reg)
  }

  /** The history entry of one dispatch, appended to the key's ring (`FindOrAdd`). */
  function Record<S>(cfg: Config<S>, h: Hub<S>, body: Body, reached: seq<Key>): (h': Hub<S>)
    requires Wellformed(h)
    ensures Wellformed(h')
    ensures h' == h.(history := h'.history)
  {
    var ring := if body.key in h.history then h.history[body.key] else CallHistory.EmptyRing;
    h.(history := h.history[body.key := CallHistory.AppendCallInfo(ring, body.source, cfg.render(body), reached)])
  }

  /**
   * Recording gives the key a ring and touches no other key's; a call that
   * reached no one leaves an existing ring alone; otherwise the key's ring
   * lists its previous calls, the oldest dropped once 256 are held, then
   * this one.
   */
  lemma RecordKeepsLastCalls<S>(cfg: Config<S>, h: Hub<S>, body: Body, reached: seq<Key>)
    requires Wellformed(h)
    ensures var h' := Record(cfg, h, body, reached);
      body.key in h'.history && h'.history == h.history[body.key := h'.history[body.key]]
    ensures |reached| == 0 && body.key in h.history ==> Record(cfg, h, body, reached) == h
    ensures |reached| > 0 ==> var cs := if body.key in h.history then CallHistory.Contents(h.history[body.key]) else [];
      CallHistory.Contents(Record(cfg, h, body, reached).history[body.key])
        == (if |cs| < CallHistory.BitLimit then cs else cs[1..]) + [CallHistory.CallInfo(body.source, cfg.render(body), reached)]
  {
    var ring := if body.key in h.history then h.history[body.key] else CallHistory.EmptyRing;
    if |reached| > 0 {
      CallHistory.AppendCallInfoKeepsLastCalls(ring, body.source, cfg.render(body), reached);
    }
  }

  /**
   * The body of a dispatch, shared by `NotifyMessageImpl` and
   * `RequestMessageImpl`: push the body; in the editor, enter the recursion
   * guard, fire, record the call and leave the guard; pop the body. The
   * store takes the state firing left before the handlers' own operations
   * run against it.
   */
  function Dispatch<S>(cfg: Config<S>, h: Hub<S>, body: Body, handlers: seq<Op>): (t: Trace<S>)
    requires Wellformed(h) && body.key in h.signals
    ensures Wellformed(t.hub) && Balanced(h, t.hub)
    ensures NoRequests(handlers) ==> t.hub.responses.Keys <= h.responses.Keys
    ensures |t.events| >= 1 && t.events[0] == Fired(body, cfg.store.fire(h.signals[body.key], body.source, body).1)
    decreases SizeAll(handlers), 2
  {
    var fired := cfg.store.fire(h.signals[body.key], body.source, body);
    var reached := fired.1;
    var pushed := h.(bodyStack := h.bodyStack + [body], signals := h.signals[body.key := fired.0]);
    var entered := if cfg.editor then pushed.(entrySources := Enter(pushed.entrySources, body.key, body.source)) else pushed;
    var inner := RunAll(cfg, entered, handlers);
    var g := inner.hub;
    var left := if cfg.editor then
                  ExitAfterNestedWorkRestores(pushed.entrySources, g.entrySources, body.key, body.source);
                  Record(cfg, g, body, reached).(entrySources := Exit(g.entrySources, body.key, body.source))
                else g;
    var popped := left.(bodyStack := left.bodyStack[..|left.bodyStack| - 1]);
    Trace(popped, [Fired(body, reached)] + inner.events)
  }

  /** `NotifyMessageImpl`: a fresh sequence id, one dispatch, and the id returned. */
  function NotifyImpl<S>(cfg: Config<S>, h: Hub<S>, key: Name, source: Source, params: seq<Param>, handlers: seq<Op>): (s: Step<S>)
    requires Wellformed(h) && key in h.signals
    ensures Wellformed(s.hub) && Balanced(h, s.hub)
    ensures NoRequests(handlers) ==> s.hub.responses.Keys <= h.responses.Keys
    ensures s.result == NextSequenceId(h.sequence).id
    ensures 0 <= h.sequence < Int64Max - 1 ==> s.result > h.sequence && s.result > 0
    ensures |s.events| >= 1 && s.events[0].Fired?
    ensures s.events[0].body == Body(key, source, params, s.result)
    decreases SizeAll(handlers), 3
  {
    var next := NextSequenceId(h.sequence);
    var body := Body(key, source, params, next.id);
    var t := Dispatch(cfg, h.(sequence := next.counter), body, handlers);
    Step(t.hub, t.events, next.id)
  }

  /**
   * `RequestMessageImpl`: a request that is not admitted stores nothing,
   * fires nothing and returns the empty key; an admitted one stores its
   * responder, dispatches and returns the body's sequence id.
   */
  function RequestImpl<S>(cfg: Config<S>, h: Hub<S>, key: Name, source: Source, params: seq<Param>,
                          onRsp: Responder, movedId: Key, handlers: seq<Op>): (s: Step<S>)
    requires Wellformed(h) && key in h.signals
    ensures Wellformed(s.hub) && Balanced(h, s.hub)
    ensures Admit(h, key, onRsp).None? ==> s == Step(h, [], 0)
    ensures Admit(h, key, onRsp).Some? ==>
      && s.result == movedId
      && |s.events| >= 1 && s.events[0].Fired? && s.events[0].body == Body(key, source, params, movedId)
    ensures Admit(h, key, onRsp).Some? && NoRequests(handlers) ==>
      s.hub.responses.Keys <= h.responses.Keys + {onRsp.id}
    decreases SizeAll(handlers), 3
  {
    match Admit(h, key, onRsp)
    case None => Step(h, [], 0)
    case Some(admitted) =>
      var body := Body(key, source, params, movedId);
      var t := Dispatch(cfg, admitted, body, handlers);
      Step(t.hub, t.events, movedId)
  }

  /**
   * `ResponseMessageImpl`: the pending entry is removed first; if the
   * response fails its signature check the callback is not invoked,
   * otherwise it is invoked once with a body named after the responder and
   * carrying the request's sequence id.
   */
  function RespondImpl<S>(cfg: Config<S>, h: Hub<S>, sequenceId: Key, params: seq<Param>,
                          singleshot: Option<seq<Name>>, source: Source, callback: seq<Op>): (s: Step<S>)
    requires Wellformed(h)
    ensures Wellformed(s.hub) && Balanced(h, s.hub) && s.result == 0
    ensures sequenceId !in h.responses ==> s == Step(h, [], 0)
    ensures sequenceId in h.responses ==>
      var rec := h.responses[sequenceId].rec;
      var check := ResponseCheck(cfg, h.registry, rec, params, singleshot);
      && (!check.ok ==> s.events == [] && s.hub.responses == h.responses - {sequenceId})
      && (check.ok ==> |s.events| >= 1 && s.events[0] == CallbackInvoked(Body(rec, source, params, sequenceId)))
    ensures NoRequests(callback) ==> s.hub.responses.Keys <= h.responses.Keys - {sequenceId}
    decreases SizeAll(callback), 3
  {
    if sequenceId !in h.responses then Step(h, [], 0)
    else
      var pending := h.responses[sequenceId];
      var claimed := h.(responses := h.responses - {sequenceId});
      var check := ResponseCheck(cfg, claimed.registry, pending.rec, params, singleshot);
      var checked := claimed.(registry := check.registry);
      if !check.ok then Step(checked, [], 0)
      else
        var t := RunAll(cfg, checked, callback);
        Step(t.hub, [CallbackInvoked(Body(pending.rec, source, params, sequenceId))] + t.events, 0)
  }

  /**
   * `ListenMessageImpl`: creates the key's signal when absent and connects
   * the listener; the connection's key, or 0 when none was made.
   */
  function ListenImpl<S>(cfg: Config<S>, h: Hub<S>, key: Name, source: Source, listener: ObjectRef): (s: Step<S>)
    ensures key in s.hub.signals && s.hub.signals.Keys == h.signals.Keys + {key}
    ensures forall k :: k in h.signals && k != key ==> s.hub.signals[k] == h.signals[k]
    ensures s.hub == h.(signals := s.hub.signals) && s.events == []
  {
    var g := WithSignal(cfg, h, key);
    var connected := cfg.store.connect(g.signals[key], listener, source);
    Step(g.(signals := g.signals[key := connected.0]), [], connected.1)
  }

  /**
   * `UnbindMessageImpl`: nothing happens for a key without a signal;
   * otherwise the key's callback mark is dropped, and the store is told to
   * disconnect unless the id or listener given is empty.
   */
  function UnbindImpl<S>(cfg: Config<S>, h: Hub<S>, key: Name, how: Unlisten): (h': Hub<S>)
    ensures key !in h.signals ==> h' == h
    ensures key in h.signals ==> h'.callbackMarks == h.callbackMarks - {key}
    ensures h'.signals.Keys == h.signals.Keys
    ensures forall k :: k in h.signals && k != key ==> h'.signals[k] == h.signals[k]
    ensures (how.ById? && how.id == 0) || (!how.ById? && how.listener.Null?) ==> h'.signals == h.signals
    ensures h' == h.(signals := h'.signals, callbackMarks := h'.callbackMarks)
  {
    if key !in h.signals then h
    else
      var store := h.signals[key];
      var store' := match how
        case ById(id) => if id != 0 then cfg.store.disconnectId(store, id) else store
        case ByListener(l) => if !l.Null? then cfg.store.disconnectListener(store, l) else store
        case ByListenerSource(l, src) => if !l.Null? then cfg.store.disconnectListenerSource(store, l, src) else store;
      h.(callbackMarks := h.callbackMarks - {key}, signals := h.signals[key := store'])
  }

  /** `IsAlive(MessageKey, Key)`: false without a signal; the empty key asks only whether the signal exists. */
  function IsAlive<S>(cfg: Config<S>, h: Hub<S>, key: Name, id: Key): (alive: bool)
    ensures key !in h.signals ==> !alive
    ensures key in h.signals && id == 0 ==> alive
    ensures key in h.signals && id != 0 ==> (alive <==> cfg.store.isAliveId(h.signals[key], id))
  {
    key in h.signals && (id == 0 || cfg.store.isAliveId(h.signals[key], id))
  }

  /** `IsAlive(MessageKey, Listener, Source)`: a listener that is null or pending kill is never alive. */
  function IsListenerAlive<S>(cfg: Config<S>, h: Hub<S>, key: Name, listener: ObjectRef, source: Source): (alive: bool)
    ensures !listener.Live? || key !in h.signals ==> !alive
    ensures listener.Live? && key in h.signals ==> (alive <==> cfg.store.isAliveListener(h.signals[key], listener, source))
  {
    listener.Live? && key in h.signals && cfg.store.isAliveListener(h.signals[key], listener, source)
  }

  /** The map-load hook: all four signature tables and the pending responses are emptied. */
  function ClearTables<S>(h: Hub<S>): (h': Hub<S>)
    ensures h'.registry == EmptyRegistry && h'.responses == map[]
    ensures h' == h.(registry := EmptyRegistry, responses := map[])
  {
    h.(registry := EmptyRegistry, responses := map[])
  }

  /**
   * One operation. Notify and Request reach the key's signal through
   * `GetSig<true>`. The map-load hook is registered only with the dynamic
   * call check compiled in, the play-session hook only then and in the editor.
   */
  function RunOp<S>(cfg: Config<S>, h: Hub<S>, op: Op): (s: Step<S>)
    requires Wellformed(h)
    ensures Wellformed(s.hub) && Balanced(h, s.hub)
    ensures NoRequest(op) ==> s.hub.responses.Keys <= h.responses.Keys
    decreases Size(op), 0
  {
    match op
    case Notify(key, source, params, handlers) =>
      NotifyImpl(cfg, WithSignal(cfg, h, key), key, source, params, handlers)
    case Request(key, source, params, onRsp, movedId, handlers) =>
      RequestImpl(cfg, WithSignal(cfg, h, key), key, source, params, onRsp, movedId, handlers)
    case Respond(sequenceId, params, singleshot, source, callback) =>
      RespondImpl(cfg, h, sequenceId, params, singleshot, source, callback)
    case Listen(key, source, listener) => ListenImpl(cfg, h, key, source, listener)
    case Unbind(key, how) => Step(UnbindImpl(cfg, h, key, how), [], 0)
    case Observe => Step(h, [Observed(CurrentMessageBody(h))], 0)
    case ClearOnMapLoad => Step(if cfg.dynamicCallCheck then ClearTables(h) else h, [], 0)
    case ClearOnPieBegin => Step(if cfg.dynamicCallCheck && cfg.editor then ClearTables(h).(history := map[]) else h, [], 0)
  }

  /** Operations one after another, each seeing the state the previous one left. */
  function RunAll<S>(cfg: Config<S>, h: Hub<S>, ops: seq<Op>): (t: Trace<S>)
    requires Wellformed(h)
    ensures Wellformed(t.hub) && Balanced(h, t.hub)
    ensures NoRequests(ops) ==> t.hub.responses.Keys <= h.responses.Keys
    decreases SizeAll(ops), 1
  {
    if |ops| == 0 then Trace(h, [])
    else
      var first := RunOp(cfg, h, ops[0]);
      var rest := RunAll(cfg, first.hub, ops[1..]);
      Trace(rest.hub, first.events + rest.events)
  }

  /** The pending entry is gone after a response whose callback issues no request, so a second response with that id does nothing. */
  lemma SecondRespondIsNoop<S>(cfg: Config<S>, h: Hub<S>, id: Key, params: seq<Param>, singleshot: Option<seq<Name>>,
                               source: Source, callback: seq<Op>, again: Op)
    requires Wellformed(h) && NoRequests(callback)
    requires again.Respond? && again.sequenceId == id
    ensures var first := RunOp(cfg, h, Respond(id, params, singleshot, source, callback));
      RunOp(cfg, first.hub, again) == Step(first.hub, [], 0)
  {
    var first := RunOp(cfg, h, Respond(id, params, singleshot, source, callback));
    assert id !in first.hub.responses;
  }

  /** A handler asking for the current body during a notification sees the notified body. */
  lemma HandlerSeesNotifiedBody<S>(cfg: Config<S>, h: Hub<S>, key: Name, source: Source, params: seq<Param>)
    requires Wellformed(h)
    ensures var s := RunOp(cfg, h, Notify(key, source, params, [Observe]));
      var body := Body(key, source, params, s.result);
      |s.events| == 2 && s.events[0].Fired? && s.events[0].body == body && s.events[1] == Observed(Some(body))
  {
    var g := WithSignal(cfg, h, key);
    var next := NextSequenceId(g.sequence);
    var body := Body(key, source, params, next.id);
    var before := g.(sequence := next.counter);
    var fired := cfg.store.fire(before.signals[key], source, body);
    var pushed := before.(bodyStack := before.bodyStack + [body], signals := before.signals[key := fired.0]);
    var entered := if cfg.editor then pushed.(entrySources := Enter(pushed.entrySources, body.key, body.source)) else pushed;
    assert RunOp(cfg, entered, Observe).events == [Observed(Some(body))];
    assert RunAll(cfg, entered, [Observe]).events == [Observed(Some(body))];
  }

  /** Outside any dispatch there is no current body, and a completed run leaves it that way. */
  lemma NoCurrentBodyAfterRun<S>(cfg: Config<S>, h: Hub<S>, ops: seq<Op>)
    requires Wellformed(h) && |h.bodyStack| == 0
    ensures CurrentMessageBody(RunAll(cfg, h, ops).hub).None?
  {
  }

  /** Unbinding a key that has a signal drops its callback mark, so requests on it are refused afterwards. */
  lemma UnbindRefusesLaterRequests<S>(cfg: Config<S>, h: Hub<S>, key: Name, how: Unlisten, onRsp: Responder)
    requires key in h.signals
    ensures Admit(UnbindImpl(cfg, h, key, how), key, onRsp).None?
  {
  }

  /** A key whose signal exists stays alive for the empty id whatever runs: signals are never removed. */
  lemma SignalOutlivesOperations<S>(cfg: Config<S>, h: Hub<S>, key: Name, op: Op)
    requires Wellformed(h) && IsAlive(cfg, h, key, 0)
    ensures IsAlive(cfg, RunOp(cfg, h, op).hub, key, 0)
  {
  }

  /** After listening on a key, the key is alive for the empty id. */
  lemma ListenMakesKeyAlive<S>(cfg: Config<S>, h: Hub<S>, key: Name, source: Source, listener: ObjectRef)
    requires Wellformed(h)
    ensures IsAlive(cfg, RunOp(cfg, h, Listen(key, source, listener)).hub, key, 0)
  {
  }

  /**
   * With the dynamic call check compiled in, no response is pending after a
   * map load, so any response is ignored; without it the hook does not exist
   * and a map load changes nothing.
   */
  lemma ResponseAfterMapLoadIsIgnored<S>(cfg: Config<S>, h: Hub<S>, respond: Op)
    requires Wellformed(h) && respond.Respond?
    ensures cfg.dynamicCallCheck ==>
      var cleared := RunOp(cfg, h, ClearOnMapLoad).hub;
      RunOp(cfg, cleared, respond) == Step(cleared, [], 0)
    ensures !cfg.dynamicCallCheck ==> RunOp(cfg, h, ClearOnMapLoad) == Step(h, [], 0)
  {
  }

  /** After the tables are emptied, every registration of a list is accepted. */
  lemma RegistrationAfterMapLoadAccepted<S>(cfg: Config<S>, h: Hub<S>, bCall: bool, key: Name, types: seq<Name>)
    requires Wellformed(h) && cfg.dynamicCallCheck
    ensures var cleared := RunOp(cfg, h, ClearOnMapLoad).hub;
      IsSignatureCompatible(cfg.rf, bCall, key, types, cleared.registry).ok
      && IsSingleshotCompatible(cfg.rf, bCall, key, types, cleared.registry).ok
  {
    FreshTablesAcceptAnyList(cfg.rf, bCall, key, types);
  }

  /**
   * Unbinding touches only its own key; and with an empty id or a null
   * listener it leaves that key's liveness answers alone as well.
   */
  lemma UnbindLeavesOtherKeysAlone<S>(cfg: Config<S>, h: Hub<S>, key: Name, how: Unlisten,
                                      other: Name, id: Key, listener: ObjectRef, source: Source)
    requires other != key || (how.ById? && how.id == 0) || (!how.ById? && how.listener.Null?)
    ensures var h' := UnbindImpl(cfg, h, key, how);
      IsAlive(cfg, h', other, id) == IsAlive(cfg, h, other, id)
      && IsListenerAlive(cfg, h', other, listener, source) == IsListenerAlive(cfg, h, other, listener, source)
  {
  }

  /** A dispatch whose handlers do nothing fires once and leaves the pending table alone. */
  lemma DispatchWithoutHandlers<S>(cfg: Config<S>, h: Hub<S>, body: Body)
    requires Wellformed(h) && body.key in h.signals
    ensures var t := Dispatch(cfg, h, body, []);
      var fired := cfg.store.fire(h.signals[body.key], body.source, body);
      t.events == [Fired(body, fired.1)]
      && t.hub.responses == h.responses && t.hub.registry == h.registry
      && t.hub.signals == h.signals[body.key := fired.0]
  {
    var fired := cfg.store.fire(h.signals[body.key], body.source, body);
    var pushed := h.(bodyStack := h.bodyStack + [body], signals := h.signals[body.key := fired.0]);
    var entered := if cfg.editor then pushed.(entrySources := Enter(pushed.entrySources, body.key, body.source)) else pushed;
    assert RunAll(cfg, entered, []) == Trace(entered, []);
  }

  /**
   * A response to a pending id removes the entry and invokes its callback
   * once exactly when the response passes its signature check.
   */
  lemma ResponseWithoutCallbackOps<S>(cfg: Config<S>, h: Hub<S>, id: Key, params: seq<Param>, source: Source)
    requires Wellformed(h) && id in h.responses
    ensures var s := RespondImpl(cfg, h, id, params, None, source, []);
      var rec := h.responses[id].rec;
      s.events == (if ResponseCheck(cfg, h.registry, rec, params, None).ok then [CallbackInvoked(Body(rec, source, params, id))] else [])
      && s.hub.responses == h.responses - {id}
  {
    var claimed := h.(responses := h.responses - {id});
    assert RunAll(cfg, claimed, []) == Trace(claimed, []);
  }

  /** An admitted request whose handlers do nothing fires once and leaves exactly its own entry pending. */
  lemma AdmittedRequestWithoutHandlers<S>(cfg: Config<S>, h: Hub<S>, key: Name, source: Source, params: seq<Param>,
                                          onRsp: Responder, movedId: Key)
    requires Wellformed(h)
    requires onRsp.bound && key in h.callbackMarks && onRsp.id !in h.responses
    ensures var s := RunOp(cfg, h, Request(key, source, params, onRsp, movedId, []));
      |s.events| == 1 && s.events[0].Fired? && s.events[0].body == Body(key, source, params, movedId)
      && s.hub.responses == h.responses[onRsp.id := PendingResponse(onRsp.rec)]
      && s.hub.registry == h.registry
  {
    var g := WithSignal(cfg, h, key);
    AdmittedRequestImpl(cfg, g, key, source, params, onRsp, movedId);
    assert RunOp(cfg, h, Request(key, source, params, onRsp, movedId, []))
        == RequestImpl(cfg, g, key, source, params, onRsp, movedId, []);
  }

  /** `AdmittedRequestWithoutHandlers` once the key's signal exists. */
  lemma AdmittedRequestImpl<S>(cfg: Config<S>, g: Hub<S>, key: Name, source: Source, params: seq<Param>,
                               onRsp: Responder, movedId: Key)
    requires Wellformed(g) && key in g.signals
    requires onRsp.bound && key in g.callbackMarks && onRsp.id !in g.responses
    ensures var s := RequestImpl(cfg, g, key, source, params, onRsp, movedId, []);
      |s.events| == 1 && s.events[0].Fired? && s.events[0].body == Body(key, source, params, movedId)
      && s.hub.responses == g.responses[onRsp.id := PendingResponse(onRsp.rec)]
      && s.hub.registry == g.registry
  {
    var admitted := Admit(g, key, onRsp).value;
    DispatchWithoutHandlers(cfg, admitted, Body(key, source, params, movedId));
  }

  /** Running two operations is running the first, then the second on the state it left. */
  lemma RunTwo<S>(cfg: Config<S>, h: Hub<S>, a: Op, b: Op)
    requires Wellformed(h)
    ensures var first := RunOp(cfg, h, a);
      var second := RunOp(cfg, first.hub, b);
      RunAll(cfg, h, [a, b]) == Trace(second.hub, first.events + second.events)
  {
    var first := RunOp(cfg, h, a);
    var second := RunOp(cfg, first.hub, b);
    assert [a, b][1..] == [b];
    assert [b][1..] == [];
    assert RunAll(cfg, second.hub, []) == Trace(second.hub, []);
    assert RunAll(cfg, first.hub, [b]) == Trace(second.hub, second.events);
  }

  /** The request and the response of `RequestThenRespondInvokesOnce`, taken one step at a time. */
  lemma RequestThenRespondSteps<S>(cfg: Config<S>, h: Hub<S>, key: Name, source: Source, params: seq<Param>,
                                   onRsp: Responder, movedId: Key, rspParams: seq<Param>, rspSource: Source)
    requires Wellformed(h)
    requires onRsp.bound && key in h.callbackMarks && onRsp.id !in h.responses
    ensures var first := RunOp(cfg, h, Request(key, source, params, onRsp, movedId, []));
      var second := RespondImpl(cfg, first.hub, onRsp.id, rspParams, None, rspSource, []);
      var ok := ResponseCheck(cfg, h.registry, onRsp.rec, rspParams, None).ok;
      |first.events| == 1 && first.events[0].Fired? && first.events[0].body == Body(key, source, params, movedId)
      && second.events == (if ok then [CallbackInvoked(Body(onRsp.rec, rspSource, rspParams, onRsp.id))] else [])
      && second.hub.responses == h.responses
  {
    AdmittedRequestWithoutHandlers(cfg, h, key, source, params, onRsp, movedId);
    var first := RunOp(cfg, h, Request(key, source, params, onRsp, movedId, []));
    ResponseToFreshEntry(cfg, h.responses, first.hub, onRsp, rspParams, rspSource);
  }

  /** A response to the one entry a request added restores the pending table, invoking the callback iff the check passes. */
  lemma ResponseToFreshEntry<S>(cfg: Config<S>, before: map<Key, PendingResponse>, g: Hub<S>, onRsp: Responder,
                                rspParams: seq<Param>, rspSource: Source)
    requires Wellformed(g)
    requires onRsp.id !in before && g.responses == before[onRsp.id := PendingResponse(onRsp.rec)]
    ensures var s := RespondImpl(cfg, g, onRsp.id, rspParams, None, rspSource, []);
      var ok := ResponseCheck(cfg, g.registry, onRsp.rec, rspParams, None).ok;
      s.events == (if ok then [CallbackInvoked(Body(onRsp.rec, rspSource, rspParams, onRsp.id))] else [])
      && s.hub.responses == before
  {
    ResponseWithoutCallbackOps(cfg, g, onRsp.id, rspParams, rspSource);
    assert before[onRsp.id := PendingResponse(onRsp.rec)] - {onRsp.id} == before;
  }

  /**
   * An admitted request answered by a response of the same id invokes the
   * callback once if the response passes its signature check and not at all
   * otherwise, with a body named after the responder that carries the
   * request's id; either way the pending table is back to what it was.
   * Without the dynamic call check the callback always runs.
   */
  lemma RequestThenRespondInvokesOnce<S>(cfg: Config<S>, h: Hub<S>, key: Name, source: Source, params: seq<Param>,
                                         onRsp: Responder, movedId: Key, rspParams: seq<Param>, rspSource: Source)
    requires Wellformed(h)
    requires onRsp.bound && key in h.callbackMarks && onRsp.id !in h.responses
    ensures var t := RunAll(cfg, h, [Request(key, source, params, onRsp, movedId, []),
                                      Respond(onRsp.id, rspParams, None, rspSource, [])]);
      var ok := ResponseCheck(cfg, h.registry, onRsp.rec, rspParams, None).ok;
      |t.events| >= 1 && t.events[0].Fired? && t.events[0].body == Body(key, source, params, movedId)
      && t.events[1..] == (if ok then [CallbackInvoked(Body(onRsp.rec, rspSource, rspParams, onRsp.id))] else [])
      && t.hub.responses == h.responses
    ensures !cfg.dynamicCallCheck ==> ResponseCheck(cfg, h.registry, onRsp.rec, rspParams, None).ok
  {
    var a := Request(key, source, params, onRsp, movedId, []);
    var b := Respond(onRsp.id, rspParams, None, rspSource, []);
    RunTwo(cfg, h, a, b);
    RequestThenRespondSteps(cfg, h, key, source, params, onRsp, movedId, rspParams, rspSource);
    var first := RunOp(cfg, h, a);
    assert RunOp(cfg, first.hub, b) == RespondImpl(cfg, first.hub, onRsp.id, rspParams, None, rspSource, []);
  }
}
