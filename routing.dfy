/** The request dispatcher `RoutingService::call`. Its collaborators are inputs
    (`Env`): what `Auth::requireAdmin` does, the `accept` header values of the
    request built from the globals, the existing controller classes with their
    constructor parameters, the container, what the controller returns when
    invoked, and the session messages. A call is modelled as the trace of its
    effects followed by how it ends. */
module Routing {
  import opened Types
  import opened Resolver
  import opened ErrorHandling

  const SessionMessagesService: ClassName := "SimpleSAML\\Modules\\OpenIDConnect\\Services\\SessionMessagesService"
  const MessagesKey: string := "messages"

  /** A template variable: the session messages, or any other value. */
  datatype Value = Messages(items: seq<string>) | Datum(id: nat)

  /** The object a controller returns: its class (what `get_class` reports),
      its template data when it is a Template, and the response it is when it
      implements ResponseInterface. Either, both or neither may be present. */
  datatype ControllerResponse = ControllerResponse(
    className: ClassName,
    template: Option<map<string, Value>>,
    psr: Option<HttpResponse>)

  /** What invoking the constructed controller does. */
  datatype Invocation = Returned(response: ControllerResponse) | Raised(error: Throwable)

  /** What `Auth::requireAdmin` does: let the request through, or throw. */
  datatype Gate = Admitted | Rejected(error: Throwable)

  datatype Env = Env(
    gate: Gate,
    accept: seq<string>,
    classes: map<ClassName, seq<ClassName>>,
    container: map<ClassName, Service>,
    invoke: Controller -> Invocation,
    sessionMessages: seq<string>)

  /** The effects a call has on the outside world, in order. */
  datatype Effect =
    | AuthChecked
    | JsonHandlerInstalled
    | Rendered(data: map<string, Value>)
    | Emitted(response: HttpResponse)

  datatype End = Normal | Threw(error: Throwable)

  /** How a call of `RoutingService::call` went: its effects, then a normal
      return or the throwable it lets escape. */
  datatype Outcome = Outcome(trace: seq<Effect>, end: End)

  predicate IsOutput(e: Effect)
  {
    e.Rendered? || e.Emitted?
  }

  /** The effects of a trace that produce output, in order. */
  function Outputs(trace: seq<Effect>): (r: seq<Effect>)
    ensures |r| <= |trace|
    ensures forall e :: e in r <==> e in trace && IsOutput(e)
  {
    if trace == [] then []
    else (if IsOutput(trace[0]) then [trace[0]] else []) + Outputs(trace[1..])
  }

  lemma {:induction false} OutputsAppend(a: seq<Effect>, b: seq<Effect>)
    ensures Outputs(a + b) == Outputs(a) + Outputs(b)
  {
    if a == [] {
      assert a + b == b;
    } else {
      assert (a + b)[1..] == a[1..] + b;
      OutputsAppend(a[1..], b);
    }
  }

  /** The template data after line 56 overwrote its "messages" entry. */
  function WithMessages(data: map<string, Value>, messages: seq<string>): (r: map<string, Value>)
    ensures MessagesKey in r && r[MessagesKey] == Messages(messages)
    ensures r.Keys == data.Keys + {MessagesKey}
    ensures forall k :: k in data && k != MessagesKey ==> r[k] == data[k]
  {
    data[MessagesKey := Messages(messages)]
  }

  /** The exception of line 67. */
  function Unsupported(resp: ControllerResponse): Throwable
  {
    Throwable(SspError, "Response type not supported: " + resp.className)
  }

  /** The container's failure when line 56 asks it for the session-messages
      service it does not have. */
  function NoMessagesService(): Throwable
  {
    Throwable(NotFound, SessionMessagesService)
  }

  /** Whether the gate, when it runs, lets the request through. */
  predicate PassesGate(authenticated: bool, env: Env)
  {
    !authenticated || env.gate.Admitted?
  }

  /** The effects of lines 39-48 for a request that passes the gate. */
  function Negotiated(authenticated: bool, env: Env): (r: seq<Effect>)
    ensures authenticated <==> 0 < |r| && r[0] == AuthChecked
  {
    (if authenticated then [AuthChecked] else [])
    + (if AcceptsJson(env.accept) then [JsonHandlerInstalled] else [])
  }

  /** Lines 39-48 run the gate only when asked, install the handler exactly
      when JSON is accepted, last, and produce no output. */
  lemma NegotiatedEffects(authenticated: bool, env: Env)
    ensures var r := Negotiated(authenticated, env);
      && (AuthChecked in r <==> authenticated)
      && (JsonHandlerInstalled in r <==> AcceptsJson(env.accept))
      && (AcceptsJson(env.accept) ==> r[|r| - 1] == JsonHandlerInstalled)
      && (forall e :: e in r ==> !IsOutput(e))
  {
  }

  /** Where the call stands after line 53: stopped by a throwable, or holding
      the controller's result. */
  datatype Stage = Stopped(outcome: Outcome) | Invoked(trace: seq<Effect>, response: ControllerResponse)

  /** Lines 39-53: gate, negotiation, resolution, invocation. */
  function Prepare(name: ClassName, authenticated: bool, env: Env): (s: Stage)
    ensures s.Invoked? ==> PassesGate(authenticated, env) && s.trace == Negotiated(authenticated, env)
    ensures s.Stopped? ==> s.outcome.end.Threw?
  {
    if !PassesGate(authenticated, env) then Stopped(Outcome([AuthChecked], Threw(env.gate.error)))
    else
      var trace := Negotiated(authenticated, env);
      match Resolve(name, env.classes, env.container)
      case Err(e) => Stopped(Outcome(trace, Threw(e)))
      case Ok(controller) =>
        match env.invoke(controller)
        case Raised(e) => Stopped(Outcome(trace, Threw(e)))
        case Returned(resp) => Invoked(trace, resp)
  }

  /** Line 58: the shown template, with its messages overwritten; nothing
      for a result that is not a Template. */
  function Shown(resp: ControllerResponse, env: Env): (r: seq<Effect>)
    ensures forall e :: e in r ==> IsOutput(e)
  {
    if resp.template.Some? then [Rendered(WithMessages(resp.template.value, env.sessionMessages))] else []
  }

  /** Line 64: the emitted response; nothing for a result that is not a
      ResponseInterface. */
  function EmittedAsIs(resp: ControllerResponse): (r: seq<Effect>)
    ensures forall e :: e in r ==> IsOutput(e)
  {
    if resp.psr.Some? then [Emitted(resp.psr.value)] else []
  }

  /** Lines 55-67 as written: render a Template, emit a ResponseInterface,
      and then throw in every case, since neither branch returns. */
  function Respond(trace: seq<Effect>, resp: ControllerResponse, env: Env): (o: Outcome)
    ensures trace <= o.trace
    ensures forall i :: |trace| <= i < |o.trace| ==> IsOutput(o.trace[i])
    ensures o.end.Threw?
  {
    if resp.template.Some? && SessionMessagesService !in env.container then
      Outcome(trace, Threw(NoMessagesService()))
    else
      Outcome(trace + Shown(resp, env) + EmittedAsIs(resp), Threw(Unsupported(resp)))
  }

  /** `RoutingService::call(name, authenticated)` as written. */
  function Dispatch(name: ClassName, authenticated: bool, env: Env): (o: Outcome)
    ensures o.end.Threw?
  {
    match Prepare(name, authenticated, env)
    case Stopped(o) => o
    case Invoked(trace, resp) => Respond(trace, resp, env)
  }

  /** Lines 55-67 with a return after `show()` and after `emit()`. */
  function RespondIntended(trace: seq<Effect>, resp: ControllerResponse, env: Env): (o: Outcome)
    ensures trace <= o.trace
    ensures o.end.Normal? <==>
      (resp.template.Some? && SessionMessagesService in env.container) || (resp.template.None? && resp.psr.Some?)
  {
    if resp.template.Some? then
      if SessionMessagesService !in env.container then Outcome(trace, Threw(NoMessagesService()))
      else Outcome(trace + [Rendered(WithMessages(resp.template.value, env.sessionMessages))], Normal)
    else if resp.psr.Some? then Outcome(trace + [Emitted(resp.psr.value)], Normal)
    else Outcome(trace, Threw(Unsupported(resp)))
  }

  /** `RoutingService::call` as evidently intended. */
  function DispatchIntended(name: ClassName, authenticated: bool, env: Env): (o: Outcome)
    ensures var s := Prepare(name, authenticated, env);
      && (s.Stopped? ==> o == s.outcome)
      && (o.end.Normal? <==>
            s.Invoked?
            && ((s.response.template.Some? && SessionMessagesService in env.container)
                || (s.response.template.None? && s.response.psr.Some?)))
  {
    match Prepare(name, authenticated, env)
    case Stopped(o) => o
    case Invoked(trace, resp) => RespondIntended(trace, resp, env)
  }

  /** `RoutingService::call`, step by step. */
  method Call(name: ClassName, authenticated: bool, env: Env) returns (o: Outcome)
    ensures o == Dispatch(name, authenticated, env)
  {
    var trace: seq<Effect> := [];
    ghost var json := AcceptsJson(env.accept);
    if authenticated {
      trace := trace + [AuthChecked];
      if env.gate.Rejected? {
        return Outcome(trace, Threw(env.gate.error));
      }
    }
    if env.accept != [] && ArraySearch(JsonMediaType, env.accept).Some? {
      trace := trace + [JsonHandlerInstalled];
    }
    assert trace == (if authenticated then [AuthChecked] else []) + (if json then [JsonHandlerInstalled] else []);
    assert PassesGate(authenticated, env) && trace == Negotiated(authenticated, env);
    var controller, _ := GetController(name, env.classes, env.container);
    if controller.Err? {
      return Outcome(trace, Threw(controller.error));
    }
    var invocation := env.invoke(controller.value);
    if invocation.Raised? {
      return Outcome(trace, Threw(invocation.error));
    }
    var response := invocation.response;
    assert Prepare(name, authenticated, env) == Invoked(trace, response);
    if response.template.Some? {
      if SessionMessagesService !in env.container {
        return Outcome(trace, Threw(NoMessagesService()));
      }
      var data := WithMessages(response.template.value, env.sessionMessages);
      trace := trace + [Rendered(data)];
    }
    if response.psr.Some? {
      trace := trace + [Emitted(response.psr.value)];
    }
    return Outcome(trace, Threw(Unsupported(response)));
  }

  /** The request after PHP has dealt with what the call let escape: the
      installed JSON handler, when present, emits a response for it; otherwise
      it is left to the default handling. */
  datatype Process = Process(trace: seq<Effect>, uncaught: Option<Throwable>)

  function Settle(o: Outcome): (p: Process)
    ensures o.trace <= p.trace && |p.trace| <= |o.trace| + 1
    ensures p.uncaught.Some? <==> o.end.Threw? && JsonHandlerInstalled !in o.trace
    ensures p.uncaught.Some? ==> p.uncaught.value == o.end.error
    ensures |p.trace| == |o.trace| + 1 <==> o.end.Threw? && JsonHandlerInstalled in o.trace
    ensures |p.trace| == |o.trace| + 1 ==> p.trace[|o.trace|] == Emitted(ExceptionResponse(o.end.error))
  {
    match o.end
    case Normal => Process(o.trace, None)
    case Threw(e) =>
      if JsonHandlerInstalled in o.trace then Process(o.trace + [Emitted(ExceptionResponse(e))], None)
      else Process(o.trace, Some(e))
  }

  // ---------------------------------------------------------------------------
  // Properties of a call

  /** The call reaches line 55 with `resp`. */
  predicate ReturnsResponse(name: ClassName, authenticated: bool, env: Env, resp: ControllerResponse)
  {
    && PassesGate(authenticated, env)
    && Resolve(name, env.classes, env.container).Ok?
    && env.invoke(Resolve(name, env.classes, env.container).value) == Returned(resp)
  }

  lemma NegotiatedHasNoOutput(authenticated: bool, env: Env)
    ensures Outputs(Negotiated(authenticated, env)) == []
  {
  }

  lemma {:induction false} OutputsOfOutputs(s: seq<Effect>)
    requires forall e :: e in s ==> IsOutput(e)
    ensures Outputs(s) == s
  {
    if s != [] {
      assert s[0] in s;
      assert forall e :: e in s[1..] ==> e in s;
      OutputsOfOutputs(s[1..]);
    }
  }

  /** The gate runs first, and only when `authenticated`; a rejection ends
      the call before negotiation and resolution. */
  lemma GateRunsFirst(name: ClassName, authenticated: bool, env: Env)
    ensures var o := Dispatch(name, authenticated, env);
      && (authenticated ==> 0 < |o.trace| && o.trace[0] == AuthChecked && AuthChecked !in o.trace[1..])
      && (!authenticated ==> AuthChecked !in o.trace)
      && (authenticated && env.gate.Rejected? ==> o == Outcome([AuthChecked], Threw(env.gate.error)))
  {
    var o := Dispatch(name, authenticated, env);
    var n := Negotiated(authenticated, env);
    if PassesGate(authenticated, env) {
      assert n <= o.trace;
      forall i | (if authenticated then 1 else 0) <= i < |o.trace|
        ensures o.trace[i] != AuthChecked
      {
        if i >= |n| {
          assert IsOutput(o.trace[i]);
        } else {
          assert o.trace[i] == n[i];
        }
      }
    }
  }

  /** The JSON handler is installed exactly when the request passes the gate
      and some `accept` value is exactly "application/json". */
  lemma JsonHandlerIffAccepted(name: ClassName, authenticated: bool, env: Env)
    ensures JsonHandlerInstalled in Dispatch(name, authenticated, env).trace
        <==> PassesGate(authenticated, env)
             && exists i :: 0 <= i < |env.accept| && env.accept[i] == JsonMediaType
  {
    var o := Dispatch(name, authenticated, env);
    var n := Negotiated(authenticated, env);
    NegotiatedEffects(authenticated, env);
    if PassesGate(authenticated, env) {
      assert n <= o.trace;
      forall i | |n| <= i < |o.trace|
        ensures o.trace[i] != JsonHandlerInstalled
      {
        assert Prepare(name, authenticated, env).Invoked?;
        assert IsOutput(o.trace[i]);
      }
      if JsonHandlerInstalled in o.trace {
        var i :| 0 <= i < |o.trace| && o.trace[i] == JsonHandlerInstalled;
        assert n[i] in n;
      }
      if AcceptsJson(env.accept) {
        assert o.trace[|n| - 1] == JsonHandlerInstalled;
      }
    }
  }

  /** An unknown controller, a missing service or a throwing controller ends
      the call with that throwable, after negotiation and before any output. */
  lemma FailureBeforeResultPropagates(name: ClassName, authenticated: bool, env: Env, e: Throwable)
    requires PassesGate(authenticated, env)
    requires Resolve(name, env.classes, env.container) == Err(e)
          || (Resolve(name, env.classes, env.container).Ok?
              && env.invoke(Resolve(name, env.classes, env.container).value) == Raised(e))
    ensures Dispatch(name, authenticated, env) == Outcome(Negotiated(authenticated, env), Threw(e))
    ensures Outputs(Dispatch(name, authenticated, env).trace) == []
  {
    NegotiatedHasNoOutput(authenticated, env);
  }

  /** A result that is a Template, a ResponseInterface or both: the template
      is shown with the session messages, the response is emitted unchanged,
      and then line 67 throws anyway. */
  lemma SupportedResultOutputsThenThrows(name: ClassName, authenticated: bool, env: Env, resp: ControllerResponse)
    requires ReturnsResponse(name, authenticated, env, resp)
    requires resp.template.None? || SessionMessagesService in env.container
    ensures var o := Dispatch(name, authenticated, env);
      && Outputs(o.trace)
         == (if resp.template.Some? then [Rendered(WithMessages(resp.template.value, env.sessionMessages))] else [])
          + (if resp.psr.Some? then [Emitted(resp.psr.value)] else [])
      && o.end == Threw(Unsupported(resp))
  {
    var n := Negotiated(authenticated, env);
    assert Prepare(name, authenticated, env) == Invoked(n, resp);
    RespondOutputs(n, resp, env);
    NegotiatedHasNoOutput(authenticated, env);
  }

  lemma RespondOutputs(trace: seq<Effect>, resp: ControllerResponse, env: Env)
    requires resp.template.None? || SessionMessagesService in env.container
    ensures Outputs(Respond(trace, resp, env).trace) == Outputs(trace) + Shown(resp, env) + EmittedAsIs(resp)
  {
    OutputsAppend(trace + Shown(resp, env), EmittedAsIs(resp));
    OutputsAppend(trace, Shown(resp, env));
    OutputsOfOutputs(Shown(resp, env));
    OutputsOfOutputs(EmittedAsIs(resp));
  }

  /** A Template whose messages cannot be fetched: the container's failure
      escapes before anything is shown. */
  lemma TemplateWithoutMessagesServiceFails(name: ClassName, authenticated: bool, env: Env, resp: ControllerResponse)
    requires ReturnsResponse(name, authenticated, env, resp)
    requires resp.template.Some? && SessionMessagesService !in env.container
    ensures Dispatch(name, authenticated, env) == Outcome(Negotiated(authenticated, env), Threw(NoMessagesService()))
    ensures Outputs(Dispatch(name, authenticated, env).trace) == []
  {
    NegotiatedHasNoOutput(authenticated, env);
  }

  /** A result that is neither a Template nor a ResponseInterface is neither
      shown nor emitted, and the call throws naming its class. */
  lemma UnsupportedResultHasNoOutput(name: ClassName, authenticated: bool, env: Env, resp: ControllerResponse)
    requires ReturnsResponse(name, authenticated, env, resp)
    requires resp.template.None? && resp.psr.None?
    ensures Dispatch(name, authenticated, env)
         == Outcome(Negotiated(authenticated, env), Threw(Throwable(SspError, "Response type not supported: " + resp.className)))
    ensures Outputs(Dispatch(name, authenticated, env).trace) == []
  {
    NegotiatedHasNoOutput(authenticated, env);
  }

  /** Once the JSON handler is installed it answers whatever escapes the
      call; an OAuth server exception with its own response, anything else
      with a 500 error document carrying the message. */
  lemma JsonHandlerAnswersEscapes(name: ClassName, authenticated: bool, env: Env)
    requires PassesGate(authenticated, env) && AcceptsJson(env.accept)
    ensures var o := Dispatch(name, authenticated, env);
      && Settle(o).uncaught.None?
      && Settle(o).trace == o.trace + [Emitted(ExceptionResponse(o.end.error))]
  {
    var o := Dispatch(name, authenticated, env);
    var n := Negotiated(authenticated, env);
    assert n <= o.trace;
    assert o.trace[|n| - 1] == JsonHandlerInstalled;
  }

  /** Without the JSON handler, what escapes is left to the default handling
      and nothing more is emitted; this includes a gate rejection. */
  lemma NoJsonHandlerLeavesEscapes(name: ClassName, authenticated: bool, env: Env)
    requires !PassesGate(authenticated, env) || !AcceptsJson(env.accept)
    ensures var o := Dispatch(name, authenticated, env);
      Settle(o) == Process(o.trace, Some(o.end.error))
  {
    JsonHandlerIffAccepted(name, authenticated, env);
  }

  // ---------------------------------------------------------------------------
  // The missing returns after show() and emit()

  /** As written, a controller that returns a response on a request accepting
      JSON gets two responses emitted: its own, then the handler's 500 for the
      exception of line 67. */
  lemma ResponseEmittedTwice(name: ClassName, authenticated: bool, env: Env, h: HttpResponse, cls: ClassName)
    requires ReturnsResponse(name, authenticated, env, ControllerResponse(cls, None, Some(h)))
    requires AcceptsJson(env.accept)
    ensures var p := Settle(Dispatch(name, authenticated, env));
      && Outputs(p.trace) == [Emitted(h), Emitted(ExceptionResponse(Unsupported(ControllerResponse(cls, None, Some(h)))))]
      && ExceptionResponse(Unsupported(ControllerResponse(cls, None, Some(h)))).status == 500
  {
    var resp := ControllerResponse(cls, None, Some(h));
    var o := Dispatch(name, authenticated, env);
    SupportedResultOutputsThenThrows(name, authenticated, env, resp);
    JsonHandlerAnswersEscapes(name, authenticated, env);
    var x := Emitted(ExceptionResponse(o.end.error));
    OutputsAppend(o.trace, [x]);
    OutputsOfOutputs([x]);
  }

  /** With the returns in place, a supported result is output once and the
      call returns normally, so nothing further is emitted. */
  lemma IntendedOutputsOnce(name: ClassName, authenticated: bool, env: Env, resp: ControllerResponse)
    requires ReturnsResponse(name, authenticated, env, resp)
    requires resp.template.Some? || resp.psr.Some?
    requires resp.template.None? || SessionMessagesService in env.container
    ensures var o := DispatchIntended(name, authenticated, env);
      && o.end == Normal
      && Settle(o).trace == o.trace
      && Outputs(o.trace)
         == if resp.template.Some? then [Rendered(WithMessages(resp.template.value, env.sessionMessages))]
            else [Emitted(resp.psr.value)]
  {
    var n := Negotiated(authenticated, env);
    var x := if resp.template.Some? then Rendered(WithMessages(resp.template.value, env.sessionMessages))
             else Emitted(resp.psr.value);
    assert DispatchIntended(name, authenticated, env).trace == n + [x];
    OutputsAppend(n, [x]);
    NegotiatedHasNoOutput(authenticated, env);
    OutputsOfOutputs([x]);
  }

  /** The correction changes nothing else: every call that does not reach
      line 55 with a supported result behaves as before. */
  lemma IntendedAgreesElsewhere(name: ClassName, authenticated: bool, env: Env)
    requires forall resp :: ReturnsResponse(name, authenticated, env, resp)
               ==> resp.template.None? && resp.psr.None?
    ensures DispatchIntended(name, authenticated, env) == Dispatch(name, authenticated, env)
  {
    match Prepare(name, authenticated, env)
    case Stopped(o) =>
    case Invoked(trace, resp) =>
      assert ReturnsResponse(name, authenticated, env, resp);
  }
}
