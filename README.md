# Routing service of the OpenID Connect module, in Dafny

This project models `RoutingService`, the request dispatcher of the
SimpleSAMLphp OpenID Connect module. A request for a controller class goes
through these steps:

1. When `authenticated` is set, the admin gate (`Auth::requireAdmin`) runs.
2. When some value of the `accept` header is exactly `application/json`, a
   JSON exception handler is installed.
3. The controller's constructor dependencies are resolved from the container,
   in declared order, and the controller is constructed.
4. The controller is invoked.
5. Its result is handled: a `Template` is shown with the session messages,
   and a PSR-7 `ResponseInterface` is emitted. Either way, line 67 then
   throws `Response type not supported: <class>`.

The collaborators are inputs of the model, gathered in `Routing.Env`:

- what the gate does (`Gate`);
- the `accept` header values;
- the existing controller classes, each with the class names of its
  constructor parameters (this replaces reflection);
- the container, as a finite map from class name to service;
- what the controller returns when invoked;
- the session messages.

A call is modelled as a trace of effects (`AuthChecked`,
`JsonHandlerInstalled`, `Rendered`, `Emitted`) followed by its end: a normal
return or the throwable it lets escape. `Settle` adds what PHP does with an
escaped throwable: the installed JSON handler, if there is one, emits a
response for it.

Files:

- `types.dfy` holds class names, services, controllers, PSR-7 responses,
  JSON documents and throwables.
- `resolver.dfy` holds `getController`: a specification function `Resolve` and
  the loop `GetController` that is proved equal to it.
- `error_handler.dfy` holds the negotiation test (`ArraySearch`,
  `AcceptsJson`) and the handler's choice of response (`ExceptionResponse`).
- `routing.dfy` holds `call`: a specification function `Dispatch`, the
  step-by-step method `Call` that is proved equal to it, and the lemmas about
  a call.

Three behaviours of the code are easy to misread. The model keeps them as
written:

- There is no `return` after `show()` or `emit()`, so line 67 throws after
  every output, and the emitter can be called a second time within one
  request. See Findings.
- The `accept` test is not a substring match and does not parse media types.
  It is a strict `array_search` over the header's values, so an element must
  equal `application/json` exactly.
- No exception handler is installed unless JSON was negotiated. That also
  applies to OAuth server exceptions: their own response is used only once
  the handler is installed.

## Model

| member | source | states |
|---|---|---|
| Resolver.FirstMissing | lib/Services/RoutingService.php:85-90 | The position of the first constructor-parameter class the container lacks: every earlier one is present and that one is absent, or it is the parameter count when all are present |
| Resolver.Resolve | lib/Services/RoutingService.php:78-96 | An unknown class gives BadRequest "Controller does not exist: <name>". Otherwise the controller is built iff every parameter class is in the container, and argument i is the container's service for parameter i, in declared order. A failure is a RuntimeException "Parameter or service not found: <class>" naming the first missing class in declared order |
| Resolver.GetController | lib/Services/RoutingService.php:78-96 | The foreach loop gives exactly Resolve's result. An unknown class queries the container for nothing. On success every parameter class is queried, in order. On failure the queries are exactly the parameters up to and including the first missing one (their number is FirstMissing + 1, all but the last are present), so later ones are never looked up |
| ErrorHandling.ArraySearch | lib/Services/RoutingService.php:45 | Strict array_search: the position returned holds exactly the needle and no earlier position does; false (None) iff the needle is not an element |
| ErrorHandling.AcceptsJson | lib/Services/RoutingService.php:44-45 | True iff some accept value is exactly "application/json"; false for an empty or absent header |
| ErrorHandling.ReadErrorDocument | lib/Services/RoutingService.php:108-112 | Reads back the code and the message of a document of the shape {"error": {"code": c, "message": m}}, and reads something back only from a document of exactly that shape, with no further members |
| ErrorHandling.ExceptionResponse | lib/Services/RoutingService.php:104-113 | An OAuth server exception yields its own generated response. Any other throwable yields status 500, a JSON content type, and an error document whose code is 500 and whose message is the throwable's message; since ReadErrorDocument accepts only the exact envelope, the body is exactly {"error": {"code": 500, "message": msg}} |
| Routing.WithMessages | lib/Services/RoutingService.php:56 | data['messages'] holds the session messages; every other key is kept with its value and no other key is added |
| Routing.Negotiated | lib/Services/RoutingService.php:39-48 | The gate check is the first effect exactly when authenticated is set |
| Routing.NegotiatedEffects | lib/Services/RoutingService.php:39-48 | The gate runs iff authenticated is set; the JSON handler is installed iff some accept value is exactly "application/json", and then as the last of these effects; neither produces output |
| Routing.Prepare | lib/Services/RoutingService.php:39-53 | Reaching the controller's result requires passing the gate, and the trace at that point is exactly the gate and negotiation effects |
| Routing.Shown | lib/Services/RoutingService.php:55-59 | The template branch produces only output effects; SupportedResultOutputsThenThrows states them explicitly |
| Routing.EmittedAsIs | lib/Services/RoutingService.php:61-65 | The response branch produces only output effects; SupportedResultOutputsThenThrows states them explicitly |
| Routing.Respond | lib/Services/RoutingService.php:55-67 | Result handling as written only appends output effects to the trace and always ends by throwing |
| Routing.RespondOutputs | lib/Services/RoutingService.php:55-67 | Unless the messages lookup fails, result handling adds to the outputs exactly the shown template (if any) followed by the emitted response (if any) |
| Routing.Dispatch | lib/Services/RoutingService.php:37-68 | A call never returns normally: it always ends with a throwable |
| Routing.Call | lib/Services/RoutingService.php:37-68 | The step-by-step dispatcher (gate, negotiation, resolution, invocation, render, emit, throw) produces exactly Dispatch's outcome |
| Routing.Settle | lib/Services/RoutingService.php:102-117 | After the call, the installed JSON handler emits one response, ExceptionResponse of the escaped throwable, and nothing else. A throwable is left to the default handling iff no JSON handler was installed |
| Routing.GateRunsFirst | lib/Services/RoutingService.php:39-41 | With authenticated set, the gate is the first effect and never repeats, and a rejection ends the call with the gate's own throwable before negotiation or resolution. Without it the gate never runs |
| Routing.JsonHandlerIffAccepted | lib/Services/RoutingService.php:43-48 | The JSON handler is installed iff the request passes the gate and some accept value is exactly "application/json" |
| Routing.FailureBeforeResultPropagates | lib/Services/RoutingService.php:50-53 | An unknown controller, a missing service or a throwing controller ends the call with that throwable unchanged, after negotiation and with no output |
| Routing.SupportedResultOutputsThenThrows | lib/Services/RoutingService.php:55-67 | For a Template result, the outputs are the template shown with the session messages. For a response result, they are that response emitted unchanged. For both, they come in that order. In every case the call then throws "Response type not supported: <class>" |
| Routing.TemplateWithoutMessagesServiceFails | lib/Services/RoutingService.php:56 | If the container lacks the session-messages service, a Template result fails on the lookup before anything is shown |
| Routing.UnsupportedResultHasNoOutput | lib/Services/RoutingService.php:55-67 | A result that is neither a Template nor a ResponseInterface is neither shown nor emitted, and the call throws an Exception naming its class |
| Routing.JsonHandlerAnswersEscapes | lib/Services/RoutingService.php:104-116 | Once JSON is negotiated, whatever escapes the call is answered by exactly one emission of ExceptionResponse and nothing is left uncaught |
| Routing.NoJsonHandlerLeavesEscapes | lib/Services/RoutingService.php:44-48 | Without JSON negotiation, or after a gate rejection, nothing more is emitted and the throwable is left to the default handling |
| Routing.ResponseEmittedTwice | lib/Services/RoutingService.php:61-67 | As written, a response result on a JSON request calls the emitter twice: with the controller's response, then with a 500 for the line-67 exception |
| Routing.RespondIntended | lib/Services/RoutingService.php:55-67 | With returns after show() and emit(), the call returns normally iff the result is a Template whose messages can be fetched or a non-Template response |
| Routing.DispatchIntended | lib/Services/RoutingService.php:37-68 | The corrected call: every failure up to the invocation ends it exactly as in Dispatch, and it returns normally iff the controller returned a Template whose messages can be fetched or a non-Template response |
| Routing.IntendedOutputsOnce | lib/Services/RoutingService.php:55-67 | With the returns, a supported result gives exactly one output (the rendered template, or else the response), a normal return, and no further emission |
| Routing.IntendedAgreesElsewhere | lib/Services/RoutingService.php:55-67 | The correction changes no call that does not reach result handling with a Template or a response |

## Left out

- `Auth::requireAdmin` is not part of this model. The gate is an input: it admits the request or throws. A redirect to a login page that ends the process is not modelled separately.
- `ServerRequestFactory::fromGlobals` is not part of this model. Only the values `getHeader('accept')` returns are an input. Whether a comma-separated header becomes one value or several is decided by that library.
- Reflection is replaced by an explicit list of constructor-parameter class names per existing class. Every parameter is assumed to be class-typed and every controller to have a constructor. A null `getConstructor()` or `getClass()` would be a runtime fault, not a specified behaviour.
- `Container` is not part of this model. It is a finite map. `has` is membership, and `get` on a present key returns the mapped service. For the session-messages lookup on line 56, a missing service is modelled as a NotFound throwable naming the class. The container's own message text is not modelled.
- `SessionMessagesService::getMessages` is an input: the messages it returns.
- The controller's invocation is an input: a function from the constructed controller to what it returns or throws. The server request passed to it is not modelled.
- `get_class` on a result that is not an object (null, a scalar, an array) is not modelled. Every result is an object with a class name.
- `Template::show`, `SapiEmitter::emit`, `JsonResponse` serialisation and `OAuthServerException::generateHttpResponse` are library code. Rendering and emission are opaque events that cannot fail; an `Emitted` effect records a call of the emitter, not what the client receives (the emitter may refuse a second response once headers have been sent). A JSON body is a document value, not bytes. An OAuth exception carries its generated response.
- The getMessage() text of SimpleSAMLphp's error classes is taken to be the text the routing service passes to their constructors. Those classes are not part of this model.
- `set_exception_handler` is a process-wide hook. Here it is the `JsonHandlerInstalled` effect in the trace, read by `Settle`. These are not modelled: a throwable raised inside the handler, the default handler, and the process ending after the handler.
- Classifying a result is a pure inspection of a value, so doing it twice trivially gives the same answer. No lemma states this.
- `tests/Repositories/UserRepositoryTest.php` is an integration test of a database repository, and that repository is not part of this model.

## Findings

| source | as written | input that shows it | evidently intended | confidence | as-written member | corrected member |
|---|---|---|---|---|---|---|
| lib/Services/RoutingService.php:55-67 | Neither the Template branch nor the ResponseInterface branch returns, so line 67 throws "Response type not supported: <class>" after every render and every emission | A controller that returns a `Zend\Diactoros\Response`, on a request with `accept: application/json` and a passing gate. Its response is emitted, then the JSON handler calls `SapiEmitter::emit` a second time, with a 500 response for the line-67 exception. Whether the client sees that second response depends on the emitter, which may refuse once headers are sent; the model treats every emission as succeeding (see Left out) | A `return` after `show()` and after `emit()`: exactly one output and a normal return | not executed; high | Routing.ResponseEmittedTwice | Routing.RespondIntended |

`Call` and `Dispatch` keep the behaviour as written, because that is what the
code does. `RespondIntended` and `DispatchIntended` give the corrected
behaviour. `IntendedOutputsOnce` and `IntendedAgreesElsewhere` state what the
correction changes and what it leaves alone.
