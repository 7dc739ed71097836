/** Dispatch of one RPC request (src/rpc/GameToolClient.cpp and include/sauri/rpc/detail/call_impl.h).
    JSON values, payload decoding and the bound functions are taken as given; each may throw. */
module Rpc {

  datatype Json = Null | Value(text: string)

  datatype Attempt<+T> = Ok(value: T) | Threw(what: string)

  /** A function bound to a method name: `extract(i, v)` is `v.get<T_i>()`, `invoke` the function itself. */
  datatype Binding = Binding(arity: nat, isVoid: bool,
                             extract: (nat, Json) -> Attempt<Json>, invoke: seq<Json> -> Attempt<Json>)

  datatype Request = Request(id: string, method_: string, params: seq<Json>)

  datatype Message = Message(appId: string, payload: Json)

  datatype App = App(decode: Json -> Attempt<Request>, functions: map<string, Binding>)

  datatype Response = Response(id: string, result: Json, hasError: bool, code: int, message: string)

  const FUNCTION_NOT_FOUND := 404
  const FUNCTION_INTERNAL_ERROR := 500
  const PAYLOAD_INVALID := 400

  // ---- call_with_json_params ----

  /** The arguments from index `i` on; the first one that cannot be extracted throws. */
  function ExtractFrom(b: Binding, params: seq<Json>, i: nat): Attempt<seq<Json>>
    requires i <= |params|
    decreases |params| - i
  {
    if i == |params| then Ok([])
    else
      match b.extract(i, params[i])
      case Threw(what) => Threw(what)
      case Ok(arg) =>
        match ExtractFrom(b, params, i + 1)
        case Threw(what) => Threw(what)
        case Ok(args) => Ok([arg] + args)
  }

  function CallWithJsonParams(b: Binding, params: seq<Json>): Attempt<Json> {
    if |params| != b.arity then Threw("Parameter count mismatch")
    else
      match ExtractFrom(b, params, 0)
      case Threw(what) => Threw(what)
      case Ok(args) =>
        match b.invoke(args)
        case Threw(what) => Threw(what)
        case Ok(value) => if b.isVoid then Ok(Null) else Ok(value)
  }

  predicate AllExtract(b: Binding, params: seq<Json>) {
    forall i :: 0 <= i < |params| ==> b.extract(i, params[i]).Ok?
  }

  function Arguments(b: Binding, params: seq<Json>): seq<Json>
    requires AllExtract(b, params)
  {
    seq(|params|, i requires 0 <= i < |params| => b.extract(i, params[i]).value)
  }

  lemma {:induction false} ExtractFromIsPointwise(b: Binding, params: seq<Json>, i: nat)
    requires i <= |params|
    ensures ExtractFrom(b, params, i).Ok? <==> forall j :: i <= j < |params| ==> b.extract(j, params[j]).Ok?
    ensures ExtractFrom(b, params, i).Ok? ==>
              && |ExtractFrom(b, params, i).value| == |params| - i
              && forall j :: i <= j < |params| ==>
                   ExtractFrom(b, params, i).value[j - i] == b.extract(j, params[j]).value
    ensures ExtractFrom(b, params, i).Threw? ==>
              exists j :: i <= j < |params| && b.extract(j, params[j]) == Threw(ExtractFrom(b, params, i).what)
    decreases |params| - i
  {
    if i < |params| {
      ExtractFromIsPointwise(b, params, i + 1);
    }
  }

  /** The count fits, every argument can be extracted, and the function returns on the arguments. */
  predicate Completes(b: Binding, params: seq<Json>) {
    |params| == b.arity && AllExtract(b, params) && b.invoke(Arguments(b, params)).Ok?
  }

  /** What a call that does not complete reports: that the count does not fit, or else what some argument that
      cannot be extracted threw, or else what the function threw. */
  ghost predicate Explains(b: Binding, params: seq<Json>, what: string) {
    if |params| != b.arity then what == "Parameter count mismatch"
    else if AllExtract(b, params) then b.invoke(Arguments(b, params)) == Threw(what)
    else exists i :: 0 <= i < |params| && b.extract(i, params[i]) == Threw(what)
  }

  /** A call succeeds exactly when it completes; then it yields what the function returned, or null for
      a void function. Otherwise it reports why. */
  lemma CallSucceedsExactly(b: Binding, params: seq<Json>)
    ensures CallWithJsonParams(b, params).Ok? <==> Completes(b, params)
    ensures Completes(b, params) ==>
            CallWithJsonParams(b, params).value == if b.isVoid then Null else b.invoke(Arguments(b, params)).value
    ensures !Completes(b, params) ==> Explains(b, params, CallWithJsonParams(b, params).what)
  {
    ExtractFromIsPointwise(b, params, 0);
    if AllExtract(b, params) {
      assert ExtractFrom(b, params, 0).value == Arguments(b, params);
    }
  }

  // ---- The task of one request ----

  /** The response fits the request: 400 exactly when the payload does not decode, 404 exactly when the
      method is unbound, 500 exactly when the bound call does not complete, and otherwise no error. The message
      says what was wrong, and nothing when nothing was. */
  ghost predicate Answers(app: App, msg: Message, r: Response) {
    match app.decode(msg.payload)
    case Threw(what) => r.hasError && r.code == 400 && r.id == "unknown" && r.result == Null
                        && r.message == "Invalid payload: " + what
    case Ok(request) =>
      && r.id == request.id
      && r.code != 400
      && (r.code == 404 <==> request.method_ !in app.functions)
      && (r.hasError <==> r.code != 0)
      && (r.hasError ==> r.result == Null)
      && (!r.hasError ==> r.message == "")
      && (r.code == 404 ==> r.message == "Method '" + request.method_ + "' not found")
      && (request.method_ in app.functions ==>
            var b := app.functions[request.method_];
            && (r.code == 500 <==> !Completes(b, request.params))
            && (!r.hasError <==> Completes(b, request.params))
            && (r.hasError ==> Explains(b, request.params, r.message))
            && (!r.hasError ==> r.result == if b.isVoid then Null else b.invoke(Arguments(b, request.params)).value))
  }

  /** The response of a request as a value. */
  function Respond(app: App, msg: Message): Response {
    match app.decode(msg.payload)
    case Threw(what) => Response("unknown", Null, true, PAYLOAD_INVALID, "Invalid payload: " + what)
    case Ok(request) =>
      if request.method_ !in app.functions then
        Response(request.id, Null, true, FUNCTION_NOT_FOUND, "Method '" + request.method_ + "' not found")
      else
        match CallWithJsonParams(app.functions[request.method_], request.params)
        case Threw(what) => Response(request.id, Null, true, FUNCTION_INTERNAL_ERROR, what)
        case Ok(value) => Response(request.id, value, false, 0, "")
  }

  /** The closure pushed by `handleRpcRequest`, filling its response field by field. */
  method Execute(app: App, msg: Message) returns (response: Response)
    ensures response == Respond(app, msg)
  {
    response := Response("", Null, false, 0, "");
    match app.decode(msg.payload) {
      case Ok(request) =>
        response := response.(id := request.id);
        if request.method_ in app.functions {
          match CallWithJsonParams(app.functions[request.method_], request.params) {
            case Ok(value) =>
              response := response.(result := value);
            case Threw(what) =>
              response := response.(hasError := true);
              response := response.(code := FUNCTION_INTERNAL_ERROR);
              response := response.(message := what);
          }
        } else {
          response := response.(hasError := true);
          response := response.(code := FUNCTION_NOT_FOUND);
          response := response.(message := "Method '" + request.method_ + "' not found");
        }
      case Threw(what) =>
        response := response.(id := "unknown");
        response := response.(hasError := true);
        response := response.(code := PAYLOAD_INVALID);
        response := response.(message := "Invalid payload: " + what);
    }
  }

  lemma RespondAnswers(app: App, msg: Message)
    ensures Answers(app, msg, Respond(app, msg))
  {
    if app.decode(msg.payload).Ok? && app.decode(msg.payload).value.method_ in app.functions {
      var request := app.decode(msg.payload).value;
      CallSucceedsExactly(app.functions[request.method_], request.params);
    }
  }
}
