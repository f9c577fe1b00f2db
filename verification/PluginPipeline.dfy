/** Executing a tool with plugins bound to its raw ERP response and to its result. */
module PluginPipeline {
  import opened Common
  import opened Json

  /** What the pipeline asks of a tool resource. */
  datatype Contract = Contract(
    /** The output schema, if any, accepts a value. */
    accepts: JsonValue -> bool,
    /** Follows the response path, if any. */
    extract: JsonValue -> Option<JsonValue>,
    /** An HTTP tool with an object schema and no handler of its own. */
    rawCapable: bool,
    isHead: bool)

  /** A binding of one phase and its plugin, if the copy of the snapshot holds one. */
  datatype Active = Active(name: string, failing: bool, hasPlugin: bool)

  /** What a plugin is handed. */
  datatype Payload = RawJson(status: int, value: JsonValue) | RawBytes(status: int, body: string) | Plain(value: JsonValue)

  /** Any behaviour of the plugins of one call: the answer of the n-th invocation, if any. */
  type Behaviour = (nat, Active, Payload) -> Option<JsonValue>

  datatype Body = Missing | Unreadable | Content(bytes: string, jsonType: bool, first: Option<JsonValue>, entire: Option<JsonValue>)

  datatype ErpAnswer = Fault | Failed | NoResponse | Response(status: int, body: Body)

  /** A tool with a native handler ignores the ERP system. */
  datatype HandlerAnswer = NoHandler | HandlerError | HandlerNil | HandlerResult(value: JsonValue, isError: bool)

  /** A result, a result marked as an error, or an error of the call itself. */
  datatype Outcome = Success(value: JsonValue) | ErrorResult | Error

  predicate TwoHundreds(status: int) {
    200 <= status < 300
  }

  // ----- What a chain of plugins computes ------------------------------------------------

  /** The value after all plugins, or the position of the first that failed. */
  datatype Chain = Completed(value: JsonValue) | Broken(at: nat)

  function Invoke(behave: Behaviour, n: nat, b: Active, input: Payload): Option<JsonValue> {
    if b.hasPlugin then behave(n, b, input) else None
  }

  function RunChain(bindings: seq<Active>, i: nat, input: Payload, calls: nat, behave: Behaviour, next: JsonValue -> Payload): (c: Chain)
    requires i < |bindings|
    ensures c.Broken? ==> i <= c.at < |bindings|
    decreases |bindings| - i
  {
    var answer := Invoke(behave, calls, bindings[i], input);
    if answer.None? then Broken(i)
    else if i + 1 == |bindings| then Completed(answer.value)
    else RunChain(bindings, i + 1, next(answer.value), calls + 1, behave, next)
  }

  function AsPlain(v: JsonValue): Payload {
    Plain(v)
  }

  function AsRaw(status: int): JsonValue -> Payload {
    v => RawJson(status, v)
  }

  /** A failed binding ends the call, or lets the untouched value stand. */
  function Fallback(b: Active, original: Outcome): Outcome {
    if b.failing then Error else original
  }

  /** The after-response phase: the whole composition or nothing of it. */
  function AfterPhase(c: Contract, value: JsonValue, bindings: seq<Active>, calls: nat, behave: Behaviour): Outcome {
    if bindings == [] then Success(value)
    else
      match RunChain(bindings, 0, Plain(value), calls, behave, AsPlain)
      case Broken(at) => Fallback(bindings[at], Success(value))
      case Completed(v) => if c.accepts(v) then Success(v) else Fallback(bindings[|bindings| - 1], Success(value))
  }

  function RawPayload(status: int, body: Body): Payload
    requires body.Content?
  {
    if body.jsonType && body.bytes != "" && body.entire.Some? then RawJson(status, body.entire.value)
    else RawBytes(status, body.bytes)
  }

  /** The response as it would be without raw plugins. */
  function Normalized(c: Contract, body: Body): Option<JsonValue>
    requires body.Content?
  {
    if body.entire.None? then None
    else
      var v := c.extract(body.entire.value);
      if v.Some? && c.accepts(v.value) then v else None
  }

  /** Once the failure policy lets the call go on: never a success without a 2xx response. */
  function RawFailure(c: Contract, b: Active, answer: ErpAnswer, after: seq<Active>, calls: nat, behave: Behaviour): Outcome {
    if b.failing then Error
    else if !answer.Response? || !answer.body.Content? || !TwoHundreds(answer.status) then ErrorResult
    else
      var v := Normalized(c, answer.body);
      if v.Some? then AfterPhase(c, v.value, after, calls, behave) else ErrorResult
  }

  function RawPhase(c: Contract, answer: ErpAnswer, raw: seq<Active>, after: seq<Active>, behave: Behaviour): Outcome
    requires raw != []
  {
    if !c.rawCapable then RawFailure(c, raw[0], NoResponse, after, 0, behave)
    else if answer.Fault? then ErrorResult
    else if !answer.Response? || !answer.body.Content? then RawFailure(c, raw[0], NoResponse, after, 0, behave)
    else
      match RunChain(raw, 0, RawPayload(answer.status, answer.body), 0, behave, AsRaw(answer.status))
      case Broken(at) => RawFailure(c, raw[at], answer, after, at + 1, behave)
      case Completed(v) =>
        if !TwoHundreds(answer.status) then ErrorResult
        else
          var last, extracted := raw[|raw| - 1], c.extract(v);
          if extracted.None? || !c.accepts(extracted.value) then RawFailure(c, last, answer, after, |raw|, behave)
          else AfterPhase(c, extracted.value, after, |raw|, behave)
  }

  /** The call without raw plugins, before its result is processed. */
  function PlainCall(c: Contract, handler: HandlerAnswer, answer: ErpAnswer): Outcome {
    if handler.HandlerResult? then if handler.isError then ErrorResult else Success(handler.value)
    else if !handler.NoHandler? || !answer.Response? then Error
    else if !TwoHundreds(answer.status) then ErrorResult
    else if c.isHead || answer.status == 204 then Success(JNull)
    else if !answer.body.Content? || answer.body.first.None? then Error
    else
      var v := c.extract(answer.body.first.value);
      if v.None? then Error else if c.accepts(v.value) then Success(v.value) else ErrorResult
  }

  function Execution(c: Contract, handler: HandlerAnswer, answer: ErpAnswer, raw: seq<Active>, after: seq<Active>, behave: Behaviour): Outcome {
    if raw != [] then RawPhase(c, answer, raw, after, behave)
    else
      var plain := PlainCall(c, handler, answer);
      if !plain.Success? then plain
      else if !c.accepts(plain.value) then ErrorResult
      else AfterPhase(c, plain.value, after, 0, behave)
  }

  // ----- The methods ---------------------------------------------------------------------

  method ProcessAfterResponse(c: Contract, value: JsonValue, bindings: seq<Active>, calls: nat, behave: Behaviour)
    returns (r: Outcome)
    ensures r == AfterPhase(c, value, bindings, calls, behave)
  {
    if bindings == [] {
      return Success(value);
    }
    var transformed := value;
    var i := 0;
    while i < |bindings|
      invariant 0 <= i <= |bindings|
      invariant RunChain(bindings, 0, Plain(value), calls, behave, AsPlain) ==
                if i < |bindings| then RunChain(bindings, i, Plain(transformed), calls + i, behave, AsPlain)
                else Completed(transformed)
    {
      var active := bindings[i];
      if !active.hasPlugin {
        return Fallback(active, Success(value));
      }
      var response := behave(calls + i, active, Plain(transformed));
      if response.None? {
        return Fallback(active, Success(value));
      }
      transformed := response.value;
      i := i + 1;
    }
    if !c.accepts(transformed) {
      return Fallback(bindings[|bindings| - 1], Success(value));
    }
    r := Success(transformed);
  }

  method FailRaw(c: Contract, active: Active, captured: ErpAnswer, after: seq<Active>, calls: nat, behave: Behaviour)
    returns (r: Outcome)
    ensures r == RawFailure(c, active, captured, after, calls, behave)
  {
    if active.failing {
      return Error;
    }
    if captured.Response? && captured.body.Content? {
      if !TwoHundreds(captured.status) {
        return ErrorResult;
      }
      var fallback := Normalized(c, captured.body);
      if fallback.Some? {
        r := ProcessAfterResponse(c, fallback.value, after, calls, behave);
        return;
      }
    }
    r := ErrorResult;
  }

  method ExecuteRaw(c: Contract, answer: ErpAnswer, raw: seq<Active>, after: seq<Active>, behave: Behaviour)
    returns (r: Outcome)
    requires raw != []
    ensures r == RawPhase(c, answer, raw, after, behave)
  {
    if !c.rawCapable {
      r := FailRaw(c, raw[0], NoResponse, after, 0, behave);
      return;
    }
    if answer.Fault? {
      return ErrorResult;
    }
    if !answer.Response? || !answer.body.Content? {
      r := FailRaw(c, raw[0], NoResponse, after, 0, behave);
      return;
    }
    var status := answer.status;
    var next := AsRaw(status);
    var rawResponse := RawPayload(status, answer.body);
    ghost var start := rawResponse;
    var transformed := JNull;
    var i := 0;
    while i < |raw|
      invariant 0 <= i <= |raw|
      invariant RunChain(raw, 0, start, 0, behave, next) ==
                if i < |raw| then RunChain(raw, i, rawResponse, i, behave, next) else Completed(transformed)
    {
      var active := raw[i];
      if !active.hasPlugin {
        r := FailRaw(c, active, answer, after, i + 1, behave);
        return;
      }
      var response := behave(i, active, rawResponse);
      if response.None? {
        r := FailRaw(c, active, answer, after, i + 1, behave);
        return;
      }
      transformed := response.value;
      rawResponse := RawJson(status, transformed);
      i := i + 1;
    }
    if !TwoHundreds(status) {
      return ErrorResult;
    }
    var last := raw[|raw| - 1];
    var result := c.extract(transformed);
    if result.None? || !c.accepts(result.value) {
      r := FailRaw(c, last, answer, after, |raw|, behave);
      return;
    }
    r := ProcessAfterResponse(c, result.value, after, |raw|, behave);
  }

  method ExecuteTool(c: Contract, handler: HandlerAnswer, answer: ErpAnswer, raw: seq<Active>, after: seq<Active>, behave: Behaviour)
    returns (r: Outcome)
    ensures r == Execution(c, handler, answer, raw, after, behave)
  {
    if raw != [] {
      r := ExecuteRaw(c, answer, raw, after, behave);
      return;
    }
    r := PlainCall(c, handler, answer);
    if r.Success? {
      if !c.accepts(r.value) {
        return ErrorResult;
      }
      r := ProcessAfterResponse(c, r.value, after, 0, behave);
    }
  }

  // ----- What every call keeps -----------------------------------------------------------

  lemma AfterPhaseIsAccepted(c: Contract, value: JsonValue, bindings: seq<Active>, calls: nat, behave: Behaviour)
    requires c.accepts(value)
    ensures var r := AfterPhase(c, value, bindings, calls, behave); r.Success? ==> c.accepts(r.value)
  {
  }

  /** Whatever the plugins do, a successful result satisfies the tool's output schema. */
  lemma SuccessIsAccepted(c: Contract, handler: HandlerAnswer, answer: ErpAnswer, raw: seq<Active>, after: seq<Active>, behave: Behaviour)
    ensures var r := Execution(c, handler, answer, raw, after, behave); r.Success? ==> c.accepts(r.value)
  {
    if raw == [] {
      var plain := PlainCall(c, handler, answer);
      if plain.Success? && c.accepts(plain.value) {
        AfterPhaseIsAccepted(c, plain.value, after, 0, behave);
      }
    } else {
      RawPhaseIsAccepted(c, answer, raw, after, behave);
    }
  }

  lemma RawFailureIsAccepted(c: Contract, b: Active, answer: ErpAnswer, after: seq<Active>, calls: nat, behave: Behaviour)
    ensures var r := RawFailure(c, b, answer, after, calls, behave); r.Success? ==> c.accepts(r.value)
  {
    if answer.Response? && answer.body.Content? && Normalized(c, answer.body).Some? {
      AfterPhaseIsAccepted(c, Normalized(c, answer.body).value, after, calls, behave);
    }
  }

  lemma RawPhaseIsAccepted(c: Contract, answer: ErpAnswer, raw: seq<Active>, after: seq<Active>, behave: Behaviour)
    requires raw != []
    ensures var r := RawPhase(c, answer, raw, after, behave); r.Success? ==> c.accepts(r.value)
  {
    RawFailureIsAccepted(c, raw[0], NoResponse, after, 0, behave);
    if answer.Response? && answer.body.Content? {
      match RunChain(raw, 0, RawPayload(answer.status, answer.body), 0, behave, AsRaw(answer.status)) {
        case Broken(at) => RawFailureIsAccepted(c, raw[at], answer, after, at + 1, behave);
        case Completed(v) =>
          RawFailureIsAccepted(c, raw[|raw| - 1], answer, after, |raw|, behave);
          if c.extract(v).Some? && c.accepts(c.extract(v).value) {
            AfterPhaseIsAccepted(c, c.extract(v).value, after, |raw|, behave);
          }
      }
    }
  }

  /** No plugin turns a failed ERP call into a success: success takes a 2xx response. */
  lemma SuccessTakesTwoHundreds(c: Contract, handler: HandlerAnswer, answer: ErpAnswer, raw: seq<Active>, after: seq<Active>, behave: Behaviour)
    requires handler.NoHandler? || raw != []
    ensures Execution(c, handler, answer, raw, after, behave).Success? ==> answer.Response? && TwoHundreds(answer.status)
  {
  }

  // ----- What a call comes to ------------------------------------------------------------

  /** What the first plugins of a chain are handed and give back, all or up to the one that gives
      nothing: the first one is handed the chain's input, every other one what comes of the
      output before. */
  datatype Flow = Flow(inputs: seq<Payload>, outputs: seq<JsonValue>)

  ghost predicate Passes(bindings: seq<Active>, calls: nat, behave: Behaviour, first: Payload, next: JsonValue -> Payload, f: Flow) {
    && |f.outputs| <= |bindings| && |f.inputs| == |f.outputs| + 1 && f.inputs[0] == first
    && (forall i {:trigger f.outputs[i]} :: 0 <= i < |f.outputs| ==>
          && bindings[i].hasPlugin && behave(calls + i, bindings[i], f.inputs[i]) == Some(f.outputs[i])
          && f.inputs[i + 1] == next(f.outputs[i]))
  }

  ghost predicate Flows(bindings: seq<Active>, calls: nat, behave: Behaviour, first: Payload, next: JsonValue -> Payload, f: Flow) {
    && Passes(bindings, calls, behave, first, next, f)
    && var n := |f.outputs|;
       n < |bindings| && bindings[n].hasPlugin ==> behave(calls + n, bindings[n], f.inputs[n]) == None
  }

  lemma {:induction false} ChainFollowsFlow(bindings: seq<Active>, calls: nat, behave: Behaviour, first: Payload, next: JsonValue -> Payload, f: Flow, i: nat)
    requires Flows(bindings, calls, behave, first, next, f) && i <= |f.outputs| && i < |bindings|
    ensures RunChain(bindings, i, f.inputs[i], calls + i, behave, next) ==
            if |f.outputs| == |bindings| then Completed(f.outputs[|bindings| - 1]) else Broken(|f.outputs|)
    decreases |bindings| - i
  {
    if i < |f.outputs| {
      assert f.inputs[i + 1] == next(f.outputs[i]);
      if i + 1 < |bindings| {
        ChainFollowsFlow(bindings, calls, behave, first, next, f, i + 1);
      }
    }
  }

  lemma PassesOneMore(bindings: seq<Active>, calls: nat, behave: Behaviour, first: Payload, next: JsonValue -> Payload, f: Flow, output: JsonValue)
    requires Passes(bindings, calls, behave, first, next, f) && |f.outputs| < |bindings| && bindings[|f.outputs|].hasPlugin
    requires behave(calls + |f.outputs|, bindings[|f.outputs|], f.inputs[|f.outputs|]) == Some(output)
    ensures Passes(bindings, calls, behave, first, next, Flow(f.inputs + [next(output)], f.outputs + [output]))
  {
    var n, more := |f.outputs|, Flow(f.inputs + [next(output)], f.outputs + [output]);
    forall i | 0 <= i <= n
      ensures bindings[i].hasPlugin && behave(calls + i, bindings[i], more.inputs[i]) == Some(more.outputs[i])
      ensures more.inputs[i + 1] == next(more.outputs[i])
    {
      if i < n {
        assert more.outputs[i] == f.outputs[i] && more.inputs[i] == f.inputs[i] && more.inputs[i + 1] == f.inputs[i + 1];
      }
    }
  }

  lemma {:induction false} ChainHasFlow(bindings: seq<Active>, calls: nat, behave: Behaviour, first: Payload, next: JsonValue -> Payload, some: Flow)
    returns (f: Flow)
    requires Passes(bindings, calls, behave, first, next, some)
    ensures Flows(bindings, calls, behave, first, next, f)
    decreases |bindings| - |some.outputs|
  {
    f := some;
    var n := |some.outputs|;
    if n < |bindings| && bindings[n].hasPlugin {
      var answer := behave(calls + n, bindings[n], some.inputs[n]);
      if answer.Some? {
        PassesOneMore(bindings, calls, behave, first, next, some, answer.value);
        f := ChainHasFlow(bindings, calls, behave, first, next, Flow(some.inputs + [next(answer.value)], some.outputs + [answer.value]));
      }
    }
  }

  /** The first binding that gave no output, or the last one. */
  function Blamed(bindings: seq<Active>, outputs: seq<JsonValue>): Active
    requires bindings != [] && |outputs| <= |bindings|
  {
    bindings[if |outputs| == |bindings| then |bindings| - 1 else |outputs|]
  }

  function Verdict(c: Contract, value: JsonValue, after: seq<Active>, outputs: seq<JsonValue>): Outcome
    requires after != [] && |outputs| <= |after|
  {
    if |outputs| == |after| && c.accepts(outputs[|after| - 1]) then Success(outputs[|after| - 1])
    else if Blamed(after, outputs).failing then Error else Success(value)
  }

  /** Each output is the next plugin's input. */
  ghost predicate HandsOn(f: Flow)
    requires |f.inputs| == |f.outputs| + 1
  {
    forall i {:trigger f.outputs[i]} :: 0 <= i < |f.outputs| ==> f.inputs[i + 1] == Plain(f.outputs[i])
  }

  /** A value is settled by the after-response plugins: with an output of all of them whose last
      one is accepted, it becomes that; otherwise the binding to blame decides between the
      untouched value and an error. */
  ghost predicate Settles(c: Contract, value: JsonValue, after: seq<Active>, calls: nat, behave: Behaviour, r: Outcome) {
    if after == [] then r == Success(value)
    else
      exists f :: Flows(after, calls, behave, Plain(value), AsPlain, f) && HandsOn(f) && r == Verdict(c, value, after, f.outputs)
  }

  lemma PlainFlowHandsOn(after: seq<Active>, calls: nat, behave: Behaviour, first: Payload, f: Flow)
    requires Passes(after, calls, behave, first, AsPlain, f)
    ensures HandsOn(f)
  {
    forall i | 0 <= i < |f.outputs| ensures f.inputs[i + 1] == Plain(f.outputs[i]) {
      assert f.inputs[i + 1] == AsPlain(f.outputs[i]);
    }
  }

  /** After-response plugins act all or not at all. */
  lemma AfterPhaseIsAllOrNothing(c: Contract, value: JsonValue, after: seq<Active>, calls: nat, behave: Behaviour)
    ensures Settles(c, value, after, calls, behave, AfterPhase(c, value, after, calls, behave))
  {
    if after != [] {
      var f := ChainHasFlow(after, calls, behave, Plain(value), AsPlain, Flow([Plain(value)], []));
      ChainFollowsFlow(after, calls, behave, Plain(value), AsPlain, f, 0);
      PlainFlowHandsOn(after, calls, behave, Plain(value), f);
      assert AfterPhase(c, value, after, calls, behave) == Verdict(c, value, after, f.outputs);
    }
  }

  // Without raw plugins.

  /** The value a call yields before plugins see it: the native handler's, or what the response
      path selects in a 2xx response. */
  ghost predicate Yields(c: Contract, handler: HandlerAnswer, answer: ErpAnswer, v: JsonValue) {
    || (handler.HandlerResult? && !handler.isError && v == handler.value)
    || (handler.NoHandler? && answer.Response? && 200 <= answer.status <= 299
        && if c.isHead || answer.status == 204 then v == JNull
           else answer.body.Content? && answer.body.first.Some? && c.extract(answer.body.first.value) == Some(v))
  }

  /** An accepted value is settled by all after-response plugins, one that is not is an error
      result. */
  lemma YieldedValueIsSettled(c: Contract, handler: HandlerAnswer, answer: ErpAnswer, after: seq<Active>, behave: Behaviour, v: JsonValue)
    requires Yields(c, handler, answer, v)
    ensures var r := Execution(c, handler, answer, [], after, behave);
            if c.accepts(v) then Settles(c, v, after, 0, behave, r) else r == ErrorResult
  {
    AfterPhaseIsAllOrNothing(c, v, after, 0, behave);
  }

  /** Without a value, a tool or an ERP system that reports an error gives an error result, and
      one that gives nothing to work with an error. */
  lemma NothingYielded(c: Contract, handler: HandlerAnswer, answer: ErpAnswer, after: seq<Active>, behave: Behaviour)
    ensures (exists v :: Yields(c, handler, answer, v)) ||
            Execution(c, handler, answer, [], after, behave) ==
            if handler.HandlerResult? || (handler.NoHandler? && answer.Response? && !(200 <= answer.status <= 299)) then ErrorResult
            else Error
  {
    if handler.HandlerResult? {
      assert handler.isError || Yields(c, handler, answer, handler.value);
    } else if handler.NoHandler? && answer.Response? && TwoHundreds(answer.status) {
      if c.isHead || answer.status == 204 {
        assert Yields(c, handler, answer, JNull);
      } else if answer.body.Content? && answer.body.first.Some? && c.extract(answer.body.first.value).Some? {
        assert Yields(c, handler, answer, c.extract(answer.body.first.value).value);
      }
    }
  }

  // With raw plugins.

  /** What the first raw plugin is handed: the body as JSON if it says so and is, else its bytes. */
  ghost predicate Captures(answer: ErpAnswer, first: Payload) {
    && answer.Response? && answer.body.Content?
    && first == if answer.body.jsonType && answer.body.bytes != "" && answer.body.entire.Some?
                then RawJson(answer.status, answer.body.entire.value) else RawBytes(answer.status, answer.body.bytes)
  }

  /** A raw plugin failed: the call fails, or goes on with the response as it would have been
      without raw plugins, if that is a 2xx one and accepted. */
  ghost predicate GoesOn(c: Contract, blamed: Active, answer: ErpAnswer, after: seq<Active>, calls: nat, behave: Behaviour, r: Outcome) {
    if blamed.failing then r == Error
    else if answer.Response? && 200 <= answer.status <= 299 && answer.body.Content? && answer.body.entire.Some?
            && c.extract(answer.body.entire.value).Some? && c.accepts(c.extract(answer.body.entire.value).value)
    then Settles(c, c.extract(answer.body.entire.value).value, after, calls, behave, r)
    else r == ErrorResult
  }

  lemma RawFailureGoesOn(c: Contract, blamed: Active, answer: ErpAnswer, after: seq<Active>, calls: nat, behave: Behaviour)
    ensures GoesOn(c, blamed, answer, after, calls, behave, RawFailure(c, blamed, answer, after, calls, behave))
  {
    if answer.Response? && answer.body.Content? && Normalized(c, answer.body).Some? {
      AfterPhaseIsAllOrNothing(c, Normalized(c, answer.body).value, after, calls, behave);
    }
  }

  /** Raw plugins need a response to work on; for want of one the first is blamed, unless the ERP
      call itself has a fault to report. */
  lemma NothingCaptured(c: Contract, handler: HandlerAnswer, answer: ErpAnswer, raw: seq<Active>, after: seq<Active>, behave: Behaviour)
    requires raw != [] && (!c.rawCapable || !answer.Response? || !answer.body.Content?)
    ensures Execution(c, handler, answer, raw, after, behave) ==
            if c.rawCapable && answer.Fault? then ErrorResult else if raw[0].failing then Error else ErrorResult
  {
  }

  /** Otherwise the captured response flows through all raw plugins, the result through the
      response path and then through the after-response plugins.  The first raw plugin without an
      output is blamed, and the last one for a result that is not accepted; a response that is no
      2xx one is an error result, whatever the plugins make of it. */
  lemma CapturedResponseFlows(c: Contract, handler: HandlerAnswer, answer: ErpAnswer, raw: seq<Active>, after: seq<Active>, behave: Behaviour, first: Payload)
    returns (f: Flow)
    requires raw != [] && c.rawCapable && Captures(answer, first)
    ensures Flows(raw, 0, behave, first, AsRaw(answer.status), f) && HandsOnRaw(answer.status, f)
    ensures RawVerdict(c, answer, raw, after, behave, f.outputs, Execution(c, handler, answer, raw, after, behave))
  {
    f := RawFlow(raw, behave, first, answer.status);
    if |f.outputs| < |raw| {
      RawFailureGoesOn(c, raw[|f.outputs|], answer, after, |f.outputs| + 1, behave);
    } else {
      CompletedFlowIsJudged(c, answer, raw, after, behave, f.outputs);
    }
  }

  /** Each output is the next raw plugin's input, under the status of the response. */
  ghost predicate HandsOnRaw(status: int, f: Flow)
    requires |f.inputs| == |f.outputs| + 1
  {
    forall i {:trigger f.outputs[i]} :: 0 <= i < |f.outputs| ==> f.inputs[i + 1] == RawJson(status, f.outputs[i])
  }

  lemma RawFlow(raw: seq<Active>, behave: Behaviour, first: Payload, status: int) returns (f: Flow)
    requires raw != []
    ensures Flows(raw, 0, behave, first, AsRaw(status), f) && HandsOnRaw(status, f)
    ensures RunChain(raw, 0, first, 0, behave, AsRaw(status)) ==
            if |f.outputs| == |raw| then Completed(f.outputs[|raw| - 1]) else Broken(|f.outputs|)
  {
    f := ChainHasFlow(raw, 0, behave, first, AsRaw(status), Flow([first], []));
    ChainFollowsFlow(raw, 0, behave, first, AsRaw(status), f, 0);
    forall i | 0 <= i < |f.outputs| ensures f.inputs[i + 1] == RawJson(status, f.outputs[i]) {
      assert f.inputs[i + 1] == AsRaw(status)(f.outputs[i]);
    }
  }

  ghost predicate RawVerdict(c: Contract, answer: ErpAnswer, raw: seq<Active>, after: seq<Active>, behave: Behaviour, outputs: seq<JsonValue>, r: Outcome)
    requires raw != [] && |outputs| <= |raw| && answer.Response?
  {
    if |outputs| < |raw| then GoesOn(c, raw[|outputs|], answer, after, |outputs| + 1, behave, r)
    else if !(200 <= answer.status <= 299) then r == ErrorResult
    else
      var v := c.extract(outputs[|raw| - 1]);
      if v.Some? && c.accepts(v.value) then Settles(c, v.value, after, |raw|, behave, r)
      else GoesOn(c, raw[|raw| - 1], answer, after, |raw|, behave, r)
  }

  lemma CompletedFlowIsJudged(c: Contract, answer: ErpAnswer, raw: seq<Active>, after: seq<Active>, behave: Behaviour, outputs: seq<JsonValue>)
    requires raw != [] && c.rawCapable && |outputs| == |raw| && answer.Response? && answer.body.Content?
    requires RunChain(raw, 0, RawPayload(answer.status, answer.body), 0, behave, AsRaw(answer.status)) == Completed(outputs[|raw| - 1])
    ensures RawVerdict(c, answer, raw, after, behave, outputs, RawPhase(c, answer, raw, after, behave))
  {
    var v := c.extract(outputs[|raw| - 1]);
    RawFailureGoesOn(c, raw[|raw| - 1], answer, after, |raw|, behave);
    if v.Some? {
      AfterPhaseIsAllOrNothing(c, v.value, after, |raw|, behave);
    }
  }
}
