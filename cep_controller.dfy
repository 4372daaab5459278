/** `CepController.getCep`: validate the CEP, look it up, classify the
    outcome, audit it exactly once, and answer; plus the dispatch of an
    escaping exception to the global handler. */
module Controller {
  import opened Domain
  import opened Json
  import opened SystemClock
  import opened Cache
  import opened ApiClient
  import opened CepLookup
  import opened AuditRepository
  import opened Audit
  import opened Http
  import opened ExceptionHandler
  import opened ClientAddress

  const CepPatternMessage: string := "CEP deve conter exatamente 8 dígitos"
  const NotFoundMessage: string := "CEP não encontrado"

  /** The `\d{8}` pattern: exactly eight ASCII digits, so the hyphenated
      form `12345-678` is refused. */
  predicate IsCepFormat(cep: string): (ok: bool)
    ensures ok ==> |cep| == 8 && '-' !in cep
  {
    |cep| == 8 && forall i :: 0 <= i < |cep| ==> '0' <= cep[i] <= '9'
  }

  /** The exception method validation raises for a CEP off the pattern: the
      parameter's path, then the constraint's message. */
  function ValidationFailure(): (e: Exception)
    ensures e.kind == ConstraintViolation
  {
    Exception(ConstraintViolation, Some("getCep.cep: " + CepPatternMessage))
  }

  /** `serializeToJson`: the mapper's JSON text, or the record's `toString()`
      when the mapper fails. */
  function SerializeToJson(codec: Codec, r: CepResponse): (s: string)
    ensures codec.write(r).Some? ==> s == codec.write(r).value
    ensures codec.write(r).None? ==> s == ResponseToString(r)
  {
    match codec.write(r)
    case Some(json) => json
    case None => ResponseToString(r)
  }

  /** The payload stored with a successful lookup reads back as the record
      that was answered, whenever the mapper round-trips and can write it. */
  lemma PayloadReadsBack(codec: Codec, r: CepResponse)
    requires RoundTrips(codec) && codec.write(r).Some?
    ensures codec.read(SerializeToJson(codec, r)) == Parsed(Some(r))
  {
  }

  /** Everything the controller's collaborators are fixed to: the lookup
      service's environment, the database's fault schedule, the clock's
      readings and the mapper. */
  datatype ControllerEnv = ControllerEnv(
    service: ServiceEnv,
    auditFaults: nat -> Option<string>,
    clock: nat -> int,
    codec: Codec)

  /** Everything one request can change: the lookup service, the audit
      table and the clock. */
  datatype World = World(service: ServiceState, audit: RepoState, ticks: nat)

  /** One `auditService.logCepRequest` call: a clock reading, then an insert. */
  function AuditStep(env: ControllerEnv, w: World, call: AuditCall): (res: (Try<()>, World)) {
    var (r, repo) := LogCepRequestSpec(env.auditFaults, w.audit, env.clock(w.ticks), call);
    (r, w.(audit := repo, ticks := w.ticks + 1))
  }

  /** The `catch (Exception e)` block: a failure audit entry, then a 500
      carrying the exception's message. An exception from the audit call
      itself escapes the controller. */
  function Recover(env: ControllerEnv, w: World, cep: string, ip: string, userAgent: Option<string>,
                   start: int, e: Exception)
    : (res: (Try<Response>, World))
  {
    var elapsed := env.clock(w.ticks) - start;
    var call := AuditCall(cep, None, false, e.message, elapsed, ip, userAgent);
    var (logged, w1) := AuditStep(env, w.(ticks := w.ticks + 1), call);
    if logged.Throw? then (Throw(logged.exc), w1)
    else
      var body := ErrorBody(ErrorResponse(InternalErrorMessage, e.message, env.clock(w1.ticks)));
      (Ok(Response(InternalServerError500, body)), w1.(ticks := w1.ticks + 1))
  }

  /** The rest of the `try` block once the lookup has returned `response`:
      classify it, audit it, answer 200 or 404. An exception from the audit
      call goes to the catch block. */
  function Respond(env: ControllerEnv, w: World, cep: string, ip: string, userAgent: Option<string>,
                   start: int, response: Option<CepResponse>)
    : (res: (Try<Response>, World))
  {
    var elapsed := env.clock(w.ticks) - start;
    var call :=
      if IsFound(response)
      then AuditCall(cep, Some(SerializeToJson(env.codec, response.value)), true, None, elapsed, ip, userAgent)
      else AuditCall(cep, None, false, Some(NotFoundMessage), elapsed, ip, userAgent);
    var (logged, w1) := AuditStep(env, w.(ticks := w.ticks + 1), call);
    if logged.Throw? then Recover(env, w1, cep, ip, userAgent, start, logged.exc)
    else if IsFound(response) then (Ok(Response(Ok200, CepBody(response.value))), w1)
    else (Ok(Response(NotFound404, NoBody)), w1)
  }

  /** `getCep(cep, request)` once the CEP has passed validation: a clock
      reading, the caller's address (which may throw before the `try`),
      then the lookup. */
  function GetCepSpec(env: ControllerEnv, w: World, cep: string, req: HttpRequest)
    : (res: (Try<Response>, World))
  {
    var start := env.clock(w.ticks);
    var w0 := w.(ticks := w.ticks + 1);
    var ip := ClientIpAddress(req);
    if ip.Throw? then (Throw(ip.exc), w0)
    else
      var (found, service) := FindCepSpec(env.service, w0.service, cep);
      var w1 := w0.(service := service);
      if found.Throw? then Recover(env, w1, cep, ip.value, req.userAgent, start, found.exc)
      else Respond(env, w1, cep, ip.value, req.userAgent, start, found.value)
  }

  /** The whole request as the framework serves it: validation first, then
      the controller; an exception escaping either goes to the global
      handler, which takes one more clock reading. */
  function ServeSpec(env: ControllerEnv, w: World, cep: string, req: HttpRequest)
    : (res: (Response, World))
  {
    if !IsCepFormat(cep) then
      (Handle(ValidationFailure(), env.clock(w.ticks)), w.(ticks := w.ticks + 1))
    else
      Dispatch(env, GetCepSpec(env, w, cep, req))
  }

  /** The framework's side of a validated request: the controller's answer,
      or the global handler's answer to what escaped it. */
  function Dispatch(env: ControllerEnv, outcome: (Try<Response>, World)): (res: (Response, World)) {
    var (r, w) := outcome;
    match r
    case Ok(resp) => (resp, w)
    case Throw(e) => (Handle(e, env.clock(w.ticks)), w.(ticks := w.ticks + 1))
  }

  /** The entry `logCepRequest` stores for a call made at tick `t`. */
  function Stored(env: ControllerEnv, w: World, t: nat, call: AuditCall): CepAuditLog {
    NewEntry(call, env.clock(t)).(id := Some(w.audit.nextId))
  }

  /** A found record: 200 with the record, one success entry holding its
      JSON, the elapsed time between the first two clock readings, and the
      caller's address and user agent. */
  lemma FoundIsAudited(env: ControllerEnv, w: World, cep: string, req: HttpRequest, rec: CepResponse)
    requires ClientIpAddress(req).Ok?
    requires FindCepSpec(env.service, w.service, cep).0 == Ok(Some(rec)) && IsFound(Some(rec))
    requires env.auditFaults(w.audit.attempts).None?
    ensures var (r, w1) := GetCepSpec(env, w, cep, req);
            var call := AuditCall(cep, Some(SerializeToJson(env.codec, rec)), true, None,
                                  env.clock(w.ticks + 1) - env.clock(w.ticks),
                                  ClientIpAddress(req).value, req.userAgent);
            r == Ok(Response(Ok200, CepBody(rec)))
            && w1.audit.log == w.audit.log + [Stored(env, w, w.ticks + 2, call)]
            && w1.service == FindCepSpec(env.service, w.service, cep).1
            && w1.ticks == w.ticks + 3
  {
  }

  /** No record, or one flagged `erro`: 404 without a body and one failure
      entry saying the CEP was not found. */
  lemma NotFoundIsAudited(env: ControllerEnv, w: World, cep: string, req: HttpRequest)
    requires ClientIpAddress(req).Ok?
    requires var found := FindCepSpec(env.service, w.service, cep).0;
             found.Ok? && !IsFound(found.value)
    requires env.auditFaults(w.audit.attempts).None?
    ensures var (r, w1) := GetCepSpec(env, w, cep, req);
            var call := AuditCall(cep, None, false, Some(NotFoundMessage),
                                  env.clock(w.ticks + 1) - env.clock(w.ticks),
                                  ClientIpAddress(req).value, req.userAgent);
            r == Ok(Response(NotFound404, NoBody))
            && w1.audit.log == w.audit.log + [Stored(env, w, w.ticks + 2, call)]
            && w1.ticks == w.ticks + 3
  {
  }

  /** The lookup throws (cache store, upstream, timeout): 500 whose details
      are the exception's message, and one failure entry recording it. */
  lemma LookupFailureIsAudited(env: ControllerEnv, w: World, cep: string, req: HttpRequest)
    requires ClientIpAddress(req).Ok?
    requires FindCepSpec(env.service, w.service, cep).0.Throw?
    requires env.auditFaults(w.audit.attempts).None?
    ensures var (r, w1) := GetCepSpec(env, w, cep, req);
            var e := FindCepSpec(env.service, w.service, cep).0.exc;
            var call := AuditCall(cep, None, false, e.message,
                                  env.clock(w.ticks + 1) - env.clock(w.ticks),
                                  ClientIpAddress(req).value, req.userAgent);
            r == Ok(Response(InternalServerError500,
                             ErrorBody(ErrorResponse(InternalErrorMessage, e.message, env.clock(w.ticks + 3)))))
            && w1.audit.log == w.audit.log + [Stored(env, w, w.ticks + 2, call)]
            && w1.ticks == w.ticks + 4
  {
  }

  /** The first audit insert fails: the catch block audits a second time,
      now as a failure carrying the database's message, and answers 500. */
  lemma AuditFailureIsRetried(env: ControllerEnv, w: World, cep: string, req: HttpRequest)
    requires ClientIpAddress(req).Ok?
    requires FindCepSpec(env.service, w.service, cep).0.Ok?
    requires env.auditFaults(w.audit.attempts).Some?
    requires env.auditFaults(w.audit.attempts + 1).None?
    ensures var (r, w1) := GetCepSpec(env, w, cep, req);
            var msg := Some(env.auditFaults(w.audit.attempts).value);
            var call := AuditCall(cep, None, false, msg,
                                  env.clock(w.ticks + 3) - env.clock(w.ticks),
                                  ClientIpAddress(req).value, req.userAgent);
            r == Ok(Response(InternalServerError500,
                             ErrorBody(ErrorResponse(InternalErrorMessage, msg, env.clock(w.ticks + 5)))))
            && w1.audit.log == w.audit.log + [Stored(env, w, w.ticks + 4, call)]
            && w1.audit.attempts == w.audit.attempts + 2
  {
  }

  /** A request the controller answers leaves exactly one audit entry, for
      its CEP, address and user agent, marked successful exactly when the
      answer is 200; a request whose exception escapes leaves none. Each
      request makes one or two insert attempts, or none when the address
      cannot be derived. */
  lemma OneEntryPerAnswer(env: ControllerEnv, w: World, cep: string, req: HttpRequest)
    ensures var (r, w1) := GetCepSpec(env, w, cep, req);
            w1.audit.log[..|w.audit.log|] == w.audit.log
            && (r.Throw? ==> w1.audit.log == w.audit.log)
            && (r.Ok? ==> r.value.status in {Ok200, NotFound404, InternalServerError500}
                          && |w1.audit.log| == |w.audit.log| + 1
                          && var entry := w1.audit.log[|w.audit.log|];
                             entry.cep == cep && entry.sourceIp == ClientIpAddress(req).value
                             && entry.userAgent == req.userAgent
                             && (entry.success <==> r.value.status == Ok200))
            && (ClientIpAddress(req).Throw? ==> w1.audit == w.audit)
            && (ClientIpAddress(req).Ok? ==> w.audit.attempts + 1 <= w1.audit.attempts <= w.audit.attempts + 2)
  {
    var ip := ClientIpAddress(req);
    if ip.Ok? {
      var (found, service) := FindCepSpec(env.service, w.service, cep);
      if found.Throw? {
        if env.auditFaults(w.audit.attempts).None? {
          LookupFailureIsAudited(env, w, cep, req);
        }
      } else if env.auditFaults(w.audit.attempts).None? {
        if IsFound(found.value) {
          FoundIsAudited(env, w, cep, req, found.value.value);
        } else {
          NotFoundIsAudited(env, w, cep, req);
        }
      } else if env.auditFaults(w.audit.attempts + 1).None? {
        AuditFailureIsRetried(env, w, cep, req);
      }
    }
  }

  /** An `X-Forwarded-For` made of commas only makes the controller throw
      before its `try`: nothing is looked up and nothing is audited. */
  lemma CommaOnlyForwardedForSkipsAudit(env: ControllerEnv, w: World, cep: string, req: HttpRequest)
    requires Present(req.forwardedFor)
    requires forall i :: 0 <= i < |req.forwardedFor.value| ==> req.forwardedFor.value[i] == ','
    ensures var (r, w1) := GetCepSpec(env, w, cep, req);
            r == Throw(Exception(Runtime, Some(EmptyArrayIndexMessage)))
            && w1 == w.(ticks := w.ticks + 1)
  {
    ClientIpAddressCases(req);
  }

  /** Whatever escapes the controller is a plain runtime exception (an
      audit insert failure or the index error), never one of the classes
      the global handler answers specially. */
  lemma EscapesAreRuntime(env: ControllerEnv, w: World, cep: string, req: HttpRequest)
    ensures var r := GetCepSpec(env, w, cep, req).0;
            r.Throw? ==> r.exc.kind == Runtime
  {
  }

  /** A CEP off the pattern is answered 400 with the constraint's message;
      neither the lookup service nor the audit table is touched. */
  lemma InvalidCepRejected(env: ControllerEnv, w: World, cep: string, req: HttpRequest)
    requires !IsCepFormat(cep)
    ensures var (resp, w1) := ServeSpec(env, w, cep, req);
            resp.status == BadRequest400
            && resp.body == ErrorBody(ErrorResponse(InvalidDataMessage, ValidationFailure().message, env.clock(w.ticks)))
            && w1.service == w.service && w1.audit == w.audit
  {
  }

  /** The status of every request is 200, 400, 404 or 500: the catch-all in
      the controller leaves nothing for the 503 handler, and a 404 never
      comes from the not-found handler. */
  lemma ServeStatuses(env: ControllerEnv, w: World, cep: string, req: HttpRequest)
    ensures ServeSpec(env, w, cep, req).0.status in {Ok200, BadRequest400, NotFound404, InternalServerError500}
    ensures ServeSpec(env, w, cep, req).0.status == NotFound404 ==> ServeSpec(env, w, cep, req).0.body == NoBody
  {
    if IsCepFormat(cep) {
      EscapesAreRuntime(env, w, cep, req);
      OneEntryPerAnswer(env, w, cep, req);
    }
  }

  /** The REST controller with its collaborators. The audit service and the
      controller read the same clock. */
  class CepController {
    const cepService: CepServiceImpl
    const auditService: AuditServiceImpl
    const codec: Codec
    const clock: Clock

    ghost predicate Valid()
      reads auditService.repository
    {
      auditService.clock == clock && auditService.repository.Valid()
    }

    function Env(): ControllerEnv {
      ControllerEnv(cepService.Env(), auditService.repository.faults, clock.reading, codec)
    }

    function Snapshot(): World
      reads cepService, cepService.cache, cepService.client, auditService.repository, clock
    {
      World(cepService.State(), auditService.repository.State(), clock.ticks)
    }

    constructor (cepService: CepServiceImpl, auditService: AuditServiceImpl, codec: Codec)
      ensures this.cepService == cepService && this.auditService == auditService
      ensures this.codec == codec && clock == auditService.clock
    {
      this.cepService := cepService;
      this.auditService := auditService;
      this.codec := codec;
      this.clock := auditService.clock;
    }

    /** The `catch (Exception e)` block. */
    method RecordFailure(cep: string, ip: string, userAgent: Option<string>, start: int, e: Exception)
      returns (r: Try<Response>)
      requires Valid()
      modifies auditService.repository, clock
      ensures Valid()
      ensures (r, Snapshot()) == Recover(Env(), old(Snapshot()), cep, ip, userAgent, start, e)
    {
      ghost var w := Snapshot();
      var now := clock.Now();
      var executionTime := now - start;
      var call := AuditCall(cep, None, false, e.message, executionTime, ip, userAgent);
      assert Snapshot() == w.(ticks := w.ticks + 1);
      var logged := auditService.LogCepRequest(call);
      ghost var step := AuditStep(Env(), w.(ticks := w.ticks + 1), call);
      assert logged == step.0 && Snapshot() == step.1;
      if logged.Throw? {
        return Throw(logged.exc);
      }
      var timestamp := clock.Now();
      r := Ok(Response(InternalServerError500, ErrorBody(ErrorResponse(InternalErrorMessage, e.message, timestamp))));
    }

    /** The `try` block after the lookup has returned. */
    method RecordOutcome(cep: string, ip: string, userAgent: Option<string>, start: int,
                         response: Option<CepResponse>)
      returns (r: Try<Response>)
      requires Valid()
      modifies auditService.repository, clock
      ensures Valid()
      ensures (r, Snapshot()) == Respond(Env(), old(Snapshot()), cep, ip, userAgent, start, response)
    {
      ghost var w := Snapshot();
      var now := clock.Now();
      var executionTime := now - start;
      assert Snapshot() == w.(ticks := w.ticks + 1);
      var call;
      if IsFound(response) {
        call := AuditCall(cep, Some(SerializeToJson(codec, response.value)), true, None,
                          executionTime, ip, userAgent);
      } else {
        call := AuditCall(cep, None, false, Some(NotFoundMessage), executionTime, ip, userAgent);
      }
      var logged := auditService.LogCepRequest(call);
      ghost var step := AuditStep(Env(), w.(ticks := w.ticks + 1), call);
      assert logged == step.0 && Snapshot() == step.1;
      if logged.Throw? {
        r := RecordFailure(cep, ip, userAgent, start, logged.exc);
      } else if IsFound(response) {
        r := Ok(Response(Ok200, CepBody(response.value)));
      } else {
        r := Ok(Response(NotFound404, NoBody));
      }
    }

    /** `getCep(cep, request)`, called once the CEP has passed validation. */
    method GetCep(cep: string, req: HttpRequest) returns (r: Try<Response>)
      requires Valid()
      modifies cepService, cepService.cache, cepService.client, auditService.repository, clock
      ensures Valid()
      ensures (r, Snapshot()) == GetCepSpec(Env(), old(Snapshot()), cep, req)
    {
      ghost var w := Snapshot();
      var start := clock.Now();
      assert Snapshot() == w.(ticks := w.ticks + 1);
      var sourceIp := ClientIpAddress(req);
      if sourceIp.Throw? {
        return Throw(sourceIp.exc);
      }
      var userAgent := req.userAgent;
      var found := cepService.FindCep(cep);
      ghost var lookup := FindCepSpec(Env().service, w.service, cep);
      assert found == lookup.0 && Snapshot() == w.(ticks := w.ticks + 1, service := lookup.1);
      if found.Throw? {
        r := RecordFailure(cep, sourceIp.value, userAgent, start, found.exc);
      } else {
        r := RecordOutcome(cep, sourceIp.value, userAgent, start, found.value);
      }
    }
  }
}
