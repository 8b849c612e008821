/** The orchestrator: every API call passes validation, permission and consent, and is audited. */
module Orchestrator {
  import opened Wrappers
  import Json
  import Redaction
  import Digest
  import Positional

  type Value = Json.Value

  datatype Risk = L0 | L1 | L2 | L3 | L4 {
    predicate RequiresConsent() {
      L3? || L4?
    }
  }

  datatype Identity = Identity(
    userDid: Option<string>, agentDid: Option<string>, merchantDid: Option<string>, skillId: string, sessionId: string)

  datatype Context = Context(who: Identity, apiName: string, arguments: Value, capabilityToken: Option<string>) {
    function ForApi(name: string, args: Value): Context {
      this.(apiName := name, arguments := args)
    }
  }

  datatype Registered = Registered(risk: Risk, componentPath: Option<string>)

  datatype Permission = Allow | Deny(reason: string)
  datatype Consent = Approved | Required(reason: string)
  datatype ApiResult = ApiResult(isError: bool, body: Value)
  datatype Rendered = Rendered(payload: Value, fallbackReason: Option<string>)

  datatype Error =
    | ApiNotFound(name: string)
    | InvalidArguments(name: string)
    | PermissionDenied(reason: string)
    | ConsentRequired(reason: string)
    | InvalidResult(name: string)
    | Unserializable(message: string)
    | External(message: string)

  datatype Request = Request(who: Identity, apiName: string, risk: Risk, requestedAt: nat, summary: Value)

  datatype Proof = Proof(
    id: string, who: Identity, apiName: string, risk: Risk, grantedAt: nat, summary: Value, digest: string, provider: string)

  datatype Audit = Audit(who: Identity, apiName: string, risk: Risk, summary: Value, proof: Option<Proof>, outcome: string)

  datatype Outcome = Outcome(result: ApiResult, modelVisible: Value, render: Option<Rendered>)

  /** What the parties around one call answer, and what the clock reads; each is asked at most once. */
  datatype Answers = Answers(
    inputValid: bool, permission: Result<Permission, string>, consent: Result<Consent, string>,
    execute: Result<ApiResult, string>, resultValid: bool, render: Result<Value, string>, fallback: Value,
    audit: Result<(), string>, visible: Result<Value, string>, requestedAt: nat, grantedAt: nat)

  datatype Event =
    | Begun(context: Context, risk: Risk)
    | Validated(valid: bool)
    | Permitted(permission: Result<Permission, string>)
    | Asked(request: Request, consent: Result<Consent, string>)
    | Executed(context: Context, componentPath: Option<string>)
    | Rendering(path: string)
    | FellBack(reason: string)
    | Recorded(audit: Audit, stored: bool)

  // ----- consent and audit records -----

  function BuildRequest(c: Context, risk: Risk, now: nat): Request {
    Request(c.who, c.apiName, risk, now, Redaction.Redact(c.arguments))
  }

  function MakeProof(request: Request, provider: string, digest: string, now: nat): Proof {
    var id := "consent:" + request.who.skillId + ":" + request.apiName + ":" + Positional.Decimal(now) + ":" + digest;
    Proof(id, request.who, request.apiName, request.risk, now, request.summary, digest, provider)
  }

  function GateProof(request: Request, now: nat): Proof {
    MakeProof(request, "dock-core-consent-gate", Digest.DigestOf(request.summary), now)
  }

  function AuditOf(c: Context, risk: Risk, proof: Option<Proof>, outcome: string): Audit {
    Audit(c.who, c.apiName, risk, Redaction.Redact(c.arguments), proof, outcome)
  }

  // ----- one call -----

  /** What a call leaves in the log, and what it returns. */
  datatype Transcript = Transcript(events: seq<Event>, result: Result<Outcome, Error>)

  /** Records the end of a call; a failing audit log replaces the call's own error. */
  function Close(a: Answers, audit: Audit, result: Result<Outcome, Error>): Transcript {
    Transcript([Recorded(audit, a.audit.Ok?)], if a.audit.Ok? then result else Err(External(a.audit.error)))
  }

  function Then(events: seq<Event>, t: Transcript): Transcript {
    t.(events := events + t.events)
  }

  function Route(r: Registered, a: Answers, result: ApiResult): (seq<Event>, Option<Rendered>) {
    if result.isError then ([], None)
    else match r.componentPath
      case None => ([FellBack("no_component_path")], Some(Rendered(a.fallback, Some("no_component_path"))))
      case Some(path) =>
        match a.render
        case Ok(payload) => ([Rendering(path)], Some(Rendered(payload, None)))
        case Err(e) =>
          ([Rendering(path), FellBack("render_failed: " + e)], Some(Rendered(a.fallback, Some("render_failed: " + e))))
  }

  function Execute(r: Registered, c: Context, a: Answers, proof: Option<Proof>): Transcript {
    Then([Executed(c, r.componentPath)],
         match a.execute
         case Err(e) => Close(a, AuditOf(c, r.risk, proof, "error"), Err(External(e)))
         case Ok(result) =>
           if !a.resultValid then Close(a, AuditOf(c, r.risk, proof, "validation_failed"), Err(InvalidResult(c.apiName)))
           else
             var (events, render) := Route(r, a, result);
             Then(events, Close(a, AuditOf(c, r.risk, proof, "ok"),
                                match a.visible
                                case Ok(visible) => Ok(Outcome(result, visible, render))
                                case Err(e) => Err(Unserializable(e)))))
  }

  function Gate(r: Registered, c: Context, a: Answers): Transcript {
    if !r.risk.RequiresConsent() then Execute(r, c, a, None) else
    var request := BuildRequest(c, r.risk, a.requestedAt);
    Then([Asked(request, a.consent)],
         match a.consent
         case Err(e) => Transcript([], Err(External(e)))
         case Ok(Required(reason)) =>
           Close(a, AuditOf(c, r.risk, None, "blocked_consent_required"), Err(ConsentRequired(reason)))
         case Ok(Approved) => Execute(r, c, a, Some(GateProof(request, a.grantedAt))))
  }

  function Admit(r: Registered, c: Context, a: Answers): Transcript {
    Then([Permitted(a.permission)],
         match a.permission
         case Err(e) => Transcript([], Err(External(e)))
         case Ok(Deny(reason)) =>
           Close(a, AuditOf(c, r.risk, None, "blocked_permission_denied"), Err(PermissionDenied(reason)))
         case Ok(Allow) => Gate(r, c, a))
  }

  function Call(registry: map<string, Registered>, c: Context, a: Answers): Transcript {
    if c.apiName !in registry then Transcript([], Err(ApiNotFound(c.apiName))) else
    var r := registry[c.apiName];
    Then([Begun(c, r.risk), Validated(a.inputValid)],
         if !a.inputValid then Close(a, AuditOf(c, r.risk, None, "validation_failed"), Err(InvalidArguments(c.apiName)))
         else Admit(r, c, a))
  }

  datatype Action =
    | FollowUp(content: seq<string>)
    | ApiCall(name: string, arguments: Value)
    | OpenDetailPage(url: string)
    | ExpirePreviousCards(paths: seq<string>)

  class Orchestrator {
    const registry: map<string, Registered>
    var log: seq<Event>

    constructor (registry: map<string, Registered>)
      ensures this.registry == registry && log == []
    {
      this.registry := registry;
      log := [];
    }

    method RecordAudit(c: Context, risk: Risk, proof: Option<Proof>, outcome: string, a: Answers) returns (r: Result<(), Error>)
      modifies this
      ensures log == old(log) + [Recorded(AuditOf(c, risk, proof, outcome), a.audit.Ok?)]
      ensures r == match a.audit { case Ok(_) => Ok(()) case Err(e) => Err(External(e)) }
    {
      log := log + [Recorded(AuditOf(c, risk, proof, outcome), a.audit.Ok?)];
      if a.audit.Err? {
        return Err(External(a.audit.error));
      }
      return Ok(());
    }

    method RouteResult(r: Registered, a: Answers, result: ApiResult) returns (render: Option<Rendered>)
      modifies this
      ensures log == old(log) + Route(r, a, result).0 && render == Route(r, a, result).1
    {
      if result.isError {
        return None;
      }
      match r.componentPath {
        case None =>
          log := log + [FellBack("no_component_path")];
          return Some(Rendered(a.fallback, Some("no_component_path")));
        case Some(path) =>
          log := log + [Rendering(path)];
          match a.render {
            case Ok(payload) =>
              return Some(Rendered(payload, None));
            case Err(e) =>
              log := log + [FellBack("render_failed: " + e)];
              return Some(Rendered(a.fallback, Some("render_failed: " + e)));
          }
      }
    }

    /** Execution and all that follows it. */
    method ExecuteAndRecord(r: Registered, c: Context, a: Answers, proof: Option<Proof>) returns (result: Result<Outcome, Error>)
      modifies this
      ensures log == old(log) + Execute(r, c, a, proof).events && result == Execute(r, c, a, proof).result
    {
      hide AuditOf, Route;
      log := log + [Executed(c, r.componentPath)];
      if a.execute.Err? {
        var recorded := RecordAudit(c, r.risk, proof, "error", a);
        return Err(if recorded.Err? then recorded.error else External(a.execute.error));
      }
      if !a.resultValid {
        var recorded := RecordAudit(c, r.risk, proof, "validation_failed", a);
        return Err(if recorded.Err? then recorded.error else InvalidResult(c.apiName));
      }
      var render := RouteResult(r, a, a.execute.value);
      var recorded := RecordAudit(c, r.risk, proof, "ok", a);
      if recorded.Err? {
        return Err(recorded.error);
      }
      if a.visible.Err? {
        return Err(Unserializable(a.visible.error));
      }
      return Ok(Outcome(a.execute.value, a.visible.value, render));
    }

    method CallApi(c: Context, a: Answers) returns (result: Result<Outcome, Error>)
      modifies this
      ensures log == old(log) + Call(registry, c, a).events && result == Call(registry, c, a).result
    {
      hide AuditOf, Execute, BuildRequest, GateProof;
      if c.apiName !in registry {
        return Err(ApiNotFound(c.apiName));
      }
      var r := registry[c.apiName];
      log := log + [Begun(c, r.risk)];
      log := log + [Validated(a.inputValid)];
      if !a.inputValid {
        var recorded := RecordAudit(c, r.risk, None, "validation_failed", a);
        return Err(if recorded.Err? then recorded.error else InvalidArguments(c.apiName));
      }
      log := log + [Permitted(a.permission)];
      match a.permission {
        case Err(e) =>
          return Err(External(e));
        case Ok(Deny(reason)) =>
          var recorded := RecordAudit(c, r.risk, None, "blocked_permission_denied", a);
          return Err(if recorded.Err? then recorded.error else PermissionDenied(reason));
        case Ok(Allow) =>
      }
      var request := BuildRequest(c, r.risk, a.requestedAt);
      var proof := None;
      if r.risk.RequiresConsent() {
        log := log + [Asked(request, a.consent)];
        match a.consent {
          case Err(e) =>
            return Err(External(e));
          case Ok(Required(reason)) =>
            var recorded := RecordAudit(c, r.risk, None, "blocked_consent_required", a);
            return Err(if recorded.Err? then recorded.error else ConsentRequired(reason));
          case Ok(Approved) =>
            proof := Some(GateProof(request, a.grantedAt));
        }
      }
      result := ExecuteAndRecord(r, c, a, proof);
    }

    method HandleComponentAction(base: Context, action: Action, a: Answers) returns (result: Result<Option<Outcome>, Error>)
      modifies this
      ensures action.ApiCall? ==>
                var t := Call(registry, base.ForApi(action.name, action.arguments), a);
                log == old(log) + t.events && result == match t.result { case Ok(o) => Ok(Some(o)) case Err(e) => Err(e) }
      ensures !action.ApiCall? ==> log == old(log) && result == Ok(None)
    {
      hide Call;
      match action {
        case ApiCall(name, arguments) =>
          var r := CallApi(base.ForApi(name, arguments), a);
          return match r { case Ok(o) => Ok(Some(o)) case Err(e) => Err(e) };
        case _ =>
          return Ok(None);
      }
    }
  }
}
