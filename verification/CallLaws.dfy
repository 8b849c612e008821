/** The answer and the whole log of one API call, read off the answers of the parties around it. */
module CallLaws {
  import opened Wrappers
  import opened Checks
  import opened Orchestrator
  import Digest
  import Positional
  import Redaction

  /** Whether the call gets past its gates; from risk L3 on the user is asked too. */
  predicate NeedsConsent(risk: Risk) {
    risk == L3 || risk == L4
  }

  predicate IsAllowed(a: Answers) {
    a.inputValid && a.permission == Ok(Allow)
  }

  predicate IsOpened(r: Registered, a: Answers) {
    IsAllowed(a) && (NeedsConsent(r.risk) ==> a.consent == Ok(Approved))
  }

  predicate IsFinished(r: Registered, a: Answers) {
    IsOpened(r, a) && a.execute.Ok? && a.resultValid
  }

  /** The error of a step whose end is audited: the audit log's own error comes first. */
  function Audited(a: Answers, e: Error): Error {
    if a.audit.Ok? then e else External(a.audit.error)
  }

  type CallCheck = Check<Error>

  function GateChecks(r: Registered, c: Context, a: Answers): seq<CallCheck> {
    [Check(a.inputValid, Audited(a, InvalidArguments(c.apiName))),
     Check(a.permission.Ok?, External(if a.permission.Err? then a.permission.error else "")),
     Check(a.permission == Ok(Allow), Audited(a, PermissionDenied(if a.permission.Ok? && a.permission.value.Deny? then a.permission.value.reason else ""))),
     Check(NeedsConsent(r.risk) ==> a.consent.Ok?, External(if a.consent.Err? then a.consent.error else "")),
     Check(NeedsConsent(r.risk) ==> a.consent == Ok(Approved),
           Audited(a, ConsentRequired(if a.consent.Ok? && a.consent.value.Required? then a.consent.value.reason else "")))]
  }

  function ResultChecks(c: Context, a: Answers): seq<CallCheck> {
    [Check(a.execute.Ok?, Audited(a, External(if a.execute.Err? then a.execute.error else ""))),
     Check(a.resultValid, Audited(a, InvalidResult(c.apiName))),
     Check(a.audit.Ok?, External(if a.audit.Err? then a.audit.error else "")),
     Check(a.visible.Ok?, Unserializable(if a.visible.Err? then a.visible.error else ""))]
  }

  /** What is rendered of a result: nothing of an error, the component's payload, or the fallback with its reason. */
  function Shown(r: Registered, a: Answers): Option<Rendered>
    requires a.execute.Ok?
  {
    if a.execute.value.isError then None
    else if r.componentPath.Some? && a.render.Ok? then Some(Rendered(a.render.value, None))
    else Some(Rendered(a.fallback,
                       Some(if r.componentPath.None? || a.render.Ok? then "no_component_path" else "render_failed: " + a.render.error)))
  }

  lemma FirstOfFour(a: CallCheck, b: CallCheck, c: CallCheck, d: CallCheck)
    ensures FirstFailure([a, b, c, d]) ==
            if !a.passes then Some(a.error) else if !b.passes then Some(b.error) else if !c.passes then Some(c.error)
            else if !d.passes then Some(d.error) else None
  {
    FirstStep(a, [b, c, d]);
    FirstStep(b, [c, d]);
    FirstStep(c, [d]);
    FirstStep(d, []);
    NoFailure<Error>();
    assert [a] + [b, c, d] == [a, b, c, d] && [b] + [c, d] == [b, c, d] && [c] + [d] == [c, d] && [d] + [] == [d];
  }

  lemma FirstOfFive(a: CallCheck, b: CallCheck, c: CallCheck, d: CallCheck, e: CallCheck)
    ensures FirstFailure([a, b, c, d, e]) == if a.passes then FirstFailure([b, c, d, e]) else Some(a.error)
  {
    FirstStep(a, [b, c, d, e]);
    assert [a] + [b, c, d, e] == [a, b, c, d, e];
  }

  /** A call is answered by the first gate or result check that fails, and otherwise with the result and what is rendered of it. */
  lemma AnswerIs(registry: map<string, Registered>, c: Context, a: Answers)
    ensures var answer := Call(registry, c, a).result;
      if c.apiName !in registry then answer == Err(ApiNotFound(c.apiName))
      else
        var r := registry[c.apiName];
        var shut, failed := FirstFailure(GateChecks(r, c, a)), FirstFailure(ResultChecks(c, a));
        if shut.Some? then answer == Err(shut.value)
        else if failed.Some? then answer == Err(failed.value)
        else a.execute.Ok? && a.visible.Ok? && answer == Ok(Outcome(a.execute.value, a.visible.value, Shown(r, a)))
  {
    hide AuditOf, BuildRequest, GateProof, FirstFailure, Execute;
    if c.apiName in registry {
      var r := registry[c.apiName];
      var gates := GateChecks(r, c, a);
      FirstOfFive(gates[0], gates[1], gates[2], gates[3], gates[4]);
      FirstOfFour(gates[1], gates[2], gates[3], gates[4]);
      ExecutionIs(r, c, a, if NeedsConsent(r.risk) then Some(GateProof(BuildRequest(c, r.risk, a.requestedAt), a.grantedAt)) else None);
    }
  }

  lemma ExecutionIs(r: Registered, c: Context, a: Answers, proof: Option<Proof>)
    ensures var answer, failed := Execute(r, c, a, proof).result, FirstFailure(ResultChecks(c, a));
      if failed.Some? then answer == Err(failed.value)
      else a.execute.Ok? && a.visible.Ok? && answer == Ok(Outcome(a.execute.value, a.visible.value, Shown(r, a)))
  {
    hide AuditOf, FirstFailure;
    var checks := ResultChecks(c, a);
    FirstOfFour(checks[0], checks[1], checks[2], checks[3]);
  }

  // ----- the log -----

  /** The proof of an approval: the id names the skill, the API, the time and the digest of the arguments. */
  function ProofFor(r: Registered, c: Context, a: Answers): Option<Proof> {
    if !IsOpened(r, a) || !NeedsConsent(r.risk) then None
    else
      var digest := Digest.DigestOf(c.arguments);
      Some(Proof("consent:" + c.who.skillId + ":" + c.apiName + ":" + Positional.Decimal(a.grantedAt) + ":" + digest,
                 c.who, c.apiName, r.risk, a.grantedAt, Redaction.Redact(c.arguments), digest, "dock-core-consent-gate"))
  }

  /** The name under which the end of a call is audited, unless a gate could not answer. */
  function EndName(r: Registered, a: Answers): Option<string> {
    if !a.inputValid then Some("validation_failed")
    else if a.permission.Err? then None
    else if a.permission != Ok(Allow) then Some("blocked_permission_denied")
    else if NeedsConsent(r.risk) && a.consent.Err? then None
    else if NeedsConsent(r.risk) && a.consent != Ok(Approved) then Some("blocked_consent_required")
    else if a.execute.Err? then Some("error")
    else if !a.resultValid then Some("validation_failed")
    else Some("ok")
  }

  function RenderLog(r: Registered, a: Answers): seq<Event>
    requires a.execute.Ok?
  {
    (if !a.execute.value.isError && r.componentPath.Some? then [Rendering(r.componentPath.value)] else [])
    + if a.execute.value.isError || (r.componentPath.Some? && a.render.Ok?) then []
      else [FellBack(if r.componentPath.None? || a.render.Ok? then "no_component_path" else "render_failed: " + a.render.error)]
  }

  function EndLog(r: Registered, c: Context, a: Answers): seq<Event> {
    match EndName(r, a)
    case Some(name) => [Recorded(Audit(c.who, c.apiName, r.risk, Redaction.Redact(c.arguments), ProofFor(r, c, a), name), a.audit.Ok?)]
    case None => []
  }

  /** All that a call leaves in the log, each entry for its own reason. */
  function LogOf(r: Registered, c: Context, a: Answers): seq<Event> {
    [Begun(c, r.risk), Validated(a.inputValid)]
    + ((if a.inputValid then [Permitted(a.permission)] else [])
    + ((if IsAllowed(a) && NeedsConsent(r.risk) then
          [Asked(Request(c.who, c.apiName, r.risk, a.requestedAt, Redaction.Redact(c.arguments)), a.consent)] else [])
    + ((if IsOpened(r, a) then [Executed(c, r.componentPath)] else [])
    + ((if IsFinished(r, a) then RenderLog(r, a) else [])
    + EndLog(r, c, a)))))
  }

  lemma ProofIs(r: Registered, c: Context, a: Answers)
    requires IsOpened(r, a) && NeedsConsent(r.risk)
    ensures Some(GateProof(BuildRequest(c, r.risk, a.requestedAt), a.grantedAt)) == ProofFor(r, c, a)
  {
    hide Digest.DigestOf, Redaction.Redact, Positional.Decimal;
    Digest.DigestOfSummary(c.arguments);
  }

  lemma NothingBefore(e: seq<Event>)
    ensures [] + e == e && e + [] == e
  {
  }

  lemma ExecutionLog(r: Registered, c: Context, a: Answers)
    requires IsOpened(r, a)
    ensures Execute(r, c, a, ProofFor(r, c, a)).events ==
            [Executed(c, r.componentPath)] + ((if IsFinished(r, a) then RenderLog(r, a) else []) + EndLog(r, c, a))
  {
    hide ProofFor, Redaction.Redact;
    NothingBefore(EndLog(r, c, a));
    if a.execute.Ok? {
      RouteIs(r, a);
    }
    hide Route, RenderLog;
  }

  lemma RouteIs(r: Registered, a: Answers)
    requires a.execute.Ok?
    ensures Route(r, a, a.execute.value).0 == RenderLog(r, a)
  {
  }

  lemma GateLog(r: Registered, c: Context, a: Answers)
    requires IsAllowed(a)
    ensures Gate(r, c, a).events ==
            (if NeedsConsent(r.risk) then
               [Asked(Request(c.who, c.apiName, r.risk, a.requestedAt, Redaction.Redact(c.arguments)), a.consent)] else [])
            + ((if IsOpened(r, a) then [Executed(c, r.componentPath)] else [])
            + ((if IsFinished(r, a) then RenderLog(r, a) else []) + EndLog(r, c, a)))
  {
    hide ProofFor, Redaction.Redact, Execute, RenderLog, GateProof;
    if IsOpened(r, a) {
      ExecutionLog(r, c, a);
      if NeedsConsent(r.risk) {
        ProofIs(r, c, a);
      } else {
        NoProof(r, c, a);
        NothingBefore(Execute(r, c, a, None).events);
      }
    } else {
      NoProof(r, c, a);
      NothingBefore(EndLog(r, c, a));
    }
  }

  lemma NoProof(r: Registered, c: Context, a: Answers)
    requires !IsOpened(r, a) || !NeedsConsent(r.risk)
    ensures ProofFor(r, c, a) == None
  {
  }

  /** The log of a call, entry by entry; an unknown API leaves none. */
  lemma LogIs(registry: map<string, Registered>, c: Context, a: Answers)
    ensures Call(registry, c, a).events == if c.apiName in registry then LogOf(registry[c.apiName], c, a) else []
  {
    hide ProofFor, Redaction.Redact, Gate, RenderLog;
    if c.apiName in registry {
      var r := registry[c.apiName];
      if IsAllowed(a) {
        GateLog(r, c, a);
      } else {
        NoProof(r, c, a);
        NothingBefore(EndLog(r, c, a));
      }
    }
  }

  /** A component's call is made for whom the component is, with the same token, under its own name and arguments. */
  lemma ComponentContext(base: Context, name: string, arguments: Value)
    ensures base.ForApi(name, arguments) == Context(base.who, name, arguments, base.capabilityToken)
  {
  }
}
