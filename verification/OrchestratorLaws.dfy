/** What every run of API calls keeps: gates before execution, one audit event a call, one summary for proof and audit. */
module OrchestratorLaws {
  import opened Wrappers
  import opened Orchestrator
  import Digest
  import Redaction

  // ----- runs -----

  /** A call of the host, or an action of a component it has mounted. */
  datatype Op = Direct(context: Context, answers: Answers) | FromComponent(base: Context, action: Action, answers: Answers)

  function Run(registry: map<string, Registered>, op: Op): Transcript
    requires op.FromComponent? ==> op.action.ApiCall?
  {
    match op
    case Direct(c, a) => Call(registry, c, a)
    case FromComponent(base, action, a) => Call(registry, base.ForApi(action.name, action.arguments), a)
  }

  predicate Calls(op: Op) {
    op.FromComponent? ==> op.action.ApiCall?
  }

  /** The log of a run. */
  function Log(registry: map<string, Registered>, ops: seq<Op>): seq<Event>
    decreases |ops|
  {
    if ops == [] then []
    else (if Calls(ops[0]) then Run(registry, ops[0]).events else []) + Log(registry, ops[1..])
  }

  // ----- gates -----

  /** The event stands in the log after position `b` and before position `j`. */
  ghost predicate Between(log: seq<Event>, b: int, j: int, e: Event) {
    exists i :: b < i < j && 0 <= i < |log| && log[i] == e
  }

  ghost predicate NoBegin(log: seq<Event>, b: int, j: int) {
    forall i | b < i < j && 0 <= i < |log| :: !log[i].Begun?
  }

  /** The call that began at `b` passed all its gates before `j`. */
  ghost predicate Passed(log: seq<Event>, b: nat, j: nat, c: Context, risk: Risk) {
    && b < j <= |log| && log[b] == Begun(c, risk) && NoBegin(log, b, j)
    && Between(log, b, j, Validated(true))
    && Between(log, b, j, Permitted(Ok(Allow)))
    && (risk.RequiresConsent() ==> exists now: nat :: Between(log, b, j, Asked(BuildRequest(c, risk, now), Ok(Approved))))
  }

  /** An execution follows, in its own call, valid input, a permission and, from risk L3 on, the user's approval of these arguments. */
  ghost predicate GuardedAt(log: seq<Event>, j: nat) {
    j < |log| && log[j].Executed? ==> exists b: nat, risk :: b < j && Passed(log, b, j, log[j].context, risk)
  }

  ghost predicate Guarded(log: seq<Event>) {
    forall j: nat | j < |log| :: GuardedAt(log, j)
  }

  lemma BetweenShifts(a: seq<Event>, log: seq<Event>, z: seq<Event>, b: int, j: int, e: Event)
    requires b >= 0 && j <= |log| && Between(log, b, j, e)
    ensures Between(a + log + z, |a| + b, |a| + j, e)
  {
    var i :| b < i < j && 0 <= i < |log| && log[i] == e;
    assert (a + log + z)[|a| + i] == e;
  }

  lemma PassedShifts(a: seq<Event>, log: seq<Event>, z: seq<Event>, b: nat, j: nat, c: Context, risk: Risk)
    requires Passed(log, b, j, c, risk)
    ensures Passed(a + log + z, |a| + b, |a| + j, c, risk)
  {
    hide Between, BuildRequest;
    var all := a + log + z;
    assert all[|a| + b] == log[b];
    forall i | |a| + b < i < |a| + j && 0 <= i < |all| ensures !all[i].Begun? {
      assert all[i] == log[i - |a|];
    }
    BetweenShifts(a, log, z, b, j, Validated(true));
    BetweenShifts(a, log, z, b, j, Permitted(Ok(Allow)));
    if risk.RequiresConsent() {
      var now: nat :| Between(log, b, j, Asked(BuildRequest(c, risk, now), Ok(Approved)));
      BetweenShifts(a, log, z, b, j, Asked(BuildRequest(c, risk, now), Ok(Approved)));
    }
  }

  lemma GuardedConcat(a: seq<Event>, z: seq<Event>)
    requires Guarded(a) && Guarded(z)
    ensures Guarded(a + z)
  {
    hide Passed;
    var all := a + z;
    forall j: nat | j < |all| ensures GuardedAt(all, j) {
      if all[j].Executed? {
        if j < |a| {
          assert all[j] == a[j] && GuardedAt(a, j);
          var b: nat, risk :| b < j && Passed(a, b, j, a[j].context, risk);
          PassedShifts([], a, z, b, j, a[j].context, risk);
          assert [] + a + z == all;
        } else {
          assert all[j] == z[j - |a|] && GuardedAt(z, j - |a|);
          var b: nat, risk :| b < j - |a| && Passed(z, b, j - |a|, z[j - |a|].context, risk);
          PassedShifts(a, z, [], b, j - |a|, z[j - |a|].context, risk);
          assert a + z + [] == all;
        }
      }
    }
  }

  /** Nothing after an execution in one call begins or executes. */
  lemma AfterExecution(r: Registered, c: Context, a: Answers, proof: Option<Proof>)
    ensures var events := Execute(r, c, a, proof).events;
      && events != [] && events[0] == Executed(c, r.componentPath)
      && forall i | 1 <= i < |events| :: !events[i].Executed? && !events[i].Begun?
  {
    hide AuditOf;
  }

  /** The events before an execution, when there is one. */
  function Gates(r: Registered, c: Context, a: Answers): seq<Event> {
    [Begun(c, r.risk), Validated(a.inputValid), Permitted(a.permission)] +
    if r.risk.RequiresConsent() then [Asked(BuildRequest(c, r.risk, a.requestedAt), a.consent)] else []
  }

  predicate Opens(r: Registered, a: Answers) {
    a.inputValid && a.permission == Ok(Allow) && (r.risk.RequiresConsent() ==> a.consent == Ok(Approved))
  }

  function ProofOf(r: Registered, c: Context, a: Answers): Option<Proof> {
    if r.risk.RequiresConsent() then Some(GateProof(BuildRequest(c, r.risk, a.requestedAt), a.grantedAt)) else None
  }

  /** Either all gates open and the execution follows, or nothing is executed. */
  lemma CallShape(registry: map<string, Registered>, c: Context, a: Answers)
    requires c.apiName in registry
    ensures var r := registry[c.apiName];
      && (Opens(r, a) ==>
            Call(registry, c, a) == Then(Gates(r, c, a), Execute(r, c, a, ProofOf(r, c, a))))
      && (!Opens(r, a) ==> forall e | e in Call(registry, c, a).events :: !e.Executed?)
  {
    hide Execute, AuditOf, BuildRequest, GateProof;
    var r := registry[c.apiName];
    if Opens(r, a) {
      var run := Execute(r, c, a, ProofOf(r, c, a));
      assert [Begun(c, r.risk), Validated(a.inputValid)] + ([Permitted(a.permission)] + run.events) ==
             [Begun(c, r.risk), Validated(a.inputValid), Permitted(a.permission)] + [] + run.events;
      if r.risk.RequiresConsent() {
        var asked := [Asked(BuildRequest(c, r.risk, a.requestedAt), a.consent)];
        assert [Begun(c, r.risk), Validated(a.inputValid)] + ([Permitted(a.permission)] + (asked + run.events)) ==
               [Begun(c, r.risk), Validated(a.inputValid), Permitted(a.permission)] + asked + run.events;
      }
    }
  }

  lemma GatesPass(r: Registered, c: Context, a: Answers, more: seq<Event>)
    requires Opens(r, a)
    ensures var log := Gates(r, c, a) + more;
      Passed(log, 0, |Gates(r, c, a)|, c, r.risk)
  {
    hide BuildRequest;
    var gates := Gates(r, c, a);
    var log := gates + more;
    assert log[0] == Begun(c, r.risk) && log[1] == Validated(true) && log[2] == Permitted(Ok(Allow));
    assert Between(log, 0, |gates|, Validated(true));
    assert Between(log, 0, |gates|, Permitted(Ok(Allow)));
    if r.risk.RequiresConsent() {
      assert log[3] == Asked(BuildRequest(c, r.risk, a.requestedAt), Ok(Approved));
      assert Between(log, 0, |gates|, Asked(BuildRequest(c, r.risk, a.requestedAt), Ok(Approved)));
    }
  }

  lemma CallGuarded(registry: map<string, Registered>, c: Context, a: Answers)
    ensures Guarded(Call(registry, c, a).events)
  {
    hide Call, Passed, Execute, Gates, Opens;
    var log := Call(registry, c, a).events;
    if c.apiName !in registry {
      UnknownCall(registry, c, a);
    } else {
      var r := registry[c.apiName];
      CallShape(registry, c, a);
      if Opens(r, a) {
        var run := Execute(r, c, a, ProofOf(r, c, a)).events;
        AfterExecution(r, c, a, ProofOf(r, c, a));
        GatesPass(r, c, a, run);
        GatesExecuteNothing(r, c, a);
        forall j: nat | j < |log| ensures GuardedAt(log, j) {
          if log[j].Executed? {
            assert j >= |Gates(r, c, a)|;
            assert log[j] == run[j - |Gates(r, c, a)|];
            assert Passed(log, 0, j, c, r.risk);
          }
        }
      }
    }
  }

  lemma GatesExecuteNothing(r: Registered, c: Context, a: Answers)
    ensures |Gates(r, c, a)| > 0 && forall i | 0 <= i < |Gates(r, c, a)| :: !Gates(r, c, a)[i].Executed?
  {
    hide BuildRequest;
  }

  lemma UnknownCall(registry: map<string, Registered>, c: Context, a: Answers)
    requires c.apiName !in registry
    ensures Call(registry, c, a).events == []
  {
  }

  /** In every run, against any host: no API is executed but through its gates, in the same call. */
  lemma {:induction false} ExecutionsAreGuarded(registry: map<string, Registered>, ops: seq<Op>)
    ensures Guarded(Log(registry, ops))
    decreases |ops|
  {
    hide Guarded, Call;
    NothingGuarded();
    if ops != [] {
      ExecutionsAreGuarded(registry, ops[1..]);
      var mine := if Calls(ops[0]) then Run(registry, ops[0]).events else [];
      if Calls(ops[0]) {
        match ops[0]
        case Direct(c, a) => CallGuarded(registry, c, a);
        case FromComponent(base, action, a) => CallGuarded(registry, base.ForApi(action.name, action.arguments), a);
      }
      assert Guarded(mine);
      assert Log(registry, ops) == mine + Log(registry, ops[1..]);
      GuardedConcat(mine, Log(registry, ops[1..]));
    }
  }

  lemma NothingGuarded()
    ensures Guarded([])
  {
  }

  // ----- audit -----

  function Audits(log: seq<Event>): seq<Event> {
    if log == [] then [] else (if log[0].Recorded? then [log[0]] else []) + Audits(log[1..])
  }

  lemma {:induction false} AuditsConcat(a: seq<Event>, z: seq<Event>)
    ensures Audits(a + z) == Audits(a) + Audits(z)
    decreases |a|
  {
    hide Audits;
    AuditsStep(a);
    AuditsStep(a + z);
    if a == [] {
      assert a + z == z;
    } else {
      assert (a + z)[1..] == a[1..] + z;
      AuditsConcat(a[1..], z);
    }
  }

  lemma AuditsStep(log: seq<Event>)
    ensures log == [] ==> Audits(log) == []
    ensures log != [] ==> Audits(log) == (if log[0].Recorded? then [log[0]] else []) + Audits(log[1..])
  {
  }

  lemma {:induction false} NoAudits(log: seq<Event>)
    requires forall e | e in log :: !e.Recorded?
    ensures Audits(log) == []
    decreases |log|
  {
    if log != [] {
      assert log[0] in log;
      NoAudits(log[1..]);
    }
  }

  /** The one audit event of an execution. */
  function ExecutionAudit(r: Registered, c: Context, a: Answers, proof: Option<Proof>): Audit {
    AuditOf(c, r.risk, proof,
            if a.execute.Err? then "error" else if !a.resultValid then "validation_failed" else "ok")
  }

  lemma ExecuteAudits(r: Registered, c: Context, a: Answers, proof: Option<Proof>)
    ensures Audits(Execute(r, c, a, proof).events) == [Recorded(ExecutionAudit(r, c, a, proof), a.audit.Ok?)]
  {
    hide Audits, AuditOf;
    var end := [Recorded(ExecutionAudit(r, c, a, proof), a.audit.Ok?)];
    OneAudit(end[0]);
    var start := [Executed(c, r.componentPath)];
    NoAudits(start);
    if a.execute.Err? || !a.resultValid {
      AuditsConcat(start, end);
    } else {
      var routed := Route(r, a, a.execute.value).0;
      NoAudits(routed);
      AuditsConcat(routed, end);
      AuditsConcat(start, routed + end);
    }
  }

  lemma OneAudit(e: Event)
    requires e.Recorded?
    ensures Audits([e]) == [e]
  {
    assert [e][1..] == [];
  }

  /** A call whose gates do not open: what is audited, if anything. */
  function BlockedAudit(r: Registered, c: Context, a: Answers): Option<Audit>
    requires !Opens(r, a)
  {
    if !a.inputValid then Some(AuditOf(c, r.risk, None, "validation_failed"))
    else if a.permission.Err? then None
    else if a.permission.value.Deny? then Some(AuditOf(c, r.risk, None, "blocked_permission_denied"))
    else if a.consent.Err? then None
    else Some(AuditOf(c, r.risk, None, "blocked_consent_required"))
  }

  /** The events of such a call before that. */
  function BlockedGates(r: Registered, c: Context, a: Answers): seq<Event> {
    [Begun(c, r.risk), Validated(a.inputValid)] +
    if !a.inputValid then []
    else if a.permission != Ok(Allow) then [Permitted(a.permission)]
    else [Permitted(a.permission), Asked(BuildRequest(c, r.risk, a.requestedAt), a.consent)]
  }

  lemma BlockedShape(registry: map<string, Registered>, c: Context, a: Answers)
    requires c.apiName in registry && !Opens(registry[c.apiName], a)
    ensures var r := registry[c.apiName];
      Call(registry, c, a).events ==
      BlockedGates(r, c, a) + match BlockedAudit(r, c, a) { case Some(audit) => [Recorded(audit, a.audit.Ok?)] case None => [] }
    ensures Call(registry, c, a).result.Err?
  {
    hide AuditOf, Execute, BuildRequest;
    var r := registry[c.apiName];
    var begin := [Begun(c, r.risk), Validated(a.inputValid)];
    var audit := BlockedAudit(r, c, a);
    var end := if audit.Some? then [Recorded(audit.value, a.audit.Ok?)] else [];
    if a.inputValid {
      var permitted := [Permitted(a.permission)];
      if a.permission == Ok(Allow) {
        var asked := [Asked(BuildRequest(c, r.risk, a.requestedAt), a.consent)];
        assert begin + (permitted + (asked + end)) == begin + (permitted + asked) + end;
      } else {
        assert begin + (permitted + end) == begin + permitted + end;
      }
    }
  }

  lemma BlockedGatesAudit(r: Registered, c: Context, a: Answers)
    ensures forall e | e in BlockedGates(r, c, a) :: !e.Recorded?
  {
    hide BuildRequest;
  }

  lemma BlockedAudits(registry: map<string, Registered>, c: Context, a: Answers)
    requires c.apiName in registry && !Opens(registry[c.apiName], a)
    ensures Audits(Call(registry, c, a).events) ==
            match BlockedAudit(registry[c.apiName], c, a)
            case Some(audit) => [Recorded(audit, a.audit.Ok?)]
            case None => []
    ensures Call(registry, c, a).result.Err?
  {
    hide Audits, Call, BlockedGates, BlockedAudit;
    var r := registry[c.apiName];
    BlockedShape(registry, c, a);
    BlockedGatesAudit(r, c, a);
    NoAudits(BlockedGates(r, c, a));
    NoAudits([]);
    match BlockedAudit(r, c, a)
    case Some(audit) =>
      OneAudit(Recorded(audit, a.audit.Ok?));
      AuditsConcat(BlockedGates(r, c, a), [Recorded(audit, a.audit.Ok?)]);
    case None =>
      AuditsConcat(BlockedGates(r, c, a), []);
  }

  /** Every call leaves at most one audit event, and none exactly when the API is unknown or a gate could not answer. */
  lemma AuditedOnceUnless(registry: map<string, Registered>, c: Context, a: Answers)
    ensures var audits := Audits(Call(registry, c, a).events);
      && |audits| <= 1
      && (audits == [] <==>
          c.apiName !in registry ||
          (a.inputValid &&
           (a.permission.Err? ||
            (a.permission.value.Allow? && registry[c.apiName].risk.RequiresConsent() && a.consent.Err?))))
  {
    hide Call, Audits, Execute, Gates, BuildRequest;
    if c.apiName !in registry {
      UnknownCall(registry, c, a);
      NoAudits([]);
    } else {
      var r := registry[c.apiName];
      CallShape(registry, c, a);
      if Opens(r, a) {
        OpenedAudits(registry, c, a);
      } else {
        BlockedAudits(registry, c, a);
      }
    }
  }

  lemma OpenedAudits(registry: map<string, Registered>, c: Context, a: Answers)
    requires c.apiName in registry && Opens(registry[c.apiName], a)
    ensures var r := registry[c.apiName];
      Audits(Call(registry, c, a).events) == [Recorded(ExecutionAudit(r, c, a, ProofOf(r, c, a)), a.audit.Ok?)]
  {
    hide Call, Audits, Execute, BuildRequest, GateProof, AuditOf;
    var r := registry[c.apiName];
    CallShape(registry, c, a);
    NoAudits(Gates(r, c, a));
    AuditsConcat(Gates(r, c, a), Execute(r, c, a, ProofOf(r, c, a)).events);
    ExecuteAudits(r, c, a, ProofOf(r, c, a));
  }

  /** The consent proof and the audit event of a call carry one summary, and the digest is that of the raw arguments. */
  ghost predicate Agrees(audit: Audit, c: Context, risk: Risk) {
    && audit.who == c.who && audit.apiName == c.apiName && audit.risk == risk
    && audit.summary == Redaction.Redact(c.arguments)
    && (audit.proof.Some? ==>
          && audit.proof.value.summary == audit.summary
          && audit.proof.value.digest == Digest.DigestOf(c.arguments)
          && audit.proof.value.who == c.who && audit.proof.value.apiName == c.apiName && audit.proof.value.risk == risk)
  }

  /** A call returns a result only with exactly one stored audit event "ok", and a proof in it exactly from risk L3 on. */
  lemma OkIsAudited(registry: map<string, Registered>, c: Context, a: Answers)
    ensures Call(registry, c, a).result.Ok? ==>
              && c.apiName in registry
              && exists audit: Audit :: OkAudit(registry[c.apiName].risk, c, audit) && Audits(Call(registry, c, a).events) == [Recorded(audit, true)]
  {
    hide Call, Audits, Execute, OkAudit;
    if Call(registry, c, a).result.Ok? {
      UnknownFails(registry, c, a);
      var r := registry[c.apiName];
      if !Opens(r, a) {
        BlockedAudits(registry, c, a);
      } else {
        CallShape(registry, c, a);
        OpenedAudits(registry, c, a);
        ExecuteOk(r, c, a, ProofOf(r, c, a));
        var audit := ExecutionAudit(r, c, a, ProofOf(r, c, a));
        AuditAgrees(r, c, a);
        assert Audits(Call(registry, c, a).events) == [Recorded(audit, true)];
      }
    }
  }

  ghost predicate OkAudit(risk: Risk, c: Context, audit: Audit) {
    audit.outcome == "ok" && (audit.proof.Some? <==> risk.RequiresConsent()) && Agrees(audit, c, risk)
  }

  lemma UnknownFails(registry: map<string, Registered>, c: Context, a: Answers)
    ensures c.apiName !in registry ==> Call(registry, c, a).result.Err?
  {
  }

  lemma ExecuteOk(r: Registered, c: Context, a: Answers, proof: Option<Proof>)
    ensures Execute(r, c, a, proof).result.Ok? <==> a.execute.Ok? && a.resultValid && a.audit.Ok? && a.visible.Ok?
  {
    hide AuditOf, Route;
  }

  lemma AuditAgrees(r: Registered, c: Context, a: Answers)
    requires a.execute.Ok? && a.resultValid
    ensures OkAudit(r.risk, c, ExecutionAudit(r, c, a, ProofOf(r, c, a)))
  {
    hide Digest.DigestOf, Redaction.Redact;
    Digest.DigestOfSummary(c.arguments);
  }

  /** An "ok" event is recorded exactly when the API ran to a valid result, and the result returned if nothing failed after that. */
  lemma OkAuditWithoutResultIff(registry: map<string, Registered>, c: Context, a: Answers)
    requires c.apiName in registry
    ensures var r := registry[c.apiName];
      var executed := Opens(r, a) && a.execute.Ok? && a.resultValid;
      && (Call(registry, c, a).result.Ok? <==> executed && a.audit.Ok? && a.visible.Ok?)
      && (executed <==> exists audit: Audit :: audit.outcome == "ok" && Audits(Call(registry, c, a).events) == [Recorded(audit, a.audit.Ok?)])
  {
    hide Call, Audits, Execute, BuildRequest, GateProof, Gates, Opens;
    var r := registry[c.apiName];
    assert "blocked_permission_denied"[0] != "ok"[0] && "blocked_consent_required"[0] != "ok"[0];
    assert "validation_failed"[0] != "ok"[0] && "error"[0] != "ok"[0];
    if Opens(r, a) {
      CallShape(registry, c, a);
      OpenedAudits(registry, c, a);
      ExecuteOk(r, c, a, ProofOf(r, c, a));
    } else {
      BlockedAudits(registry, c, a);
    }
  }

  lemma StoredByTheLog(registry: map<string, Registered>, c: Context, a: Answers)
    requires c.apiName in registry
    ensures forall e | e in Audits(Call(registry, c, a).events) :: e.Recorded? && e.stored == a.audit.Ok?
  {
    hide Call, Audits, Opens;
    if Opens(registry[c.apiName], a) {
      OpenedAudits(registry, c, a);
    } else {
      BlockedAudits(registry, c, a);
    }
  }

  /**
    A stored event "ok" comes with the result and the other way round, as long as the result can be serialised for the
    model. It is a flag, a list of texts and perhaps an object, which is always so.
   */
  lemma StoredOkIffReturned(registry: map<string, Registered>, c: Context, a: Answers)
    ensures Call(registry, c, a).result.Ok? <==>
            a.visible.Ok? && exists audit: Audit :: audit.outcome == "ok" && Audits(Call(registry, c, a).events) == [Recorded(audit, true)]
  {
    hide Call, Audits, Opens;
    if c.apiName in registry {
      OkAuditWithoutResultIff(registry, c, a);
      StoredByTheLog(registry, c, a);
      if a.audit.Err? {
        forall audit: Audit ensures Audits(Call(registry, c, a).events) != [Recorded(audit, true)] {
          assert Recorded(audit, true) in [Recorded(audit, true)];
        }
      }
    } else {
      UnknownCall(registry, c, a);
      NoAudits([]);
      UnknownFails(registry, c, a);
    }
  }

  // ----- rendering -----

  /** What the log of a call says about rendering `path`, and about falling back for `reason`. */
  ghost predicate Tells(log: seq<Event>, path: Option<string>, reason: Option<string>) {
    && (forall p :: Rendering(p) in log <==> path == Some(p))
    && (forall t :: FellBack(t) in log <==> reason == Some(t))
  }

  lemma RouteTells(r: Registered, a: Answers, result: ApiResult)
    ensures var (events, render) := Route(r, a, result);
      && (render.Some? <==> !result.isError)
      && Tells(events, if result.isError then None else r.componentPath, if render.Some? then render.value.fallbackReason else None)
      && (render.Some? ==>
            && (render.value.fallbackReason.Some? <==> r.componentPath.None? || a.render.Err?)
            && render.value.payload == if render.value.fallbackReason.Some? then a.fallback else a.render.value)
  {
  }

  lemma GatesTellNothing(r: Registered, c: Context, a: Answers)
    ensures Tells(Gates(r, c, a), None, None)
  {
    hide BuildRequest;
  }

  lemma ExecuteTells(r: Registered, c: Context, a: Answers, proof: Option<Proof>)
    requires a.execute.Ok? && a.resultValid
    ensures forall path, reason :: Tells(Route(r, a, a.execute.value).0, path, reason) ==> Tells(Execute(r, c, a, proof).events, path, reason)
  {
    hide Route, AuditOf;
  }

  /**
    A returned result is rendered unless it is an error: the component of its API is asked if there is one, and the
    fallback replaces it exactly when there is none or it failed. The log says the same as the answer.
   */
  lemma RendersUnlessError(registry: map<string, Registered>, c: Context, a: Answers)
    requires Call(registry, c, a).result.Ok?
    ensures c.apiName in registry
    ensures var (o, path) := (Call(registry, c, a).result.value, registry[c.apiName].componentPath);
      && (o.render.Some? <==> !o.result.isError)
      && Tells(Call(registry, c, a).events,
               if o.result.isError then None else path, if o.render.Some? then o.render.value.fallbackReason else None)
      && (o.render.Some? ==>
            && (o.render.value.fallbackReason.Some? <==> path.None? || a.render.Err?)
            && o.render.value.payload == if o.render.value.fallbackReason.Some? then a.fallback else a.render.value)
  {
    hide Call, Execute, Route, Tells, Gates, Opens, ProofOf;
    UnknownFails(registry, c, a);
    var r := registry[c.apiName];
    if Opens(r, a) {
      CallShape(registry, c, a);
      ExecuteOk(r, c, a, ProofOf(r, c, a));
      var result := a.execute.value;
      RouteTells(r, a, result);
      ExecuteTells(r, c, a, ProofOf(r, c, a));
      GatesTellNothing(r, c, a);
      assert Call(registry, c, a).result.Ok? ==> Execute(r, c, a, ProofOf(r, c, a)).result.Ok?;
      ExecuteReturns(r, c, a, ProofOf(r, c, a));
      JointlyTell(Gates(r, c, a), Execute(r, c, a, ProofOf(r, c, a)).events);
    } else {
      BlockedAudits(registry, c, a);
    }
  }

  lemma ExecuteReturns(r: Registered, c: Context, a: Answers, proof: Option<Proof>)
    requires Execute(r, c, a, proof).result.Ok?
    ensures var o := Execute(r, c, a, proof).result.value;
      a.execute.Ok? && o.result == a.execute.value && o.render == Route(r, a, a.execute.value).1
  {
    hide Route, AuditOf;
  }

  lemma JointlyTell(a: seq<Event>, b: seq<Event>)
    requires Tells(a, None, None)
    ensures forall path, reason :: Tells(b, path, reason) ==> Tells(a + b, path, reason)
  {
  }
}
