/** One-time challenges: a shared store that logins look up and later remove from, under two separate locks. */
module AuthStore {
  import opened Wrappers
  import opened Saturating
  import opened Checks

  datatype ChallengeRequest = ChallengeRequest(sessionId: string, skillId: string, userDid: string, agentDid: Option<string>)

  datatype Challenge = Challenge(
    challengeId: string,
    merchantDid: string,
    nonce: string,
    issuedAtMs: nat,
    expiresAtMs: Option<nat>,
    audience: string)

  datatype Record = Record(request: ChallengeRequest, challenge: Challenge)

  datatype LoginRequest = LoginRequest(
    sessionId: string,
    skillId: string,
    userDid: string,
    agentDid: Option<string>,
    merchantDid: string,
    challengeId: string,
    signedChallenge: string)

  /** What a proof must have signed. */
  datatype Payload = Payload(challenge: Challenge, userDid: string, agentDid: Option<string>, skillId: string, sessionId: string)

  datatype AuthError =
    | UnknownChallenge | ExpiredChallenge | InvalidSignature | UnknownDid | ScopeMismatch | InvalidToken
    | TokenIssuerUnavailable | Unavailable

  /** A capability token and whom it is for. */
  datatype Token = Token(merchantDid: string, userDid: string, agentDid: Option<string>, skillId: string, sessionId: string, value: string)

  /**
    The server: its merchant, and the verification of a signed challenge against the expected payload
    at a time, an arbitrary function whose answer is the error, if any.
   */
  datatype Server = Server(merchantDid: string, check: (string, Payload, nat) -> Option<AuthError>)

  // ----- what each part of a login computes -----

  function NewChallenge(merchant: string, audience: string, ttl: nat, id: string, nonce: string, now: nat): Challenge {
    Challenge(id, merchant, nonce, now, Some(SaturatingAdd(now, ttl)), audience)
  }

  function Find(challenges: map<string, Record>, id: string): Result<Record, AuthError> {
    if id in challenges then Ok(challenges[id]) else Err(UnknownChallenge)
  }

  predicate IsExpired(record: Record, now: nat) {
    record.challenge.expiresAtMs.Some? && record.challenge.expiresAtMs.value <= now
  }

  /** The login is made by whom and for what the challenge was issued. */
  predicate InScope(record: Record, request: LoginRequest) {
    && record.request.sessionId == request.sessionId
    && record.request.skillId == request.skillId
    && record.request.userDid == request.userDid
    && record.request.agentDid == request.agentDid
    && record.challenge.merchantDid == request.merchantDid
  }

  function ExpectedPayload(record: Record, request: LoginRequest): Payload {
    Payload(record.challenge, request.userDid, request.agentDid, request.skillId, request.sessionId)
  }

  /** Why a login with this record is refused, if it is. */
  function Refusal(server: Server, record: Record, request: LoginRequest, readAt: nat, verifyAt: nat): Option<AuthError> {
    if IsExpired(record, readAt) then Some(ExpiredChallenge)
    else if !InScope(record, request) then Some(ScopeMismatch)
    else server.check(request.signedChallenge, ExpectedPayload(record, request), verifyAt)
  }

  function Grant(server: Server, request: LoginRequest, value: string): Token {
    Token(server.merchantDid, request.userDid, request.agentDid, request.skillId, request.sessionId, value)
  }

  // ----- the store -----

  class Store {
    var challenges: map<string, Record>

    constructor ()
      ensures challenges == map[]
    {
      challenges := map[];
    }

    /** Issues a challenge; a poisoned lock leaves the store alone. */
    method IssueChallenge(merchant: string, audience: string, ttl: nat, request: ChallengeRequest,
                          id: string, nonce: string, now: nat, locked: bool)
      returns (challenge: Challenge)
      modifies this
      ensures challenge == NewChallenge(merchant, audience, ttl, id, nonce, now)
      ensures challenges == if locked then old(challenges)[id := Record(request, challenge)] else old(challenges)
    {
      challenge := Challenge(id, merchant, nonce, now, Some(SaturatingAdd(now, ttl)), audience);
      if locked {
        challenges := challenges[challenge.challengeId := Record(request, challenge)];
      }
    }

    method ChallengeRecord(id: string, locked: bool) returns (r: Result<Record, AuthError>)
      ensures r == if locked then Find(challenges, id) else Err(Unavailable)
    {
      if !locked {
        return Err(Unavailable);
      }
      if id in challenges {
        return Ok(challenges[id]);
      }
      return Err(UnknownChallenge);
    }

    method RemoveChallenge(id: string, locked: bool) returns (r: Result<(), AuthError>)
      modifies this
      ensures r == if !locked then Err(Unavailable) else if id in old(challenges) then Ok(()) else Err(UnknownChallenge)
      ensures challenges == if r.Ok? then old(challenges) - {id} else old(challenges)
    {
      if !locked {
        return Err(Unavailable);
      }
      if id !in challenges {
        return Err(UnknownChallenge);
      }
      challenges := challenges - {id};
      return Ok(());
    }

    /** A login that runs alone: `issued` is the token issuer's answer. */
    method Login(server: Server, request: LoginRequest, lockedRead: bool, lockedRemove: bool,
                 readAt: nat, verifyAt: nat, issued: Result<string, AuthError>)
      returns (r: Result<Token, AuthError>)
      modifies this
      ensures (r, challenges) ==
              LoginAlone(server, old(challenges), request, lockedRead, lockedRemove, readAt, verifyAt, issued)
    {
      if request.merchantDid != server.merchantDid {
        return Err(ScopeMismatch);
      }
      var record :- ChallengeRecord(request.challengeId, lockedRead);
      if record.challenge.expiresAtMs.Some? && record.challenge.expiresAtMs.value <= readAt {
        return Err(ExpiredChallenge);
      }
      if record.request.sessionId != request.sessionId
         || record.request.skillId != request.skillId
         || record.request.userDid != request.userDid
         || record.request.agentDid != request.agentDid
         || record.challenge.merchantDid != request.merchantDid {
        return Err(ScopeMismatch);
      }
      var payload := Payload(record.challenge, request.userDid, request.agentDid, request.skillId, request.sessionId);
      var refused := server.check(request.signedChallenge, payload, verifyAt);
      if refused.Some? {
        return Err(refused.value);
      }
      var removed :- RemoveChallenge(request.challengeId, lockedRemove);
      var value :- issued;
      return Ok(Token(server.merchantDid, request.userDid, request.agentDid, request.skillId, request.sessionId, value));
    }
  }

  /** The answer and the store after a login that nothing interrupts. */
  function LoginAlone(server: Server, challenges: map<string, Record>, request: LoginRequest, lockedRead: bool,
                      lockedRemove: bool, readAt: nat, verifyAt: nat, issued: Result<string, AuthError>)
    : (Result<Token, AuthError>, map<string, Record>)
  {
    if request.merchantDid != server.merchantDid then (Err(ScopeMismatch), challenges)
    else if !lockedRead then (Err(Unavailable), challenges)
    else match Find(challenges, request.challengeId)
      case Err(e) => (Err(e), challenges)
      case Ok(record) =>
        match Refusal(server, record, request, readAt, verifyAt)
        case Some(e) => (Err(e), challenges)
        case None =>
          if !lockedRemove then (Err(Unavailable), challenges)
          else match issued
            case Err(e) => (Err(e), challenges - {request.challengeId})
            case Ok(value) => (Ok(Grant(server, request, value)), challenges - {request.challengeId})
  }

  // ----- any number of logins, interleaved at the locks -----

  /** How far a login has come. */
  datatype Stage =
    | Started
    | Found(record: Record)
    | Verified(record: Record, readAt: nat, verifyAt: nat)
    | Removed(record: Record, readAt: nat, verifyAt: nat)
    | Done(answer: Result<Token, AuthError>)

  datatype Login = Login(request: LoginRequest, stage: Stage)

  /** A token that was handed out, with the login and the challenge it was for, and when the two were looked at. */
  datatype Issued = Issued(login: nat, challengeId: string, token: Token, readAt: nat, verifyAt: nat)

  /**
    The store, the logins under way, and the history: every challenge ever issued, which of them were stored,
    who removed which, and the tokens handed out.
   */
  datatype State = State(
    challenges: map<string, Record>,
    logins: map<nat, Login>,
    ever: map<string, Record>,
    stored: set<string>,
    removedBy: map<string, nat>,
    tokens: seq<Issued>)

  const INITIAL := State(map[], map[], map[], {}, map[], [])

  datatype Step =
    | Challenge_(record: Record, locked: bool)
    | Start(login: nat, request: LoginRequest)
    | Read(login: nat, locked: bool)
    | Verify(login: nat, readAt: nat, verifyAt: nat)
    | Remove(login: nat, locked: bool)
    | Issue(login: nat, issued: Result<string, AuthError>)

  function At(st: State, login: nat, stage: Stage): State
    requires login in st.logins
  {
    st.(logins := st.logins[login := st.logins[login].(stage := stage)])
  }

  /** One step of the server, or none when it cannot be taken: challenge ids are fresh. */
  function Take(server: Server, st: State, step: Step): Option<State> {
    match step
    case Challenge_(record, locked) =>
      var id := record.challenge.challengeId;
      if id in st.ever then None
      else
        var next := st.(ever := st.ever[id := record]);
        Some(if locked then next.(challenges := st.challenges[id := record], stored := st.stored + {id}) else next)
    case Start(login, request) =>
      if login in st.logins then None
      else
        var stage := if request.merchantDid != server.merchantDid then Done(Err(ScopeMismatch)) else Started;
        Some(st.(logins := st.logins[login := Login(request, stage)]))
    case Read(login, locked) =>
      if login !in st.logins || !st.logins[login].stage.Started? then None
      else if !locked then Some(At(st, login, Done(Err(Unavailable))))
      else
        var found := Find(st.challenges, st.logins[login].request.challengeId);
        Some(At(st, login, if found.Ok? then Found(found.value) else Done(Err(found.error))))
    case Verify(login, readAt, verifyAt) =>
      if login !in st.logins || !st.logins[login].stage.Found? then None
      else
        var l := st.logins[login];
        var refused := Refusal(server, l.stage.record, l.request, readAt, verifyAt);
        Some(At(st, login, if refused.Some? then Done(Err(refused.value)) else Verified(l.stage.record, readAt, verifyAt)))
    case Remove(login, locked) =>
      if login !in st.logins || !st.logins[login].stage.Verified? then None
      else
        var l := st.logins[login];
        var id := l.request.challengeId;
        if !locked then Some(At(st, login, Done(Err(Unavailable))))
        else if id !in st.challenges then Some(At(st, login, Done(Err(UnknownChallenge))))
        else Some(At(st, login, Removed(l.stage.record, l.stage.readAt, l.stage.verifyAt)).(
          challenges := st.challenges - {id}, removedBy := st.removedBy[id := login]))
    case Issue(login, issued) =>
      if login !in st.logins || !st.logins[login].stage.Removed? then None
      else
        var l := st.logins[login];
        match issued
        case Err(e) => Some(At(st, login, Done(Err(e))))
        case Ok(value) =>
          var token := Grant(server, l.request, value);
          Some(At(st, login, Done(Ok(token))).(tokens := st.tokens + [Issued(login, l.request.challengeId, token, l.stage.readAt, l.stage.verifyAt)]))
  }

  // ----- what every step keeps -----

  /** A challenge without an expiry, or looked at before it. */
  predicate IsAlive(challenge: Challenge, at: nat) {
    challenge.expiresAtMs == None || at < challenge.expiresAtMs.value
  }

  /** The record was read in time, and the login's proof was verified against the payload of that very challenge. */
  ghost predicate ProofHeld(server: Server, record: Record, request: LoginRequest, readAt: nat, verifyAt: nat) {
    && IsAlive(record.challenge, readAt)
    && InScope(record, request)
    && server.check(request.signedChallenge, ExpectedPayload(record, request), verifyAt) == None
  }

  ghost predicate LoginOk(server: Server, st: State, i: nat)
    requires i in st.logins
  {
    var l := st.logins[i];
    var id := l.request.challengeId;
    match l.stage
    case Started => l.request.merchantDid == server.merchantDid
    case Found(record) => l.request.merchantDid == server.merchantDid && id in st.ever && st.ever[id] == record
    case Verified(record, readAt, verifyAt) =>
      && l.request.merchantDid == server.merchantDid && id in st.ever && st.ever[id] == record
      && ProofHeld(server, record, l.request, readAt, verifyAt)
    case Removed(record, readAt, verifyAt) =>
      && l.request.merchantDid == server.merchantDid && id in st.ever && st.ever[id] == record
      && ProofHeld(server, record, l.request, readAt, verifyAt)
      && id in st.removedBy && st.removedBy[id] == i
    case Done(_) => true
  }

  /** The token carries exactly what its challenge was issued for. */
  ghost predicate CarriesScope(token: Token, record: Record) {
    && token.merchantDid == record.challenge.merchantDid
    && token.userDid == record.request.userDid
    && token.agentDid == record.request.agentDid
    && token.skillId == record.request.skillId
    && token.sessionId == record.request.sessionId
  }

  ghost predicate TokenOk(server: Server, st: State, t: Issued) {
    && t.challengeId in st.ever && CarriesScope(t.token, st.ever[t.challengeId])
    && t.challengeId in st.removedBy && st.removedBy[t.challengeId] == t.login
    && t.login in st.logins && st.logins[t.login] == Login(st.logins[t.login].request, Done(Ok(t.token)))
    && st.logins[t.login].request.challengeId == t.challengeId
    && ProofHeld(server, st.ever[t.challengeId], st.logins[t.login].request, t.readAt, t.verifyAt)
  }

  /** Records never change, and a stored challenge is in the store or was removed by one login. */
  ghost predicate StoreOk(st: State) {
    && (forall id | id in st.challenges :: id in st.ever && st.challenges[id] == st.ever[id])
    && st.stored <= st.ever.Keys
    && st.challenges.Keys !! st.removedBy.Keys && st.challenges.Keys + st.removedBy.Keys == st.stored
  }

  ghost predicate LoginsOk(server: Server, st: State) {
    forall i | i in st.logins :: LoginOk(server, st, i)
  }

  /** Every token is in order, and no login was given two. */
  ghost predicate TokensOk(server: Server, st: State) {
    && (forall t | t in st.tokens :: TokenOk(server, st, t))
    && (forall i, j | 0 <= i < j < |st.tokens| :: st.tokens[i].login != st.tokens[j].login)
  }

  ghost predicate Inv(server: Server, st: State) {
    StoreOk(st) && LoginsOk(server, st) && TokensOk(server, st)
  }

  lemma StepKeepsStore(server: Server, st: State, step: Step)
    requires StoreOk(st) && Take(server, st, step).Some?
    ensures StoreOk(Take(server, st, step).value)
  {
    hide Refusal, Find, Grant;
    match step
    case Challenge_(_, _) =>
    case Remove(_, _) =>
    case _ =>
  }

  /** The history only grows: challenges issued and removals are never taken back. */
  lemma StepKeepsHistory(server: Server, st: State, step: Step)
    requires StoreOk(st) && Take(server, st, step).Some?
    ensures var next := Take(server, st, step).value;
      && (forall id | id in st.ever :: id in next.ever && next.ever[id] == st.ever[id])
      && (forall id | id in st.removedBy :: id in next.removedBy && next.removedBy[id] == st.removedBy[id])
  {
    hide Refusal;
  }

  lemma StepKeepsRequests(server: Server, st: State, step: Step)
    requires Take(server, st, step).Some?
    ensures var next := Take(server, st, step).value;
      && (forall i | i in st.logins :: i in next.logins && next.logins[i].request == st.logins[i].request)
      && (forall i | i in st.logins && st.logins[i].stage.Done? :: next.logins[i] == st.logins[i])
  {
    hide Refusal, Find, Grant;
    match step
    case Start(_, _) =>
    case Verify(_, _, _) =>
    case _ =>
  }

  ghost predicate ActsOn(step: Step, i: nat) {
    !step.Challenge_? && step.login == i
  }

  lemma StepKeepsLogin(server: Server, st: State, step: Step, i: nat)
    requires StoreOk(st) && LoginsOk(server, st) && Take(server, st, step).Some?
    requires i in Take(server, st, step).value.logins
    ensures LoginOk(server, Take(server, st, step).value, i)
  {
    StepKeepsHistory(server, st, step);
    if ActsOn(step, i) {
      StepMovesLogin(server, st, step);
    } else {
      OtherLoginsStay(server, st, step, i);
      assert LoginOk(server, st, i);
    }
  }

  lemma OtherLoginsStay(server: Server, st: State, step: Step, i: nat)
    requires Take(server, st, step).Some? && !ActsOn(step, i) && i in Take(server, st, step).value.logins
    ensures i in st.logins && Take(server, st, step).value.logins[i] == st.logins[i]
  {
    hide Refusal;
  }

  lemma StepMovesLogin(server: Server, st: State, step: Step)
    requires StoreOk(st) && LoginsOk(server, st) && Take(server, st, step).Some? && !step.Challenge_?
    ensures step.login in Take(server, st, step).value.logins && LoginOk(server, Take(server, st, step).value, step.login)
  {
    if !step.Start? {
      assert LoginOk(server, st, step.login);
    }
  }

  lemma StepKeepsTokens(server: Server, st: State, step: Step)
    requires Inv(server, st) && Take(server, st, step).Some?
    ensures TokensOk(server, Take(server, st, step).value)
  {
    var next := Take(server, st, step).value;
    StepKeepsHistory(server, st, step);
    StepKeepsRequests(server, st, step);
    forall t | t in st.tokens ensures TokenOk(server, next, t) {
      assert TokenOk(server, st, t);
    }
    if step.Issue? && step.issued.Ok? {
      IssueIsInOrder(server, st, step);
      forall t | t in st.tokens ensures t.login != step.login {
        assert TokenOk(server, st, t);
      }
    } else {
      OtherStepsIssueNothing(server, st, step);
    }
  }

  lemma OtherStepsIssueNothing(server: Server, st: State, step: Step)
    requires Take(server, st, step).Some? && !(step.Issue? && step.issued.Ok?)
    ensures Take(server, st, step).value.tokens == st.tokens
  {
    hide Refusal;
  }

  lemma IssueIsInOrder(server: Server, st: State, step: Step)
    requires Inv(server, st) && Take(server, st, step).Some? && step.Issue? && step.issued.Ok?
    ensures var next := Take(server, st, step).value;
      && |next.tokens| == |st.tokens| + 1 && next.tokens[..|st.tokens|] == st.tokens
      && next.tokens[|st.tokens|].login == step.login && TokenOk(server, next, next.tokens[|st.tokens|])
      && st.logins[step.login].stage.Removed?
  {
    assert LoginOk(server, st, step.login);
  }

  lemma StepKeepsInv(server: Server, st: State, step: Step)
    requires Inv(server, st) && Take(server, st, step).Some?
    ensures Inv(server, Take(server, st, step).value)
  {
    hide Take, LoginOk;
    StepKeepsStore(server, st, step);
    forall i | i in Take(server, st, step).value.logins ensures LoginOk(server, Take(server, st, step).value, i) {
      StepKeepsLogin(server, st, step, i);
    }
    StepKeepsTokens(server, st, step);
  }

  // ----- whole runs -----

  /** A run: from the empty store, each state is the one before it moved by one step. */
  ghost predicate IsRun(server: Server, states: seq<State>, steps: seq<Step>) {
    && |states| == |steps| + 1
    && states[0] == INITIAL
    && forall i | 0 <= i < |steps| :: Take(server, states[i], steps[i]) == Some(states[i + 1])
  }

  lemma {:induction false} RunKeepsInv(server: Server, states: seq<State>, steps: seq<Step>, i: nat)
    requires IsRun(server, states, steps) && i < |states|
    ensures Inv(server, states[i])
    decreases i
  {
    hide Inv, Take;
    if i == 0 {
      InitialInv(server);
    } else {
      RunKeepsInv(server, states, steps, i - 1);
      assert Take(server, states[i - 1], steps[i - 1]) == Some(states[i]);
      StepKeepsInv(server, states[i - 1], steps[i - 1]);
    }
  }

  lemma InitialInv(server: Server)
    ensures Inv(server, INITIAL)
  {
  }

  /** In every interleaving, no challenge yields two tokens. */
  lemma OneTokenPerChallenge(server: Server, states: seq<State>, steps: seq<Step>, n: nat, i: nat, j: nat)
    requires IsRun(server, states, steps) && n < |states|
    requires i < |states[n].tokens| && j < |states[n].tokens|
    requires states[n].tokens[i].challengeId == states[n].tokens[j].challengeId
    ensures i == j
  {
    RunKeepsInv(server, states, steps, n);
    var st := states[n];
    assert TokenOk(server, st, st.tokens[i]) && TokenOk(server, st, st.tokens[j]);
  }

  /** In every interleaving, a token carries what its challenge was issued for. */
  lemma TokensCarryScope(server: Server, states: seq<State>, steps: seq<Step>, n: nat, i: nat)
    requires IsRun(server, states, steps) && n < |states| && i < |states[n].tokens|
    ensures var t := states[n].tokens[i];
      t.challengeId in states[n].ever && CarriesScope(t.token, states[n].ever[t.challengeId])
  {
    RunKeepsInv(server, states, steps, n);
    assert TokenOk(server, states[n], states[n].tokens[i]);
  }

  /** In every interleaving, the login of a token read its challenge before the expiry, and its proof was checked. */
  lemma TokensComeInTime(server: Server, states: seq<State>, steps: seq<Step>, n: nat, i: nat)
    requires IsRun(server, states, steps) && n < |states| && i < |states[n].tokens|
    ensures var t, st := states[n].tokens[i], states[n];
      && t.challengeId in st.ever && t.login in st.logins && st.logins[t.login].request.challengeId == t.challengeId
      && ProofHeld(server, st.ever[t.challengeId], st.logins[t.login].request, t.readAt, t.verifyAt)
  {
    RunKeepsInv(server, states, steps, n);
    assert TokenOk(server, states[n], states[n].tokens[i]);
  }

  /** In every interleaving, a challenge leaves the store only by a login whose proof was verified against it. */
  lemma OnlyVerifiedLoginsRemove(server: Server, states: seq<State>, steps: seq<Step>, n: nat, id: string)
    requires IsRun(server, states, steps) && n < |steps|
    requires id in states[n].challenges && id !in states[n + 1].challenges
    ensures steps[n].Remove? && steps[n].login in states[n].logins
    ensures var l := states[n].logins[steps[n].login];
      && l.request.challengeId == id
      && l.stage.Verified?
      && l.stage.record == states[n].challenges[id]
      && ProofHeld(server, l.stage.record, l.request, l.stage.readAt, l.stage.verifyAt)
  {
    RunKeepsInv(server, states, steps, n);
    assert Take(server, states[n], steps[n]) == Some(states[n + 1]);
    assert steps[n].Remove?;
    assert LoginOk(server, states[n], steps[n].login);
  }

  /** No stored challenge is lost: it is in the store, or exactly one login removed it. */
  lemma ChallengesAreConserved(server: Server, states: seq<State>, steps: seq<Step>, n: nat)
    requires IsRun(server, states, steps) && n < |states|
    ensures states[n].stored == states[n].challenges.Keys + states[n].removedBy.Keys
    ensures states[n].challenges.Keys !! states[n].removedBy.Keys
  {
    RunKeepsInv(server, states, steps, n);
  }

  // ----- a login alone is one of the interleavings -----

  ghost function TakeIfEnabled(server: Server, st: State, step: Step): State {
    if Take(server, st, step).Some? then Take(server, st, step).value else st
  }

  /** A login that is done takes no more steps. */
  lemma DoneStays(server: Server, st: State, i: nat, step: Step)
    requires i in st.logins && st.logins[i].stage.Done? && ActsOn(step, i)
    ensures TakeIfEnabled(server, st, step) == st
  {
  }

  /** The login method answers and leaves the store as the five steps do when nothing comes between them. */
  lemma LoginAloneIsInterleaving(server: Server, st: State, i: nat, request: LoginRequest, lockedRead: bool,
                                 lockedRemove: bool, readAt: nat, verifyAt: nat, issued: Result<string, AuthError>)
    requires i !in st.logins
    ensures var (answer, challenges) :=
        LoginAlone(server, st.challenges, request, lockedRead, lockedRemove, readAt, verifyAt, issued);
      var s1 := TakeIfEnabled(server, st, Start(i, request));
      var s2 := TakeIfEnabled(server, s1, Read(i, lockedRead));
      var s3 := TakeIfEnabled(server, s2, Verify(i, readAt, verifyAt));
      var s4 := TakeIfEnabled(server, s3, Remove(i, lockedRemove));
      var s5 := TakeIfEnabled(server, s4, Issue(i, issued));
      && s5.challenges == challenges
      && i in s5.logins && s5.logins[i] == Login(request, Done(answer))
  {
    hide Refusal;
    var s1 := TakeIfEnabled(server, st, Start(i, request));
    if s1.logins[i].stage.Done? {
      DoneStays(server, s1, i, Read(i, lockedRead));
      DoneStays(server, s1, i, Verify(i, readAt, verifyAt));
      DoneStays(server, s1, i, Remove(i, lockedRemove));
      DoneStays(server, s1, i, Issue(i, issued));
    } else {
      var s2 := TakeIfEnabled(server, s1, Read(i, lockedRead));
      assert s2.challenges == st.challenges && s2.logins[i].request == request;
      FromRead(server, s2, i, lockedRemove, readAt, verifyAt, issued);
    }
  }

  /** The rest of a login after its record was read. */
  lemma FromRead(server: Server, s2: State, i: nat, lockedRemove: bool, readAt: nat, verifyAt: nat, issued: Result<string, AuthError>)
    requires i in s2.logins && (s2.logins[i].stage.Done? || s2.logins[i].stage.Found?)
    ensures var s3 := TakeIfEnabled(server, s2, Verify(i, readAt, verifyAt));
      var s4 := TakeIfEnabled(server, s3, Remove(i, lockedRemove));
      var s5 := TakeIfEnabled(server, s4, Issue(i, issued));
      var l := s2.logins[i];
      var id := l.request.challengeId;
      && i in s5.logins && s5.logins[i].request == l.request
      && (l.stage.Done? ==> s5 == s2)
      && (l.stage.Found? ==>
            var refused := Refusal(server, l.stage.record, l.request, readAt, verifyAt);
            if refused.Some? then s5.challenges == s2.challenges && s5.logins[i].stage == Done(Err(refused.value))
            else if !lockedRemove then s5.challenges == s2.challenges && s5.logins[i].stage == Done(Err(Unavailable))
            else if id !in s2.challenges then s5.challenges == s2.challenges && s5.logins[i].stage == Done(Err(UnknownChallenge))
            else s5.challenges == s2.challenges - {id} &&
                 s5.logins[i].stage == Done(if issued.Err? then Err(issued.error) else Ok(Grant(server, l.request, issued.value))))
  {
    hide Refusal;
    var s3 := TakeIfEnabled(server, s2, Verify(i, readAt, verifyAt));
    if s3.logins[i].stage.Done? {
      DoneStays(server, s3, i, Remove(i, lockedRemove));
      DoneStays(server, s3, i, Issue(i, issued));
    } else {
      var s4 := TakeIfEnabled(server, s3, Remove(i, lockedRemove));
      if s4.logins[i].stage.Done? {
        DoneStays(server, s4, i, Issue(i, issued));
      }
    }
  }

  // ----- the answers, one by one -----

  /** The login is made by whom and for what the challenge was issued, and its proof signs that challenge. */
  ghost predicate ChecksOut(server: Server, record: Record, request: LoginRequest, verifyAt: nat) {
    && request.sessionId == record.request.sessionId && request.skillId == record.request.skillId
    && request.userDid == record.request.userDid && request.agentDid == record.request.agentDid
    && request.merchantDid == record.challenge.merchantDid
    && server.check(request.signedChallenge,
         Payload(record.challenge, record.request.userDid, record.request.agentDid, record.request.skillId, record.request.sessionId),
         verifyAt) == None
  }

  /**
    A login is accepted exactly if it names this merchant and a stored challenge that is alive, checks out, and every
    lock and the issuer give; then the challenge is gone, and the token is for whom the challenge was.
   */
  lemma AcceptedIff(server: Server, challenges: map<string, Record>, request: LoginRequest, lockedRead: bool, lockedRemove: bool,
                    readAt: nat, verifyAt: nat, issued: Result<string, AuthError>)
    ensures var (answer, after) := LoginAlone(server, challenges, request, lockedRead, lockedRemove, readAt, verifyAt, issued);
      var id := request.challengeId;
      && (answer.Ok? <==>
          && request.merchantDid == server.merchantDid && id in challenges && IsAlive(challenges[id].challenge, readAt)
          && ChecksOut(server, challenges[id], request, verifyAt) && lockedRead && lockedRemove && issued.Ok?)
      && (answer.Ok? ==>
          && after == (map other | other in challenges && other != id :: challenges[other])
          && var r := challenges[id].request;
             answer.value == Token(server.merchantDid, r.userDid, r.agentDid, r.skillId, r.sessionId, issued.value))
      && (after != challenges ==> id in challenges && ChecksOut(server, challenges[id], request, verifyAt))
      && (issued.Ok? && answer.Err? ==> after == challenges)
  {
  }

  /** A stored challenge of this merchant is answered as expired exactly from its expiry on, or when the proof's check says so. */
  lemma ExpiredIff(server: Server, challenges: map<string, Record>, request: LoginRequest, lockedRemove: bool,
                   readAt: nat, verifyAt: nat, issued: Result<string, AuthError>)
    requires request.merchantDid == server.merchantDid && request.challengeId in challenges
    requires issued != Err(ExpiredChallenge)
    ensures var record := challenges[request.challengeId];
      LoginAlone(server, challenges, request, true, lockedRemove, readAt, verifyAt, issued).0 == Err(ExpiredChallenge) <==>
      || (record.challenge.expiresAtMs.Some? && record.challenge.expiresAtMs.value <= readAt)
      || (InScope(record, request)
          && server.check(request.signedChallenge, ExpectedPayload(record, request), verifyAt) == Some(ExpiredChallenge))
  {
  }

  type AuthCheck = Check<AuthError>

  /** A refused login is answered by the first check that fails, in this order. */
  lemma RefusedBy(server: Server, challenges: map<string, Record>, request: LoginRequest, lockedRead: bool, lockedRemove: bool,
                  readAt: nat, verifyAt: nat, issued: Result<string, AuthError>, record: Record)
    requires request.challengeId in challenges ==> challenges[request.challengeId] == record
    ensures var answer := LoginAlone(server, challenges, request, lockedRead, lockedRemove, readAt, verifyAt, issued).0;
      var c, was := record.challenge, record.request;
      var sameScope := was.sessionId == request.sessionId && was.skillId == request.skillId && was.userDid == request.userDid
        && was.agentDid == request.agentDid && c.merchantDid == request.merchantDid;
      var refused := server.check(request.signedChallenge, Payload(c, was.userDid, was.agentDid, was.skillId, was.sessionId), verifyAt);
      FirstFailure([
        Check(request.merchantDid == server.merchantDid, ScopeMismatch), Check(lockedRead, Unavailable),
        Check(request.challengeId in challenges, UnknownChallenge), Check(IsAlive(c, readAt), ExpiredChallenge),
        Check(sameScope, ScopeMismatch), Check(refused.None?, if refused.Some? then refused.value else Unavailable),
        Check(lockedRemove, Unavailable), Check(issued.Ok?, if issued.Err? then issued.error else Unavailable)])
      == if answer.Ok? then None else Some(answer.error)
  {
    var c, was := record.challenge, record.request;
    var sameScope := was.sessionId == request.sessionId && was.skillId == request.skillId && was.userDid == request.userDid
      && was.agentDid == request.agentDid && c.merchantDid == request.merchantDid;
    var refused := server.check(request.signedChallenge, Payload(c, was.userDid, was.agentDid, was.skillId, was.sessionId), verifyAt);
    FirstOfEight(
      Check(request.merchantDid == server.merchantDid, ScopeMismatch), Check(lockedRead, Unavailable),
      Check(request.challengeId in challenges, UnknownChallenge), Check(IsAlive(c, readAt), ExpiredChallenge),
      Check(sameScope, ScopeMismatch), Check(refused.None?, if refused.Some? then refused.value else Unavailable),
      Check(lockedRemove, Unavailable), Check(issued.Ok?, if issued.Err? then issued.error else Unavailable));
  }

  lemma FirstOfEight(a: AuthCheck, b: AuthCheck, c: AuthCheck, d: AuthCheck, e: AuthCheck, f: AuthCheck, g: AuthCheck, h: AuthCheck)
    ensures FirstFailure([a, b, c, d, e, f, g, h]) ==
            if !a.passes then Some(a.error) else if !b.passes then Some(b.error) else if !c.passes then Some(c.error)
            else if !d.passes then Some(d.error) else if !e.passes then Some(e.error) else if !f.passes then Some(f.error)
            else if !g.passes then Some(g.error) else if !h.passes then Some(h.error) else None
  {
    FirstStep(a, [b, c, d, e, f, g, h]);
    FirstStep(b, [c, d, e, f, g, h]);
    FirstStep(c, [d, e, f, g, h]);
    FirstStep(d, [e, f, g, h]);
    FirstStep(e, [f, g, h]);
    FirstStep(f, [g, h]);
    FirstStep(g, [h]);
    FirstStep(h, []);
    NoFailure<AuthError>();
    assert [g] + [h] == [g, h] && [f] + [g, h] == [f, g, h] && [e] + [f, g, h] == [e, f, g, h] && [h] + [] == [h];
    assert [d] + [e, f, g, h] == [d, e, f, g, h] && [c] + [d, e, f, g, h] == [c, d, e, f, g, h];
    assert [b] + [c, d, e, f, g, h] == [b, c, d, e, f, g, h] && [a] + [b, c, d, e, f, g, h] == [a, b, c, d, e, f, g, h];
  }

  /**
    A challenge issued at `now` for `ttl` is accepted throughout its lifetime and at no other time from `now` on, for a
    login that checks out; on a 64-bit clock the lifetime ends at the last instant at the latest.
   */
  lemma AcceptedThroughItsLifetime(server: Server, challenges: map<string, Record>, audience: string, ttl: nat, asked: ChallengeRequest,
                                   id: string, nonce: string, now: nat, request: LoginRequest, readAt: nat, verifyAt: nat, value: string)
    requires request.challengeId == id && request.merchantDid == server.merchantDid
    requires request.sessionId == asked.sessionId && request.skillId == asked.skillId
    requires request.userDid == asked.userDid && request.agentDid == asked.agentDid
    requires now <= readAt <= MAX64
    ensures var ends := if now + ttl <= MAX64 then now + ttl else MAX64;
      var challenge := Challenge(id, server.merchantDid, nonce, now, Some(ends), audience);
      var payload := Payload(challenge, request.userDid, request.agentDid, request.skillId, request.sessionId);
      var stored := challenges[id := Record(asked, NewChallenge(server.merchantDid, audience, ttl, id, nonce, now))];
      var answer := LoginAlone(server, stored, request, true, true, readAt, verifyAt, Ok(value)).0;
      && NewChallenge(server.merchantDid, audience, ttl, id, nonce, now) == challenge
      && (server.check(request.signedChallenge, payload, verifyAt) == None ==> (answer.Ok? <==> now <= readAt < ends))
      && (now + ttl <= readAt ==> answer == Err(ExpiredChallenge))
  {
    var stored := challenges[id := Record(asked, NewChallenge(server.merchantDid, audience, ttl, id, nonce, now))];
    AcceptedIff(server, stored, request, true, true, readAt, verifyAt, Ok(value));
  }
}
