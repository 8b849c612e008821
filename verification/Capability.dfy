/** Capability tokens: issuing and verifying on a millisecond clock with claims in seconds (RFC 7519, section 4.1). */
module Capability {
  import opened Wrappers
  import opened Saturating
  import Text

  const VERSION := "dock.capability.v1"

  datatype Error =
    | InvalidClaims | MissingSecret | InvalidTimestamp | Malformed | InvalidSignature | Expired | NotYetValid
    | ScopeMismatch | MissingScope | UnsupportedVersion

  function FloorSeconds(ms: nat): nat {
    ms / 1000
  }

  function CeilSeconds(ms: nat): nat {
    if ms % 1000 == 0 then ms / 1000 else ms / 1000 + 1
  }

  datatype Issuer = Issuer(issuer: string, audience: string, secret: string, ttl: nat)

  function ValidateIssuer(c: Issuer): Result<(), Error> {
    if IsBlank(c.issuer) || IsBlank(c.audience) then Err(InvalidClaims)
    else if IsBlank(c.secret) then Err(MissingSecret)
    else if c.ttl == 0 then Err(InvalidTimestamp)
    else Ok(())
  }

  predicate IsBlank(s: string) {
    Text.Trim(s) == ""
  }

  predicate AnyBlank(ss: seq<string>) {
    exists s | s in ss :: IsBlank(s)
  }

  datatype Request = Request(
    merchantDid: string, userDid: string, agentDid: Option<string>, skillId: string, sessionId: string, scopes: seq<string>)

  function ValidateRequest(r: Request): Result<(), Error> {
    if || IsBlank(r.merchantDid) || IsBlank(r.userDid) || IsBlank(r.skillId) || IsBlank(r.sessionId)
       || (r.agentDid.Some? && IsBlank(r.agentDid.value)) || AnyBlank(r.scopes)
    then Err(InvalidClaims)
    else if r.scopes == [] then Err(MissingScope)
    else Ok(())
  }

  datatype Claims = Claims(
    iss: string, aud: string, sub: string, merchantDid: string, userDid: string, agentDid: Option<string>,
    skillId: string, sessionId: string, scopes: seq<string>, iat: nat, nbf: nat, exp: nat, jti: string, version: string)

  function ExpiresAtMs(c: Claims): nat {
    SaturatingMul(c.exp, 1000)
  }

  function ValidateBasic(c: Claims): Result<(), Error> {
    if c.version != VERSION then Err(UnsupportedVersion)
    else if || IsBlank(c.iss) || IsBlank(c.aud) || IsBlank(c.sub) || IsBlank(c.merchantDid) || IsBlank(c.userDid)
            || IsBlank(c.skillId) || IsBlank(c.sessionId) || IsBlank(c.jti) || AnyBlank(c.scopes)
    then Err(InvalidClaims)
    else if c.sub != c.userDid || c.scopes == [] then Err(InvalidClaims)
    else if c.iat > c.nbf || c.nbf >= c.exp then Err(InvalidTimestamp)
    else Ok(())
  }

  function ValidateTime(c: Claims, nowMs: nat): Result<(), Error> {
    var now := FloorSeconds(nowMs);
    if c.exp <= now then Err(Expired)
    else if c.nbf > now then Err(NotYetValid)
    else Ok(())
  }

  datatype Verifier = Verifier(issuer: string, audience: string)

  datatype Expected = Expected(
    issuer: string, audience: string, merchantDid: string, userDid: Option<string>, agentDid: Option<string>,
    skillId: string, sessionId: Option<string>, requiredScope: string)

  predicate BlankOption(o: Option<string>) {
    o.Some? && IsBlank(o.value)
  }

  function ValidateExpectation(e: Expected): Result<(), Error> {
    if || IsBlank(e.issuer) || IsBlank(e.audience) || IsBlank(e.merchantDid) || IsBlank(e.skillId)
       || IsBlank(e.requiredScope) || BlankOption(e.userDid) || BlankOption(e.agentDid) || BlankOption(e.sessionId)
    then Err(InvalidClaims)
    else Ok(())
  }

  function ValidateExpected(c: Claims, v: Verifier, e: Expected): Result<(), Error> {
    if || c.iss != v.issuer || c.iss != e.issuer || c.aud != v.audience || c.aud != e.audience
       || c.merchantDid != e.merchantDid || c.skillId != e.skillId
    then Err(ScopeMismatch)
    else if || (e.userDid.Some? && c.userDid != e.userDid.value)
            || (e.agentDid.Some? && c.agentDid != e.agentDid)
            || (e.sessionId.Some? && c.sessionId != e.sessionId.value)
    then Err(ScopeMismatch)
    else if e.requiredScope !in c.scopes then Err(MissingScope)
    else Ok(())
  }

  /** A token as its verifier sees it: a blank or demo text, a bad signature, or signed claims. */
  datatype Token = NoToken | BadSignature | Signed(claims: Claims)

  function Issue(c: Issuer, r: Request, nowMs: nat, jti: string): Result<Claims, Error> {
    match ValidateRequest(r)
    case Err(e) => Err(e)
    case Ok(_) =>
      var iat := FloorSeconds(nowMs);
      var exp := CeilSeconds(SaturatingAdd(nowMs, c.ttl));
      if iat >= exp then Err(InvalidTimestamp) else
      var claims := Claims(c.issuer, c.audience, r.userDid, r.merchantDid, r.userDid, r.agentDid,
                           r.skillId, r.sessionId, r.scopes, iat, iat, exp, jti, VERSION);
      match ValidateBasic(claims)
      case Err(e) => Err(e)
      case Ok(_) => Ok(claims)
  }

  function Verify(v: Verifier, token: Token, e: Expected, nowMs: nat): Result<Claims, Error> {
    if token.NoToken? then Err(Malformed)
    else match ValidateExpectation(e)
      case Err(error) => Err(error)
      case Ok(_) =>
        if token.BadSignature? then Err(InvalidSignature)
        else match ValidateBasic(token.claims)
          case Err(error) => Err(error)
          case Ok(_) =>
            match ValidateTime(token.claims, nowMs)
            case Err(error) => Err(error)
            case Ok(_) =>
              match ValidateExpected(token.claims, v, e)
              case Err(error) => Err(error)
              case Ok(_) => Ok(token.claims)
  }

  // ----- time -----

  /** Flooring the start and rounding the end up always leaves at least a second, saturation included. */
  lemma TimestampsInOrder(nowMs: nat, ttl: nat)
    requires nowMs <= MAX64 && 0 < ttl <= MAX64
    ensures FloorSeconds(nowMs) < CeilSeconds(SaturatingAdd(nowMs, ttl)) <= MAX64 / 1000 + 1
  {
    assert MAX64 % 1000 == 615;
  }

  /** The time check passes exactly from the start to the end of validity, taken in milliseconds. */
  lemma TimeCheckIff(c: Claims, t: nat)
    ensures ValidateTime(c, t).Ok? <==> c.nbf * 1000 <= t < c.exp * 1000
    ensures ValidateTime(c, t) == Err(Expired) <==> t >= c.exp * 1000
  {
  }

  /** For a valid issuer, a request is refused only for its own fields: never for its timestamps. */
  lemma IssueFailsIff(c: Issuer, r: Request, nowMs: nat, jti: string)
    requires ValidateIssuer(c).Ok? && nowMs <= MAX64 && c.ttl <= MAX64 && !IsBlank(jti)
    ensures Issue(c, r, nowMs, jti).Err? <==> ValidateRequest(r).Err?
    ensures Issue(c, r, nowMs, jti).Err? ==> Issue(c, r, nowMs, jti).error == ValidateRequest(r).error != InvalidTimestamp
  {
    hide IsBlank, AnyBlank, FloorSeconds, CeilSeconds, SaturatingAdd;
    TimestampsInOrder(nowMs, c.ttl);
  }

  /** The validity of an issued token, without saturation: all of its lifetime, and less than a second more. */
  lemma LifetimeOf(c: Issuer, r: Request, nowMs: nat, jti: string, t: nat)
    requires Issue(c, r, nowMs, jti).Ok? && nowMs + c.ttl <= MAX64
    ensures var time := ValidateTime(Issue(c, r, nowMs, jti).value, t);
      && (nowMs <= t < nowMs + c.ttl ==> time == Ok(()))
      && (t >= nowMs + c.ttl + 999 ==> time == Err(Expired))
      && (t < nowMs / 1000 * 1000 ==> time == Err(NotYetValid))
  {
    hide IsBlank, AnyBlank;
    TimeCheckIff(Issue(c, r, nowMs, jti).value, t);
  }

  /** Who may use the claims, and for what. */
  predicate Fits(c: Claims, v: Verifier, e: Expected) {
    && c.iss == v.issuer == e.issuer && c.aud == v.audience == e.audience
    && c.merchantDid == e.merchantDid && c.skillId == e.skillId
    && (e.userDid.None? || e.userDid == Some(c.userDid))
    && (e.agentDid.None? || e.agentDid == c.agentDid)
    && (e.sessionId.None? || e.sessionId == Some(c.sessionId))
    && e.requiredScope in c.scopes
  }

  /** An issued token is accepted exactly by a verifier it fits, at the times it is valid. */
  lemma IssuedIsAcceptedIff(c: Issuer, r: Request, nowMs: nat, jti: string, v: Verifier, e: Expected, t: nat)
    requires Issue(c, r, nowMs, jti).Ok?
    ensures var claims := Issue(c, r, nowMs, jti).value;
      Verify(v, Signed(claims), e, t).Ok? <==>
      ValidateExpectation(e).Ok? && Fits(claims, v, e) && nowMs / 1000 * 1000 <= t < claims.exp * 1000
  {
    hide IsBlank, AnyBlank, BlankOption, CeilSeconds;
    TimeCheckIff(Issue(c, r, nowMs, jti).value, t);
  }

  // ----- the client's view -----

  /** A token as a client keeps it: its text and when it expires, if that could be read from it. */
  datatype Kept = Kept(value: string, expiresAtMs: Option<nat>)

  predicate IsExpiredAt(k: Kept, nowMs: nat) {
    k.expiresAtMs.Some? && k.expiresAtMs.value <= nowMs
  }

  /** The client and the verifier agree on expiry at every instant but the last that fits 64 bits. */
  lemma ExpiryAgreesIff(c: Claims, value: string, t: nat)
    requires t <= MAX64
    ensures var kept := Kept(value, Some(ExpiresAtMs(c)));
      (IsExpiredAt(kept, t) == (ValidateTime(c, t) == Err(Expired))) <==> !(c.exp * 1000 > MAX64 && t == MAX64)
    ensures !IsExpiredAt(Kept(value, Some(ExpiresAtMs(c))), t) ==> ValidateTime(c, t) != Err(Expired)
  {
    TimeCheckIff(c, t);
  }
}
