/** What a capability token carries, and why a verifier refuses one. */
module CapabilityLaws {
  import opened Wrappers
  import opened Checks
  import opened Saturating
  import opened Capability
  import Text

  type TokenCheck = Check<Error>

  /** A text that shows something. */
  predicate Says(s: string) {
    exists c | c in s :: !Text.IsSpace(c)
  }

  lemma SaysIff(s: string)
    ensures Says(s) <==> !IsBlank(s)
  {
    hide Text.IsSpace, Text.TrimStart, Text.TrimEnd;
    if !Says(s) {
      Text.TrimBlank(s);
    } else {
      var t := Text.TrimStart(s);
      var r := Text.TrimEnd(t);
      assert t == r + t[|r|..];
      assert s == s[..|s| - |t|] + t;
    }
  }

  predicate AllSay(ss: seq<string>) {
    forall s | s in ss :: Says(s)
  }

  lemma AllSayIff(ss: seq<string>)
    ensures AllSay(ss) <==> !AnyBlank(ss)
  {
    hide Says, IsBlank;
    forall s ensures Says(s) <==> !IsBlank(s) {
      SaysIff(s);
    }
  }

  predicate SaysIfAny(o: Option<string>) {
    o.Some? ==> Says(o.value)
  }

  // ----- issuing -----

  /** A request is answered by what is wrong with it, or with claims of the issuer and the request alone. */
  lemma IssuedIs(c: Issuer, r: Request, nowMs: nat, jti: string)
    requires ValidateIssuer(c).Ok? && nowMs <= MAX64 && c.ttl <= MAX64 && Says(jti)
    ensures var all := AllSay([r.merchantDid, r.userDid, r.skillId, r.sessionId]) && SaysIfAny(r.agentDid) && AllSay(r.scopes);
      var ends := if nowMs + c.ttl <= MAX64 then nowMs + c.ttl else MAX64;
      match Issue(c, r, nowMs, jti)
      case Err(e) => e == (if all then MissingScope else InvalidClaims) && (all ==> r.scopes == [])
      case Ok(k) =>
        && all && r.scopes != []
        && k == Claims(c.issuer, c.audience, r.userDid, r.merchantDid, r.userDid, r.agentDid, r.skillId, r.sessionId, r.scopes,
                       nowMs / 1000, nowMs / 1000, (ends + 999) / 1000, jti, "dock.capability.v1")
  {
    SaysIff(jti);
    IssueFailsIff(c, r, nowMs, jti);
    RequestIs(r);
    ClaimsAre(c, r, nowMs, jti);
    hide *;
  }

  lemma ClaimsAre(c: Issuer, r: Request, nowMs: nat, jti: string)
    ensures Issue(c, r, nowMs, jti).Ok? ==>
              var ends := if nowMs + c.ttl <= MAX64 then nowMs + c.ttl else MAX64;
              Issue(c, r, nowMs, jti).value ==
              Claims(c.issuer, c.audience, r.userDid, r.merchantDid, r.userDid, r.agentDid, r.skillId, r.sessionId, r.scopes,
                     nowMs / 1000, nowMs / 1000, (ends + 999) / 1000, jti, "dock.capability.v1")
  {
    hide ValidateRequest, ValidateBasic;
    CeilIs(SaturatingAdd(nowMs, c.ttl));
  }

  lemma CeilIs(ms: nat)
    ensures CeilSeconds(ms) == (ms + 999) / 1000
  {
  }

  lemma RequestIs(r: Request)
    ensures var all := AllSay([r.merchantDid, r.userDid, r.skillId, r.sessionId]) && SaysIfAny(r.agentDid) && AllSay(r.scopes);
      ValidateRequest(r) == if !all then Err(InvalidClaims) else if r.scopes == [] then Err(MissingScope) else Ok(())
  {
    hide Says, IsBlank, AnyBlank;
    forall s ensures Says(s) <==> !IsBlank(s) {
      SaysIff(s);
    }
    AllSayIff(r.scopes);
    FourSay(r.merchantDid, r.userDid, r.skillId, r.sessionId);
    hide AllSay;
  }

  lemma FourSay(a: string, b: string, c: string, d: string)
    ensures AllSay([a, b, c, d]) <==> Says(a) && Says(b) && Says(c) && Says(d)
  {
    hide Says;
    assert a in [a, b, c, d] && b in [a, b, c, d] && c in [a, b, c, d] && d in [a, b, c, d];
  }

  // ----- verifying -----

  predicate Expects(e: Expected) {
    && Says(e.issuer) && Says(e.audience) && Says(e.merchantDid) && Says(e.skillId) && Says(e.requiredScope)
    && SaysIfAny(e.userDid) && SaysIfAny(e.agentDid) && SaysIfAny(e.sessionId)
  }

  predicate IsWhole(c: Claims) {
    && Says(c.iss) && Says(c.aud) && Says(c.sub) && Says(c.merchantDid) && Says(c.userDid) && Says(c.skillId)
    && Says(c.sessionId) && Says(c.jti) && AllSay(c.scopes) && c.sub == c.userDid && c.scopes != []
  }

  predicate IsFor(c: Claims, v: Verifier, e: Expected) {
    && c.iss == v.issuer && c.iss == e.issuer && c.aud == v.audience && c.aud == e.audience
    && c.merchantDid == e.merchantDid && c.skillId == e.skillId
    && (e.userDid.Some? ==> e.userDid.value == c.userDid)
    && (e.agentDid.Some? ==> e.agentDid == c.agentDid)
    && (e.sessionId.Some? ==> e.sessionId.value == c.sessionId)
  }

  lemma ExpectsIff(e: Expected)
    ensures ValidateExpectation(e) == if Expects(e) then Ok(()) else Err(InvalidClaims)
  {
    hide Says, IsBlank;
    forall s ensures Says(s) <==> !IsBlank(s) {
      SaysIff(s);
    }
  }

  lemma WholeIff(c: Claims)
    ensures ValidateBasic(c) ==
            if c.version != "dock.capability.v1" then Err(UnsupportedVersion)
            else if !IsWhole(c) then Err(InvalidClaims)
            else if !(c.iat <= c.nbf < c.exp) then Err(InvalidTimestamp) else Ok(())
  {
    hide Says, IsBlank, AnyBlank, AllSay;
    forall s ensures Says(s) <==> !IsBlank(s) {
      SaysIff(s);
    }
    AllSayIff(c.scopes);
  }

  lemma IsForIff(c: Claims, v: Verifier, e: Expected)
    ensures ValidateExpected(c, v, e) ==
            if !IsFor(c, v, e) then Err(ScopeMismatch) else if e.requiredScope !in c.scopes then Err(MissingScope) else Ok(())
  {
  }

  /** A token is refused for the first of these checks that fails, and accepted with its claims if none does. */
  lemma RefusedBy(v: Verifier, token: Token, c: Claims, e: Expected, nowMs: nat)
    requires token.Signed? ==> token.claims == c
    ensures var why := FirstFailure([
        Check(!token.NoToken?, Malformed), Check(Expects(e), InvalidClaims), Check(!token.BadSignature?, InvalidSignature),
        Check(c.version == "dock.capability.v1", UnsupportedVersion), Check(IsWhole(c), InvalidClaims),
        Check(c.iat <= c.nbf < c.exp, InvalidTimestamp), Check(nowMs < c.exp * 1000, Expired),
        Check(c.nbf * 1000 <= nowMs, NotYetValid), Check(IsFor(c, v, e), ScopeMismatch),
        Check(e.requiredScope in c.scopes, MissingScope)]);
      Verify(v, token, e, nowMs) == if why.Some? then Err(why.value) else Ok(c)
  {
    ExpectsIff(e);
    WholeIff(c);
    IsForIff(c, v, e);
    TimeCheckIff(c, nowMs);
    TimeIs(c, nowMs);
    hide ValidateExpectation, ValidateBasic, ValidateExpected, ValidateTime, Expects, IsWhole, IsFor, FirstFailure;
    FirstOfTen(
      Check(!token.NoToken?, Malformed), Check(Expects(e), InvalidClaims), Check(!token.BadSignature?, InvalidSignature),
      Check(c.version == "dock.capability.v1", UnsupportedVersion), Check(IsWhole(c), InvalidClaims),
      Check(c.iat <= c.nbf < c.exp, InvalidTimestamp), Check(nowMs < c.exp * 1000, Expired),
      Check(c.nbf * 1000 <= nowMs, NotYetValid), Check(IsFor(c, v, e), ScopeMismatch),
      Check(e.requiredScope in c.scopes, MissingScope));
  }

  lemma TimeIs(c: Claims, nowMs: nat)
    ensures ValidateTime(c, nowMs) ==
            if nowMs >= c.exp * 1000 then Err(Expired) else if nowMs < c.nbf * 1000 then Err(NotYetValid) else Ok(())
  {
  }

  lemma FirstOfTen(a: TokenCheck, b: TokenCheck, c: TokenCheck, d: TokenCheck, e: TokenCheck, f: TokenCheck, g: TokenCheck,
                   h: TokenCheck, i: TokenCheck, j: TokenCheck)
    ensures FirstFailure([a, b, c, d, e, f, g, h, i, j]) ==
            if !a.passes then Some(a.error) else if !b.passes then Some(b.error) else if !c.passes then Some(c.error)
            else if !d.passes then Some(d.error) else if !e.passes then Some(e.error) else if !f.passes then Some(f.error)
            else if !g.passes then Some(g.error) else if !h.passes then Some(h.error) else if !i.passes then Some(i.error)
            else if !j.passes then Some(j.error) else None
  {
    hide FirstFailure;
    FirstStep(a, [b, c, d, e, f, g, h, i, j]);
    FirstStep(b, [c, d, e, f, g, h, i, j]);
    FirstStep(c, [d, e, f, g, h, i, j]);
    FirstStep(d, [e, f, g, h, i, j]);
    FirstStep(e, [f, g, h, i, j]);
    FirstStep(f, [g, h, i, j]);
    FirstStep(g, [h, i, j]);
    FirstStep(h, [i, j]);
    FirstStep(i, [j]);
    FirstStep(j, []);
    NoFailure<Error>();
    assert [j] + [] == [j] && [i] + [j] == [i, j] && [h] + [i, j] == [h, i, j] && [g] + [h, i, j] == [g, h, i, j];
    assert [f] + [g, h, i, j] == [f, g, h, i, j] && [e] + [f, g, h, i, j] == [e, f, g, h, i, j];
    assert [d] + [e, f, g, h, i, j] == [d, e, f, g, h, i, j];
    assert [c] + [d, e, f, g, h, i, j] == [c, d, e, f, g, h, i, j];
    assert [b] + [c, d, e, f, g, h, i, j] == [b, c, d, e, f, g, h, i, j];
    assert [a] + [b, c, d, e, f, g, h, i, j] == [a, b, c, d, e, f, g, h, i, j];
  }
}
