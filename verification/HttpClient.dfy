/** Signed requests: a cached token first, one retry after a challenge, and the token cache on every exit. */
module HttpClient {
  import opened Wrappers
  import Capability
  import Text
  import TokenCache

  type Headers = map<string, string>
  type Kept = Capability.Kept

  /** A request: what a script asks for, or what is sent, its header fields signed and its data as text. */
  datatype Request = Request(method_: string, url: string, headers: Headers, body: Option<string>)

  datatype Response = Response(status: nat, headers: Headers, body: Option<string>)

  datatype Error =
    | Denied | Credential(message: string) | Authentication(message: string) | Unauthorized
    | Transport(message: string) | Serialization(message: string)

  /** What the parties around one request answer, each asked at most once; and what the clock reads. */
  datatype Answers = Answers(
    allowed: bool, body: Result<Option<string>, string>, now: nat,
    credential: Result<(), string>, signature: Result<Headers, string>, first: Result<Response, string>,
    retryCredential: Result<(), string>, retries: bool, challenge: Result<Headers, string>, second: Result<Response, string>)

  // ----- the token in a response -----

  function TrimQuotes(s: string): string {
    var start := if s != "" && s[0] == '"' then SkipQuotes(s) else 0;
    DropQuotes(s[start..])
  }

  function SkipQuotes(s: string): (n: nat)
    ensures n <= |s|
  {
    if s != "" && s[0] == '"' then 1 + SkipQuotes(s[1..]) else 0
  }

  function DropQuotes(s: string): string
    decreases |s|
  {
    if s != "" && s[|s| - 1] == '"' then DropQuotes(s[..|s| - 1]) else s
  }

  /** The first non-empty `access_token` among the parts of an Authentication-Info field. */
  function AccessToken(parts: seq<string>): Option<string>
    decreases |parts|
  {
    if parts == [] then None else
    var part := Text.Trim(parts[0]);
    var cut := Text.Find(part, '=');
    if cut < |part| && Text.Trim(part[..cut]) == "access_token" && TrimQuotes(Text.Trim(part[cut + 1..])) != ""
    then Some(TrimQuotes(Text.Trim(part[cut + 1..])))
    else AccessToken(parts[1..])
  }

  const BEARER := "Bearer "

  function BearerOf(authorization: Option<string>): Option<string> {
    if authorization.Some? && Text.StartsWith(authorization.value, BEARER) then Some(authorization.value[|BEARER|..]) else None
  }

  /** The two header fields a token may come in, whatever the case of their names. */
  datatype TokenFields = TokenFields(authenticationInfo: Option<string>, authorization: Option<string>)

  function TokenText(f: TokenFields): Option<string> {
    var info := if f.authenticationInfo.Some? then AccessToken(Text.Split(f.authenticationInfo.value, ',')) else None;
    if info.Some? then info else BearerOf(f.authorization)
  }

  /** Whose token it is, how the header fields of a response are looked up, and how a token's own expiry is read. */
  datatype Env = Env(scope: TokenCache.Scope, fields: Headers -> TokenFields, expiryOf: string -> Option<nat>)

  /** The token a response brings. */
  function TokenOf(env: Env, response: Response): Option<string> {
    TokenText(env.fields(response.headers))
  }

  class Client {
    const env: Env
    const cache: TokenCache.InMemoryTokenCache
    /** Everything sent. */
    var sent: seq<Request>

    ghost function View(): State
      reads this, cache
    {
      State(cache.tokens, sent)
    }

    constructor (env: Env, cache: TokenCache.InMemoryTokenCache)
      ensures this.env == env && this.cache == cache && sent == []
    {
      this.env := env;
      this.cache := cache;
      sent := [];
    }

    method AuthMaterialFor(a: Answers, forceSignature: bool) returns (r: Result<(Headers, bool), Error>)
      modifies this, cache
      ensures (View(), r) == Authorize(old(View()), env.scope, a, forceSignature)
    {
      if !a.allowed {
        return Err(Denied);
      }
      if !forceSignature {
        var token := cache.Get(env.scope, a.now);
        if token.Some? {
          return Ok((map["Authorization" := BEARER + token.value.value], true));
        }
      }
      if a.credential.Err? {
        return Err(Credential(a.credential.error));
      }
      if a.body.Err? {
        return Err(Serialization(a.body.error));
      }
      if a.signature.Err? {
        return Err(Authentication(a.signature.error));
      }
      return Ok((a.signature.value, false));
    }

    method RetryAfterChallenge(request: Request, body: Option<string>, a: Answers) returns (r: Result<Response, Error>)
      modifies this
      ensures (sent, r) == Retry(old(sent), request, body, a)
    {
      if a.retryCredential.Err? {
        return Err(Credential(a.retryCredential.error));
      }
      if !a.retries {
        return Err(Unauthorized);
      }
      if a.challenge.Err? {
        return Err(Authentication(a.challenge.error));
      }
      var headers := request.headers;
      headers := headers + a.challenge.value;
      sent := sent + [Request(request.method_, request.url, headers, body)];
      if a.second.Err? {
        return Err(Transport(a.second.error));
      }
      return Ok(a.second.value);
    }

    method Send(request: Request, a: Answers) returns (r: Result<Response, Error>)
      modifies this, cache
      ensures (View(), r) == Exchange(old(View()), env, request, a)
    {
      hide TokenOf;
      if !a.allowed {
        return Err(Denied);
      }
      if a.body.Err? {
        return Err(Serialization(a.body.error));
      }
      var auth := AuthMaterialFor(a, false);
      if auth.Err? {
        return Err(auth.error);
      }
      sent := sent + [Request(request.method_, request.url, request.headers + auth.value.0, a.body.value)];
      if a.first.Err? {
        return Err(Transport(a.first.error));
      }
      var response := a.first.value;
      if response.status == 401 {
        if auth.value.1 {
          cache.Clear(env.scope);
        }
        var retried := RetryAfterChallenge(request, a.body.value, a);
        if retried.Err? {
          return Err(retried.error);
        }
        response := retried.value;
      }
      var token := TokenOf(env, response);
      if token.Some? {
        cache.Put(env.scope, Capability.Kept(token.value, env.expiryOf(token.value)));
      }
      return Ok(response);
    }
  }

  // ----- one exchange -----

  datatype State = State(tokens: TokenCache.Tokens, sent: seq<Request>)

  function Authorize(s: State, scope: TokenCache.Scope, a: Answers, forceSignature: bool):
      (r: (State, Result<(Headers, bool), Error>)) {
    if !a.allowed then (s, Err(Denied)) else
    var (tokens, token) := if forceSignature then (s.tokens, None) else TokenCache.Lookup(s.tokens, scope, a.now);
    var next := s.(tokens := tokens);
    if token.Some? then (next, Ok((map["Authorization" := BEARER + token.value.value], true)))
    else if a.credential.Err? then (next, Err(Credential(a.credential.error)))
    else if a.body.Err? then (next, Err(Serialization(a.body.error)))
    else if a.signature.Err? then (next, Err(Authentication(a.signature.error)))
    else (next, Ok((a.signature.value, false)))
  }

  function Retry(sent: seq<Request>, request: Request, body: Option<string>, a: Answers):
      (r: (seq<Request>, Result<Response, Error>)) {
    if a.retryCredential.Err? then (sent, Err(Credential(a.retryCredential.error)))
    else if !a.retries then (sent, Err(Unauthorized))
    else if a.challenge.Err? then (sent, Err(Authentication(a.challenge.error)))
    else
      (sent + [Request(request.method_, request.url, request.headers + a.challenge.value, body)],
       match a.second case Ok(response) => Ok(response) case Err(e) => Err(Transport(e)))
  }

  function Remember(s: State, env: Env, response: Response): State {
    match TokenOf(env, response)
    case None => s
    case Some(text) => s.(tokens := s.tokens[env.scope := Capability.Kept(text, env.expiryOf(text))])
  }

  function Exchange(s: State, env: Env, request: Request, a: Answers): (r: (State, Result<Response, Error>)) {
    if !a.allowed then (s, Err(Denied))
    else if a.body.Err? then (s, Err(Serialization(a.body.error)))
    else
      var (ready, auth) := Authorize(s, env.scope, a, false);
      match auth
      case Err(e) => (ready, Err(e))
      case Ok((headers, cached)) =>
        var once := ready.(sent := ready.sent + [Request(request.method_, request.url, request.headers + headers, a.body.value)]);
        match a.first
        case Err(e) => (once, Err(Transport(e)))
        case Ok(response) =>
          if response.status != 401 then (Remember(once, env, response), Ok(response)) else
          var cleared := if cached then once.(tokens := once.tokens - {env.scope}) else once;
          var (sent, retried) := Retry(cleared.sent, request, a.body.value, a);
          var twice := cleared.(sent := sent);
          match retried
          case Err(e) => (twice, Err(e))
          case Ok(last) => (Remember(twice, env, last), Ok(last))
  }

  /**
    A forced signature is what the client does with an empty cache, and leaves the cache as it is; without force, the
    cached token goes out exactly when there is one that has not expired.
   */
  lemma ForcedIsUncached(s: State, scope: TokenCache.Scope, a: Answers)
    ensures var (after, forced) := Authorize(s, scope, a, true);
      && after == s
      && forced == Authorize(State(map[], []), scope, a, false).1
      && (forced.Ok? ==> !forced.value.1)
    ensures var (after, plain) := Authorize(s, scope, a, false);
      && (plain.Ok? && plain.value.1 <==> a.allowed && TokenCache.Lookup(s.tokens, scope, a.now).1.Some?)
      && (TokenCache.Lookup(s.tokens, scope, a.now).1.None? ==> plain == Authorize(s, scope, a, true).1)
  {
  }

  /** The cached token a request goes out with, if it does. */
  function Used(s: State, env: Env, a: Answers): Option<Kept> {
    if a.allowed && a.body.Ok? then TokenCache.Lookup(s.tokens, env.scope, a.now).1 else None
  }

  /** The request went out with the cached token and was answered 401. */
  predicate Rejected(s: State, env: Env, a: Answers) {
    Used(s, env, a).Some? && a.first.Ok? && a.first.value.status == 401
  }

  /** The token that the last response of an exchange brought. */
  function Brought(s: State, env: Env, request: Request, a: Answers): Option<string> {
    match Exchange(s, env, request, a).1
    case Ok(response) => TokenOf(env, response)
    case Err(_) => None
  }

  /** At most two requests go out, the second only after the first was answered 401, and a result needs at least one. */
  lemma AtMostTwoSends(s: State, env: Env, request: Request, a: Answers)
    ensures var sent := Exchange(s, env, request, a).0.sent;
      && s.sent <= sent && |sent| <= |s.sent| + 2
      && (|sent| == |s.sent| + 2 ==> a.first.Ok? && a.first.value.status == 401 && a.retries && a.challenge.Ok?)
      && (sent == s.sent ==> Exchange(s, env, request, a).1.Err?)
  {
    hide TokenOf;
  }

  /** The cache after an exchange, on every exit: without the token that was rejected or had expired, with the one brought. */
  lemma CacheAfter(s: State, env: Env, request: Request, a: Answers)
    ensures var kept :=
              if Rejected(s, env, a) then s.tokens - {env.scope}
              else if a.allowed && a.body.Ok? then TokenCache.Lookup(s.tokens, env.scope, a.now).0
              else s.tokens;
      Exchange(s, env, request, a).0.tokens ==
      match Brought(s, env, request, a)
      case None => kept
      case Some(text) => kept[env.scope := Capability.Kept(text, env.expiryOf(text))]
  {
    hide TokenOf;
  }

  // ----- runs of requests -----

  datatype Event = TokenUsed(text: string) | TokenRefused(text: string) | TokenBrought(text: string)

  /** What an exchange does with tokens. */
  function Events(s: State, env: Env, request: Request, a: Answers): seq<Event> {
    (match Used(s, env, a) case Some(k) => [TokenUsed(k.value)] case None => [])
    + (if Rejected(s, env, a) then [TokenRefused(Used(s, env, a).value.value)] else [])
    + (match Brought(s, env, request, a) case Some(text) => [TokenBrought(text)] case None => [])
  }

  /** The events of a sequence of requests, against any answers. */
  function Log(s: State, env: Env, calls: seq<(Request, Answers)>): seq<Event>
    decreases |calls|
  {
    if calls == [] then []
    else
      var (request, a) := calls[0];
      Events(s, env, request, a) + Log(Exchange(s, env, request, a).0, env, calls[1..])
  }

  /** A response brought the token, and it was not refused since. */
  ghost predicate Live(log: seq<Event>, text: string) {
    exists i :: 0 <= i < |log| && log[i] == TokenBrought(text) && forall j | i < j < |log| :: log[j] != TokenRefused(text)
  }

  /** Every token that is used is live at that moment. */
  ghost predicate Safe(log: seq<Event>) {
    forall j | 0 <= j < |log| && log[j].TokenUsed? :: Live(log[..j], log[j].text)
  }

  ghost predicate CacheIsLive(s: State, env: Env, log: seq<Event>) {
    env.scope in s.tokens ==> Live(log, s.tokens[env.scope].value)
  }

  lemma LiveAfter(log: seq<Event>, more: seq<Event>, text: string)
    requires Live(log, text) && TokenRefused(text) !in more
    ensures Live(log + more, text)
  {
    var i :| 0 <= i < |log| && log[i] == TokenBrought(text) && forall j | i < j < |log| :: log[j] != TokenRefused(text);
    var all := log + more;
    assert all[i] == TokenBrought(text);
    forall j | i < j < |all| ensures all[j] != TokenRefused(text) {
      if j >= |log| {
        assert all[j] == more[j - |log|];
      }
    }
  }

  lemma LiveOnceBrought(log: seq<Event>, text: string)
    ensures Live(log + [TokenBrought(text)], text)
  {
    assert (log + [TokenBrought(text)])[|log|] == TokenBrought(text);
  }

  lemma SafeAfter(log: seq<Event>, e: Event)
    requires Safe(log) && (e.TokenUsed? ==> Live(log, e.text))
    ensures Safe(log + [e])
  {
    var all := log + [e];
    forall j | 0 <= j < |all| && all[j].TokenUsed? ensures Live(all[..j], all[j].text) {
      if j < |log| {
        assert all[..j] == log[..j] && all[j] == log[j];
      } else {
        assert all[..j] == log;
      }
    }
  }

  lemma UsedIsCached(s: State, env: Env, a: Answers)
    ensures Used(s, env, a).Some? ==> env.scope in s.tokens && Used(s, env, a).value == s.tokens[env.scope]
  {
  }

  /** What stays in the cache without being brought was there before and was not refused. */
  lemma StaysCached(s: State, env: Env, request: Request, a: Answers)
    requires Brought(s, env, request, a).None? && env.scope in Exchange(s, env, request, a).0.tokens
    ensures env.scope in s.tokens && Exchange(s, env, request, a).0.tokens[env.scope] == s.tokens[env.scope]
    ensures !Rejected(s, env, a)
  {
    hide Exchange, Brought;
    CacheAfter(s, env, request, a);
  }

  lemma BroughtIsCached(s: State, env: Env, request: Request, a: Answers)
    requires Brought(s, env, request, a).Some?
    ensures env.scope in Exchange(s, env, request, a).0.tokens
    ensures Exchange(s, env, request, a).0.tokens[env.scope].value == Brought(s, env, request, a).value
  {
    hide Exchange, Brought, Rejected;
    CacheAfter(s, env, request, a);
  }

  lemma ExchangeIsSafe(s: State, env: Env, request: Request, a: Answers, log: seq<Event>)
    requires Safe(log) && CacheIsLive(s, env, log)
    ensures var after := log + Events(s, env, request, a);
      Safe(after) && CacheIsLive(Exchange(s, env, request, a).0, env, after)
  {
    hide Exchange, Brought, Used, Rejected, Live, Safe;
    var used, brought := Used(s, env, a), Brought(s, env, request, a);
    UsedIsCached(s, env, a);
    RejectedIsUsed(s, env, a);
    var first := if used.Some? then [TokenUsed(used.value.value)] else [];
    var second := if Rejected(s, env, a) then [TokenRefused(used.value.value)] else [];
    var third := if brought.Some? then [TokenBrought(brought.value)] else [];
    assert log + Events(s, env, request, a) == log + first + second + third;
    assert log + [] == log && log + first + [] == log + first && log + first + second + [] == log + first + second;
    if used.Some? {
      SafeAfter(log, first[0]);
    }
    if second != [] {
      SafeAfter(log + first, second[0]);
    }
    if brought.Some? {
      SafeAfter(log + first + second, third[0]);
      LiveOnceBrought(log + first + second, brought.value);
      BroughtIsCached(s, env, request, a);
    } else if env.scope in Exchange(s, env, request, a).0.tokens {
      StaysCached(s, env, request, a);
      LiveAfter(log, first, s.tokens[env.scope].value);
    }
  }

  lemma RejectedIsUsed(s: State, env: Env, a: Answers)
    ensures Rejected(s, env, a) ==> Used(s, env, a).Some?
  {
  }

  lemma {:induction false} RunIsSafe(s: State, env: Env, calls: seq<(Request, Answers)>, log: seq<Event>)
    requires Safe(log) && CacheIsLive(s, env, log)
    ensures Safe(log + Log(s, env, calls))
    decreases |calls|
  {
    hide Exchange, Events, Safe, CacheIsLive;
    if calls == [] {
      assert log + [] == log;
    } else {
      var (request, a) := calls[0];
      var events, next := Events(s, env, request, a), Exchange(s, env, request, a).0;
      ExchangeIsSafe(s, env, request, a, log);
      RunIsSafe(next, env, calls[1..], log + events);
      assert log + (events + Log(next, env, calls[1..])) == log + events + Log(next, env, calls[1..]);
    }
  }

  /**
    In every run of requests from an empty cache, against any server: a token is used only after a response brought
    it, and once it was refused not again until a response brings it again.
   */
  lemma RefusedTokensAreNotReused(env: Env, calls: seq<(Request, Answers)>)
    ensures Safe(Log(State(map[], []), env, calls))
  {
    hide Exchange, Events, Log;
    var s := State(map[], []);
    RunIsSafe(s, env, calls, []);
    assert [] + Log(s, env, calls) == Log(s, env, calls);
  }
}
