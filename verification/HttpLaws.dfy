/** What goes over the wire: each request's credential, the answer to the caller, and when a cached token may go out. */
module HttpLaws {
  import opened Wrappers
  import opened Checks
  import opened HttpClient
  import Text
  import TokenCache

  // ----- what is sent -----

  /** The token in the cache, unless it has expired. */
  function Fresh(tokens: TokenCache.Tokens, scope: TokenCache.Scope, now: nat): Option<string> {
    if scope !in tokens then None
    else if tokens[scope].expiresAtMs.Some? && tokens[scope].expiresAtMs.value <= now then None
    else Some(tokens[scope].value)
  }

  lemma FreshIs(s: State, env: Env, now: nat)
    ensures var found := TokenCache.Lookup(s.tokens, env.scope, now).1;
      Fresh(s.tokens, env.scope, now) == match found { case Some(kept) => Some(kept.value) case None => None }
  {
  }

  /** The first credential: the cached token as bearer, or else a signature. */
  function FirstCredential(s: State, env: Env, a: Answers): Option<Headers> {
    match Fresh(s.tokens, env.scope, a.now)
    case Some(token) => Some(map["Authorization" := "Bearer " + token])
    case None => if a.credential.Ok? && a.signature.Ok? then Some(a.signature.value) else None
  }

  /** A request as it was asked for, with these header fields over its own and its data as text. */
  ghost predicate IsSigned(sent: Request, request: Request, credential: Headers, a: Answers) {
    && sent.method_ == request.method_ && sent.url == request.url
    && a.body.Ok? && sent.body == a.body.value
    && (forall name :: name in sent.headers <==> name in request.headers || name in credential)
    && (forall name | name in sent.headers ::
          sent.headers[name] == if name in credential then credential[name] else request.headers[name])
  }

  /** What one exchange sends, in order, with the answers it gets. */
  datatype Wire = Wire(sent: Request, answer: Result<Response, string>)

  function WireOf(s: State, env: Env, request: Request, a: Answers): seq<Wire> {
    var before, after := s.sent, Exchange(s, env, request, a).0.sent;
    (if |after| > |before| then [Wire(after[|before|], a.first)] else [])
    + (if |after| > |before| + 1 then [Wire(after[|before| + 1], a.second)] else [])
  }

  /**
    The first request goes out with the cached token as bearer or with a signature; the second, after a 401, is the
    request itself with the answer to the challenge: nothing of the first credential is left in it.
   */
  lemma WhatIsSent(s: State, env: Env, request: Request, a: Answers)
    ensures var wire, first := WireOf(s, env, request, a), FirstCredential(s, env, a);
      && (|wire| >= 1 <==> a.allowed && a.body.Ok? && first.Some?)
      && (|wire| >= 2 <==>
          && |wire| >= 1 && a.first.Ok? && a.first.value.status == 401
          && a.retryCredential.Ok? && a.retries && a.challenge.Ok?)
      && |wire| <= 2
      && (|wire| >= 1 ==> IsSigned(wire[0].sent, request, first.value, a) && wire[0].answer == a.first)
      && (|wire| >= 2 ==> IsSigned(wire[1].sent, request, a.challenge.value, a) && wire[1].answer == a.second)
      && Exchange(s, env, request, a).0.sent == s.sent + seq(|wire|, i requires 0 <= i < |wire| => wire[i].sent)
  {
    hide *;
    var first := FirstCredential(s, env, a);
    GoesOutIff(s, env, a);
    ExchangeSends(s, env, request, a);
    if GoesOut(s, env, a) {
      SignedIs(request, first.value, a);
      if GoesAgain(a) {
        SignedIs(request, a.challenge.value, a);
      }
    }
    WireIs(s, env, request, a, Exchange(s, env, request, a).0.sent);
  }

  predicate GoesOut(s: State, env: Env, a: Answers) {
    a.allowed && a.body.Ok? && FirstCredential(s, env, a).Some?
  }

  predicate GoesAgain(a: Answers) {
    a.first.Ok? && a.first.value.status == 401 && a.retryCredential.Ok? && a.retries && a.challenge.Ok?
  }

  lemma GoesOutIff(s: State, env: Env, a: Answers)
    ensures GoesOut(s, env, a) <==> a.allowed && a.body.Ok? && FirstCredential(s, env, a).Some?
    ensures GoesAgain(a) <==>
            a.first.Ok? && a.first.value.status == 401 && a.retryCredential.Ok? && a.retries && a.challenge.Ok?
  {
  }

  function Signed(request: Request, credential: Headers, a: Answers): Request
    requires a.body.Ok?
  {
    Request(request.method_, request.url, request.headers + credential, a.body.value)
  }

  lemma SignedIs(request: Request, credential: Headers, a: Answers)
    requires a.body.Ok?
    ensures IsSigned(Signed(request, credential, a), request, credential, a)
  {
  }

  lemma ExchangeSends(s: State, env: Env, request: Request, a: Answers)
    ensures Exchange(s, env, request, a).0.sent ==
            s.sent + (if GoesOut(s, env, a) then [Signed(request, FirstCredential(s, env, a).value, a)] else [])
            + if GoesOut(s, env, a) && GoesAgain(a) then [Signed(request, a.challenge.value, a)] else []
  {
    hide TokenOf;
    FreshIs(s, env, a.now);
  }

  lemma WireIs(s: State, env: Env, request: Request, a: Answers, sent: seq<Request>)
    requires sent == Exchange(s, env, request, a).0.sent && |s.sent| <= |sent| <= |s.sent| + 2 && sent[..|s.sent|] == s.sent
    ensures var wire := WireOf(s, env, request, a);
      && |wire| == |sent| - |s.sent|
      && (|wire| >= 1 ==> wire[0] == Wire(sent[|s.sent|], a.first))
      && (|wire| >= 2 ==> wire[1] == Wire(sent[|s.sent| + 1], a.second))
      && sent == s.sent + seq(|wire|, i requires 0 <= i < |wire| => wire[i].sent)
  {
    hide Exchange;
  }

  // ----- what is answered -----


  function MessageOf<T>(r: Result<T, string>): string {
    if r.Err? then r.error else ""
  }

  /** A 401 is never the end without its retry: the answer is the last response, or the first thing that failed. */
  lemma WhatIsAnswered(s: State, env: Env, request: Request, a: Answers)
    ensures var cached := Fresh(s.tokens, env.scope, a.now).Some?;
      var again := a.first.Ok? && a.first.value.status == 401;
      var why := FirstFailure([
        Check(a.allowed, Denied), Check(a.body.Ok?, Serialization(MessageOf(a.body))),
        Check(cached || a.credential.Ok?, Credential(MessageOf(a.credential))),
        Check(cached || a.signature.Ok?, Authentication(MessageOf(a.signature))),
        Check(a.first.Ok?, Transport(MessageOf(a.first))),
        Check(again ==> a.retryCredential.Ok?, Credential(MessageOf(a.retryCredential))),
        Check(again ==> a.retries, Unauthorized),
        Check(again ==> a.challenge.Ok?, Authentication(MessageOf(a.challenge))),
        Check(again ==> a.second.Ok?, Transport(MessageOf(a.second)))]);
      var answer := Exchange(s, env, request, a).1;
      if why.Some? then answer == Err(why.value)
      else a.first.Ok? && (again ==> a.second.Ok?) && answer == Ok(if again then a.second.value else a.first.value)
  {
    hide TokenOf;
    FreshIs(s, env, a.now);
    var cached := Fresh(s.tokens, env.scope, a.now).Some?;
    var again := a.first.Ok? && a.first.value.status == 401;
    FirstOfNine(
        Check(a.allowed, Denied), Check(a.body.Ok?, Serialization(MessageOf(a.body))),
        Check(cached || a.credential.Ok?, Credential(MessageOf(a.credential))),
        Check(cached || a.signature.Ok?, Authentication(MessageOf(a.signature))),
        Check(a.first.Ok?, Transport(MessageOf(a.first))),
        Check(again ==> a.retryCredential.Ok?, Credential(MessageOf(a.retryCredential))),
        Check(again ==> a.retries, Unauthorized),
        Check(again ==> a.challenge.Ok?, Authentication(MessageOf(a.challenge))),
        Check(again ==> a.second.Ok?, Transport(MessageOf(a.second))));
  }

  type HttpCheck = Check<Error>

  lemma FirstOfNine(a: HttpCheck, b: HttpCheck, c: HttpCheck, d: HttpCheck, e: HttpCheck, f: HttpCheck, g: HttpCheck, h: HttpCheck,
                    i: HttpCheck)
    ensures FirstFailure([a, b, c, d, e, f, g, h, i]) ==
            if !a.passes then Some(a.error) else if !b.passes then Some(b.error) else if !c.passes then Some(c.error)
            else if !d.passes then Some(d.error) else if !e.passes then Some(e.error) else if !f.passes then Some(f.error)
            else if !g.passes then Some(g.error) else if !h.passes then Some(h.error) else if !i.passes then Some(i.error) else None
  {
    FirstStep(a, [b, c, d, e, f, g, h, i]);
    FirstStep(b, [c, d, e, f, g, h, i]);
    FirstStep(c, [d, e, f, g, h, i]);
    FirstStep(d, [e, f, g, h, i]);
    FirstStep(e, [f, g, h, i]);
    FirstStep(f, [g, h, i]);
    FirstStep(g, [h, i]);
    FirstStep(h, [i]);
    FirstStep(i, []);
    NoFailure<Error>();
    assert [h] + [i] == [h, i] && [g] + [h, i] == [g, h, i] && [f] + [g, h, i] == [f, g, h, i] && [i] + [] == [i];
    assert [e] + [f, g, h, i] == [e, f, g, h, i] && [d] + [e, f, g, h, i] == [d, e, f, g, h, i];
    assert [c] + [d, e, f, g, h, i] == [c, d, e, f, g, h, i] && [b] + [c, d, e, f, g, h, i] == [b, c, d, e, f, g, h, i];
    assert [a] + [b, c, d, e, f, g, h, i] == [a, b, c, d, e, f, g, h, i];
  }

  // ----- whole runs on the wire -----

  /** Everything that goes over the wire in a run of requests. */
  function WireLog(s: State, env: Env, calls: seq<(Request, Answers)>): seq<Wire>
    decreases |calls|
  {
    if calls == [] then []
    else
      var front := calls[..|calls| - 1];
      var (request, a) := calls[|calls| - 1];
      WireLog(s, env, front) + WireOf(After(s, env, front), env, request, a)
  }

  /** The state after a run of requests. */
  function After(s: State, env: Env, calls: seq<(Request, Answers)>): State
    decreases |calls|
  {
    if calls == [] then s
    else
      var (request, a) := calls[|calls| - 1];
      Exchange(After(s, env, calls[..|calls| - 1]), env, request, a).0
  }

  predicate IsRefusal(w: Wire) {
    w.answer.Ok? && w.answer.value.status == 401
  }

  predicate Brings(env: Env, w: Wire, token: string) {
    w.answer.Ok? && TokenOf(env, w.answer.value) == Some(token)
  }

  /** A response brought the token, and since then nothing that went out, with this token or another, was answered 401. */
  ghost predicate BroughtAndNotRefused(env: Env, log: seq<Wire>, token: string) {
    exists i :: 0 <= i < |log| && Brings(env, log[i], token) && forall j | i < j < |log| :: !IsRefusal(log[j])
  }

  ghost predicate CacheWasBrought(s: State, env: Env, log: seq<Wire>) {
    env.scope in s.tokens ==> BroughtAndNotRefused(env, log, s.tokens[env.scope].value)
  }

  lemma StaysBrought(env: Env, log: seq<Wire>, more: seq<Wire>, token: string)
    requires BroughtAndNotRefused(env, log, token) && forall w | w in more :: !IsRefusal(w)
    ensures BroughtAndNotRefused(env, log + more, token)
  {
    hide Brings, IsRefusal;
    var i :| 0 <= i < |log| && Brings(env, log[i], token) && forall j | i < j < |log| :: !IsRefusal(log[j]);
    var all := log + more;
    assert all[i] == log[i];
    forall j | i < j < |all| ensures !IsRefusal(all[j]) {
      assert all[j] == if j < |log| then log[j] else more[j - |log|];
    }
  }

  lemma BroughtLast(env: Env, log: seq<Wire>, more: seq<Wire>, token: string)
    requires more != [] && Brings(env, more[|more| - 1], token)
    ensures BroughtAndNotRefused(env, log + more, token)
  {
    hide Brings, IsRefusal;
    assert (log + more)[|log + more| - 1] == more[|more| - 1];
  }

  /** After an exchange the cache has the token that its last answer brought, or what it had, if nothing was refused. */
  lemma CacheAndWire(s: State, env: Env, request: Request, a: Answers)
    requires env.scope in Exchange(s, env, request, a).0.tokens
    ensures var token, wire := Exchange(s, env, request, a).0.tokens[env.scope].value, WireOf(s, env, request, a);
      || (wire != [] && Brings(env, wire[|wire| - 1], token))
      || (env.scope in s.tokens && s.tokens[env.scope].value == token && forall w | w in wire :: !IsRefusal(w))
  {
    hide TokenOf;
  }

  lemma {:induction false} RunKeepsBrought(env: Env, calls: seq<(Request, Answers)>)
    ensures CacheWasBrought(After(State(map[], []), env, calls), env, WireLog(State(map[], []), env, calls))
    decreases |calls|
  {
    hide Exchange, Brings, IsRefusal, BroughtAndNotRefused, WireOf;
    if calls != [] {
      var front := calls[..|calls| - 1];
      var (request, a) := calls[|calls| - 1];
      RunKeepsBrought(env, front);
      var s, log := After(State(map[], []), env, front), WireLog(State(map[], []), env, front);
      var next, wire := Exchange(s, env, request, a).0, WireOf(s, env, request, a);
      if env.scope in next.tokens {
        CacheAndWire(s, env, request, a);
        if wire != [] && Brings(env, wire[|wire| - 1], next.tokens[env.scope].value) {
          BroughtLast(env, log, wire, next.tokens[env.scope].value);
        } else {
          StaysBrought(env, log, wire, next.tokens[env.scope].value);
        }
      }
    }
  }

  predicate Carries(headers: Headers, token: string) {
    "Authorization" in headers && headers["Authorization"] == "Bearer " + token
  }

  /**
    In every run from an empty cache, against any server: a request that goes out with a bearer token which neither the
    caller nor the signer put there has one that a response brought, and nothing since was answered 401.
   */
  lemma TokensOnTheWire(env: Env, calls: seq<(Request, Answers)>, request: Request, a: Answers, k: nat, token: string)
    requires var s := After(State(map[], []), env, calls);
      && k < |WireOf(s, env, request, a)| && Carries(WireOf(s, env, request, a)[k].sent.headers, token)
    requires !Carries(request.headers, token)
    requires a.signature.Ok? ==> !Carries(a.signature.value, token)
    requires a.challenge.Ok? ==> !Carries(a.challenge.value, token)
    ensures k == 0 && BroughtAndNotRefused(env, WireLog(State(map[], []), env, calls), token)
  {
    var s := After(State(map[], []), env, calls);
    RunKeepsBrought(env, calls);
    WhatIsSent(s, env, request, a);
    hide Exchange, BroughtAndNotRefused, WireOf, After, WireLog;
    var wire, first := WireOf(s, env, request, a), FirstCredential(s, env, a);
    assert "Authorization" in wire[k].sent.headers;
    if k == 0 && Fresh(s.tokens, env.scope, a.now).Some? {
      SameBearer(Fresh(s.tokens, env.scope, a.now).value, token);
    }
  }

  lemma SameBearer(a: string, b: string)
    ensures "Bearer " + a == "Bearer " + b ==> a == b
  {
    assert ("Bearer " + a)[7..] == a && ("Bearer " + b)[7..] == b;
  }

  // ----- the token in a response -----

  function Quotes(n: nat): string {
    seq(n, _ => '"')
  }

  lemma {:induction false} SkipsQuotes(n: nat, s: string)
    requires s == "" || s[0] != '"'
    ensures SkipQuotes(Quotes(n) + s) == n
    decreases n
  {
    if n == 0 {
      assert Quotes(0) + s == s;
    } else {
      assert (Quotes(n) + s)[1..] == Quotes(n - 1) + s;
      SkipsQuotes(n - 1, s);
    }
  }

  lemma {:induction false} DropsQuotes(s: string, n: nat)
    requires s == "" || s[|s| - 1] != '"'
    ensures DropQuotes(s + Quotes(n)) == s
    decreases n
  {
    if n == 0 {
      assert s + Quotes(0) == s;
    } else {
      assert (s + Quotes(n))[..|s| + n - 1] == s + Quotes(n - 1);
      DropsQuotes(s, n - 1);
    }
  }

  /** Quotes around a text go, however many. */
  lemma QuotesTrimmed(m: nat, s: string, n: nat)
    requires s != "" && s[0] != '"' && s[|s| - 1] != '"'
    ensures TrimQuotes(Quotes(m) + s + Quotes(n)) == s
    ensures TrimQuotes(Quotes(m)) == ""
  {
    hide SkipQuotes, DropQuotes;
    assert Quotes(m) + s + Quotes(n) == Quotes(m) + (s + Quotes(n));
    SkipsQuotes(m, s + Quotes(n));
    DropsQuotes(s, n);
    assert (Quotes(m) + (s + Quotes(n)))[m..] == s + Quotes(n);
    SkipsQuotes(m, "");
    assert Quotes(m) + "" == Quotes(m);
    DropsQuotes("", 0);
    assert Quotes(m)[m..] == "" && "" + Quotes(0) == "";
    NoQuotes(s + Quotes(n));
  }

  lemma NoQuotes(s: string)
    ensures SkipQuotes(s) == 0 <==> s == "" || s[0] != '"'
  {
  }

  /** What a value in the field means: the text in its quotes. */
  datatype Quoted = Quoted(left: nat, text: string, right: nat)

  predicate IsQuoted(v: Quoted) {
    if v.text == "" then v.right == 0
    else
      && v.text[0] != '"' && v.text[|v.text| - 1] != '"' && ',' !in v.text
      && (v.left == 0 ==> !Text.IsSpace(v.text[0])) && (v.right == 0 ==> !Text.IsSpace(v.text[|v.text| - 1]))
  }

  function WriteQuoted(v: Quoted): string {
    Quotes(v.left) + v.text + Quotes(v.right)
  }

  lemma QuotedIs(v: Quoted)
    requires IsQuoted(v)
    ensures var w := WriteQuoted(v);
      TrimQuotes(w) == v.text && (w != "" ==> !Text.IsSpace(w[0]) && !Text.IsSpace(w[|w| - 1]))
  {
    assert !Text.IsSpace('"');
    hide Text.IsSpace, TrimQuotes;
    var w := WriteQuoted(v);
    if v.text == "" {
      QuotesTrimmed(v.left, "x", 0);
      assert w == Quotes(v.left);
    } else {
      QuotesTrimmed(v.left, v.text, v.right);
      assert w[0] == if v.left == 0 then v.text[0] else '"';
      assert w[|w| - 1] == if v.right == 0 then v.text[|v.text| - 1] else '"';
    }
  }

  /** A parameter with white space around its name and its value. */
  datatype Param = Param(lead: string, name: string, before: string, after: string, value: Quoted, trail: string)

  predicate IsTrimmed(s: string) {
    s != "" ==> !Text.IsSpace(s[0]) && !Text.IsSpace(s[|s| - 1])
  }

  predicate IsParam(p: Param) {
    && Text.IsBlank(p.lead) && Text.IsBlank(p.before) && Text.IsBlank(p.after) && Text.IsBlank(p.trail)
    && p.name != "" && IsTrimmed(p.name) && '=' !in p.name && IsQuoted(p.value)
    && (WriteQuoted(p.value) == "" ==> p.after == "")
  }

  function WriteParam(p: Param): string {
    p.lead + ((p.name + p.before) + ("=" + (p.after + WriteQuoted(p.value)))) + p.trail
  }

  lemma NoEquals(pad: string)
    requires Text.IsBlank(pad)
    ensures '=' !in pad && Text.IsBlank("") && !Text.IsSpace('=')
  {
  }

  lemma OneSide(pad: string, s: string)
    requires Text.IsBlank(pad) && IsTrimmed(s)
    ensures Text.Trim(pad + s) == s && Text.Trim(s + pad) == s
  {
    NoEquals(pad);
    hide Text.IsSpace, Text.TrimStart, Text.TrimEnd, Text.Trim;
    assert pad + s + "" == pad + s && "" + s + pad == s + pad;
    Text.TrimPadded(pad, s, "");
    Text.TrimPadded("", s, pad);
  }

  /** The inside of a parameter: the equals sign parts the name from the value, and both ends show. */
  lemma InsideIs(head: string, tail: string)
    requires head != "" && '=' !in head
    ensures var mid := head + ("=" + tail);
      && mid[0] == head[0] && Text.Find(mid, '=') == |head| < |mid| && mid[..|head|] == head && mid[|head| + 1..] == tail
      && mid[|mid| - 1] == if tail == "" then '=' else tail[|tail| - 1]
  {
    var mid := head + ("=" + tail);
    assert mid[|head|] == '=' && mid[..|head|] == head && mid[|head| + 1..] == tail;
    Text.FindIs(mid, '=', |head|);
  }

  lemma HeadIs(name: string, before: string)
    requires name != "" && '=' !in name && '=' !in before
    ensures var head := name + before; head != "" && '=' !in head && head[0] == name[0]
  {
  }

  lemma ParamIs(p: Param)
    requires IsParam(p)
    ensures AccessToken([WriteParam(p)]) == if p.name == "access_token" && p.value.text != "" then Some(p.value.text) else None
  {
    ParamParts(p);
    hide *;
    var w := WriteQuoted(p.value);
    QuotedIs(p.value);
    NoEquals(p.before);
    OneSide(p.before, p.name);
    OneSide(p.after, w);
    var head, tail := p.name + p.before, p.after + w;
    HeadIs(p.name, p.before);
    InsideIs(head, tail);
    TrimmedWhole(p);
    OneParam(WriteParam(p), head, tail, p.name, w);
  }

  lemma ParamParts(p: Param)
    requires IsParam(p)
    ensures Text.IsBlank(p.before) && Text.IsBlank(p.after) && p.name != "" && IsTrimmed(p.name) && '=' !in p.name && IsQuoted(p.value)
    ensures IsTrimmed(WriteQuoted(p.value))
  {
    QuotedIs(p.value);
    hide IsQuoted, Text.IsBlank, Text.IsSpace, WriteQuoted;
  }

  lemma TrimmedWhole(p: Param)
    requires IsParam(p)
    ensures Text.Trim(WriteParam(p)) == (p.name + p.before) + ("=" + (p.after + WriteQuoted(p.value)))
  {
    var w := WriteQuoted(p.value);
    QuotedIs(p.value);
    NoEquals(p.before);
    HeadIs(p.name, p.before);
    InsideIs(p.name + p.before, p.after + w);
    assert w != "" ==> (p.after + w)[|p.after + w| - 1] == w[|w| - 1];
    hide Text.IsSpace, Text.TrimStart, Text.TrimEnd, Text.Trim, Text.Find, WriteQuoted, IsQuoted;
    Text.TrimPadded(p.lead, (p.name + p.before) + ("=" + (p.after + w)), p.trail);
  }

  lemma OneParam(part: string, head: string, tail: string, name: string, w: string)
    requires var mid := head + ("=" + tail);
      Text.Trim(part) == mid && Text.Find(mid, '=') == |head| < |mid| && mid[..|head|] == head && mid[|head| + 1..] == tail
    requires Text.Trim(head) == name && Text.Trim(tail) == w
    ensures AccessToken([part]) == if name == "access_token" && TrimQuotes(w) != "" then Some(TrimQuotes(w)) else None
  {
    hide Text.Trim, Text.Find, TrimQuotes;
    assert [part][1..] == [] && AccessToken([]) == None;
  }

  /** A part without an equals sign brings nothing. */
  lemma StrayIs(part: string)
    requires '=' !in part
    ensures AccessToken([part]) == None
  {
    var t := Text.Trim(part);
    assert forall c | c in t :: c in part by {
      assert forall c | c in Text.TrimStart(part) :: c in part;
    }
    Text.FindNone(t, '=');
    hide Text.Trim, Text.Find, TrimQuotes;
    assert [part][1..] == [] && AccessToken([]) == None;
  }

  /** Of several parts the first that brings a token counts. */
  lemma {:induction false} FirstPartCounts(a: seq<string>, b: seq<string>)
    ensures AccessToken(a + b) == if AccessToken(a).Some? then AccessToken(a) else AccessToken(b)
    decreases |a|
  {
    hide *;
    AccessStep(a);
    AccessStep(a + b);
    if a == [] {
      assert a + b == b;
    } else {
      assert (a + b)[1..] == a[1..] + b && (a + b)[0] == a[0];
      FirstPartCounts(a[1..], b);
    }
  }

  lemma AccessStep(parts: seq<string>)
    ensures parts == [] ==> AccessToken(parts) == None
    ensures parts != [] ==>
              AccessToken(parts) == if AccessToken([parts[0]]).Some? then AccessToken([parts[0]]) else AccessToken(parts[1..])
  {
    hide Text.Trim, Text.Find, TrimQuotes;
    if parts != [] {
      assert [parts[0]][1..] == [] && AccessToken([]) == None;
    }
  }

  /** The token of a response: that of the parts between the commas of its Authentication-Info, or else its bearer. */
  lemma TokenTextIs(parts: seq<string>, authorization: Option<string>, token: string)
    requires parts != [] && forall p | p in parts :: ',' !in p
    ensures TokenText(TokenFields(Some(Text.Join(parts, ",")), authorization)) ==
            if AccessToken(parts).Some? then AccessToken(parts) else TokenText(TokenFields(None, authorization))
    ensures TokenText(TokenFields(None, Some("Bearer " + token))) == Some(token)
    ensures TokenText(TokenFields(None, None)) == None
    ensures authorization.Some? && !("Bearer " <= authorization.value) ==> TokenText(TokenFields(None, authorization)) == None
  {
    hide AccessToken, Text.Split, Text.Join;
    Text.SplitJoin(parts, ',');
    assert [','] == ",";
    assert ("Bearer " + token)[7..] == token;
  }
}
