/** Login of a script's requests: a session is served from the cache while it has more than five seconds left. */
module LoginSessions {
  import opened Wrappers
  import opened Saturating

  const MARGIN: nat := 5000
  const NO_USER := "DID login requires userDid in ApiCallContext"
  const UNAVAILABLE := "DID token cache is unavailable"
  const DEFAULT_MERCHANT := "did:wba:coffee-merchant.example"

  datatype Session = Session(token: string, expiresAtMs: Option<u64>, scopes: seq<string>)

  datatype Key = Key(
    baseUrl: string, merchantDid: string, userDid: string, agentDid: Option<string>, skillId: string, sessionId: string)

  /** The context of a call, with the two arguments that may name a server. */
  datatype Call = Call(
    userDid: Option<string>, merchantDid: Option<string>, agentDid: Option<string>, skillId: string, sessionId: string,
    remoteBaseUrl: Option<string>, serverUrl: Option<string>)

  predicate IsExpired(s: Session, now: nat) {
    s.expiresAtMs.Some? && s.expiresAtMs.value <= SaturatingAdd(now, MARGIN)
  }

  function TrimSlashes(s: string): (r: string)
    ensures r <= s && (r != "" ==> r[|r| - 1] != '/')
    decreases |s|
  {
    if s != "" && s[|s| - 1] == '/' then TrimSlashes(s[..|s| - 1]) else s
  }

  function BaseUrl(origin: Option<string>, call: Call): Option<string> {
    var url := if origin.Some? then origin else if call.remoteBaseUrl.Some? then call.remoteBaseUrl else call.serverUrl;
    if url.Some? && TrimSlashes(url.value) != "" then Some(TrimSlashes(url.value)) else None
  }

  function KeyOf(base: string, user: string, call: Call): Key {
    var merchant := if call.merchantDid.Some? then call.merchantDid.value else DEFAULT_MERCHANT;
    Key(base, merchant, user, call.agentDid, call.skillId, call.sessionId)
  }

  class Host {
    const didAuth: bool
    var cache: map<Key, Session>
    /** How many logins were performed. */
    var logins: nat

    constructor (didAuth: bool)
      ensures this.didAuth == didAuth && cache == map[] && logins == 0
    {
      this.didAuth := didAuth;
      cache := map[];
      logins := 0;
    }

    /**
      `login` is what the login exchange would answer, if there is one; `readable` and `writable` whether the lock of the
      cache could be taken before it and after it.
     */
    method EnsureLogin(origin: Option<string>, call: Option<Call>, now: nat, login: Result<Session, string>, readable: bool, writable: bool)
      returns (r: Result<Option<Session>, string>)
      modifies this
      ensures !didAuth || call.None? || BaseUrl(origin, call.value).None? ==>
                r == Ok(None) && cache == old(cache) && logins == old(logins)
      ensures didAuth && call.Some? && BaseUrl(origin, call.value).Some? && (call.value.userDid.None? || !readable) ==>
                && r == Err(if call.value.userDid.None? then NO_USER else UNAVAILABLE)
                && cache == old(cache) && logins == old(logins)
      ensures didAuth && call.Some? && BaseUrl(origin, call.value).Some? && call.value.userDid.Some? && readable ==>
                var key := KeyOf(BaseUrl(origin, call.value).value, call.value.userDid.value, call.value);
                if key in old(cache) && !IsExpired(old(cache)[key], now)
                then r == Ok(Some(old(cache)[key])) && cache == old(cache) && logins == old(logins)
                else
                  && logins == old(logins) + 1
                  && (match login
                      case Err(e) => r == Err(e) && cache == old(cache)
                      case Ok(session) =>
                        if writable then r == Ok(Some(session)) && cache == old(cache)[key := session]
                        else r == Err(UNAVAILABLE) && cache == old(cache))
      ensures r.Ok? && r.value.Some? && logins == old(logins) ==> HasTimeLeft(r.value.value, now)
    {
      if !didAuth || call.None? {
        return Ok(None);
      }
      var base := BaseUrl(origin, call.value);
      if base.None? {
        return Ok(None);
      }
      if call.value.userDid.None? {
        return Err(NO_USER);
      }
      var key := KeyOf(base.value, call.value.userDid.value, call.value);
      if !readable {
        return Err(UNAVAILABLE);
      }
      if key in cache && !IsExpired(cache[key], now) {
        return Ok(Some(cache[key]));
      }
      logins := logins + 1;
      if login.Err? {
        return Err(login.error);
      }
      if !writable {
        return Err(UNAVAILABLE);
      }
      cache := cache[key := login.value];
      return Ok(Some(login.value));
    }
  }

  predicate HasTimeLeft(s: Session, now: nat) {
    s.expiresAtMs.Some? ==> s.expiresAtMs.value > now + MARGIN
  }

  /** A session is served without a login exactly when more than the margin is left of it, on a 64-bit clock. */
  lemma ServedIff(s: Session, now: nat)
    ensures !IsExpired(s, now) <==> HasTimeLeft(s, now)
  {
  }

  // ----- where a login goes, and under what it is remembered -----

  function Slashes(n: nat): string {
    seq(n, _ => '/')
  }

  lemma {:induction false} SlashesTrimmed(base: string, n: nat)
    requires base == "" || base[|base| - 1] != '/'
    ensures TrimSlashes(base + Slashes(n)) == base
    decreases n
  {
    if n == 0 {
      assert base + Slashes(0) == base;
    } else {
      var url := base + Slashes(n);
      assert url[|url| - 1] == '/' && url[..|url| - 1] == base + Slashes(n - 1);
      SlashesTrimmed(base, n - 1);
    }
  }

  /** The host's own origin comes first, then the two arguments, each without the slashes at its end; an empty one is none. */
  lemma BaseUrlIs(origin: Option<string>, call: Call, base: string, n: nat)
    requires base == "" || base[|base| - 1] != '/'
    ensures var url, given := base + Slashes(n), if base == "" then None else Some(base);
      && (origin == Some(url) ==> BaseUrl(origin, call) == given)
      && (origin == None && call.remoteBaseUrl == Some(url) ==> BaseUrl(origin, call) == given)
      && (origin == None && call.remoteBaseUrl == None && call.serverUrl == Some(url) ==> BaseUrl(origin, call) == given)
      && (origin == None && call.remoteBaseUrl == None && call.serverUrl == None ==> BaseUrl(origin, call) == None)
  {
    hide TrimSlashes;
    SlashesTrimmed(base, n);
  }

  /** Sessions are kept apart by server, merchant (the demo merchant if none is named), user, agent, skill and session. */
  lemma KeysAgreeIff(base: string, user: string, call: Call, base': string, user': string, call': Call)
    ensures KeyOf(base, user, call) == KeyOf(base', user', call') <==>
            && base == base' && user == user' && call.agentDid == call'.agentDid
            && call.skillId == call'.skillId && call.sessionId == call'.sessionId
            && (call.merchantDid == call'.merchantDid
                || (call.merchantDid in {None, Some("did:wba:coffee-merchant.example")}
                    && call'.merchantDid in {None, Some("did:wba:coffee-merchant.example")}))
  {
  }
}
