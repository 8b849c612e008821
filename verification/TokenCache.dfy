/** Caches of tokens and sessions that look at the clock when they are read. */
module TokenCache {
  import opened Wrappers
  import opened Saturating
  import opened Capability

  datatype Scope = Scope(merchantDid: string, userDid: string, skillId: string, agentDid: Option<string>, sessionId: Option<string>)

  type Tokens = map<Scope, Kept>

  /** Reading a token drops it when it has expired. */
  function Lookup(tokens: Tokens, scope: Scope, now: nat): (r: (Tokens, Option<Kept>)) {
    if scope !in tokens then (tokens, None)
    else if IsExpiredAt(tokens[scope], now) then (tokens - {scope}, None)
    else (tokens, Some(tokens[scope]))
  }

  class InMemoryTokenCache {
    var tokens: Tokens

    constructor ()
      ensures tokens == map[]
    {
      tokens := map[];
    }

    method Get(scope: Scope, now: nat) returns (token: Option<Kept>)
      modifies this
      ensures (tokens, token) == Lookup(old(tokens), scope, now)
    {
      if scope !in tokens {
        return None;
      }
      var found := tokens[scope];
      if IsExpiredAt(found, now) {
        tokens := tokens - {scope};
        return None;
      }
      return Some(found);
    }

    method Put(scope: Scope, token: Kept)
      modifies this
      ensures tokens == old(tokens)[scope := token]
    {
      tokens := tokens[scope := token];
    }

    method Clear(scope: Scope)
      modifies this
      ensures tokens == old(tokens) - {scope}
    {
      tokens := tokens - {scope};
    }
  }

  // ----- any use of the cache -----

  datatype Op = Get(scope: Scope, now: nat) | Put(scope: Scope, token: Kept) | Clear(scope: Scope)

  /** The answers of the cache to a sequence of calls. */
  function Answers(tokens: Tokens, ops: seq<Op>): seq<Option<Kept>>
    decreases |ops|
  {
    if ops == [] then [] else
    match ops[0]
    case Get(scope, now) =>
      var (next, r) := Lookup(tokens, scope, now);
      [r] + Answers(next, ops[1..])
    case Put(scope, token) => [None] + Answers(tokens[scope := token], ops[1..])
    case Clear(scope) => [None] + Answers(tokens - {scope}, ops[1..])
  }

  /** A cache that never forgets: the last token put under the scope and not cleared, unless it has expired by now. */
  function Kept0(tokens: Tokens, scope: Scope, now: nat): Option<Kept> {
    if scope in tokens && !IsExpiredAt(tokens[scope], now) then Some(tokens[scope]) else None
  }

  function SimpleAnswers(tokens: Tokens, ops: seq<Op>): seq<Option<Kept>>
    decreases |ops|
  {
    if ops == [] then [] else
    match ops[0]
    case Get(scope, now) => [Kept0(tokens, scope, now)] + SimpleAnswers(tokens, ops[1..])
    case Put(scope, token) => [None] + SimpleAnswers(tokens[scope := token], ops[1..])
    case Clear(scope) => [None] + SimpleAnswers(tokens - {scope}, ops[1..])
  }

  /** The clock never goes back. */
  ghost predicate Forward(ops: seq<Op>, from: nat)
    decreases |ops|
  {
    ops == [] ||
    match ops[0]
    case Get(_, now) => from <= now && Forward(ops[1..], now)
    case _ => Forward(ops[1..], from)
  }

  /** The cache holds what the simple one does, but for tokens that had expired at `now`. */
  ghost predicate Covers(tokens: Tokens, simple: Tokens, now: nat) {
    && (forall s | s in tokens :: s in simple && simple[s] == tokens[s])
    && (forall s | s in simple && s !in tokens :: IsExpiredAt(simple[s], now))
  }

  lemma {:induction false} SameAnswers(tokens: Tokens, simple: Tokens, ops: seq<Op>, from: nat)
    requires Covers(tokens, simple, from) && Forward(ops, from)
    ensures Answers(tokens, ops) == SimpleAnswers(simple, ops)
    decreases |ops|
  {
    if ops != [] {
      match ops[0]
      case Get(scope, now) =>
        SameAnswers(Lookup(tokens, scope, now).0, simple, ops[1..], now);
      case Put(scope, token) =>
        SameAnswers(tokens[scope := token], simple[scope := token], ops[1..], from);
      case Clear(scope) =>
        SameAnswers(tokens - {scope}, simple - {scope}, ops[1..], from);
    }
  }

  /** Dropping expired tokens on the way never shows, as long as the clock does not go back. */
  lemma DroppingNeverShows(ops: seq<Op>, from: nat)
    requires Forward(ops, from)
    ensures Answers(map[], ops) == SimpleAnswers(map[], ops)
  {
    SameAnswers(map[], map[], ops, from);
  }

  /** When the clock goes back it can show. */
  lemma DroppingShows(scope: Scope, value: string)
    ensures var ops := [Put(scope, Kept(value, Some(5))), Get(scope, 7), Get(scope, 3)];
      Answers(map[], ops) != SimpleAnswers(map[], ops)
  {
    var token := Kept(value, Some(5));
    var ops := [Put(scope, token), Get(scope, 7), Get(scope, 3)];
    var empty: Tokens := map[];
    var full := empty[scope := token];
    assert ops[1..] == [Get(scope, 7), Get(scope, 3)] && ops[1..][1..] == [Get(scope, 3)] && ops[1..][1..][1..] == [];
    assert Lookup(full, scope, 7) == (full - {scope}, None);
    assert Answers(full - {scope}, [Get(scope, 3)]) == [None];
    assert SimpleAnswers(full, [Get(scope, 3)]) == [Some(token)];
    assert Answers(full, ops[1..]) == [None, None];
    assert SimpleAnswers(full, ops[1..]) == [None, Some(token)];
    assert Answers(empty, ops) == [None] + Answers(full, ops[1..]);
    assert SimpleAnswers(empty, ops) == [None] + SimpleAnswers(full, ops[1..]);
    assert ([None] + [None, None])[2] != ([None] + [None, Some(token)])[2];
  }

  /** A token the cache returns is one whose verifier does not call it expired at that instant. */
  lemma ReturnedIsNotExpired(tokens: Tokens, scope: Scope, now: nat, c: Claims)
    requires now <= MAX64 && Lookup(tokens, scope, now).1.Some?
    requires Lookup(tokens, scope, now).1.value.expiresAtMs == Some(ExpiresAtMs(c))
    ensures ValidateTime(c, now) != Err(Expired)
  {
    ExpiryAgreesIff(c, tokens[scope].value, now);
  }
}
