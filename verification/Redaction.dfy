/** Redaction of call arguments: what a consent request and an audit record may show. */
module Redaction {
  import Json
  import Text

  type Value = Json.Value

  const REDACTED := "[REDACTED]"
  const MAX_STRING_LEN := 160
  const TRUNCATION := "...[TRUNCATED]"

  const SENSITIVE := [
    "token", "secret", "private", "privacy", "password", "authorization", "authheader", "cookie", "sessionkey",
    "signature", "signingkey", "privatekey", "credential", "phone", "mobile", "address", "idcard", "identity",
    "passport", "filecontent", "document"]

  predicate IsSensitive(key: string) {
    exists needle | needle in SENSITIVE :: Text.Contains(Text.Lower(key), needle)
  }

  function RedactString(text: string): string {
    if |text| <= MAX_STRING_LEN then text else text[..MAX_STRING_LEN] + TRUNCATION
  }

  function Redact(v: Value): Value {
    match v
    case Obj(fields) =>
      Json.Obj(map k | k in fields :: if IsSensitive(k) then Json.Str(REDACTED) else Redact(fields[k]))
    case Arr(items) => Json.Arr(seq(|items|, i requires 0 <= i < |items| => Redact(items[i])))
    case Str(text) => Json.Str(RedactString(text))
    case _ => v
  }

  lemma RedactedStringStays(text: string)
    ensures RedactString(RedactString(text)) == RedactString(text)
  {
    assert |TRUNCATION| == 14;
    if |text| > MAX_STRING_LEN {
      assert RedactString(text)[..MAX_STRING_LEN] == text[..MAX_STRING_LEN];
    }
  }

  /** Redacting twice is redacting once, truncated texts included. */
  lemma {:induction false} RedactIdempotent(v: Value)
    ensures Redact(Redact(v)) == Redact(v)
    decreases v
  {
    hide IsSensitive, RedactString;
    match v
    case Obj(fields) =>
      var once := Redact(v).fields;
      forall k | k in fields ensures Redact(Json.Obj(once)).fields[k] == once[k] {
        if !IsSensitive(k) {
          RedactIdempotent(fields[k]);
        }
      }
      assert Redact(Json.Obj(once)).fields == once;
    case Arr(items) =>
      var once := Redact(v).items;
      forall i | 0 <= i < |items| ensures Redact(once[i]) == once[i] {
        RedactIdempotent(items[i]);
      }
      assert Redact(Json.Arr(once)).items == once;
    case Str(text) => RedactedStringStays(text);
    case _ =>
  }

  // ----- what redaction hides -----

  predicate SameText(a: string, b: string) {
    a == b || (|a| > MAX_STRING_LEN && |b| > MAX_STRING_LEN && a[..MAX_STRING_LEN] == b[..MAX_STRING_LEN])
  }

  /** Equal but for what stands under sensitive keys and beyond the first characters of long texts. */
  predicate Same(v: Value, w: Value)
    decreases v
  {
    match v
    case Obj(fields) =>
      && w.Obj? && fields.Keys == w.fields.Keys
      && forall k | k in fields :: IsSensitive(k) || Same(fields[k], w.fields[k])
    case Arr(items) =>
      && w.Arr? && |items| == |w.items|
      && forall i | 0 <= i < |items| :: Same(items[i], w.items[i])
    case Str(text) => w.Str? && SameText(text, w.s)
    case _ => v == w
  }

  lemma RedactedTextIff(a: string, b: string)
    ensures RedactString(a) == RedactString(b) <==> SameText(a, b)
  {
    assert |TRUNCATION| == 14;
    if RedactString(a) == RedactString(b) {
      if |a| > MAX_STRING_LEN && |b| > MAX_STRING_LEN {
        assert RedactString(a)[..MAX_STRING_LEN] == a[..MAX_STRING_LEN];
        assert RedactString(b)[..MAX_STRING_LEN] == b[..MAX_STRING_LEN];
      }
    }
  }

  /** Two values look alike after redaction exactly when they differ only in what it hides. */
  lemma {:induction false} RedactedAlikeIff(v: Value, w: Value)
    ensures Redact(v) == Redact(w) <==> Same(v, w)
    decreases v, 1
  {
    hide IsSensitive, RedactString, SameText;
    match v
    case Obj(fields) =>
      if w.Obj? && fields.Keys == w.fields.Keys {
        ObjectsAlikeIff(v, w);
      } else if w.Obj? {
        assert Redact(v).fields.Keys == fields.Keys && Redact(w).fields.Keys == w.fields.Keys;
      }
    case Arr(items) =>
      if w.Arr? {
        ArraysAlikeIff(v, w);
      }
    case Str(text) =>
      if w.Str? {
        RedactedTextIff(text, w.s);
      }
    case _ =>
  }

  lemma {:induction false} ArraysAlikeIff(v: Value, w: Value)
    requires v.Arr? && w.Arr?
    ensures Redact(v) == Redact(w) <==> Same(v, w)
    decreases v, 0
  {
    hide IsSensitive, RedactString, SameText;
    var a, b := Redact(v).items, Redact(w).items;
    if |v.items| == |w.items| {
      forall i | 0 <= i < |v.items| ensures a[i] == b[i] <==> Same(v.items[i], w.items[i]) {
        RedactedAlikeIff(v.items[i], w.items[i]);
      }
      assert a == b <==> forall i | 0 <= i < |a| :: a[i] == b[i];
    }
  }

  lemma {:induction false} ObjectsAlikeIff(v: Value, w: Value)
    requires v.Obj? && w.Obj? && v.fields.Keys == w.fields.Keys
    ensures Redact(v) == Redact(w) <==> forall k | k in v.fields :: IsSensitive(k) || Same(v.fields[k], w.fields[k])
    decreases v, 0
  {
    hide IsSensitive, RedactString, SameText;
    var f, g := v.fields, w.fields;
    forall k | k in f ensures Redact(f[k]) == Redact(g[k]) <==> Same(f[k], g[k]) {
      RedactedAlikeIff(f[k], g[k]);
    }
    var a, b := Redact(v).fields, Redact(w).fields;
    assert a.Keys == f.Keys && b.Keys == f.Keys;
    assert forall k | k in f && !IsSensitive(k) :: a[k] == Redact(f[k]) && b[k] == Redact(g[k]);
    assert a == b <==> forall k | k in f :: a[k] == b[k];
  }

  /** Nothing under a sensitive key shows, wherever in the value it stands. */
  lemma SensitiveIsHidden(fields: map<string, Value>, key: string, value: Value)
    requires key in fields && IsSensitive(key)
    ensures Redact(Json.Obj(fields[key := value])) == Redact(Json.Obj(fields))
  {
    hide IsSensitive;
    var f, g := fields[key := value], fields;
    assert f.Keys == g.Keys;
    forall k | k in f ensures IsSensitive(k) || Same(f[k], g[k]) {
      if k != key {
        RedactedAlikeIff(f[k], g[k]);
      }
    }
    ObjectsAlikeIff(Json.Obj(f), Json.Obj(g));
  }
}
