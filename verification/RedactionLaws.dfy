/** What redaction shows of a value, place by place. */
module RedactionLaws {
  import opened Wrappers
  import opened Redaction
  import Json
  import PathLaws
  import Text

  /** The words that make a key sensitive, wherever they stand in it. */
  const WORDS: set<string> := {
    "token", "secret", "private", "privacy", "password", "authorization", "authheader", "cookie", "sessionkey",
    "signature", "signingkey", "privatekey", "credential", "phone", "mobile", "address", "idcard", "identity",
    "passport", "filecontent", "document"}

  ghost predicate StandsIn(text: string, word: string) {
    exists i | 0 <= i <= |text| :: PathLaws.At(text, word, i)
  }

  lemma StandsInIff(text: string, word: string)
    ensures Text.Contains(text, word) <==> StandsIn(text, word)
  {
    hide Text.Contains, PathLaws.At;
    PathLaws.ContainsIff(text, word);
  }

  lemma WordsAre(word: string)
    ensures word in SENSITIVE <==> word in WORDS
  {
  }

  lemma OneOfThem(key: string)
    ensures IsSensitive(key) <==> exists word | word in SENSITIVE :: Text.Contains(Text.Lower(key), word)
  {
    hide Text.Contains, Text.Lower;
  }

  /** A key is sensitive exactly if one of the words stands somewhere in it, in whatever case. */
  lemma SensitiveIff(key: string)
    ensures IsSensitive(key) <==> exists word | word in WORDS :: StandsIn(Text.Lower(key), word)
  {
    hide *;
    OneOfThem(key);
    var lower := Text.Lower(key);
    forall word ensures Text.Contains(lower, word) <==> StandsIn(lower, word) {
      StandsInIff(lower, word);
    }
    forall word ensures word in SENSITIVE <==> word in WORDS {
      WordsAre(word);
    }
  }

  /** A text of at most 160 characters stays; of a longer one the first 160 stay, with a mark. */
  lemma TextIs(text: string, more: string)
    ensures |text| <= 160 ==> RedactString(text) == text
    ensures |text| == 160 && more != "" ==> RedactString(text + more) == text + "...[TRUNCATED]"
  {
    if |text| == 160 && more != "" {
      assert (text + more)[..160] == text;
    }
  }

  datatype Place = Key(name: string) | Index(i: nat)

  /** What stands at a place of a value. */
  function Follow(v: Value, path: seq<Place>): Option<Value>
    decreases |path|
  {
    if path == [] then Some(v)
    else
      match (v, path[0])
      case (Obj(fields), Key(name)) => if name in fields then Follow(fields[name], path[1..]) else None
      case (Arr(items), Index(i)) => if i < |items| then Follow(items[i], path[1..]) else None
      case _ => None
  }

  predicate IsHiding(p: Place) {
    p.Key? && IsSensitive(p.name)
  }

  /** What is shown of a value that is not hidden: itself, but for a long text and what it holds. */
  ghost predicate Shows(shown: Value, v: Value) {
    match v
    case Str(text) => shown == Json.Str(RedactString(text))
    case Obj(fields) => shown.Obj? && shown.fields.Keys == fields.Keys
    case Arr(items) => shown.Arr? && |shown.items| == |items|
    case _ => shown == v
  }

  /** Off sensitive keys every place shows what stood there; at the first sensitive key there is the mark, and nothing below it. */
  lemma {:induction false} PlaceIs(v: Value, path: seq<Place>)
    requires Follow(v, path).Some?
    ensures (forall p | p in path :: !IsHiding(p)) ==> Follow(Redact(v), path).Some? && Shows(Follow(Redact(v), path).value, Follow(v, path).value)
    ensures path != [] && IsHiding(path[|path| - 1]) && (forall i | 0 <= i < |path| - 1 :: !IsHiding(path[i])) ==>
              Follow(Redact(v), path) == Some(Json.Str("[REDACTED]"))
    decreases |path|
  {
    hide IsSensitive, RedactString;
    if path == [] {
    } else {
      var next := if path[0].Key? then v.fields[path[0].name] else v.items[path[0].i];
      assert path[0] in path && (forall p | p in path[1..] :: p in path);
      if IsHiding(path[0]) {
        if |path| == 1 {
          assert path[1..] == [];
        } else {
          assert !(forall i | 0 <= i < |path| - 1 :: !IsHiding(path[i])) by {
            assert IsHiding(path[0]);
          }
        }
      } else {
        PlaceIs(next, path[1..]);
        assert forall i | 0 <= i < |path| - 2 :: path[1..][i] == path[i + 1];
      }
    }
  }

  /** Redaction opens no new places. */
  lemma {:induction false} NoNewPlaces(v: Value, path: seq<Place>)
    requires Follow(Redact(v), path).Some?
    ensures Follow(v, path).Some?
    decreases |path|
  {
    hide IsSensitive, RedactString;
    if path != [] {
      match (v, path[0])
      case (Obj(fields), Key(name)) =>
        if !IsSensitive(name) {
          NoNewPlaces(fields[name], path[1..]);
        } else {
          NothingInText(path[1..]);
        }
      case (Arr(items), Index(i)) =>
        NoNewPlaces(items[i], path[1..]);
      case _ =>
    }
  }

  lemma NothingInText(path: seq<Place>)
    ensures Follow(Json.Str(REDACTED), path).Some? ==> path == []
  {
  }
}
