/** The Signature-Input field (RFC 9421, sections 2.3 and 4.1): printing its parameters and reading them back. */
module SignatureInput {
  import opened Wrappers
  import Positional
  import Text

  datatype Error = InvalidSignature

  // ----- Python's text functions -----

  /** `str.isspace` within Latin-1 and the separators of the general category Z. */
  predicate IsPySpace(c: char) {
    Text.IsSpace(c) || '\U{1C}' <= c <= '\U{1F}'
  }

  predicate IsQuote(c: char) {
    c == '"'
  }

  predicate IsSemicolon(c: char) {
    c == ';'
  }

  function StripLeft(s: string, drop: char -> bool): (r: string)
    decreases |s|
  {
    if s != "" && drop(s[0]) then StripLeft(s[1..], drop) else s
  }

  function StripRight(s: string, drop: char -> bool): (r: string)
    decreases |s|
  {
    if s != "" && drop(s[|s| - 1]) then StripRight(s[..|s| - 1], drop) else s
  }

  function Strip(s: string, drop: char -> bool): string {
    StripRight(StripLeft(s, drop), drop)
  }

  lemma StripFixed(s: string, drop: char -> bool)
    requires s == "" || (!drop(s[0]) && !drop(s[|s| - 1]))
    ensures Strip(s, drop) == s && StripLeft(s, drop) == s
  {
  }

  function SkipSpaces(s: string): (n: nat)
    ensures n <= |s|
    ensures n < |s| ==> !IsPySpace(s[n])
  {
    if s != "" && IsPySpace(s[0]) then 1 + SkipSpaces(s[1..]) else 0
  }

  function WordEnd(s: string): (n: nat)
    ensures n <= |s|
    ensures s != "" && !IsPySpace(s[0]) ==> n > 0
  {
    if s != "" && !IsPySpace(s[0]) then 1 + WordEnd(s[1..]) else 0
  }

  /** `str.split()`. */
  function Words(s: string): seq<string>
    decreases |s|
  {
    var t := s[SkipSpaces(s)..];
    if t == "" then [] else [t[..WordEnd(t)]] + Words(t[WordEnd(t)..])
  }

  /** The digits of a Python integer literal, with single underscores between them. */
  predicate IsIntBody(s: string) {
    s != "" && forall p | p in Text.Split(s, '_') :: p != "" && Positional.AllDigits(p)
  }

  function WithoutUnderscores(s: string): string {
    if s == "" then "" else (if s[0] == '_' then "" else [s[0]]) + WithoutUnderscores(s[1..])
  }

  function ParseInt(s: string): Option<int> {
    var t := Strip(s, IsPySpace);
    var negative := t != "" && t[0] == '-';
    var body := if t != "" && (t[0] == '-' || t[0] == '+') then t[1..] else t;
    if IsIntBody(body) && Positional.AllDigits(WithoutUnderscores(body)) then
      var n: int := Positional.DecimalValue(WithoutUnderscores(body));
      Some(if negative then -n else n)
    else None
  }

  function IntText(n: int): string {
    if n < 0 then "-" + Positional.Decimal(-n) else Positional.Decimal(n)
  }

  // ----- printing -----

  datatype Params = Params(created: int, expires: Option<int>, nonce: Option<string>, keyid: string)

  function Quoted(s: string): string {
    "\"" + s + "\""
  }

  function QuotedAll(components: seq<string>): (r: seq<string>)
    ensures |r| == |components|
    ensures forall i | 0 <= i < |r| :: r[i] == Quoted(components[i])
  {
    seq(|components|, i requires 0 <= i < |components| => Quoted(components[i]))
  }

  function ParamTexts(p: Params): seq<string> {
    ["created=" + IntText(p.created)]
    + (match p.expires case Some(e) => ["expires=" + IntText(e)] case None => [])
    + (match p.nonce case Some(n) => ["nonce=" + Quoted(n)] case None => [])
    + ["keyid=" + Quoted(p.keyid)]
  }

  function Print(components: seq<string>, p: Params): string {
    "(" + Text.Join(QuotedAll(components), " ") + ");" + Text.Join(ParamTexts(p), ";")
  }

  method SerializeSignatureParams(components: seq<string>, p: Params) returns (s: string)
    ensures s == Print(components, p)
  {
    hide Text.Join;
    var quoted := Text.Join(QuotedAll(components), " ");
    var params := ["created=" + IntText(p.created)];
    if p.expires.Some? {
      params := params + ["expires=" + IntText(p.expires.value)];
    }
    if p.nonce.Some? {
      params := params + ["nonce=" + Quoted(p.nonce.value)];
    }
    params := params + ["keyid=" + Quoted(p.keyid)];
    assert params == ParamTexts(p);
    return "(" + quoted + ");" + Text.Join(params, ";");
  }

  // ----- reading -----

  /** `str.split(c, 1)`, where `c` occurs. */
  function Cut(s: string, c: char): (r: (string, string))
    requires c in s
  {
    Occurs(s, c);
    (s[..Text.Find(s, c)], s[Text.Find(s, c) + 1..])
  }

  lemma Occurs(s: string, c: char)
    requires c in s
    ensures Text.Find(s, c) < |s|
  {
  }

  function ParamValue(raw: string): string {
    Strip(Strip(raw, IsPySpace), IsQuote)
  }

  function ReadParams(raws: seq<string>, params: map<string, string>): Result<map<string, string>, Error>
    decreases |raws|
  {
    if raws == [] then Ok(params)
    else if Strip(raws[0], IsPySpace) == "" then ReadParams(raws[1..], params)
    else if '=' !in raws[0] then Err(InvalidSignature)
    else
      var (name, value) := Cut(raws[0], '=');
      ReadParams(raws[1..], params[name := ParamValue(value)])
  }

  function Components(words: seq<string>): (r: seq<string>)
    ensures |r| == |words|
  {
    seq(|words|, i requires 0 <= i < |words| => Strip(Strip(words[i], IsPySpace), IsQuote))
  }

  datatype Field = Field(tag: string, components: seq<string>, params: map<string, string>)

  function Read(value: string): Result<Field, Error> {
    if '=' !in value then Err(InvalidSignature) else
    var (tag, remainder) := Cut(value, '=');
    var open, close := Text.Find(remainder, '('), Text.Find(remainder, ')');
    if open == |remainder| || close == |remainder| || close <= open then Err(InvalidSignature) else
    var components := Components(Words(remainder[open + 1..close]));
    if components == [] then Err(InvalidSignature) else
    match ReadParams(Text.Split(StripLeft(remainder[close + 1..], IsSemicolon), ';'), map[])
    case Err(e) => Err(e)
    case Ok(params) => Ok(Field(tag, components, params))
  }

  method ParseSignatureInput(value: string) returns (r: Result<Field, Error>)
    ensures r == Read(value)
  {
    hide Text.Split, Words, Strip, StripLeft;
    if '=' !in value {
      return Err(InvalidSignature);
    }
    var (tag, remainder) := Cut(value, '=');
    var open, close := Text.Find(remainder, '('), Text.Find(remainder, ')');
    if open == |remainder| || close == |remainder| {
      return Err(InvalidSignature);
    }
    if close <= open {
      return Err(InvalidSignature);
    }
    var components := Components(Words(remainder[open + 1..close]));
    if |components| == 0 {
      return Err(InvalidSignature);
    }
    var raws := Text.Split(StripLeft(remainder[close + 1..], IsSemicolon), ';');
    var params: map<string, string> := map[];
    assert raws[0..] == raws;
    for i := 0 to |raws|
      invariant ReadParams(raws[i..], params) == ReadParams(raws, map[])
    {
      assert raws[i..][0] == raws[i] && raws[i..][1..] == raws[i + 1..];
      if Strip(raws[i], IsPySpace) == "" {
        continue;
      }
      if '=' !in raws[i] {
        return Err(InvalidSignature);
      }
      var (name, text) := Cut(raws[i], '=');
      params := params[name := ParamValue(text)];
    }
    return Ok(Field(tag, components, params));
  }

  /** The metadata of a signature; it needs a key id and the time of its creation. */
  function Metadata(params: map<string, string>): Result<Params, Error> {
    var created := if "created" in params then ParseInt(params["created"]) else None;
    var expires := if "expires" in params then ParseInt(params["expires"]) else None;
    if "keyid" !in params || params["keyid"] == "" || created.None? then Err(InvalidSignature)
    else Ok(Params(created.value, expires, if "nonce" in params then Some(params["nonce"]) else None, params["keyid"]))
  }

  /** The label of a Signature field, whose value between colons is base64; `decodes` says what base64 is. */
  function SignatureLabel(value: string, decodes: string -> bool): Result<string, Error> {
    if '=' !in value then Err(InvalidSignature) else
    var (tag, remainder) := Cut(value, '=');
    if !Text.StartsWith(remainder, ":") || !Text.EndsWith(remainder, ":") then Err(InvalidSignature)
    else if decodes(if |remainder| < 2 then "" else remainder[1..|remainder| - 1]) then Ok(tag)
    else Err(InvalidSignature)
  }

  datatype Extracted = Extracted(tag: string, components: seq<string>, params: Params)

  /** What the two fields of a request say, if they carry one label. */
  method ExtractSignatureMetadata(input: Option<string>, signature: Option<string>, decodes: string -> bool)
    returns (r: Result<Extracted, Error>)
    ensures r == Extract(input, signature, decodes)
  {
    hide Read, Metadata, SignatureLabel;
    if input.None? || input.value == "" || signature.None? || signature.value == "" {
      return Err(InvalidSignature);
    }
    var field := ParseSignatureInput(input.value);
    if field.Err? {
      return Err(field.error);
    }
    var tag := SignatureLabel(signature.value, decodes);
    if tag.Err? {
      return Err(tag.error);
    }
    if field.value.tag != tag.value {
      return Err(InvalidSignature);
    }
    var params := Metadata(field.value.params);
    if params.Err? {
      return Err(params.error);
    }
    return Ok(Extracted(tag.value, field.value.components, params.value));
  }

  function Extract(input: Option<string>, signature: Option<string>, decodes: string -> bool): Result<Extracted, Error> {
    if input == None || input == Some("") || signature == None || signature == Some("") then Err(InvalidSignature) else
    var field :- Read(input.value);
    var tag :- SignatureLabel(signature.value, decodes);
    if field.tag != tag then Err(InvalidSignature) else
    var params :- Metadata(field.params);
    Ok(Extracted(tag, field.components, params))
  }

  // ----- reading what was printed -----

  /** A text that quoting protects: it neither starts nor ends with a quote. */
  predicate IsBare(s: string) {
    s == "" || (s[0] != '"' && s[|s| - 1] != '"')
  }

  predicate IsComponent(s: string) {
    IsBare(s) && ')' !in s && forall c | c in s :: !IsPySpace(c)
  }

  predicate IsParam(s: string) {
    IsBare(s) && ';' !in s
  }

  lemma QuotedStrips(s: string)
    requires IsBare(s)
    ensures Strip(Quoted(s), IsPySpace) == Quoted(s) && Strip(Quoted(s), IsQuote) == s
  {
    var q := Quoted(s);
    assert q[0] == '"' && q[|q| - 1] == '"';
    StripFixed(q, IsPySpace);
    if s == "" {
      assert q[1..] == "\"" && q[1..][1..] == "";
      assert StripLeft("", IsQuote) == "" && StripRight("", IsQuote) == "";
      assert StripLeft(q[1..], IsQuote) == StripLeft(q[1..][1..], IsQuote);
      assert StripLeft(q, IsQuote) == "";
    } else {
      assert q[1..] == s + "\"";
      assert StripLeft(s + "\"", IsQuote) == s + "\"";
      assert StripRight(s + "\"", IsQuote) == StripRight((s + "\"")[..|s|], IsQuote);
      assert (s + "\"")[..|s|] == s;
    }
  }

  lemma {:induction false} WordEndIs(w: string, more: string)
    requires forall c | c in w :: !IsPySpace(c)
    requires more == "" || IsPySpace(more[0])
    ensures WordEnd(w + more) == |w|
    decreases |w|
  {
    if w == "" {
      assert w + more == more;
    } else {
      assert (w + more)[1..] == w[1..] + more;
      assert w[0] in w;
      WordEndIs(w[1..], more);
    }
  }

  lemma OneWord(w: string, more: string)
    requires w != "" && forall c | c in w :: !IsPySpace(c)
    requires more == "" || IsPySpace(more[0])
    ensures Words(w + more) == [w] + Words(more)
    ensures Words("") == []
  {
    hide WordEnd;
    assert w[0] in w;
    assert (w + more)[0..] == w + more && SkipSpaces(w + more) == 0;
    WordEndIs(w, more);
    assert (w + more)[..|w|] == w && (w + more)[|w|..] == more;
  }

  lemma SpaceThenWords(s: string)
    ensures Words(" " + s) == Words(s)
  {
    hide WordEnd, Words;
    assert (" " + s)[1..] == s;
    assert (" " + s)[1 + SkipSpaces(s)..] == s[SkipSpaces(s)..];
    assert SkipSpaces(" " + s) == 1 + SkipSpaces(s);
    WordsUnfold(s);
    WordsUnfold(" " + s);
  }

  lemma WordsUnfold(s: string)
    ensures var t := s[SkipSpaces(s)..];
      Words(s) == if t == "" then [] else [t[..WordEnd(t)]] + Words(t[WordEnd(t)..])
  {
  }

  lemma {:induction false} WordsOfJoined(words: seq<string>)
    requires forall w | w in words :: w != "" && forall c | c in w :: !IsPySpace(c)
    ensures Words(Text.Join(words, " ")) == words
    decreases |words|
  {
    hide Words;
    if words == [] {
      OneWord("x", "");
    } else if |words| == 1 {
      assert words[0] in words;
      assert Text.Join(words, " ") == words[0] + "";
      OneWord(words[0], "");
      assert [words[0]] + [] == words;
    } else {
      assert words[0] in words;
      var rest := Text.Join(words[1..], " ");
      assert Text.Join(words, " ") == words[0] + (" " + rest);
      OneWord(words[0], " " + rest);
      SpaceThenWords(rest);
      assert forall w | w in words[1..] :: w in words;
      WordsOfJoined(words[1..]);
      assert [words[0]] + words[1..] == words;
    }
  }

  lemma QuotedWords(components: seq<string>)
    requires forall c | c in components :: IsComponent(c)
    ensures Components(Words(Text.Join(QuotedAll(components), " "))) == components
    ensures ')' !in Text.Join(QuotedAll(components), " ")
  {
    hide Words, Text.Join, Strip, Quoted;
    var quoted := QuotedAll(components);
    forall w | w in quoted ensures w != "" && ')' !in w && forall c | c in w :: !IsPySpace(c) {
      var i :| 0 <= i < |quoted| && quoted[i] == w;
      assert components[i] in components;
      QuotedIsWord(components[i]);
    }
    WordsOfJoined(quoted);
    forall i | 0 <= i < |components| ensures Components(quoted)[i] == components[i] {
      assert components[i] in components;
      QuotedStrips(components[i]);
    }
    NotInJoined(quoted, " ", ')');
  }

  lemma QuotedIsWord(s: string)
    requires IsComponent(s)
    ensures Quoted(s) != "" && ')' !in Quoted(s) && forall c | c in Quoted(s) :: !IsPySpace(c)
  {
    assert forall c | c in Quoted(s) :: c == '"' || c in s;
  }

  lemma {:induction false} NotInJoined(parts: seq<string>, sep: string, c: char)
    requires c !in sep && forall p | p in parts :: c !in p
    ensures c !in Text.Join(parts, sep)
    decreases |parts|
  {
    if parts != [] {
      assert parts[0] in parts;
      NotInJoined(parts[1..], sep, c);
    }
  }

  // ----- integers -----

  lemma {:induction false} NoUnderscores(s: string)
    requires '_' !in s
    ensures WithoutUnderscores(s) == s
    decreases |s|
  {
    if s != "" {
      assert s[0] in s;
      NoUnderscores(s[1..]);
    }
  }

  lemma DecimalBody(n: nat)
    ensures var s := Positional.Decimal(n);
      && s != "" && IsIntBody(s) && Positional.AllDigits(s)
      && WithoutUnderscores(s) == s && Positional.DecimalValue(s) == n
      && forall c | c in s :: Positional.IsDigit(c)
  {
    hide Positional.Decimal, Positional.DecimalValue;
    var s := Positional.Decimal(n);
    Positional.DecimalRoundTrip(n);
    assert '_' !in s;
    NoUnderscores(s);
    Text.SplitNone(s, '_');
  }

  /** Printing an integer and reading it back, also with negative numbers. */
  lemma IntRoundTrip(n: int)
    ensures ParseInt(IntText(n)) == Some(n)
    ensures IntText(n) != "" && forall c | c in IntText(n) :: c == '-' || Positional.IsDigit(c)
    ensures ParamValue(IntText(n)) == IntText(n)
  {
    hide Positional.Decimal, Positional.DecimalValue, IsIntBody, Strip;
    var body := Positional.Decimal(if n < 0 then -n else n);
    DecimalBody(if n < 0 then -n else n);
    var s := IntText(n);
    assert s[0] in s && s[|s| - 1] in s;
    assert body[0] in body;
    StripFixed(s, IsPySpace);
    StripFixed(s, IsQuote);
    if n < 0 {
      assert s[1..] == body;
    }
  }

  // ----- parameters -----

  lemma {:induction false} StartStays(s: string)
    requires s != "" && !IsPySpace(s[0])
    ensures StripRight(s, IsPySpace) != ""
    decreases |s|
  {
    if IsPySpace(s[|s| - 1]) {
      assert s[..|s| - 1][0] == s[0];
      StartStays(s[..|s| - 1]);
    }
  }

  lemma OneParam(name: string, text: string, rest: seq<string>, params: map<string, string>)
    requires name != "" && !IsPySpace(name[0]) && '=' !in name
    ensures ReadParams([name + "=" + text] + rest, params) == ReadParams(rest, params[name := ParamValue(text)])
  {
    hide ParamValue, StripRight;
    var raw := name + "=" + text;
    var raws := [raw] + rest;
    StartStays(raw);
    assert raw[|name|] == '=' && raw[..|name|] == name && raw[|name| + 1..] == text;
    assert StripLeft(raw, IsPySpace) == raw;
    Text.FindIs(raw, '=', |name|);
    assert raws[1..] == rest;
  }

  /** The parameters as the reader keeps them. */
  function ParamMap(p: Params): map<string, string> {
    map["created" := IntText(p.created), "keyid" := p.keyid]
    + (match p.expires case Some(e) => map["expires" := IntText(e)] case None => map[])
    + (match p.nonce case Some(n) => map["nonce" := n] case None => map[])
  }

  /** One parameter: its name, and the text after the `=`. */
  datatype Param = Param(name: string, text: string)

  function Line(q: Param): string {
    q.name + "=" + q.text
  }

  function Lines(qs: seq<Param>): (r: seq<string>)
    ensures |r| == |qs|
    ensures forall i | 0 <= i < |r| :: r[i] == Line(qs[i])
  {
    seq(|qs|, i requires 0 <= i < |qs| => Line(qs[i]))
  }

  function ParamList(p: Params): seq<Param> {
    [Param("created", IntText(p.created))]
    + (match p.expires case Some(e) => [Param("expires", IntText(e))] case None => [])
    + (match p.nonce case Some(n) => [Param("nonce", Quoted(n))] case None => [])
    + [Param("keyid", Quoted(p.keyid))]
  }

  lemma TextsAreLines(p: Params)
    ensures ParamTexts(p) == Lines(ParamList(p))
  {
    hide IntText, Quoted;
    assert "created=" == "created" + "=" && "expires=" == "expires" + "=" && "nonce=" == "nonce" + "=" && "keyid=" == "keyid" + "=";
  }

  function MapOf(qs: seq<Param>, params: map<string, string>): map<string, string>
    decreases |qs|
  {
    if qs == [] then params else MapOf(qs[1..], params[qs[0].name := ParamValue(qs[0].text)])
  }

  predicate IsGood(q: Param) {
    && q.name != "" && !IsPySpace(q.name[0]) && '=' !in q.name
    && ';' !in q.name && ';' !in q.text
  }

  lemma {:induction false} ReadsLines(qs: seq<Param>, params: map<string, string>)
    requires forall q | q in qs :: IsGood(q)
    ensures ReadParams(Lines(qs), params) == Ok(MapOf(qs, params))
    decreases |qs|
  {
    hide ReadParams, ParamValue;
    if qs == [] {
      ReadsNothing(params);
      assert Lines(qs) == [];
    } else {
      assert IsGood(qs[0]);
      assert Lines(qs) == [Line(qs[0])] + Lines(qs[1..]);
      OneParam(qs[0].name, qs[0].text, Lines(qs[1..]), params);
      ReadsLines(qs[1..], params[qs[0].name := ParamValue(qs[0].text)]);
    }
  }

  lemma ReadsNothing(params: map<string, string>)
    ensures ReadParams([], params) == Ok(params)
  {
  }

  predicate CanPrint(p: Params) {
    IsParam(p.keyid) && (p.nonce.Some? ==> IsParam(p.nonce.value))
  }

  lemma QuotedValue(s: string)
    requires IsParam(s)
    ensures ParamValue(Quoted(s)) == s && ';' !in Quoted(s)
  {
    hide Strip;
    QuotedStrips(s);
    assert forall c | c in Quoted(s) :: c == '"' || c in s;
  }

  lemma NamesDiffer()
    ensures "created" != "expires" && "created" != "nonce" && "created" != "keyid"
    ensures "expires" != "nonce" && "expires" != "keyid" && "nonce" != "keyid"
  {
    assert "created"[0] == 'c' && "expires"[0] == 'e' && "nonce"[0] == 'n' && "keyid"[0] == 'k';
  }

  lemma NamesGood(text: string)
    requires ';' !in text
    ensures IsGood(Param("created", text)) && IsGood(Param("expires", text)) && IsGood(Param("nonce", text)) && IsGood(Param("keyid", text))
  {
  }

  lemma ParamsGood(p: Params)
    requires CanPrint(p)
    ensures forall q | q in ParamList(p) :: IsGood(q)
  {
    hide IsGood, IntText, Quoted, ParamValue, IsParam;
    IntRoundTrip(p.created);
    NamesGood(IntText(p.created));
    QuotedValue(p.keyid);
    NamesGood(Quoted(p.keyid));
    if p.expires.Some? {
      IntRoundTrip(p.expires.value);
      NamesGood(IntText(p.expires.value));
    }
    if p.nonce.Some? {
      QuotedValue(p.nonce.value);
      NamesGood(Quoted(p.nonce.value));
    }
  }

  lemma {:induction false} MapConcat(a: seq<Param>, b: seq<Param>, params: map<string, string>)
    ensures MapOf(a + b, params) == MapOf(b, MapOf(a, params))
    decreases |a|
  {
    hide ParamValue;
    if a == [] {
      assert a + b == b;
    } else {
      assert (a + b)[1..] == a[1..] + b;
      MapConcat(a[1..], b, params[a[0].name := ParamValue(a[0].text)]);
    }
  }

  lemma MapOne(q: Param, params: map<string, string>)
    ensures MapOf([q], params) == params[q.name := ParamValue(q.text)] && MapOf([], params) == params
  {
    hide ParamValue;
    assert [q][1..] == [];
  }

  /** The map after each of the four parameters in turn. */
  function Filled(p: Params): map<string, string> {
    var created: map<string, string> := map["created" := IntText(p.created)];
    var expires := if p.expires.Some? then created["expires" := IntText(p.expires.value)] else created;
    var nonce := if p.nonce.Some? then expires["nonce" := p.nonce.value] else expires;
    nonce["keyid" := p.keyid]
  }

  lemma FilledIsMap(p: Params)
    ensures Filled(p) == ParamMap(p)
  {
    hide IntText;
    NamesDiffer();
  }

  lemma ListMaps(p: Params)
    requires CanPrint(p)
    ensures MapOf(ParamList(p), map[]) == Filled(p)
  {
    hide MapOf, IntText, Quoted, ParamValue, IsParam;
    var a := [Param("created", IntText(p.created))];
    var e := match p.expires case Some(e) => [Param("expires", IntText(e))] case None => [];
    var n := match p.nonce case Some(n) => [Param("nonce", Quoted(n))] case None => [];
    var k := [Param("keyid", Quoted(p.keyid))];
    var none: map<string, string> := map[];
    MapConcat(a + e + n, k, none);
    MapConcat(a + e, n, none);
    MapConcat(a, e, none);
    IntRoundTrip(p.created);
    MapOne(a[0], none);
    var m := none["created" := IntText(p.created)];
    if p.expires.Some? {
      IntRoundTrip(p.expires.value);
    }
    MapOne(if p.expires.Some? then e[0] else a[0], m);
    var m' := if p.expires.Some? then m["expires" := IntText(p.expires.value)] else m;
    assert MapOf(e, m) == m';
    if p.nonce.Some? {
      QuotedValue(p.nonce.value);
    }
    MapOne(if p.nonce.Some? then n[0] else a[0], m');
    var m'' := if p.nonce.Some? then m'["nonce" := p.nonce.value] else m';
    assert MapOf(n, m') == m'';
    QuotedValue(p.keyid);
    MapOne(k[0], m'');
  }

  lemma ReadsParams(p: Params)
    requires CanPrint(p)
    ensures ReadParams(ParamTexts(p), map[]) == Ok(ParamMap(p))
  {
    hide ReadParams, ParamTexts, ParamList, MapOf, ParamMap, CanPrint, IsGood, Filled;
    TextsAreLines(p);
    ParamsGood(p);
    ReadsLines(ParamList(p), map[]);
    ListMaps(p);
    FilledIsMap(p);
  }

  lemma NoSemicolons(p: Params)
    requires CanPrint(p)
    ensures forall t | t in ParamTexts(p) :: ';' !in t
    ensures ParamTexts(p) != [] && ParamTexts(p)[0] != "" && ParamTexts(p)[0][0] == 'c'
  {
    hide IntText, CanPrint, IsGood, ParamList, ParamTexts;
    TextsAreLines(p);
    ParamsGood(p);
    forall t | t in ParamTexts(p) ensures ';' !in t {
      var i :| 0 <= i < |ParamList(p)| && Lines(ParamList(p))[i] == t;
      assert IsGood(ParamList(p)[i]);
      LineGood(ParamList(p)[i]);
    }
    FirstParam(p);
  }

  lemma LineGood(q: Param)
    requires IsGood(q)
    ensures ';' !in Line(q)
  {
    assert forall c | c in Line(q) :: c in q.name || c == '=' || c in q.text;
  }

  lemma FirstParam(p: Params)
    ensures ParamTexts(p) != [] && ParamTexts(p)[0] != "" && ParamTexts(p)[0][0] == 'c'
  {
    hide IntText, Quoted;
    assert "created="[0] == 'c';
    assert ParamTexts(p)[0] == "created=" + IntText(p.created);
  }

  lemma JoinStarts(parts: seq<string>)
    requires parts != [] && parts[0] != ""
    ensures Text.Join(parts, ";") != "" && Text.Join(parts, ";")[0] == parts[0][0]
  {
  }

  lemma ParamsSplit(p: Params)
    requires CanPrint(p)
    ensures Text.Split(StripLeft(";" + Text.Join(ParamTexts(p), ";"), IsSemicolon), ';') == ParamTexts(p)
  {
    hide ParamTexts, Text.Join, Text.Split;
    NoSemicolons(p);
    var joined := Text.Join(ParamTexts(p), ";");
    JoinStarts(ParamTexts(p));
    assert (";" + joined)[1..] == joined;
    assert StripLeft(joined, IsSemicolon) == joined;
    Text.SplitJoin(ParamTexts(p), ';');
    assert [';'] == ";";
  }

  lemma Parenthesised(inner: string, more: string)
    requires ')' !in inner
    ensures var s := "(" + inner + ")" + more;
      && Text.Find(s, '(') == 0 && Text.Find(s, ')') == |inner| + 1
      && s[1..|inner| + 1] == inner && s[|inner| + 2..] == more
  {
    var s := "(" + inner + ")" + more;
    assert s[0] == '(' && s[|inner| + 1] == ')';
    assert s[..|inner| + 1] == "(" + inner;
    Text.FindIs(s, '(', 0);
    Text.FindIs(s, ')', |inner| + 1);
  }

  /**
    Reading a label and the printed parameters gives back the same components and parameters, whenever the label
    holds no `=`, components no white space or `)`, the quoted texts no `;`, and none of them a quote at either end.
   */
  lemma ReadOfPrinted(tag: string, components: seq<string>, p: Params)
    requires '=' !in tag && components != [] && forall c | c in components :: IsComponent(c)
    requires CanPrint(p)
    ensures Read(tag + "=" + Print(components, p)) == Ok(Field(tag, components, ParamMap(p)))
  {
    hide Words, Text.Join, Text.Split, StripLeft, Strip, ReadParams, ParamTexts, ParamMap, Components, IsComponent, CanPrint, QuotedAll;
    var inner := Text.Join(QuotedAll(components), " ");
    var more := ";" + Text.Join(ParamTexts(p), ";");
    QuotedWords(components);
    Parenthesised(inner, more);
    ParamsSplit(p);
    ReadsParams(p);
    var remainder := "(" + inner + ")" + more;
    assert Print(components, p) == remainder;
    var all := tag + "=" + remainder;
    assert all[|tag|] == '=' && all[..|tag|] == tag && all[|tag| + 1..] == remainder;
    Text.FindIs(all, '=', |tag|);
  }

  /** The metadata of what was read is what was printed, if it names a key. */
  lemma MetadataOfPrinted(p: Params)
    ensures Metadata(ParamMap(p)) == if p.keyid == "" then Err(InvalidSignature) else Ok(p)
  {
    hide ParseInt, IntText;
    NamesDiffer();
    IntRoundTrip(p.created);
    if p.expires.Some? {
      IntRoundTrip(p.expires.value);
    }
  }

  lemma LabelReads(tag: string, signature: string, decodes: string -> bool)
    requires '=' !in tag
    ensures SignatureLabel(tag + "=:" + signature + ":", decodes) == if decodes(signature) then Ok(tag) else Err(InvalidSignature)
  {
    var remainder := ":" + signature + ":";
    var all := tag + "=:" + signature + ":";
    assert all[|tag|] == '=' && all[..|tag|] == tag && all[|tag| + 1..] == remainder;
    Text.FindIs(all, '=', |tag|);
    assert remainder[1..|remainder| - 1] == signature;
    assert remainder[|remainder| - 1..] == ":";
  }

  /** From the two fields as a client prints them, exactly what was printed comes back: if the labels agree and a key is named. */
  lemma ExtractedFromPrinted(tag: string, components: seq<string>, p: Params, other: string, signature: string, decodes: string -> bool)
    requires '=' !in tag && components != [] && forall c | c in components :: IsComponent(c)
    requires CanPrint(p) && '=' !in other
    ensures Extract(Some(tag + "=" + Print(components, p)), Some(other + "=:" + signature + ":"), decodes) ==
            if tag == other && decodes(signature) && p.keyid != "" then Ok(Extracted(tag, components, p)) else Err(InvalidSignature)
  {
    hide Read, Metadata, SignatureLabel, Print, CanPrint, IsComponent, ParamMap;
    ReadOfPrinted(tag, components, p);
    MetadataOfPrinted(p);
    LabelReads(other, signature, decodes);
  }
}
