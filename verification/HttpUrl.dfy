/** Request URLs: taking one apart, its origin, and the query a GET request's data become (RFC 3986, section 2). */
module HttpUrl {
  import opened Wrappers
  import opened Utf8
  import Json
  import Order
  import Positional
  import Text

  // ----- URLs -----

  datatype Url = Url(host: string, port: nat, path: string)

  datatype Error = OnlyHttp | InvalidPort | HostRequired

  const SCHEME := "http://"

  /** The index of the last `c` in `s`, or `|s|`. */
  function FindLast(s: string, c: char): (n: nat)
    ensures n <= |s|
    ensures n < |s| ==> s[n] == c && c !in s[n + 1..]
    ensures n == |s| <==> c !in s
    decreases |s|
  {
    if s == "" then 0
    else if s[|s| - 1] == c then |s| - 1
    else
      var n := FindLast(s[..|s| - 1], c);
      assert s == s[..|s| - 1] + [s[|s| - 1]];
      assert n < |s| - 1 ==> s[n + 1..] == s[..|s| - 1][n + 1..] + [s[|s| - 1]];
      if n == |s| - 1 then |s| else n
  }

  /** `str::parse::<u16>`: an optional plus sign and decimal digits. */
  function ParsePort(s: string): Option<nat> {
    var digits := if s != "" && s[0] == '+' then s[1..] else s;
    if digits != "" && Positional.AllDigits(digits) && Positional.DecimalValue(digits) <= 65535
    then Some(Positional.DecimalValue(digits)) else None
  }

  function ParseAuthority(authority: string, path: string): Result<Url, Error> {
    var colon := FindLast(authority, ':');
    if colon == |authority| then
      if authority == "" then Err(HostRequired) else Ok(Url(authority, 80, path))
    else match ParsePort(authority[colon + 1..])
      case None => Err(InvalidPort)
      case Some(port) => if colon == 0 then Err(HostRequired) else Ok(Url(authority[..colon], port, path))
  }

  function Parse(url: string): Result<Url, Error> {
    if !Text.StartsWith(url, SCHEME) then Err(OnlyHttp) else
    var rest := url[|SCHEME|..];
    var slash := Text.Find(rest, '/');
    if slash == |rest| then ParseAuthority(rest, "/") else ParseAuthority(rest[..slash], rest[slash..])
  }

  function HostHeader(u: Url): string {
    if u.port == 80 then u.host else u.host + ":" + Positional.Decimal(u.port)
  }

  function Origin(u: Url): string {
    SCHEME + HostHeader(u)
  }

  /** What parsing promises of its result. */
  predicate IsParsed(u: Url) {
    && u.host != "" && '/' !in u.host && u.port <= 65535
    && u.path != "" && u.path[0] == '/'
  }

  lemma ParsedIs(url: string)
    ensures Parse(url).Ok? ==> IsParsed(Parse(url).value)
  {
    if Text.StartsWith(url, SCHEME) {
      var rest := url[|SCHEME|..];
      var slash := Text.Find(rest, '/');
      if slash == |rest| {
        assert rest[..slash] == rest;
      }
    }
  }

  lemma DecimalPort(port: nat)
    requires port <= 65535
    ensures ParsePort(Positional.Decimal(port)) == Some(port) && ':' !in Positional.Decimal(port) && '/' !in Positional.Decimal(port)
  {
    hide Positional.Decimal, Positional.DecimalValue;
    Positional.DecimalRoundTrip(port);
    var s := Positional.Decimal(port);
    assert Positional.IsDigit(s[0]);
  }

  lemma {:induction false} FindLastIs(s: string, c: char, n: nat)
    requires n < |s| && s[n] == c && forall i | n < i < |s| :: s[i] != c
    ensures FindLast(s, c) == n
    decreases |s|
  {
    if n < |s| - 1 {
      FindLastIs(s[..|s| - 1], c, n);
    }
  }

  lemma LastColon(host: string, digits: string)
    requires ':' !in digits
    ensures var s := host + ":" + digits;
      FindLast(s, ':') == |host| && s[..|host|] == host && s[|host| + 1..] == digits
  {
    hide FindLast;
    var s := host + ":" + digits;
    assert forall i | |host| < i < |s| :: s[i] == digits[i - |host| - 1];
    FindLastIs(s, ':', |host|);
  }

  /** The host header parses back to host and port, unless the default port hid a colon of the host. */
  lemma HeaderParsesIff(u: Url)
    requires IsParsed(u)
    ensures '/' !in HostHeader(u)
    ensures ParseAuthority(HostHeader(u), u.path) == Ok(u) <==> !(u.port == 80 && ':' in u.host)
  {
    hide Positional.Decimal, FindLast, ParsePort;
    if u.port == 80 {
      if ':' in u.host {
        ShorterHost(u.host, u.path);
      } else {
        NoColon(u.host);
      }
    } else {
      DecimalPort(u.port);
      LastColon(u.host, Positional.Decimal(u.port));
    }
  }

  lemma UrlSplits(header: string, path: string)
    requires '/' !in header && path != "" && path[0] == '/'
    ensures Parse(SCHEME + header + path) == ParseAuthority(header, path)
  {
    hide SCHEME, ParseAuthority;
    var url, rest := SCHEME + header + path, header + path;
    assert url == SCHEME + rest;
    assert url[..|SCHEME|] == SCHEME && url[|SCHEME|..] == rest;
    assert rest[|header|] == '/' && rest[..|header|] == header && rest[|header|..] == path;
    Text.FindIs(rest, '/', |header|);
  }

  /** What was parsed is found again in its own origin and path, unless the default port hid a colon of the host. */
  lemma OriginParsesBackIff(u: Url)
    requires IsParsed(u)
    ensures Parse(Origin(u) + u.path) == Ok(u) <==> !(u.port == 80 && ':' in u.host)
  {
    hide HostHeader, Parse, ParseAuthority, SCHEME;
    HeaderParsesIff(u);
    UrlSplits(HostHeader(u), u.path);
  }

  /** A host that ends like a port: the default port after it is left out, and the host is read as a host and a port. */
  lemma HiddenPort()
    ensures Parse("http://a:1:80/") == Ok(Url("a:1", 80, "/"))
    ensures Origin(Url("a:1", 80, "/")) + "/" == "http://a:1/" && Parse("http://a:1/") == Ok(Url("a", 1, "/"))
  {
    hide Parse, ParseAuthority, FindLast, ParsePort, Positional.Decimal;
    assert "http://a:1:80/" == SCHEME + "a:1:80" + "/" && "http://a:1/" == SCHEME + "a:1" + "/";
    UrlSplits("a:1:80", "/");
    UrlSplits("a:1", "/");
    Ports();
    assert "a:1:80" == "a:1" + ":" + "80" && "a:1" == "a" + ":" + "1";
    LastColon("a:1", "80");
    LastColon("a", "1");
    TakeApart("a:1:80", "/");
    TakeApart("a:1", "/");
  }

  lemma Ports()
    ensures ParsePort("80") == Some(80) && ParsePort("1") == Some(1)
  {
    assert Positional.ReadDigits("80") == [8, 0] && Positional.ReadDigits("1") == [1];
    assert Positional.Value(10, [8, 0]) == 80 by {
      assert [8, 0][..1] == [8] && [8][..0] == [];
      assert Positional.Value(10, [8]) == 8;
    }
    assert Positional.Value(10, [1]) == 1 by {
      assert [1][..0] == [];
    }
  }

  lemma TakeApart(authority: string, path: string)
    ensures var colon := FindLast(authority, ':');
      0 < colon < |authority| && ParsePort(authority[colon + 1..]).Some? ==>
        ParseAuthority(authority, path) == Ok(Url(authority[..colon], ParsePort(authority[colon + 1..]).value, path))
  {
    hide FindLast, ParsePort;
  }

  lemma NoColon(s: string)
    requires ':' !in s
    ensures FindLast(s, ':') == |s|
  {
  }

  lemma ShorterHost(authority: string, path: string)
    requires ':' in authority
    ensures ParseAuthority(authority, path).Ok? ==> |ParseAuthority(authority, path).value.host| < |authority|
  {
    hide ParsePort;
  }

  // ----- percent-encoding -----

  predicate IsUnreserved(b: byte) {
    || 0x41 <= b <= 0x5A || 0x61 <= b <= 0x7A || 0x30 <= b <= 0x39
    || b == 0x2D || b == 0x5F || b == 0x2E || b == 0x7E
  }

  const HEX := "0123456789ABCDEF"

  function EncodeByte(b: byte): (s: string)
    ensures s != ""
  {
    if IsUnreserved(b) then [b as int as char]
    else if b == 0x20 then "+"
    else ['%', HEX[b as int / 16], HEX[b as int % 16]]
  }

  function UrlEncode(bytes: seq<byte>): string
    decreases |bytes|
  {
    if bytes == [] then "" else EncodeByte(bytes[0]) + UrlEncode(bytes[1..])
  }

  function HexValue(c: char): Option<nat> {
    if '0' <= c <= '9' then Some(c as int - 48)
    else if 'A' <= c <= 'F' then Some(c as int - 55)
    else None
  }

  /** The decoder a server applies to a form field. */
  function UrlDecode(s: string): Option<seq<byte>>
    decreases |s|
  {
    if s == "" then Some([])
    else if s[0] == '%' then
      if |s| < 3 || HexValue(s[1]).None? || HexValue(s[2]).None? then None else
      var rest :- UrlDecode(s[3..]);
      Some([(HexValue(s[1]).value * 16 + HexValue(s[2]).value) as byte] + rest)
    else if s[0] as int >= 128 then None
    else
      var rest :- UrlDecode(s[1..]);
      Some([if s[0] == '+' then 0x20 else s[0] as int as byte] + rest)
  }

  lemma HexDigitValue(n: nat)
    requires n < 16
    ensures HexValue(HEX[n]) == Some(n) && HEX[n] != '&' && HEX[n] != '=' && HEX[n] != '?' && HEX[n] as int < 128
  {
    assert HEX[0] == '0' && HEX[1] == '1' && HEX[2] == '2' && HEX[3] == '3' && HEX[4] == '4' && HEX[5] == '5';
    assert HEX[6] == '6' && HEX[7] == '7' && HEX[8] == '8' && HEX[9] == '9' && HEX[10] == 'A' && HEX[11] == 'B';
    assert HEX[12] == 'C' && HEX[13] == 'D' && HEX[14] == 'E' && HEX[15] == 'F';
  }

  predicate IsSeparator(c: char) {
    c == '&' || c == '=' || c == '?' || c == '#' || c == '/'
  }

  lemma ByteDecodes(b: byte, rest: string)
    ensures UrlDecode(rest).Some? ==> UrlDecode(EncodeByte(b) + rest) == Some([b] + UrlDecode(rest).value)
    ensures forall c | c in EncodeByte(b) :: !IsSeparator(c)
  {
    var s := EncodeByte(b) + rest;
    if IsUnreserved(b) || b == 0x20 {
      assert s[1..] == rest;
    } else {
      hide HEX;
      HexDigitValue(b as int / 16);
      HexDigitValue(b as int % 16);
      assert s[3..] == rest && s[1] == HEX[b as int / 16] && s[2] == HEX[b as int % 16];
      HexIsDigit(b as int / 16);
      HexIsDigit(b as int % 16);
    }
  }

  lemma HexIsDigit(n: nat)
    requires n < 16
    ensures !IsSeparator(HEX[n])
  {
    HexDigitValue(n);
    assert HexValue('#') == None && HexValue('/') == None;
  }

  /** Decoding inverts encoding on every byte string, and the encoding holds no character that separates fields. */
  lemma {:induction false} DecodeOfEncoded(bytes: seq<byte>)
    ensures UrlDecode(UrlEncode(bytes)) == Some(bytes)
    ensures forall c | c in UrlEncode(bytes) :: !IsSeparator(c)
    decreases |bytes|
  {
    hide UrlDecode, EncodeByte, IsSeparator;
    if bytes == [] {
      NothingDecodes();
    } else {
      DecodeOfEncoded(bytes[1..]);
      ByteDecodes(bytes[0], UrlEncode(bytes[1..]));
      assert [bytes[0]] + bytes[1..] == bytes;
    }
  }

  lemma NothingDecodes()
    ensures UrlDecode("") == Some([])
  {
  }

  // ----- queries -----

  function QueryText(v: Json.Value): string {
    match v
    case Null => ""
    case Str(s) => s
    case _ => Json.ToText(v)
  }

  function Field(key: string, value: Json.Value): string {
    UrlEncode(Encode(key)) + "=" + UrlEncode(Encode(QueryText(value)))
  }

  /** The members of an object, in key order. */
  function Fields(fields: map<string, Json.Value>): (r: seq<string>)
    ensures |r| == |Order.SortedKeys(fields.Keys)|
  {
    var keys := Order.SortedKeys(fields.Keys);
    assert forall i | 0 <= i < |keys| :: keys[i] in keys;
    seq(|keys|, i requires 0 <= i < |keys| => Field(keys[i], fields[keys[i]]))
  }

  /** The path with a query of these fields after it, or after the query it has. */
  function Queried(path: string, parts: seq<string>): string {
    if parts == [] then path else path + (if '?' in path then "&" else "?") + Text.Join(parts, "&")
  }

  /** The path with its data; what is not an object adds nothing. */
  function WithQuery(path: string, data: Json.Value): string {
    if data.Obj? then Queried(path, Fields(data.fields)) else path
  }

  lemma OneMore(path: string, parts: seq<string>, p: string)
    ensures var r := Queried(path, parts);
      r + (if '?' in r then "&" else "?") + p == Queried(path, parts + [p])
  {
    hide Text.Join;
    var sep := if '?' in path then "&" else "?";
    if parts == [] {
      JoinOne(p);
      assert [] + [p] == [p];
    } else {
      JoinMore(parts, p, "&");
      var joined := Text.Join(parts, "&");
      var r := path + sep + joined;
      assert '?' in path || r[|path|] == '?';
      assert '?' in r;
      assert r + "&" + p == path + sep + (joined + "&" + p);
    }
  }

  lemma {:induction false} JoinMore(parts: seq<string>, p: string, sep: string)
    requires parts != []
    ensures Text.Join(parts + [p], sep) == Text.Join(parts, sep) + sep + p
    decreases |parts|
  {
    if |parts| == 1 {
      assert (parts + [p])[1..] == [p];
    } else {
      assert (parts + [p])[1..] == parts[1..] + [p];
      JoinMore(parts[1..], p, sep);
      assert parts[0] + sep + (Text.Join(parts[1..], sep) + sep + p) == parts[0] + sep + Text.Join(parts[1..], sep) + sep + p;
    }
  }

  method AppendQueryData(path: string, data: Json.Value) returns (r: string)
    ensures r == WithQuery(path, data)
  {
    hide Field, Queried;
    r := path;
    NoFields(path);
    if !data.Obj? {
      return;
    }
    var fields := data.fields;
    var keys := Order.SortedKeys(fields.Keys);
    ghost var parts := Fields(fields);
    for i := 0 to |keys|
      invariant r == Queried(path, parts[..i])
    {
      assert keys[i] in keys;
      OneMore(path, parts[..i], parts[i]);
      assert parts[..i + 1] == parts[..i] + [parts[i]];
      if '?' in r {
        r := r + "&";
      } else {
        r := r + "?";
      }
      r := r + Field(keys[i], fields[keys[i]]);
    }
    assert parts[..|keys|] == parts;
  }

  lemma NoFields(path: string)
    ensures Queried(path, []) == path
  {
  }

  lemma JoinOne(p: string)
    ensures Text.Join([p], "&") == p
  {
  }

  /** What a server reads from a field: the bytes before the first `=` and after it. */
  predicate Reads(field: string, key: seq<byte>, value: seq<byte>) {
    var cut := Text.Find(field, '=');
    cut < |field| && UrlDecode(field[..cut]) == Some(key) && UrlDecode(field[cut + 1..]) == Some(value)
  }

  lemma FieldParts(key: string, value: Json.Value)
    ensures '&' !in Field(key, value)
    ensures Reads(Field(key, value), Encode(key), Encode(QueryText(value)))
  {
    hide UrlDecode, UrlEncode, Encode, QueryText;
    var k, v := UrlEncode(Encode(key)), UrlEncode(Encode(QueryText(value)));
    DecodeOfEncoded(Encode(key));
    DecodeOfEncoded(Encode(QueryText(value)));
    assert IsSeparator('=') && IsSeparator('&');
    var f := k + "=" + v;
    assert f[|k|] == '=' && f[..|k|] == k && f[|k| + 1..] == v;
    Text.FindIs(f, '=', |k|);
  }

  /** What a server takes for the query: the text after the first `?`. */
  function QueryOf(path: string): string {
    var at := Text.Find(path, '?');
    if at == |path| then "" else path[at + 1..]
  }

  /** The query's fields as a server splits them; no `?`, no fields. */
  function Pieces(path: string): seq<string> {
    if '?' in path then Text.Split(QueryOf(path), '&') else []
  }

  lemma QueryAfter(path: string, rest: string)
    ensures '?' !in path ==> '?' in path + "?" + rest && QueryOf(path + "?" + rest) == rest
    ensures '?' in path ==> '?' in path + "&" + rest && QueryOf(path + "&" + rest) == QueryOf(path) + "&" + rest
  {
    hide Text.Find;
    if '?' in path {
      var at := Text.Find(path, '?');
      var r := path + "&" + rest;
      assert path == path[..at] + path[at..];
      assert r[at] == '?' && r[..at] == path[..at];
      Text.FindIs(r, '?', at);
      assert r[at + 1..] == path[at + 1..] + "&" + rest;
    } else {
      var r := path + "?" + rest;
      assert r[|path|] == '?' && r[..|path|] == path;
      Text.FindIs(r, '?', |path|);
      assert r[|path| + 1..] == rest;
    }
  }

  /** The pieces of the new query are those the path had, followed by the fields. */
  lemma PiecesOf(path: string, fields: map<string, Json.Value>)
    requires fields != map[]
    ensures Pieces(WithQuery(path, Json.Obj(fields))) == Pieces(path) + Fields(fields)
  {
    hide Field, Text.Find, Text.Split, Text.Join, QueryOf;
    var parts := Fields(fields);
    var key :| key in fields;
    assert key in Order.SortedKeys(fields.Keys);
    NoSeparators(fields);
    assert ['&'] == "&";
    Text.SplitJoin(parts, '&');
    QueryAfter(path, Text.Join(parts, "&"));
    Text.SplitConcat(QueryOf(path), Text.Join(parts, "&"), '&');
    assert [] + parts == parts;
  }

  lemma NoSeparators(fields: map<string, Json.Value>)
    ensures forall p | p in Fields(fields) :: '&' !in p
  {
    hide Field;
    var keys := Order.SortedKeys(fields.Keys);
    var parts := Fields(fields);
    forall p | p in parts ensures '&' !in p {
      var j :| 0 <= j < |parts| && parts[j] == p;
      assert keys[j] in keys;
      FieldParts(keys[j], fields[keys[j]]);
    }
  }

  /**
    A server that takes the query of the new path, splits it at `&` and `=` and decodes the pieces gets every member
    back, in key order, after the fields the path had.
   */
  lemma QueryReadsBack(path: string, fields: map<string, Json.Value>, i: nat)
    requires i < |Order.SortedKeys(fields.Keys)|
    ensures var had, parts := |Pieces(path)|, Pieces(WithQuery(path, Json.Obj(fields)));
      && |parts| == had + |Order.SortedKeys(fields.Keys)| && parts[..had] == Pieces(path)
      && (var key := Order.SortedKeys(fields.Keys)[i];
          key in fields && Reads(parts[had + i], Encode(key), Encode(QueryText(fields[key]))))
  {
    hide Reads, Encode, QueryText, Field, Pieces, WithQuery;
    var keys := Order.SortedKeys(fields.Keys);
    assert keys[i] in keys;
    PiecesOf(path, fields);
    FieldParts(keys[i], fields[keys[i]]);
  }
}
