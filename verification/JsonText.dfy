/** Reading compact JSON back (RFC 8259): the printed text of a value determines it. */
module JsonText {
  import opened Wrappers
  import opened Json
  import Order
  import Text

  // ----- a reader -----

  function HexValue(c: char): Option<nat> {
    if '0' <= c <= '9' then Some(c as int - '0' as int)
    else if 'a' <= c <= 'f' then Some(c as int - 'a' as int + 10)
    else None
  }

  /** The character an escape sequence stands for, and how long the sequence is. */
  function Unescape(s: string): Option<(char, nat)>
    requires s != "" && s[0] == '\\'
  {
    if |s| < 2 then None
    else match s[1]
      case '"' => Some(('"', 2))
      case '\\' => Some(('\\', 2))
      case 'b' => Some(('\U{08}', 2))
      case 't' => Some(('\U{09}', 2))
      case 'n' => Some(('\U{0A}', 2))
      case 'f' => Some(('\U{0C}', 2))
      case 'r' => Some(('\U{0D}', 2))
      case 'u' =>
        if |s| >= 6 && s[2] == '0' && s[3] == '0' && HexValue(s[4]).Some? && HexValue(s[5]).Some? then
          Some(((HexValue(s[4]).value * 16 + HexValue(s[5]).value) as char, 6))
        else None
      case _ => None
  }

  /** The characters up to the closing quote, and how far it is, the quote included. */
  function ReadChars(s: string): (r: Option<(string, nat)>)
    ensures r.Some? ==> 0 < r.value.1 <= |s|
    decreases |s|
  {
    if s == "" then None
    else if s[0] == '"' then Some(("", 1))
    else if s[0] == '\\' then
      var c :- Unescape(s);
      if c.1 > |s| then None else
      var rest :- ReadChars(s[c.1..]);
      Some(([c.0] + rest.0, c.1 + rest.1))
    else
      var rest :- ReadChars(s[1..]);
      Some(([s[0]] + rest.0, 1 + rest.1))
  }

  predicate IsNumberChar(c: char) {
    '0' <= c <= '9' || c == '-' || c == '+' || c == '.' || c == 'e' || c == 'E'
  }

  function NumberLength(s: string): (n: nat)
    ensures n <= |s|
  {
    if s == "" || !IsNumberChar(s[0]) then 0 else 1 + NumberLength(s[1..])
  }

  /** A value at the start of a text, and how long it is. Whether a number is zero is not in its text. */
  function ReadValue(s: string): (r: Option<(Value, nat)>)
    ensures r.Some? ==> 0 < r.value.1 <= |s|
    decreases |s|, 1
  {
    if s == "" then None
    else if Text.StartsWith(s, "null") then Some((Null, 4))
    else if Text.StartsWith(s, "true") then Some((Bool(true), 4))
    else if Text.StartsWith(s, "false") then Some((Bool(false), 5))
    else if s[0] == '"' then
      var chars :- ReadChars(s[1..]);
      Some((Str(chars.0), 1 + chars.1))
    else if s[0] == '[' then
      if |s| > 1 && s[1] == ']' then Some((Arr([]), 2)) else
      var items :- ReadItems(s[1..]);
      Some((Arr(items.0), 1 + items.1))
    else if s[0] == '{' then
      if |s| > 1 && s[1] == '}' then Some((Obj(map[]), 2)) else
      var fields :- ReadFields(s[1..]);
      Some((Obj(fields.0), 1 + fields.1))
    else
      var n := NumberLength(s);
      if n == 0 then None else Some((Num(s[..n], false), n))
  }

  /** Values separated by commas up to a closing bracket. */
  function ReadItems(s: string): (r: Option<(seq<Value>, nat)>)
    ensures r.Some? ==> 0 < r.value.1 <= |s|
    decreases |s|, 2
  {
    var first :- ReadValue(s);
    var rest := s[first.1..];
    if rest != "" && rest[0] == ']' then Some(([first.0], first.1 + 1))
    else if rest != "" && rest[0] == ',' then
      var more :- ReadItems(rest[1..]);
      Some(([first.0] + more.0, first.1 + 1 + more.1))
    else None
  }

  /** A member: its key, its value, and how long it is. */
  function ReadMember(s: string): (r: Option<(string, Value, nat)>)
    ensures r.Some? ==> 0 < r.value.2 <= |s|
    decreases |s|, 2
  {
    if s == "" || s[0] != '"' then None else
    var key :- ReadChars(s[1..]);
    var n := 1 + key.1;
    if n == |s| || s[n] != ':' then None else
    var value :- ReadValue(s[n + 1..]);
    Some((key.0, value.0, n + 1 + value.1))
  }

  /** Members separated by commas up to a closing brace. */
  function ReadFields(s: string): (r: Option<(map<string, Value>, nat)>)
    ensures r.Some? ==> 0 < r.value.1 <= |s|
    decreases |s|, 3
  {
    var first :- ReadMember(s);
    var rest := s[first.2..];
    if rest != "" && rest[0] == '}' then Some((map[first.0 := first.1], first.2 + 1))
    else if rest != "" && rest[0] == ',' then
      var more :- ReadFields(rest[1..]);
      Some((map[first.0 := first.1] + more.0, first.2 + 1 + more.1))
    else None
  }

  // ----- what is read of a printed value -----

  /** Numbers have the texts that numbers have. */
  predicate HasNumbers(v: Value) {
    match v
    case Num(text, _) => text != "" && forall c | c in text :: IsNumberChar(c)
    case Arr(items) => forall i | 0 <= i < |items| :: HasNumbers(items[i])
    case Obj(fields) => forall k | k in fields :: HasNumbers(fields[k])
    case _ => true
  }

  /** The value but for what its text does not say: whether a number is zero. */
  function Plain(v: Value): Value {
    match v
    case Num(text, _) => Num(text, false)
    case Arr(items) => Arr(seq(|items|, i requires 0 <= i < |items| => Plain(items[i])))
    case Obj(fields) => Obj(map k | k in fields :: Plain(fields[k]))
    case _ => v
  }

  lemma HexBack(n: nat)
    requires n < 16
    ensures HexValue(HexDigit(n)) == Some(n)
  {
    var digits := "0123456789abcdef";
    assert digits[0] == '0' && digits[1] == '1' && digits[2] == '2' && digits[3] == '3' && digits[4] == '4' && digits[5] == '5';
    assert digits[6] == '6' && digits[7] == '7' && digits[8] == '8' && digits[9] == '9' && digits[10] == 'a' && digits[11] == 'b';
    assert digits[12] == 'c' && digits[13] == 'd' && digits[14] == 'e' && digits[15] == 'f';
  }

  /** One printed character is read back. */
  lemma CharBack(c: char, tail: string)
    ensures var s := EscapeChar(c) + tail;
      && s != "" && s[0] != '"'
      && (if s[0] == '\\' then Unescape(s) == Some((c, |EscapeChar(c)|)) else EscapeChar(c) == [c])
  {
    hide HexDigit, HexValue;
    var s := EscapeChar(c) + tail;
    if c < ' ' && EscapeChar(c)[1] == 'u' {
      var n := c as int;
      HexBack(n / 16);
      HexBack(n % 16);
      assert s[4] == HexDigit(n / 16) && s[5] == HexDigit(n % 16);
    }
  }

  lemma CharsStep(s: string, c: char, n: nat, tail: string)
    requires s != "" && s[0] != '"' && n <= |s| && s[n..] == tail
    requires if s[0] == '\\' then Unescape(s) == Some((c, n)) else s[0] == c && n == 1
    ensures ReadChars(s) == match ReadChars(tail) { case Some(r) => Some(([c] + r.0, n + r.1)) case None => None }
  {
    hide Unescape;
  }

  lemma {:induction false} CharsBack(s: string, tail: string)
    ensures ReadChars(EscapeString(s) + ("\"" + tail)) == Some((s, |EscapeString(s)| + 1))
    decreases |s|
  {
    hide ReadChars, EscapeChar, Unescape;
    if s == "" {
      assert "" + ("\"" + tail) == "\"" + tail;
      QuoteEnds(tail);
    } else {
      var rest := EscapeString(s[1..]) + ("\"" + tail);
      var all := EscapeChar(s[0]) + rest;
      assert EscapeString(s) + ("\"" + tail) == all;
      CharBack(s[0], rest);
      CharsBack(s[1..], tail);
      assert all[|EscapeChar(s[0])|..] == rest;
      CharsStep(all, s[0], |EscapeChar(s[0])|, rest);
      assert [s[0]] + s[1..] == s;
    }
  }

  lemma QuoteEnds(tail: string)
    ensures ReadChars("\"" + tail) == Some(("", 1))
  {
  }

  lemma QuotedBack(s: string, tail: string)
    ensures var q := QuoteString(s) + tail;
      q[0] == '"' && ReadChars(q[1..]) == Some((s, |QuoteString(s)| - 1))
  {
    hide ReadChars, EscapeString;
    CharsBack(s, tail);
    var q := QuoteString(s) + tail;
    assert q[1..] == EscapeString(s) + ("\"" + tail);
  }

  /** The texts of the items, each after a comma. */
  function ItemsText(items: seq<Value>): string
    decreases items
  {
    if items == [] then "" else "," + (ToText(items[0]) + ItemsText(items[1..]))
  }

  function FieldsText(keys: seq<string>, fields: map<string, Value>): string
    requires forall k | k in keys :: k in fields
    decreases |keys|
  {
    if keys == [] then ""
    else "," + (MemberText(keys[0], fields[keys[0]]) + FieldsText(keys[1..], fields))
  }

  function MemberText(key: string, v: Value): string {
    QuoteString(key) + ":" + ToText(v)
  }

  function Texts(items: seq<Value>): seq<string> {
    seq(|items|, i requires 0 <= i < |items| => ToText(items[i]))
  }

  lemma {:induction false} JoinItems(items: seq<Value>)
    ensures items != [] ==> "," + Text.Join(Texts(items), ",") == ItemsText(items)
    decreases |items|
  {
    hide ToText;
    if items != [] {
      assert Texts(items)[1..] == Texts(items[1..]);
      JoinItems(items[1..]);
    }
  }

  lemma ArrText(items: seq<Value>)
    ensures ToText(Arr(items)) == "[" + ((if items == [] then "" else ItemsText(items)[1..]) + "]")
  {
    assert seq(|items|, i requires 0 <= i < |items| => ToText(items[i])) == Texts(items);
    JoinItems(items);
    hide ItemsText;
    if items != [] {
      assert ("," + Text.Join(Texts(items), ","))[1..] == Text.Join(Texts(items), ",");
    }
  }

  function MemberTexts(keys: seq<string>, fields: map<string, Value>): seq<string>
    requires forall k | k in keys :: k in fields
  {
    seq(|keys|, i requires 0 <= i < |keys| => MemberText(keys[i], fields[keys[i]]))
  }

  lemma MembersStep(keys: seq<string>, fields: map<string, Value>)
    requires keys != [] && forall k | k in keys :: k in fields
    ensures MemberTexts(keys, fields) == [MemberText(keys[0], fields[keys[0]])] + MemberTexts(keys[1..], fields)
    ensures FieldsText(keys, fields) == "," + (MemberText(keys[0], fields[keys[0]]) + FieldsText(keys[1..], fields))
    ensures |MemberTexts(keys[1..], fields)| == |keys| - 1 && FieldsText([], fields) == ""
  {
    hide MemberText;
  }

  lemma JoinStep(first: string, rest: seq<string>)
    ensures "," + Text.Join([first] + rest, ",") == "," + (first + if rest == [] then "" else "," + Text.Join(rest, ","))
  {
    assert ([first] + rest)[1..] == rest;
    if rest != [] {
      assert first + "," + Text.Join(rest, ",") == first + ("," + Text.Join(rest, ","));
    } else {
      assert first + "" == first;
    }
  }

  lemma {:induction false} JoinFields(keys: seq<string>, fields: map<string, Value>)
    requires forall k | k in keys :: k in fields
    ensures keys != [] ==> "," + Text.Join(MemberTexts(keys, fields), ",") == FieldsText(keys, fields)
    decreases |keys|
  {
    hide *;
    if keys != [] {
      MembersStep(keys, fields);
      JoinFields(keys[1..], fields);
      JoinStep(MemberText(keys[0], fields[keys[0]]), MemberTexts(keys[1..], fields));
    }
  }

  lemma ObjIs(fields: map<string, Value>)
    ensures ToText(Obj(fields)) == "{" + Text.Join(MemberTexts(Order.SortedKeys(fields.Keys), fields), ",") + "}"
  {
    hide QuoteString, Text.Join;
    var keys := Order.SortedKeys(fields.Keys);
    assert forall i | 0 <= i < |keys| :: keys[i] in fields;
    assert MemberTexts(keys, fields) ==
           seq(|keys|, i requires 0 <= i < |keys| => QuoteString(keys[i]) + ":" + ToText(fields[keys[i]]));
  }

  lemma ObjText(fields: map<string, Value>)
    ensures var keys := Order.SortedKeys(fields.Keys);
      ToText(Obj(fields)) == "{" + ((if keys == [] then "" else FieldsText(keys, fields)[1..]) + "}")
  {
    hide *;
    var keys := Order.SortedKeys(fields.Keys);
    ObjIs(fields);
    JoinFields(keys, fields);
    var all := Text.Join(MemberTexts(keys, fields), ",");
    if keys == [] {
      NothingJoined(fields);
    } else {
      assert ("," + all)[1..] == all;
    }
    Regroup(if keys == [] then "" else FieldsText(keys, fields)[1..]);
  }

  lemma NothingJoined(fields: map<string, Value>)
    ensures Text.Join(MemberTexts([], fields), ",") == ""
  {
  }

  lemma Regroup(inner: string)
    ensures "{" + inner + "}" == "{" + (inner + "}")
  {
  }

  // ----- reading back -----

  /** What may follow a value. */
  predicate IsEnd(tail: string) {
    tail == "" || !IsNumberChar(tail[0])
  }

  lemma {:induction false} NumberIs(text: string, tail: string)
    requires (forall c | c in text :: IsNumberChar(c)) && IsEnd(tail)
    ensures NumberLength(text + tail) == |text|
    decreases |text|
  {
    if text == "" {
      assert text + tail == tail;
    } else {
      assert (text + tail)[1..] == text[1..] + tail;
      assert text[0] in text;
      NumberIs(text[1..], tail);
    }
  }

  lemma NumberBack(text: string, tail: string)
    requires text != "" && (forall c | c in text :: IsNumberChar(c)) && IsEnd(tail)
    ensures ReadValue(text + tail) == Some((Num(text, false), |text|))
  {
    NumberIs(text, tail);
    var s := text + tail;
    assert text[0] in text && s[0] == text[0];
    assert "null"[0] == 'n' && "true"[0] == 't' && "false"[0] == 'f';
    assert s[..|text|] == text;
    hide NumberLength, ReadItems, ReadFields, ReadChars;
  }

  lemma WordBack(word: string, v: Value, tail: string)
    requires (word == "null" && v == Null) || (word == "true" && v == Bool(true)) || (word == "false" && v == Bool(false))
    ensures ReadValue(word + tail) == Some((v, |word|))
  {
    var s := word + tail;
    assert s[..|word|] == word;
    assert "null"[0] == 'n' && "true"[0] == 't' && "false"[0] == 'f' && s[0] == word[0];
    hide NumberLength, ReadItems, ReadFields, ReadChars;
  }

  lemma StringBack(text: string, tail: string)
    ensures ReadValue(QuoteString(text) + tail) == Some((Str(text), |QuoteString(text)|))
  {
    QuotedBack(text, tail);
    hide NumberLength, ReadItems, ReadFields, ReadChars, QuoteString;
    assert "null"[0] == 'n' && "true"[0] == 't' && "false"[0] == 'f';
  }

  function Plains(items: seq<Value>): seq<Value> {
    seq(|items|, i requires 0 <= i < |items| => Plain(items[i]))
  }

  lemma ItemsStart(items: seq<Value>, tail: string)
    ensures IsEnd(ItemsText(items) + ("]" + tail))
  {
    hide ToText;
  }

  lemma ItemsStep(v: Value, n: nat, s: string, rest: string)
    requires n <= |s| && s[n..] == rest && rest != "" && ReadValue(s) == Some((v, n))
    ensures rest[0] == ']' ==> ReadItems(s) == Some(([v], n + 1))
    ensures rest[0] == ',' ==>
              ReadItems(s) == match ReadItems(rest[1..]) { case Some(r) => Some(([v] + r.0, n + 1 + r.1)) case None => None }
  {
    hide ReadValue;
  }

  lemma ItemsTextIs(items: seq<Value>)
    ensures items == [] ==> ItemsText(items) == ""
    ensures items != [] ==> ItemsText(items) == "," + (ToText(items[0]) + ItemsText(items[1..]))
  {
    hide ToText;
  }

  /** A text after a separator. */
  lemma Dropped(sep: string, t: string, more: string, end: string)
    requires |sep| == 1
    ensures var all := sep + (t + more);
      && |all| == 1 + |t| + |more| && all[0] == sep[0] && all[1..] + end == t + (more + end)
      && (t + (more + end))[|t|..] == more + end
  {
    var all := sep + (t + more);
    assert all[1..] == t + more;
  }

  lemma PlainsSplit(items: seq<Value>)
    requires items != []
    ensures [Plain(items[0])] + Plains(items[1..]) == Plains(items) && Plains([]) == []
  {
    hide Plain;
  }

  lemma {:induction false} ItemsBack(items: seq<Value>, tail: string)
    requires items != [] && forall i | 0 <= i < |items| :: HasNumbers(items[i])
    ensures ReadItems(ItemsText(items)[1..] + ("]" + tail)) == Some((Plains(items), |ItemsText(items)|))
    decreases items, 0
  {
    hide *;
    var more, t, end := ItemsText(items[1..]), ToText(items[0]), "]" + tail;
    ItemsTextIs(items);
    Dropped(",", t, more, end);
    ItemsStart(items[1..], tail);
    ValueBack(items[0], more + end);
    ItemsStep(Plain(items[0]), |t|, t + (more + end), more + end);
    PlainsSplit(items);
    if |items| > 1 {
      ItemsBack(items[1..], tail);
      ItemsTextIs(items[1..]);
      Dropped(",", ToText(items[1]), ItemsText(items[1..][1..]), end);
      assert (more + end)[1..] == more[1..] + end;
    } else {
      assert items[1..] == [];
      ItemsTextIs([]);
      assert more + end == end;
      assert [Plain(items[0])] + [] == [Plain(items[0])];
    }
  }

  lemma Bracketed(open: string, inner: string, close: string, tail: string)
    requires |open| == |close| == 1
    ensures var all := open + (inner + close);
      && |all| == |inner| + 2 && (all + tail)[0] == open[0] && (all + tail)[1..] == inner + (close + tail)
      && (inner != "" ==> |all + tail| > 1 && (all + tail)[1] == inner[0])
  {
  }

  lemma ReadsArr(s: string)
    requires s != "" && s[0] == '['
    ensures ReadValue(s) ==
            if |s| > 1 && s[1] == ']' then Some((Arr([]), 2))
            else match ReadItems(s[1..]) { case Some(r) => Some((Arr(r.0), 1 + r.1)) case None => None }
  {
    hide ReadItems, ReadFields, ReadChars, NumberLength;
    assert "null"[0] == 'n' && "true"[0] == 't' && "false"[0] == 'f';
  }

  lemma ArrBack(items: seq<Value>, tail: string)
    requires items != [] ==> HasNumbers(items[0])
    requires items != [] ==> ReadItems(ItemsText(items)[1..] + ("]" + tail)) == Some((Plains(items), |ItemsText(items)|))
    ensures var text := ToText(Arr(items)); ReadValue(text + tail) == Some((Plain(Arr(items)), |text|))
  {
    hide *;
    PlainArr(items);
    ArrText(items);
    if items == [] {
      NoItems(tail);
    } else {
      TextStarts(items[0]);
      ItemsBegin(items);
      SomeItems(ItemsText(items)[1..], tail, Plains(items));
    }
  }

  lemma NoItems(tail: string)
    ensures ReadValue("[" + ("" + "]") + tail) == Some((Arr([]), 2))
  {
    hide ReadValue;
    var s := "[" + ("" + "]") + tail;
    ReadsArr(s);
    assert s[1] == ']';
  }

  lemma SomeItems(inner: string, tail: string, items: seq<Value>)
    requires inner != "" && inner[0] != ']' && ReadItems(inner + ("]" + tail)) == Some((items, |inner| + 1))
    ensures ReadValue("[" + (inner + "]") + tail) == Some((Arr(items), |inner| + 2))
  {
    hide *;
    Bracketed("[", inner, "]", tail);
    ReadsArr("[" + (inner + "]") + tail);
  }

  lemma PlainArr(items: seq<Value>)
    ensures Plain(Arr(items)) == Arr(Plains(items)) && Plains([]) == []
  {
    assert Plains(items) == seq(|items|, i requires 0 <= i < |items| => Plain(items[i]));
  }

  /** The text of a value does not start with a closing bracket or brace. */
  lemma TextStarts(v: Value)
    requires HasNumbers(v)
    ensures ToText(v) != "" && ToText(v)[0] != ']' && ToText(v)[0] != '}'
  {
    match v
    case Num(text, _) => assert text[0] in text;
    case _ =>
  }

  lemma ItemsBegin(items: seq<Value>)
    requires items != []
    ensures |ItemsText(items)| > 0 && ItemsText(items)[0] == ','
    ensures ToText(items[0]) != "" ==> |ItemsText(items)| > 1 && ItemsText(items)[1] == ToText(items[0])[0]
  {
    hide ToText;
  }

  ghost function PlainFields(keys: seq<string>, fields: map<string, Value>): map<string, Value>
    requires forall k | k in keys :: k in fields
  {
    map k | k in keys :: Plain(fields[k])
  }

  lemma FieldsStart(keys: seq<string>, fields: map<string, Value>, tail: string)
    requires forall k | k in keys :: k in fields
    ensures IsEnd(FieldsText(keys, fields) + ("}" + tail))
    ensures keys != [] ==> |FieldsText(keys, fields)| > 1 && FieldsText(keys, fields)[0] == ',' && FieldsText(keys, fields)[1] == '"'
  {
    hide ToText, EscapeString;
  }

  lemma MemberBack(key: string, v: Value, w: Value, rest: string)
    requires ReadValue(ToText(v) + rest) == Some((w, |ToText(v)|))
    ensures ReadMember(MemberText(key, v) + rest) == Some((key, w, |MemberText(key, v)|))
  {
    QuotedBack(key, ":" + (ToText(v) + rest));
    hide ReadValue, ReadChars, QuoteString, ToText;
    var q := QuoteString(key);
    var s := q + (":" + (ToText(v) + rest));
    assert s == MemberText(key, v) + rest;
    assert s[|q|] == ':' && s[|q| + 1..] == ToText(v) + rest;
  }

  lemma FieldsStep(s: string, key: string, v: Value, n: nat, rest: string)
    requires ReadMember(s) == Some((key, v, n)) && n <= |s| && s[n..] == rest && rest != ""
    ensures rest[0] == '}' ==> ReadFields(s) == Some((map[key := v], n + 1))
    ensures rest[0] == ',' ==>
              ReadFields(s) == match ReadFields(rest[1..])
                               case Some(r) => Some((map[key := v] + r.0, n + 1 + r.1))
                               case None => None
  {
    hide ReadMember;
  }

  lemma FieldsTextIs(keys: seq<string>, fields: map<string, Value>)
    requires forall k | k in keys :: k in fields
    ensures keys == [] ==> FieldsText(keys, fields) == ""
    ensures keys != [] ==>
              FieldsText(keys, fields) == "," + (MemberText(keys[0], fields[keys[0]]) + FieldsText(keys[1..], fields))
  {
    hide MemberText;
  }

  lemma PlainFieldsSplit(keys: seq<string>, fields: map<string, Value>)
    requires keys != [] && forall k | k in keys :: k in fields
    ensures map[keys[0] := Plain(fields[keys[0]])] + PlainFields(keys[1..], fields) == PlainFields(keys, fields)
    ensures PlainFields([], fields) == map[]
  {
    hide Plain;
    assert forall k | k in keys :: k == keys[0] || k in keys[1..];
  }

  lemma {:induction false} FieldsBack(keys: seq<string>, fields: map<string, Value>, tail: string, whole: Value)
    requires keys != [] && whole == Obj(fields) && forall k | k in keys :: k in fields && HasNumbers(fields[k])
    ensures ReadFields(FieldsText(keys, fields)[1..] + ("}" + tail)) == Some((PlainFields(keys, fields), |FieldsText(keys, fields)|))
    decreases whole, 0, |keys|
  {
    hide *;
    var more, t, end := FieldsText(keys[1..], fields), MemberText(keys[0], fields[keys[0]]), "}" + tail;
    var v := Plain(fields[keys[0]]);
    FieldsTextIs(keys, fields);
    Dropped(",", t, more, end);
    FieldsStart(keys[1..], fields, tail);
    ValueBack(fields[keys[0]], more + end);
    MemberBack(keys[0], fields[keys[0]], v, more + end);
    FieldsStep(t + (more + end), keys[0], v, |t|, more + end);
    PlainFieldsSplit(keys, fields);
    if |keys| > 1 {
      FieldsBack(keys[1..], fields, tail, whole);
      assert (more + end)[1..] == more[1..] + end;
    } else {
      assert keys[1..] == [];
      FieldsTextIs([], fields);
      assert more + end == end;
      assert map[keys[0] := v] + map[] == map[keys[0] := v];
    }
  }

  lemma ReadsObj(s: string)
    requires s != "" && s[0] == '{'
    ensures ReadValue(s) ==
            if |s| > 1 && s[1] == '}' then Some((Obj(map[]), 2))
            else match ReadFields(s[1..]) { case Some(r) => Some((Obj(r.0), 1 + r.1)) case None => None }
  {
    hide ReadItems, ReadFields, ReadChars, NumberLength;
    assert "null"[0] == 'n' && "true"[0] == 't' && "false"[0] == 'f';
  }

  lemma PlainObj(fields: map<string, Value>)
    ensures var keys := Order.SortedKeys(fields.Keys);
      (forall k | k in keys :: k in fields) && Plain(Obj(fields)) == Obj(PlainFields(keys, fields))
      && (keys == [] ==> PlainFields(keys, fields) == map[])
  {
  }

  lemma ObjBack(fields: map<string, Value>, tail: string)
    requires var keys := Order.SortedKeys(fields.Keys);
      keys != [] ==>
        ReadFields(FieldsText(keys, fields)[1..] + ("}" + tail)) == Some((PlainFields(keys, fields), |FieldsText(keys, fields)|))
    ensures var text := ToText(Obj(fields)); ReadValue(text + tail) == Some((Plain(Obj(fields)), |text|))
  {
    PlainObj(fields);
    hide *;
    var keys := Order.SortedKeys(fields.Keys);
    ObjText(fields);
    var text := ToText(Obj(fields));
    var s := text + tail;
    FieldsStart(keys, fields, tail);
    ReadsObj(s);
    if keys == [] {
      assert text == "{}" && s[1] == '}';
    } else {
      Bracketed("{", FieldsText(keys, fields)[1..], "}", tail);
    }
  }

  lemma {:induction false} ValueBack(v: Value, tail: string)
    requires HasNumbers(v) && IsEnd(tail)
    ensures ReadValue(ToText(v) + tail) == Some((Plain(v), |ToText(v)|))
    decreases v, 1
  {
    hide ReadValue, ItemsText, FieldsText, ReadItems, ReadFields, QuoteString;
    match v
    case Null => WordBack("null", v, tail);
    case Bool(b) => WordBack(if b then "true" else "false", v, tail);
    case Num(text, _) => NumberBack(text, tail);
    case Str(text) => StringBack(text, tail);
    case Arr(items) =>
      if items != [] {
        ItemsBack(items, tail);
      }
      ArrBack(items, tail);
    case Obj(fields) =>
      var keys := Order.SortedKeys(fields.Keys);
      assert forall k | k in keys :: k in fields;
      if keys != [] {
        FieldsBack(keys, fields, tail, v);
      }
      ObjBack(fields, tail);
  }

  /** The compact text of a value reads back as that value, all of it. */
  lemma TextReadsBack(v: Value)
    requires HasNumbers(v)
    ensures ReadValue(ToText(v)) == Some((Plain(v), |ToText(v)|))
  {
    hide ReadValue, ToText;
    ValueBack(v, "");
    assert ToText(v) + "" == ToText(v);
  }

  /** Values of one text are equal, but for what no text says. */
  lemma TextDetermines(v: Value, w: Value)
    requires HasNumbers(v) && HasNumbers(w) && ToText(v) == ToText(w)
    ensures Plain(v) == Plain(w)
  {
    hide ReadValue, ToText, Plain;
    TextReadsBack(v);
    TextReadsBack(w);
  }
}
