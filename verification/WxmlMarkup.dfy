/** The markup an author may write, with its white space and its ways to give a value, and the parser as reading what it means. */
module WxmlMarkup {
  import opened Wrappers
  import opened Text
  import opened Wxml
  import opened WxmlGrammar
  import opened WxmlPrinter

  // ----- attributes as written -----

  /** How an attribute gets its value: not at all, bare, or in quotes; `before` and `after` stand around the `=`. */
  datatype Setting =
    | Flag
    | Bare(before: string, after: string, value: string)
    | Quoted(before: string, after: string, quote: char, value: string)

  /** An attribute after some white space; one without a name is read and dropped. */
  datatype Written = Written(lead: string, name: string, setting: Setting)

  predicate IsPad(s: string) {
    forall c | c in s :: IsAsciiSpace(c)
  }

  predicate IsSetting(s: Setting) {
    match s
    case Flag => true
    case Bare(before, after, value) =>
      && IsPad(before) && IsPad(after) && value != "" && value[0] != '"' && value[0] != '\''
      && forall c | c in value :: !IsSpace(c) && c != '>'
    case Quoted(before, after, quote, value) =>
      IsPad(before) && IsPad(after) && (quote == '"' || quote == '\'') && quote !in value && '>' !in value
  }

  predicate IsWritten(w: Written) {
    && w.lead != "" && IsPad(w.lead) && IsSetting(w.setting)
    && (if w.name == "" then !w.setting.Flag? else IsAttrName(w.name))
  }

  /** A nameless attribute after one without a value would be that value. */
  predicate AreWritten(ws: seq<Written>)
    decreases |ws|
  {
    ws != [] ==>
      && IsWritten(ws[0]) && AreWritten(ws[1..])
      && (|ws| > 1 && ws[0].setting.Flag? ==> ws[1].name != "")
  }

  function SettingText(s: Setting): string {
    match s
    case Flag => ""
    case Bare(before, after, value) => before + ("=" + (after + value))
    case Quoted(before, after, quote, value) => before + ("=" + (after + ([quote] + (value + [quote]))))
  }

  function ValueOf(s: Setting): string {
    if s.Flag? then "" else s.value
  }

  function WriteAttrs(ws: seq<Written>): string
    decreases |ws|
  {
    if ws == [] then "" else ws[0].lead + (ws[0].name + (SettingText(ws[0].setting) + WriteAttrs(ws[1..])))
  }

  /** What is meant: of one name the last. */
  function Attributes(ws: seq<Written>): Attrs
    decreases |ws|
  {
    if ws == [] then map[] else
    var last := ws[|ws| - 1];
    var before := Attributes(ws[..|ws| - 1]);
    if last.name == "" then before else before[last.name := ValueOf(last.setting)]
  }

  // ----- reading attributes -----

  lemma {:induction false} SpacesPad(pad: string, s: string)
    requires IsPad(pad) && (s == "" || !IsAsciiSpace(s[0]))
    ensures Spaces(pad + s) == |pad|
    decreases |pad|
  {
    if pad == "" {
      assert pad + s == s;
    } else {
      assert (pad + s)[1..] == pad[1..] + s;
      SpacesPad(pad[1..], s);
    }
  }

  /** The rest of a tag after an attribute: nothing, or white space and then the next attribute. */
  predicate IsRest(s: string) {
    s == "" || IsAsciiSpace(s[0])
  }

  /** And no `=` after the white space. */
  predicate NoValueIn(s: string) {
    Spaces(s) == |s| || s[Spaces(s)] != '='
  }

  lemma ReadsBare(value: string, tail: string)
    requires value != "" && value[0] != '"' && value[0] != '\'' && (forall c | c in value :: !IsSpace(c)) && IsRest(tail)
    ensures ValueAt(value + tail) == Ok((value, |value|))
  {
    var s := value + tail;
    assert forall i | 0 <= i < |value| :: s[i] == value[i] && value[i] in value;
    AsciiIsSpace();
    BareLengthIs(s, |value|);
    assert s[..|value|] == value;
  }

  lemma AsciiIsSpace()
    ensures forall c | IsAsciiSpace(c) :: IsSpace(c)
  {
  }

  lemma ReadsAfterEquals(before: string, after: string, given: string, value: string, tail: string)
    requires IsPad(before) && IsPad(after) && given != "" && !IsAsciiSpace(given[0])
    requires ValueAt(given + tail) == Ok((value, |given|))
    ensures var text := before + ("=" + (after + given)); AssignedAt(text + tail) == Ok((value, |text|))
  {
    hide ValueAt, Spaces;
    var text := before + ("=" + (after + given));
    var s, rest := text + tail, after + (given + tail);
    assert s == before + ("=" + rest);
    SpacesPad(before, "=" + rest);
    assert s[|before|] == '=' && s[|before| + 1..] == rest;
    SpacesPad(after, given + tail);
    assert s[|before| + 1 + |after|..] == given + tail;
  }

  lemma ReadsSetting(setting: Setting, tail: string)
    requires IsSetting(setting) && IsRest(tail) && (setting.Flag? ==> NoValueIn(tail))
    ensures AssignedAt(SettingText(setting) + tail) ==
            Ok((ValueOf(setting), |SettingText(setting)| + if setting.Flag? then Spaces(tail) else 0))
  {
    hide ValueAt, Spaces, AssignedAt;
    match setting
    case Flag =>
      assert "" + tail == tail;
      NothingAssigned(tail);
    case Bare(before, after, value) =>
      assert value[0] in value;
      AsciiIsSpace();
      ReadsBare(value, tail);
      ReadsAfterEquals(before, after, value, value, tail);
    case Quoted(before, after, quote, value) =>
      ReadsQuoted(value, quote, tail);
      ReadsAfterEquals(before, after, [quote] + (value + [quote]), value, tail);
  }

  lemma NothingAssigned(tail: string)
    requires NoValueIn(tail)
    ensures AssignedAt(tail) == Ok(("", Spaces(tail)))
  {
  }

  lemma SettingStarts(setting: Setting, tail: string)
    requires IsSetting(setting) && IsRest(tail)
    ensures var s := SettingText(setting) + tail; s == "" || IsAsciiSpace(s[0]) || s[0] == '='
  {
  }

  lemma NameIsRead(name: string, after: string)
    requires IsAttrName(name) && (after == "" || IsAsciiSpace(after[0]) || after[0] == '=')
    ensures var s := name + after;
      && s != "" && !IsAsciiSpace(s[0])
      && NameLength(s) == |name| && Trim(s[..|name|]) == name && s[|name|..] == after
  {
    var s := name + after;
    assert s[0] == name[0] && name[0] in name;
    assert forall i | 0 <= i < |name| :: s[i] == name[i] && name[i] in name;
    assert after != "" ==> s[|name|] == after[0];
    NameLengthIs(s, |name|);
    hide Trim, NameLength, IsAsciiSpace, IsSpace;
    assert s[..|name|] == name;
    TrimFixed(name);
  }

  lemma ReadsNamed(w: Written, tail: string)
    requires w.name != "" && IsWritten(w) && IsRest(tail) && (w.setting.Flag? ==> NoValueIn(tail))
    ensures var s := w.name + (SettingText(w.setting) + tail);
      var n := |w.name| + |SettingText(w.setting)| + if w.setting.Flag? then Spaces(tail) else 0;
      s != "" && !IsAsciiSpace(s[0]) && AttrAt(s) == Ok((w.name, ValueOf(w.setting), n))
  {
    hide AssignedAt, NameLength, Trim, Spaces, IsAttrName, IsSetting, SettingText, ValueOf, NoValueIn, IsAsciiSpace, IsPad;
    SettingStarts(w.setting, tail);
    NameIsRead(w.name, SettingText(w.setting) + tail);
    ReadsSetting(w.setting, tail);
  }

  /** A value without a name: the white space before its `=` is taken with the lead. */
  lemma ReadsNameless(before: string, after: string, given: string, value: string, tail: string)
    requires IsPad(before) && IsPad(after) && given != "" && !IsAsciiSpace(given[0])
    requires ValueAt(given + tail) == Ok((value, |given|))
    ensures AttrAt("=" + (after + given) + tail) == Ok(("", value, |"=" + (after + given)|))
  {
    hide AssignedAt, Spaces, ValueAt;
    var s := "=" + (after + given) + tail;
    assert s[0] == '=' && s[..0] == "" && s[0..] == s;
    assert IsPad("") && "" + ("=" + (after + given)) == "=" + (after + given);
    ReadsAfterEquals("", after, given, value, tail);
    TrimBlank("");
  }

  lemma AttrsOnce(s: string, acc: Attrs)
    ensures var n := Spaces(s);
      AttrsOf(s, acc) ==
      if n == |s| then Ok(acc) else
      match AttrAt(s[n..])
      case Err(e) => Err(e)
      case Ok(a) => AttrsOf(s[n + a.2..], if a.0 == "" then acc else acc[a.0 := a.1])
  {
    hide AttrAt, Spaces;
  }

  lemma NoMoreSpaces(s: string)
    ensures Spaces(s[Spaces(s)..]) == 0
  {
  }

  lemma AttrsOfSpaces(s: string, acc: Attrs)
    ensures AttrsOf(s[Spaces(s)..], acc) == AttrsOf(s, acc)
  {
    hide AttrAt, AttrsOf, Spaces;
    var n := Spaces(s);
    var t := s[n..];
    NoMoreSpaces(s);
    AttrsOnce(s, acc);
    AttrsOnce(t, acc);
    assert t[0..] == t;
    if n < |s| && AttrAt(t).Ok? {
      var m := AttrAt(t).value.2;
      assert t[0 + m..] == s[n + m..];
    }
  }

  lemma AttrsOfStep(s: string, pad: string, t: string, name: string, value: string, n: nat, acc: Attrs)
    requires s == pad + t && IsPad(pad) && t != "" && !IsAsciiSpace(t[0]) && AttrAt(t) == Ok((name, value, n))
    ensures AttrsOf(s, acc) == AttrsOf(t[n..], if name == "" then acc else acc[name := value])
  {
    hide AttrAt, Spaces;
    SpacesPad(pad, t);
    assert s[|pad|..] == t;
    assert s[|pad| + n..] == t[n..];
  }

  lemma ReadsFirst(w: Written, tail: string, acc: Attrs)
    requires IsWritten(w) && IsRest(tail) && (w.setting.Flag? ==> NoValueIn(tail))
    ensures AttrsOf(w.lead + (w.name + (SettingText(w.setting) + tail)), acc) ==
            AttrsOf(tail, if w.name == "" then acc else acc[w.name := ValueOf(w.setting)])
  {
    hide AttrAt, AttrsOf, Spaces, ValueAt, NoValueIn;
    var s := w.lead + (w.name + (SettingText(w.setting) + tail));
    if w.name != "" {
      var t := w.name + (SettingText(w.setting) + tail);
      ReadsNamed(w, tail);
      var n := |w.name| + |SettingText(w.setting)| + if w.setting.Flag? then Spaces(tail) else 0;
      AttrsOfStep(s, w.lead, t, w.name, ValueOf(w.setting), n, acc);
      AttrsOfSpaces(tail, acc[w.name := ValueOf(w.setting)]);
      assert t[n..] == if w.setting.Flag? then tail[Spaces(tail)..] else tail;
    } else {
      var given := if w.setting.Bare? then w.setting.value else [w.setting.quote] + (w.setting.value + [w.setting.quote]);
      if w.setting.Bare? {
        assert w.setting.value[0] in w.setting.value;
        AsciiIsSpace();
        ReadsBare(w.setting.value, tail);
      } else {
        ReadsQuoted(w.setting.value, w.setting.quote, tail);
      }
      var before, after := w.setting.before, w.setting.after;
      var u := "=" + (after + given);
      ReadsNameless(before, after, given, w.setting.value, tail);
      assert s == (w.lead + before) + (u + tail);
      AttrsOfStep(s, w.lead + before, u + tail, "", w.setting.value, |u|, acc);
      assert (u + tail)[|u|..] == tail;
    }
  }

  /** The attributes so far and then those of `ws`. */
  function Onto(acc: Attrs, ws: seq<Written>): Attrs
    decreases |ws|
  {
    if ws == [] then acc else
    var w := ws[0];
    Onto(if w.name == "" then acc else acc[w.name := ValueOf(w.setting)], ws[1..])
  }

  lemma {:induction false} OntoLast(acc: Attrs, ws: seq<Written>)
    requires ws != []
    ensures var last, before := ws[|ws| - 1], Onto(acc, ws[..|ws| - 1]);
      Onto(acc, ws) == if last.name == "" then before else before[last.name := ValueOf(last.setting)]
    decreases |ws|
  {
    if |ws| > 1 {
      var w := ws[0];
      OntoLast(if w.name == "" then acc else acc[w.name := ValueOf(w.setting)], ws[1..]);
      assert ws[1..][..|ws| - 2] == ws[..|ws| - 1][1..];
    }
  }

  lemma {:induction false} OntoNothing(ws: seq<Written>)
    ensures Onto(map[], ws) == Attributes(ws)
    decreases |ws|
  {
    if ws != [] {
      OntoLast(map[], ws);
      OntoNothing(ws[..|ws| - 1]);
    }
  }

  lemma WrittenStarts(ws: seq<Written>, tail: string)
    requires AreWritten(ws) && IsRest(tail)
    ensures IsRest(WriteAttrs(ws) + tail)
    ensures ws != [] && ws[0].name != "" ==> NoValueIn(WriteAttrs(ws) + tail)
    ensures ws == [] ==> WriteAttrs(ws) + tail == tail
  {
    hide Spaces, SettingText, IsAttrName, IsSetting;
    if ws == [] {
      assert "" + tail == tail;
    } else {
      var w := ws[0];
      var t := w.name + (SettingText(w.setting) + WriteAttrs(ws[1..])) + tail;
      assert WriteAttrs(ws) + tail == w.lead + t;
      hide WriteAttrs, AreWritten, IsAsciiSpace;
      assert w.lead[0] in w.lead;
      if w.name != "" {
        NameStarts(w.name);
        assert t[0] == w.name[0];
        SpacesPad(w.lead, t);
        assert (w.lead + t)[|w.lead|] == t[0];
      }
    }
  }

  lemma NameStarts(name: string)
    requires IsAttrName(name)
    ensures name != "" && !IsAsciiSpace(name[0]) && name[0] != '='
  {
    assert name[0] in name;
  }

  lemma NoSpaces()
    ensures Spaces("") == 0
  {
  }

  lemma {:induction false} ReadsWritten(ws: seq<Written>, tail: string, acc: Attrs)
    requires AreWritten(ws) && IsRest(tail) && NoValueIn(tail)
    ensures AttrsOf(WriteAttrs(ws) + tail, acc) == AttrsOf(tail, Onto(acc, ws))
    decreases |ws|
  {
    hide AttrsOf, IsWritten, NoValueIn, IsRest, SettingText, ValueOf;
    if ws == [] {
      assert "" + tail == tail;
    } else {
      var w, more := ws[0], WriteAttrs(ws[1..]) + tail;
      WrittenStarts(ws[1..], tail);
      assert WriteAttrs(ws) + tail == w.lead + (w.name + (SettingText(w.setting) + more));
      ReadsFirst(w, more, acc);
      ReadsWritten(ws[1..], tail, if w.name == "" then acc else acc[w.name := ValueOf(w.setting)]);
    }
  }

  /** However attributes are written, they are read as what they mean. */
  lemma ReadsAttributes(ws: seq<Written>)
    requires AreWritten(ws)
    ensures AttrsOf(WriteAttrs(ws), map[]) == Ok(Attributes(ws))
  {
    hide AttrsOf, WriteAttrs;
    NoSpaces();
    ReadsWritten(ws, "", map[]);
    assert WriteAttrs(ws) + "" == WriteAttrs(ws);
    AttrsOfNothing(Onto(map[], ws));
    OntoNothing(ws);
  }

  // ----- tags -----

  predicate IsTag(tag: string) {
    tag != "" && tag[0] != '/' && forall c | c in tag :: !IsSpace(c) && c != '>'
  }

  function Body(tag: string, ws: seq<Written>): string {
    tag + WriteAttrs(ws)
  }

  lemma {:induction false} WrittenEnds(ws: seq<Written>)
    requires AreWritten(ws) && ws != []
    ensures var s := WriteAttrs(ws); s != "" && IsAsciiSpace(s[0]) && !IsSpace(s[|s| - 1]) && '>' !in s
    decreases |ws|
  {
    var w, rest := ws[0], WriteAttrs(ws[1..]);
    OneEnds(w);
    hide IsWritten, SettingText, IsSpace;
    var s := w.lead + (w.name + (SettingText(w.setting) + rest));
    assert s == w.lead + (w.name + SettingText(w.setting)) + rest;
    if |ws| > 1 {
      WrittenEnds(ws[1..]);
    } else {
      assert rest == "";
    }
  }

  lemma OneEnds(w: Written)
    requires IsWritten(w)
    ensures var s := w.name + SettingText(w.setting); s != "" && !IsSpace(s[|s| - 1]) && '>' !in s
    ensures w.lead != "" && IsAsciiSpace(w.lead[0]) && '>' !in w.lead
  {
    assert w.lead[0] in w.lead;
    assert !IsAsciiSpace('>');
    match w.setting
    case Flag => assert w.name + "" == w.name;
    case Bare(before, after, value) =>
      assert value[|value| - 1] in value;
      NoBracket(before);
      NoBracket(after);
    case Quoted(before, after, quote, value) =>
      NoBracket(before);
      NoBracket(after);
  }

  lemma NoBracket(pad: string)
    requires IsPad(pad)
    ensures '>' !in pad
  {
  }

  lemma BodyShape(tag: string, ws: seq<Written>)
    requires IsTag(tag) && AreWritten(ws)
    ensures var s := Body(tag, ws); s != "" && s[0] == tag[0] && !IsSpace(s[0]) && !IsSpace(s[|s| - 1]) && '>' !in s
  {
    hide WriteAttrs, AreWritten, IsSpace;
    assert tag[0] in tag && tag[|tag| - 1] in tag;
    if ws == [] {
      WriteNothing();
      assert tag + "" == tag;
    } else {
      WrittenEnds(ws);
    }
  }

  lemma WriteNothing()
    ensures WriteAttrs([]) == ""
  {
  }

  lemma ReadsInside(open: string, tag: string, ws: seq<Written>)
    requires IsBlank(open) && IsTag(tag) && AreWritten(ws)
    ensures TagInside(open + Body(tag, ws)) == Ok((tag, Attributes(ws)))
  {
    hide AttrsOf, Trim, WriteAttrs, AreWritten, Attributes, IsSpace, TagLength;
    var s, tail := Body(tag, ws), WriteAttrs(ws);
    BodyShape(tag, ws);
    assert open + s == open + s + "";
    TrimPadded(open, s, "");
    assert forall i | 0 <= i < |tag| :: s[i] == tag[i] && tag[i] in tag;
    if ws == [] {
      WriteNothing();
    } else {
      WrittenEnds(ws);
      AsciiIsSpace();
    }
    TagLengthIs(s, |tag|);
    ReadsAttributes(ws);
    assert s[..|tag|] == tag && s[|tag|..] == tail;
  }

  /** A tag is closed by itself exactly if a slash comes last, white space around it aside; one slash goes. */
  lemma Splits(s: string, pad: string, end: string)
    requires s != "" && !IsSpace(s[|s| - 1]) && IsBlank(pad) && IsBlank(end)
    ensures SplitSelfClosing(s + pad + ("/" + end)) == (s, true)
    ensures s[|s| - 1] != '/' ==> SplitSelfClosing(s + pad) == (s, false)
  {
    var t := s + pad + "/";
    assert s + pad + ("/" + end) == t + end;
    assert !IsSpace('/');
    hide TrimEnd, IsSpace;
    TrimEndPadded(t, end);
    TrimEndPadded(s, pad);
    assert t[..|t| - 1] == s + pad && t[|t| - 1..] == "/";
    assert s[|s| - 1..] == [s[|s| - 1]];
  }

  lemma ReadsTags(open: string, tag: string, ws: seq<Written>, pad: string, end: string)
    requires IsBlank(open) && IsTag(tag) && AreWritten(ws) && IsBlank(pad) && IsBlank(end)
    ensures TagToken(open + Body(tag, ws) + pad + ("/" + end)) == Ok(SelfClosed(tag, Attributes(ws)))
    ensures Body(tag, ws)[|Body(tag, ws)| - 1] != '/' ==>
              TagToken(open + Body(tag, ws) + pad) == Ok(Open(tag, Attributes(ws)))
  {
    hide TagInside, SplitSelfClosing, Body, Attributes, IsSpace;
    BodyShape(tag, ws);
    var s := open + Body(tag, ws);
    assert s[|s| - 1] == Body(tag, ws)[|Body(tag, ws)| - 1];
    Splits(s, pad, end);
    ReadsInside(open, tag, ws);
  }

  // ----- whole documents -----

  /**
    A text; an element that closes itself; an element around others. White space: `open` before the name, `pad` before
    the bracket or the slash, `end` after the slash, `lead` and `trail` around the name of the closing tag.
   */
  datatype Markup =
    | Literal(text: string)
    | Empty(open: string, tag: string, attrs: seq<Written>, pad: string, end: string)
    | Around(open: string, tag: string, attrs: seq<Written>, pad: string, inner: seq<Markup>, lead: string, trail: string)

  predicate IsMarkup(m: Markup)
    decreases m, 0
  {
    match m
    case Literal(text) => IsRunText(text)
    case Empty(open, tag, attrs, pad, end) =>
      IsBlank(open) && IsTag(tag) && AreWritten(attrs) && IsBlank(pad) && IsBlank(end)
    case Around(open, tag, attrs, pad, inner, lead, trail) =>
      && IsBlank(open) && IsTag(tag) && AreWritten(attrs) && IsBlank(pad) && IsBlank(lead) && IsBlank(trail)
      && Body(tag, attrs)[|Body(tag, attrs)| - 1] != '/'
      && AreMarkup(inner)
  }

  /** No two texts touch: they would be one. */
  predicate AreMarkup(ms: seq<Markup>)
    decreases ms, 1
  {
    ms != [] ==>
      && IsMarkup(ms[0]) && AreMarkup(ms[1..])
      && (|ms| > 1 && ms[0].Literal? ==> !ms[1].Literal?)
  }

  function Write(m: Markup): string
    decreases m, 0
  {
    match m
    case Literal(text) => text
    case Empty(open, tag, attrs, pad, end) => "<" + ((open + Body(tag, attrs) + pad + ("/" + end)) + ">")
    case Around(open, tag, attrs, pad, inner, lead, trail) =>
      "<" + ((open + Body(tag, attrs) + pad) + (">" + (WriteAll(inner) + ("</" + ((lead + tag + trail) + ">")))))
  }

  function WriteAll(ms: seq<Markup>): string
    decreases ms, 1
  {
    if ms == [] then "" else Write(ms[0]) + WriteAll(ms[1..])
  }

  function NodeOf(m: Markup): Node
    decreases m, 0
  {
    match m
    case Literal(text) => TextNode(text)
    case Empty(_, tag, attrs, _, _) => Element(tag, Attributes(attrs), [])
    case Around(_, tag, attrs, _, inner, _, _) => Element(tag, Attributes(attrs), NodesOf(inner))
  }

  function NodesOf(ms: seq<Markup>): seq<Node>
    decreases ms, 1
  {
    if ms == [] then [] else [NodeOf(ms[0])] + NodesOf(ms[1..])
  }

  function FormOf(m: Markup): Form
    decreases m, 0
  {
    match m
    case Literal(text) => Run(text)
    case Empty(_, tag, attrs, _, _) => Lone(tag, Attributes(attrs))
    case Around(_, tag, attrs, _, inner, _, _) => Pair(tag, Attributes(attrs), FormsOf(inner))
  }

  function FormsOf(ms: seq<Markup>): seq<Form>
    decreases ms, 1
  {
    if ms == [] then [] else [FormOf(ms[0])] + FormsOf(ms[1..])
  }

  lemma {:induction false} FormsMean(ms: seq<Markup>)
    ensures MeantAll(FormsOf(ms)) == NodesOf(ms)
    decreases ms
  {
    if ms != [] {
      var m := ms[0];
      if m.Around? {
        FormsMean(m.inner);
      }
      FormsMean(ms[1..]);
      assert FormsOf(ms)[1..] == FormsOf(ms[1..]);
    }
  }

  lemma LexTag(inside: string, token: Token, tail: string)
    requires inside != "" && inside[0] != '/' && '>' !in inside && TagToken(inside) == Ok(token)
    ensures Lex("<" + (inside + (">" + tail))) == Before([token], Lex(tail))
  {
    hide Lex, TokenAt, TagToken;
    OpeningTokenAt(inside, tail);
    var s := "<" + (inside + (">" + tail));
    assert s[|inside| + 2..] == tail;
    LexOne(s, token, |inside| + 2, tail);
  }

  lemma InsideStarts(open: string, tag: string, ws: seq<Written>, more: string)
    requires IsBlank(open) && IsTag(tag) && AreWritten(ws) && '>' !in more
    ensures var s := open + Body(tag, ws) + more; s != "" && s[0] != '/' && '>' !in s
  {
    BodyShape(tag, ws);
    hide Body;
    BlankHasNoBracket(open);
    var s := open + Body(tag, ws) + more;
    if open != "" {
      assert open[0] in open && s[0] == open[0];
    } else {
      assert s[0] == Body(tag, ws)[0];
    }
  }

  lemma BlankHasNoBracket(pad: string)
    requires IsBlank(pad)
    ensures '>' !in pad && '/' !in pad
  {
  }

  lemma LexClosing(tag: string, lead: string, trail: string, tail: string)
    requires IsTag(tag) && IsBlank(lead) && IsBlank(trail)
    ensures Lex("</" + ((lead + tag + trail) + (">" + tail))) == Before([Close(tag)], Lex(tail))
  {
    hide Lex, TokenAt, Trim, IsSpace;
    assert tag[0] in tag && tag[|tag| - 1] in tag;
    BlankHasNoBracket(lead);
    BlankHasNoBracket(trail);
    var body := lead + tag + trail;
    TrimPadded(lead, tag, trail);
    ClosingTokenAt(body, tail);
    var s := "</" + (body + (">" + tail));
    assert s[|body| + 3..] == tail;
    LexOne(s, Close(tag), |body| + 3, tail);
  }

  lemma MarkupStart(ms: seq<Markup>, tail: string)
    requires ms == [] || !ms[0].Literal?
    requires tail == "" || tail[0] == '<'
    ensures var s := WriteAll(ms) + tail; s == "" || s[0] == '<'
  {
  }

  /** Written siblings lex to the tokens that spell them, whatever tag or end follows. */
  lemma {:induction false} LexWritten(ms: seq<Markup>, tail: string)
    requires AreMarkup(ms) && (tail == "" || tail[0] == '<')
    ensures Lex(WriteAll(ms) + tail) == Before(SpelledAll(FormsOf(ms)), Lex(tail))
    decreases ms, 1
  {
    hide Lex;
    if ms == [] {
      assert WriteAll(ms) + tail == tail;
      assert [] + Lex(tail).tokens == Lex(tail).tokens;
    } else {
      var m, rest := ms[0], ms[1..];
      var after := WriteAll(rest) + tail;
      assert WriteAll(ms) + tail == Write(m) + after;
      LexWritten(rest, tail);
      match m {
        case Literal(text) =>
          MarkupStart(rest, tail);
          LexRun(text, after);
        case Empty(_, _, _, _, _) =>
          LexEmpty(m, after);
        case Around(_, _, _, _, _, _, _) =>
          LexAround(m, after);
      }
      SpelledCons(FormOf(m), FormsOf(rest));
      BeforeTwice(Spelled(FormOf(m)), SpelledAll(FormsOf(rest)), Lex(tail));
    }
  }

  lemma LexEmpty(m: Markup, tail: string)
    requires m.Empty? && IsMarkup(m)
    ensures Lex(Write(m) + tail) == Before(Spelled(FormOf(m)), Lex(tail))
  {
    hide Lex, TagToken, Body, Attributes, AreWritten, IsTag, IsBlank;
    var inside := m.open + Body(m.tag, m.attrs) + m.pad + ("/" + m.end);
    ReadsTags(m.open, m.tag, m.attrs, m.pad, m.end);
    BlankHasNoBracket(m.pad);
    BlankHasNoBracket(m.end);
    assert inside == m.open + Body(m.tag, m.attrs) + (m.pad + ("/" + m.end));
    InsideStarts(m.open, m.tag, m.attrs, m.pad + ("/" + m.end));
    assert Write(m) + tail == "<" + (inside + (">" + tail));
    LexTag(inside, SelfClosed(m.tag, Attributes(m.attrs)), tail);
  }

  lemma AroundParts(m: Markup, tail: string)
    requires m.Around? && IsMarkup(m)
    ensures var closing := "</" + ((m.lead + m.tag + m.trail) + (">" + tail));
      Write(m) + tail == "<" + ((m.open + Body(m.tag, m.attrs) + m.pad) + (">" + (WriteAll(m.inner) + closing)))
    ensures Spelled(FormOf(m)) == [Open(m.tag, Attributes(m.attrs))] + SpelledAll(FormsOf(m.inner)) + [Close(m.tag)]
    ensures IsBlank(m.open) && IsTag(m.tag) && AreWritten(m.attrs) && IsBlank(m.pad) && IsBlank(m.lead) && IsBlank(m.trail)
    ensures Body(m.tag, m.attrs) != "" && Body(m.tag, m.attrs)[|Body(m.tag, m.attrs)| - 1] != '/' && AreMarkup(m.inner)
  {
    hide Body, Attributes, AreWritten, IsTag, IsBlank, WriteAll, AreMarkup, SpelledAll, FormsOf;
    BodyShape(m.tag, m.attrs);
    TextAround(m.open + Body(m.tag, m.attrs) + m.pad, WriteAll(m.inner), m.lead + m.tag + m.trail, tail);
  }

  lemma TextAround(inside: string, inner: string, name: string, tail: string)
    ensures "<" + (inside + (">" + (inner + ("</" + (name + ">"))))) + tail ==
            "<" + (inside + (">" + (inner + ("</" + (name + (">" + tail))))))
  {
    assert name + ">" + tail == name + (">" + tail);
    assert "</" + (name + ">") + tail == "</" + (name + (">" + tail));
    var closing := "</" + (name + ">");
    assert inner + closing + tail == inner + (closing + tail);
    TextInside(inside, inner + closing, tail);
  }

  lemma Regroup(a: string, b: string, c: string)
    ensures a + b + c == a + (b + c)
  {
  }

  lemma TextInside(inside: string, inner: string, tail: string)
    ensures "<" + (inside + (">" + inner)) + tail == "<" + (inside + (">" + (inner + tail)))
  {
    assert ">" + inner + tail == ">" + (inner + tail);
    assert inside + (">" + inner) + tail == inside + (">" + (inner + tail));
  }

  /** An opening tag is its token. */
  lemma LexOpening(open: string, tag: string, ws: seq<Written>, pad: string, tail: string)
    requires IsBlank(open) && IsTag(tag) && AreWritten(ws) && IsBlank(pad)
    requires Body(tag, ws) != "" && Body(tag, ws)[|Body(tag, ws)| - 1] != '/'
    ensures Lex("<" + ((open + Body(tag, ws) + pad) + (">" + tail))) == Before([Open(tag, Attributes(ws))], Lex(tail))
  {
    assert IsBlank("");
    hide *;
    ReadsTags(open, tag, ws, pad, "");
    BlankHasNoBracket(pad);
    InsideStarts(open, tag, ws, pad);
    LexTag(open + Body(tag, ws) + pad, Open(tag, Attributes(ws)), tail);
  }

  lemma {:induction false} LexAround(m: Markup, tail: string)
    requires m.Around? && IsMarkup(m)
    ensures Lex(Write(m) + tail) == Before(Spelled(FormOf(m)), Lex(tail))
    decreases m, 0
  {
    AroundParts(m, tail);
    hide *;
    var attrs, forms := Attributes(m.attrs), FormsOf(m.inner);
    var closing := "</" + ((m.lead + m.tag + m.trail) + (">" + tail));
    LexOpening(m.open, m.tag, m.attrs, m.pad, WriteAll(m.inner) + closing);
    LexWritten(m.inner, closing);
    LexClosing(m.tag, m.lead, m.trail, tail);
    BeforeThrice([Open(m.tag, attrs)], SpelledAll(forms), [Close(m.tag)], Lex(tail));
  }

  lemma BeforeThrice(a: seq<Token>, b: seq<Token>, c: seq<Token>, ts: Stream)
    ensures Before(a, Before(b, Before(c, ts))) == Before(a + b + c, ts)
  {
    hide Before;
    BeforeTwice(b, c, ts);
    BeforeTwice(a, b + c, ts);
    assert a + (b + c) == a + b + c;
  }

  // ----- the theorem -----

  /** Texts of nothing but white space do not count between the top-level nodes. */
  function WithoutBlanks(nodes: seq<Node>): seq<Node> {
    if nodes == [] then []
    else if nodes[0].TextNode? && IsBlank(nodes[0].text) then WithoutBlanks(nodes[1..])
    else [nodes[0]] + WithoutBlanks(nodes[1..])
  }

  lemma {:induction false} KeptNodes(nodes: seq<Node>)
    ensures Meaningful(nodes) == WithoutBlanks(nodes)
    decreases |nodes|
  {
    hide Trim, IsSpace;
    if nodes != [] {
      KeptNodes(nodes[1..]);
      if nodes[0].TextNode? {
        BlankIff(nodes[0].text);
      }
    }
  }

  lemma BlankIff(s: string)
    ensures Trim(s) == "" <==> IsBlank(s)
  {
    if IsBlank(s) {
      TrimBlank(s);
    } else {
      var t := TrimStart(s);
      assert s == s[..|s| - |t|] + t;
      if t != "" {
        assert TrimEnd(t) != "" by {
          assert t[0] in t[0..];
        }
      }
    }
  }

  /**
    A document as an author writes it is parsed as what it means: its one node, or a `view` around several, white space
    between them aside; nothing but white space is the error.
   */
  lemma ParseOfMarkup(ms: seq<Markup>)
    requires AreMarkup(ms)
    ensures var kept := WithoutBlanks(NodesOf(ms));
      Parse(WriteAll(ms)) ==
      if |kept| == 0 then Err(EmptyDocument) else if |kept| == 1 then Ok(kept[0]) else Ok(Element("view", map[], kept))
  {
    hide Lex, Meant, SpelledAll, MeantAll, AreMarkup, FormsOf, NodesOf, WriteAll, Meaningful, WithoutBlanks;
    var forms := FormsOf(ms);
    assert WriteAll(ms) + "" == WriteAll(ms);
    LexWritten(ms, "");
    LexNothing();
    assert SpelledAll(forms) + [] == SpelledAll(forms);
    assert Spells(forms, WriteAll(ms));
    ParsesSpelled(forms, WriteAll(ms));
    FormsMean(ms);
    KeptNodes(NodesOf(ms));
  }

  // ----- errors -----

  /** After complete markup, a fault of the lexer is the parser's error. */
  lemma ParseOfFault(ms: seq<Markup>, tail: string, e: ParseError)
    requires AreMarkup(ms) && tail != "" && tail[0] == '<' && TokenAt(tail) == Err(e)
    ensures Parse(WriteAll(ms) + tail) == Err(e)
  {
    hide Lex, TokenAt, SpelledAll, MeantAll, FormsOf, WriteAll, AreMarkup;
    LexWritten(ms, tail);
    LexStep(tail);
    ReadsSpelled(FormsOf(ms), [], Some(e), None);
    SiblingsOnEnd(Stream([], Some(e)), None);
    assert SpelledAll(FormsOf(ms)) + [] == SpelledAll(FormsOf(ms));
  }

  /** A tag that is never closed by a bracket. */
  lemma OpenBracket(ms: seq<Markup>, rest: string)
    requires AreMarkup(ms) && '>' !in rest
    ensures Parse(WriteAll(ms) + ("<" + rest)) == Err(MissingNeedle('>'))
  {
    hide TagToken;
    var s := "<" + rest;
    assert s[1..] == rest;
    FindNone(rest, '>');
    if StartsWith(s, "</") {
      assert forall c | c in s[2..] :: c in rest;
      FindNone(s[2..], '>');
    }
    assert TokenAt(s) == Err(MissingNeedle('>'));
    hide *;
    ParseOfFault(ms, s, MissingNeedle('>'));
  }

  lemma BadTagAt(inside: string, rest: string, e: ParseError)
    requires inside != "" && inside[0] != '/' && '>' !in inside && TagToken(inside) == Err(e)
    ensures TokenAt("<" + (inside + (">" + rest))) == Err(e)
  {
    hide TagToken, Find;
    var s := "<" + (inside + (">" + rest));
    assert s[1] == inside[0];
    assert s[1..][..|inside|] == inside;
    FindIs(s[1..], '>', |inside|);
  }

  lemma ParseOfBadTag(ms: seq<Markup>, inside: string, rest: string, e: ParseError)
    requires AreMarkup(ms) && inside != "" && inside[0] != '/' && '>' !in inside && TagToken(inside) == Err(e)
    ensures Parse(WriteAll(ms) + ("<" + (inside + (">" + rest)))) == Err(e)
  {
    hide *;
    BadTagAt(inside, rest, e);
    ParseOfFault(ms, "<" + (inside + (">" + rest)), e);
  }

  /** A tag of nothing but white space. */
  lemma NamelessTag(ms: seq<Markup>, inside: string, rest: string)
    requires AreMarkup(ms) && inside != "" && IsBlank(inside)
    ensures Parse(WriteAll(ms) + ("<" + (inside + (">" + rest)))) == Err(EmptyTag)
  {
    BlankHasNoBracket(inside);
    assert inside[0] in inside;
    BlankInside(inside);
    hide *;
    ParseOfBadTag(ms, inside, rest, EmptyTag);
  }

  lemma BlankInside(inside: string)
    requires IsBlank(inside)
    ensures TagToken(inside) == Err(EmptyTag)
  {
    assert "" + inside == inside;
    TrimEndPadded("", inside);
    TrimBlank("");
  }

  /** A quote that is never closed inside its tag. */
  lemma OpenQuote(ms: seq<Markup>, tag: string, ws: seq<Written>, lead: string, name: string, before: string, after: string,
                  quote: char, value: string, rest: string)
    requires AreMarkup(ms) && IsTag(tag) && AreWritten(ws) && lead != "" && IsPad(lead) && IsAttrName(name)
    requires IsPad(before) && IsPad(after) && (quote == '"' || quote == '\'') && quote !in value
    requires value != "" && '>' !in value && !IsSpace(value[|value| - 1]) && value[|value| - 1] != '/'
    ensures var inside := Body(tag, ws) + OpenAttr(lead, name, before, after, quote, value);
      Parse(WriteAll(ms) + ("<" + (inside + (">" + rest)))) == Err(UnterminatedAttributeValue)
  {
    var inside := Body(tag, ws) + OpenAttr(lead, name, before, after, quote, value);
    OpenAttrShape(lead, name, before, after, quote, value);
    BodyShape(tag, ws);
    OpenQuoteTag(tag, ws, lead, name, before, after, quote, value);
    hide *;
    ParseOfBadTag(ms, inside, rest, UnterminatedAttributeValue);
  }

  function OpenAttr(lead: string, name: string, before: string, after: string, quote: char, value: string): string {
    lead + (name + (before + ("=" + (after + ([quote] + value)))))
  }

  lemma OpenAttrShape(lead: string, name: string, before: string, after: string, quote: char, value: string)
    requires lead != "" && IsPad(lead) && IsAttrName(name) && IsPad(before) && IsPad(after) && value != "" && '>' !in value && quote != '>'
    ensures var s := OpenAttr(lead, name, before, after, quote, value);
      s != "" && s[0] == lead[0] && IsAsciiSpace(s[0]) && s[|s| - 1] == value[|value| - 1] && '>' !in s && IsRest(s) && NoValueIn(s)
  {
    var s := OpenAttr(lead, name, before, after, quote, value);
    var t := name + (before + ("=" + (after + ([quote] + value))));
    assert lead[0] in lead && name[0] in name && t[0] == name[0];
    NoBracket(lead);
    NoBracket(before);
    NoBracket(after);
    SpacesPad(lead, t);
    hide Spaces, IsAsciiSpace, IsSpace;
    assert s[|lead|] == t[0];
  }

  lemma OpenQuoteTag(tag: string, ws: seq<Written>, lead: string, name: string, before: string, after: string, quote: char, value: string)
    requires IsTag(tag) && AreWritten(ws) && lead != "" && IsPad(lead) && IsAttrName(name)
    requires IsPad(before) && IsPad(after) && (quote == '"' || quote == '\'') && quote !in value
    requires value != "" && '>' !in value && !IsSpace(value[|value| - 1]) && value[|value| - 1] != '/'
    ensures TagToken(Body(tag, ws) + OpenAttr(lead, name, before, after, quote, value)) == Err(UnterminatedAttributeValue)
  {
    var last := OpenAttr(lead, name, before, after, quote, value);
    var s, tail := Body(tag, ws) + last, WriteAttrs(ws) + last;
    OpenAttrShape(lead, name, before, after, quote, value);
    BodyShape(tag, ws);
    WrittenStarts(ws, last);
    hide Body, OpenAttr, IsAttrName, IsPad, AreWritten, TrimEnd, TrimStart, AttrsOf, TagLength, WriteAttrs, NoValueIn, SplitSelfClosing,
      IsAsciiSpace, IsSpace;
    NotSelfClosing(s);
    TrimFixed(s);
    TailOfBody(tag, ws, last);
    ReadsWritten(ws, last, map[]);
    OpenQuoteAttr(lead, name, before, after, quote, value, Onto(map[], ws));
  }

  lemma TailOfBody(tag: string, ws: seq<Written>, last: string)
    requires IsTag(tag) && AreWritten(ws) && last != "" && IsAsciiSpace(last[0])
    ensures var s := Body(tag, ws) + last; TagLength(s) == |tag| && s[|tag|..] == WriteAttrs(ws) + last
  {
    hide WriteAttrs, AreWritten, IsSpace, IsAsciiSpace;
    var s, tail := Body(tag, ws) + last, WriteAttrs(ws) + last;
    assert s == tag + tail;
    assert forall i | 0 <= i < |tag| :: s[i] == tag[i] && tag[i] in tag;
    if ws != [] {
      WrittenEnds(ws);
    } else {
      WriteNothing();
    }
    AsciiIsSpace();
    assert s[|tag|] == tail[0];
    TagLengthIs(s, |tag|);
  }

  lemma OpenQuoteAttr(lead: string, name: string, before: string, after: string, quote: char, value: string, acc: Attrs)
    requires lead != "" && IsPad(lead) && IsAttrName(name) && IsPad(before) && IsPad(after)
    requires (quote == '"' || quote == '\'') && quote !in value && value != ""
    ensures AttrsOf(OpenAttr(lead, name, before, after, quote, value), acc) == Err(UnterminatedAttributeValue)
  {
    var s, more := OpenAttr(lead, name, before, after, quote, value), before + ("=" + (after + ([quote] + value)));
    var t := name + more;
    assert more[0] == if before == "" then '=' else before[0];
    assert before != "" ==> before[0] in before;
    NameIsRead(name, more);
    OpenQuoteAssigned(before, after, quote, value);
    hide Spaces, AssignedAt, NameLength, Trim, IsAttrName, IsSpace, IsAsciiSpace;
    SpacesPad(lead, t);
    assert s[|lead|..] == t;
    assert AttrAt(t) == Err(UnterminatedAttributeValue);
    hide AttrAt;
    AttrsOnce(s, acc);
  }

  lemma OpenQuoteAssigned(before: string, after: string, quote: char, value: string)
    requires IsPad(before) && IsPad(after) && (quote == '"' || quote == '\'') && quote !in value
    ensures AssignedAt(before + ("=" + (after + ([quote] + value)))) == Err(UnterminatedAttributeValue)
  {
    var rest, given := after + ([quote] + value), [quote] + value;
    assert given[1..] == value;
    FindNone(value, quote);
    assert ValueAt(given) == Err(UnterminatedAttributeValue);
    hide ValueAt, Spaces, Find;
    var s := before + ("=" + rest);
    SpacesPad(before, "=" + rest);
    assert s[|before|] == '=' && s[|before| + 1..] == rest;
    SpacesPad(after, given);
    assert s[|before| + 1 + |after|..] == given;
  }

  /** An element whose closing tag is missing, or has another name. */
  lemma WrongClosing(ms: seq<Markup>, open: string, tag: string, ws: seq<Written>, pad: string, inner: seq<Markup>,
                     lead: string, other: string, trail: string, rest: string)
    requires AreMarkup(ms) && AreMarkup(inner) && IsBlank(open) && IsTag(tag) && AreWritten(ws) && IsBlank(pad)
    requires Body(tag, ws)[|Body(tag, ws)| - 1] != '/'
    requires IsBlank(lead) && IsTag(other) && IsBlank(trail) && other != tag
    ensures var start := WriteAll(ms) + ("<" + ((open + Body(tag, ws) + pad) + (">" + WriteAll(inner))));
      && Parse(start) == Err(MissingClosingTag(tag))
      && Parse(start + ("</" + ((lead + other + trail) + (">" + rest)))) == Err(UnexpectedClosingTag(other))
  {
    var end := "</" + ((lead + other + trail) + (">" + rest));
    var closing := Close(other);
    LexClosing(other, lead, trail, rest);
    assert end[0] == '<';
    hide *;
    LexNothing();
    OpenLexes(ms, open, tag, ws, pad, inner, "");
    OpenLexes(ms, open, tag, ws, pad, inner, end);
    Unclosed(ms, tag, Attributes(ws), inner, Lex(""));
    Unclosed(ms, tag, Attributes(ws), inner, Lex(end));
    var start := WriteAll(ms) + ("<" + ((open + Body(tag, ws) + pad) + (">" + WriteAll(inner))));
    assert start + "" == start;
    EndOf(Lex(""), tag);
    EndOf(Lex(end), tag);
    ParseIs(start);
    ParseIs(start + end);
  }

  lemma OpenLexes(ms: seq<Markup>, open: string, tag: string, ws: seq<Written>, pad: string, inner: seq<Markup>, tail: string)
    requires AreMarkup(ms) && AreMarkup(inner) && IsBlank(open) && IsTag(tag) && AreWritten(ws) && IsBlank(pad)
    requires Body(tag, ws)[|Body(tag, ws)| - 1] != '/' && (tail == "" || tail[0] == '<')
    ensures Lex(WriteAll(ms) + ("<" + ((open + Body(tag, ws) + pad) + (">" + WriteAll(inner)))) + tail) ==
            Before(SpelledAll(FormsOf(ms)) + ([Open(tag, Attributes(ws))] + SpelledAll(FormsOf(inner))), Lex(tail))
  {
    BodyShape(tag, ws);
    hide *;
    var opening, after := "<" + ((open + Body(tag, ws) + pad) + (">" + WriteAll(inner))), WriteAll(inner) + tail;
    var whole := "<" + ((open + Body(tag, ws) + pad) + (">" + after));
    LexOpening(open, tag, ws, pad, after);
    LexWritten(inner, tail);
    LexWritten(ms, whole);
    TextInside(open + Body(tag, ws) + pad, WriteAll(inner), tail);
    Regroup(WriteAll(ms), opening, tail);
    BeforeTwice([Open(tag, Attributes(ws))], SpelledAll(FormsOf(inner)), Lex(tail));
    BeforeTwice(SpelledAll(FormsOf(ms)), [Open(tag, Attributes(ws))] + SpelledAll(FormsOf(inner)), Lex(tail));
  }

  /** An open element over complete markup fails as its siblings' end does. */
  lemma Unclosed(ms: seq<Markup>, tag: string, attrs: Attrs, inner: seq<Markup>, end: Stream)
    requires Siblings(end, Some(tag)).Err?
    ensures var ts := Before(SpelledAll(FormsOf(ms)) + ([Open(tag, attrs)] + SpelledAll(FormsOf(inner))), end);
      Siblings(ts, None) == Err(Siblings(end, Some(tag)).error)
  {
    hide Lex, SpelledAll, FormsOf, MeantAll, Siblings;
    var spelled := SpelledAll(FormsOf(inner));
    var mid := [Open(tag, attrs)] + spelled + end.tokens;
    var ts := Before(SpelledAll(FormsOf(ms)) + ([Open(tag, attrs)] + spelled), end);
    ReadsSpelled(FormsOf(ms), mid, end.fault, None);
    assert ts == Stream(SpelledAll(FormsOf(ms)) + mid, end.fault);
    var t := Stream(mid, end.fault);
    assert t.Drop(1) == Stream(spelled + end.tokens, end.fault);
    ReadsSpelled(FormsOf(inner), end.tokens, end.fault, Some(tag));
    assert Stream(end.tokens, end.fault) == end;
    SiblingsOnElement(t, None);
  }

  lemma EndOf(end: Stream, tag: string)
    ensures end == Stream([], None) ==> Siblings(end, Some(tag)) == Err(MissingClosingTag(tag))
    ensures end.tokens != [] && end.tokens[0].Close? && end.tokens[0].tag != tag ==>
              Siblings(end, Some(tag)) == Err(UnexpectedClosingTag(end.tokens[0].tag))
  {
  }

  lemma ParseIs(source: string)
    ensures Siblings(Lex(source), None).Err? ==> Parse(source) == Err(Siblings(Lex(source), None).error)
  {
    hide Lex, Siblings;
  }
}
