/** The canonical text of a node tree, and the parser as its inverse. */
module WxmlPrinter {
  import opened Wrappers
  import opened Text
  import opened Wxml
  import opened WxmlGrammar
  import Order

  // ----- printing -----

  function QuoteFor(value: string): char {
    if '"' in value then '\'' else '"'
  }

  function PrintAttr(name: string, value: string): string {
    " " + (name + ("=" + ([QuoteFor(value)] + (value + [QuoteFor(value)]))))
  }

  function PrintAttrs(names: seq<string>, attrs: Attrs): string
    requires forall n | n in names :: n in attrs
  {
    if names == [] then "" else PrintAttr(names[0], attrs[names[0]]) + PrintAttrs(names[1..], attrs)
  }

  function PrintInside(tag: string, attrs: Attrs): string {
    tag + PrintAttrs(Order.SortedKeys(attrs.Keys), attrs)
  }

  function Print(node: Node): string
    decreases node, 0
  {
    match node
    case TextNode(text) => text
    case Element(tag, attrs, children) =>
      "<" + (PrintInside(tag, attrs) + (">" + (PrintAll(children) + ("</" + (tag + ">")))))
  }

  function PrintAll(nodes: seq<Node>): string
    decreases nodes, 1
  {
    if nodes == [] then "" else Print(nodes[0]) + PrintAll(nodes[1..])
  }

  // ----- the trees that have a canonical text -----

  /** No white space, no `>`, and no slash where a tag would close or close itself. */
  predicate IsTagName(tag: string, attrs: Attrs) {
    && tag != ""
    && (forall c | c in tag :: !IsSpace(c) && c != '>')
    && tag[0] != '/'
    && (attrs == map[] ==> tag[|tag| - 1] != '/')
  }

  predicate IsAttrName(name: string) {
    && name != ""
    && (forall c | c in name :: !IsAsciiSpace(c) && c != '=' && c != '>')
    && !IsSpace(name[0])
    && !IsSpace(name[|name| - 1])
  }

  /** No `>`, and not both kinds of quote. */
  predicate IsAttrValue(value: string) {
    '>' !in value && QuoteFor(value) !in value
  }

  predicate IsRunText(text: string) {
    text != "" && '<' !in text
  }

  predicate IsPrintable(node: Node)
    decreases node, 0
  {
    match node
    case TextNode(text) => IsRunText(text)
    case Element(tag, attrs, children) =>
      && IsTagName(tag, attrs)
      && (forall n | n in attrs :: IsAttrName(n) && IsAttrValue(attrs[n]))
      && ArePrintable(children)
  }

  /** Siblings are printable when no two texts touch. */
  predicate ArePrintable(nodes: seq<Node>)
    decreases nodes, 1
  {
    nodes != [] ==>
      && IsPrintable(nodes[0])
      && (|nodes| > 1 && nodes[0].TextNode? ==> nodes[1].Element?)
      && ArePrintable(nodes[1..])
  }

  // ----- attributes -----

  lemma SpacesIs(s: string, n: nat)
    requires n <= 1 && n < |s| && !IsAsciiSpace(s[n]) && (n == 1 ==> IsAsciiSpace(s[0]))
    ensures Spaces(s) == n
  {
  }

  lemma ReadsQuoted(value: string, q: char, tail: string)
    requires (q == '"' || q == '\'') && q !in value
    ensures ValueAt([q] + (value + [q]) + tail) == Ok((value, |value| + 2))
  {
    var s := [q] + (value + [q]) + tail;
    assert s[1..] == value + [q] + tail;
    assert s[1..][..|value|] == value;
    FindIs(s[1..], q, |value|);
  }

  lemma ReadsAssigned(value: string, tail: string)
    requires IsAttrValue(value)
    ensures AssignedAt("=" + ([QuoteFor(value)] + (value + [QuoteFor(value)])) + tail) == Ok((value, |value| + 3))
  {
    hide ValueAt, Find;
    var q := QuoteFor(value);
    var quoted := [q] + (value + [q]);
    var s := "=" + quoted + tail;
    SpacesIs(s, 0);
    assert s[1..] == quoted + tail;
    SpacesIs(s[1..], 0);
    assert s[1..][0..] == quoted + tail;
    ReadsQuoted(value, q, tail);
  }

  lemma NameIsScanned(name: string, tail: string)
    requires IsAttrName(name) && tail != "" && tail[0] == '='
    ensures NameLength(name + tail) == |name| && Trim(name) == name
  {
    assert forall i | 0 <= i < |name| :: (name + tail)[i] == name[i] && name[i] in name;
    NameLengthIs(name + tail, |name|);
    TrimFixed(name);
  }

  lemma ReadsAttr(name: string, value: string, tail: string)
    requires IsAttrName(name) && IsAttrValue(value)
    ensures var s := PrintAttr(name, value) + tail;
      && Spaces(s) == 1
      && AttrAt(s[1..]) == Ok((name, value, |PrintAttr(name, value)| - 1))
  {
    hide AssignedAt, NameLength, Trim;
    var setting := "=" + ([QuoteFor(value)] + (value + [QuoteFor(value)]));
    var s := PrintAttr(name, value) + tail;
    assert s == " " + (name + setting) + tail;
    assert s[1] == name[0] && name[0] in name;
    SpacesIs(s, 1);
    assert s[1..] == name + (setting + tail);
    NameIsScanned(name, setting + tail);
    assert s[1..][..|name|] == name && s[1..][|name|..] == setting + tail;
    ReadsAssigned(value, tail);
  }

  ghost function Pick(names: seq<string>, attrs: Attrs): Attrs
    requires forall n | n in names :: n in attrs
  {
    map n | n in names :: attrs[n]
  }

  lemma AttrsStep(s: string, name: string, value: string, tail: string, acc: Attrs)
    requires s == PrintAttr(name, value) + tail && name != "" && Spaces(s) == 1
    requires AttrAt(s[1..]) == Ok((name, value, |PrintAttr(name, value)| - 1))
    ensures AttrsOf(s, acc) == AttrsOf(tail, acc[name := value])
  {
    hide AttrAt, Spaces, PrintAttr;
    assert s[1 + (|PrintAttr(name, value)| - 1)..] == tail;
  }

  lemma {:induction false} ReadsAttrs(names: seq<string>, attrs: Attrs, acc: Attrs)
    requires forall n | n in names :: n in attrs && IsAttrName(n) && IsAttrValue(attrs[n])
    ensures AttrsOf(PrintAttrs(names, attrs), acc) == Ok(acc + Pick(names, attrs))
    decreases |names|
  {
    hide AttrAt, Spaces, AttrsOf, IsAttrName, IsAttrValue, PrintAttr;
    if names == [] {
      AttrsOfNothing(acc);
      assert acc + Pick(names, attrs) == acc;
    } else {
      var name, value, rest := names[0], attrs[names[0]], names[1..];
      var tail := PrintAttrs(rest, attrs);
      ReadsAttr(name, value, tail);
      NameNotEmpty(name);
      AttrsStep(PrintAttr(name, value) + tail, name, value, tail, acc);
      ReadsAttrs(rest, attrs, acc[name := value]);
      assert acc[name := value] + Pick(rest, attrs) == acc + Pick(names, attrs);
    }
  }

  lemma AttrsOfNothing(acc: Attrs)
    ensures AttrsOf("", acc) == Ok(acc)
  {
  }

  lemma NameNotEmpty(name: string)
    requires IsAttrName(name)
    ensures name != ""
  {
  }

  /** Attributes printed in key order are read back as the same map. */
  lemma ReadsSortedAttrs(attrs: Attrs)
    requires forall n | n in attrs :: IsAttrName(n) && IsAttrValue(attrs[n])
    ensures AttrsOf(PrintAttrs(Order.SortedKeys(attrs.Keys), attrs), map[]) == Ok(attrs)
  {
    hide IsAttrName, IsAttrValue, AttrsOf, PrintAttrs;
    var names := Order.SortedKeys(attrs.Keys);
    ReadsAttrs(names, attrs, map[]);
    assert map[] + Pick(names, attrs) == attrs;
  }

  // ----- tags -----

  lemma AttrsShape(tag: string, attrs: Attrs)
    requires IsTagName(tag, attrs)
    requires forall n | n in attrs :: IsAttrName(n) && IsAttrValue(attrs[n])
    ensures var s := PrintAttrs(Order.SortedKeys(attrs.Keys), attrs);
      && '>' !in s
      && (s == "" <==> attrs == map[])
      && (s != "" ==> s[0] == ' ' && (s[|s| - 1] == '"' || s[|s| - 1] == '\''))
  {
    hide IsAttrName, IsAttrValue, PrintAttr;
    var names := Order.SortedKeys(attrs.Keys);
    if names != [] {
      assert names[0] in attrs;
    } else {
      assert attrs.Keys == {};
    }
    NamesShape(names, attrs);
  }

  lemma {:induction false} NamesShape(names: seq<string>, attrs: Attrs)
    requires forall n | n in names :: n in attrs && IsAttrName(n) && IsAttrValue(attrs[n])
    ensures var s := PrintAttrs(names, attrs);
      && '>' !in s
      && (s == "" <==> names == [])
      && (s != "" ==> s[0] == ' ' && (s[|s| - 1] == '"' || s[|s| - 1] == '\''))
    decreases |names|
  {
    hide IsAttrName, IsAttrValue, PrintAttr;
    if names != [] {
      AttrShape(names[0], attrs[names[0]]);
      NamesShape(names[1..], attrs);
    }
  }

  lemma AttrShape(name: string, value: string)
    requires IsAttrName(name) && IsAttrValue(value)
    ensures var s := PrintAttr(name, value);
      s != "" && '>' !in s && s[0] == ' ' && (s[|s| - 1] == '"' || s[|s| - 1] == '\'')
  {
  }

  lemma InsideShape(tag: string, attrs: Attrs)
    requires IsTagName(tag, attrs)
    requires forall n | n in attrs :: IsAttrName(n) && IsAttrValue(attrs[n])
    ensures var s := PrintInside(tag, attrs);
      && s != "" && '>' !in s && s[0] == tag[0]
      && !IsSpace(s[0]) && !IsSpace(s[|s| - 1]) && s[|s| - 1] != '/'
  {
    hide IsAttrName, IsAttrValue, PrintAttrs;
    AttrsShape(tag, attrs);
    var s := PrintInside(tag, attrs);
    var tail := PrintAttrs(Order.SortedKeys(attrs.Keys), attrs);
    assert tag[0] in tag && tag[|tag| - 1] in tag;
    assert s[|s| - 1] == if tail == "" then tag[|tag| - 1] else tail[|tail| - 1];
  }

  lemma NotSelfClosing(s: string)
    requires s != "" && !IsSpace(s[|s| - 1]) && s[|s| - 1] != '/'
    ensures SplitSelfClosing(s) == (s, false)
  {
    assert TrimEnd(s) == s;
    assert s[|s| - 1..] == [s[|s| - 1]];
  }

  lemma TagNameIsScanned(tag: string, attrs: Attrs, tail: string)
    requires IsTagName(tag, attrs) && (tail == "" || tail[0] == ' ')
    ensures TagLength(tag + tail) == |tag|
  {
    assert forall i | 0 <= i < |tag| :: (tag + tail)[i] == tag[i] && tag[i] in tag;
    TagLengthIs(tag + tail, |tag|);
  }

  /** The text of an opening tag is read as that tag, and never as closing itself. */
  lemma ReadsTag(tag: string, attrs: Attrs)
    requires IsTagName(tag, attrs)
    requires forall n | n in attrs :: IsAttrName(n) && IsAttrValue(attrs[n])
    ensures TagToken(PrintInside(tag, attrs)) == Ok(Open(tag, attrs))
  {
    hide IsTagName, IsAttrName, IsAttrValue, PrintAttrs, AttrsOf, Trim, SplitSelfClosing, TagLength;
    var s := PrintInside(tag, attrs);
    var tail := PrintAttrs(Order.SortedKeys(attrs.Keys), attrs);
    InsideShape(tag, attrs);
    NotSelfClosing(s);
    TrimFixed(s);
    AttrsShape(tag, attrs);
    TagNameIsScanned(tag, attrs, tail);
    ReadsSortedAttrs(attrs);
    assert s[..|tag|] == tag && s[|tag|..] == tail;
  }

  // ----- whole trees -----

  function FormOf(node: Node): Form
    decreases node, 0
  {
    match node
    case TextNode(text) => Run(text)
    case Element(tag, attrs, children) => Pair(tag, attrs, FormsOf(children))
  }

  function FormsOf(nodes: seq<Node>): seq<Form>
    decreases nodes, 1
  {
    if nodes == [] then [] else [FormOf(nodes[0])] + FormsOf(nodes[1..])
  }

  lemma {:induction false} FormsMean(nodes: seq<Node>)
    ensures MeantAll(FormsOf(nodes)) == nodes
    decreases nodes
  {
    if nodes != [] {
      var node := nodes[0];
      if node.Element? {
        FormsMean(node.children);
      }
      FormsMean(nodes[1..]);
      assert FormsOf(nodes)[1..] == FormsOf(nodes[1..]);
    }
  }

  /** A stream with some tokens put before it. */
  function Before(tokens: seq<Token>, ts: Stream): Stream {
    Stream(tokens + ts.tokens, ts.fault)
  }

  lemma BeforeTwice(a: seq<Token>, b: seq<Token>, ts: Stream)
    ensures Before(a, Before(b, ts)) == Before(a + b, ts)
  {
    assert a + (b + ts.tokens) == (a + b) + ts.tokens;
  }

  /** One token at the start of a source is one token at the start of its stream. */
  lemma LexOne(s: string, t: Token, n: nat, tail: string)
    requires s != "" && TokenAt(s) == Ok((t, n)) && s[n..] == tail
    ensures Lex(s) == Before([t], Lex(tail))
  {
    hide TokenAt;
  }

  lemma LexRun(text: string, tail: string)
    requires IsRunText(text) && (tail == "" || tail[0] == '<')
    ensures Lex(text + tail) == Before([TextRun(text)], Lex(tail))
  {
    hide Lex;
    var s := text + tail;
    assert s[..|text|] == text && s[|text|..] == tail;
    assert s[0] in text;
    if tail == "" {
      assert s == text;
      FindNone(s, '<');
    } else {
      FindIs(s, '<', |text|);
    }
    LexOne(s, TextRun(text), |text|, tail);
  }

  lemma ClosingTokenAt(body: string, tail: string)
    requires '>' !in body
    ensures TokenAt("</" + (body + (">" + tail))) == Ok((Close(Trim(body)), |body| + 3))
  {
    hide Trim, Find;
    var s := "</" + (body + (">" + tail));
    assert s[..2] == "</";
    assert s[2..][..|body|] == body;
    FindIs(s[2..], '>', |body|);
  }

  lemma OpeningTokenAt(inside: string, tail: string)
    requires inside != "" && inside[0] != '/' && '>' !in inside && TagToken(inside).Ok?
    ensures TokenAt("<" + (inside + (">" + tail))) == Ok((TagToken(inside).value, |inside| + 2))
  {
    hide TagToken, Find;
    var s := "<" + (inside + (">" + tail));
    assert s[1] == inside[0];
    assert s[1..][..|inside|] == inside;
    FindIs(s[1..], '>', |inside|);
  }

  lemma LexOpen(tag: string, attrs: Attrs, tail: string)
    requires IsTagName(tag, attrs)
    requires forall n | n in attrs :: IsAttrName(n) && IsAttrValue(attrs[n])
    ensures Lex("<" + (PrintInside(tag, attrs) + (">" + tail))) == Before([Open(tag, attrs)], Lex(tail))
  {
    hide Lex, TokenAt, TagToken, PrintInside, IsAttrName, IsAttrValue;
    var inside := PrintInside(tag, attrs);
    ReadsTag(tag, attrs);
    InsideShape(tag, attrs);
    OpeningTokenAt(inside, tail);
    LexOne("<" + (inside + (">" + tail)), Open(tag, attrs), |inside| + 2, tail);
  }

  lemma LexClose(tag: string, attrs: Attrs, tail: string)
    requires IsTagName(tag, attrs)
    ensures Lex("</" + (tag + (">" + tail))) == Before([Close(tag)], Lex(tail))
  {
    hide Lex, TokenAt, Trim;
    assert tag[0] in tag && tag[|tag| - 1] in tag;
    TrimFixed(tag);
    ClosingTokenAt(tag, tail);
    LexOne("</" + (tag + (">" + tail)), Close(tag), |tag| + 3, tail);
  }

  /** Printed siblings lex to the tokens that spell them, whatever tag or end follows. */
  lemma {:induction false} LexPrinted(nodes: seq<Node>, tail: string)
    requires ArePrintable(nodes) && (tail == "" || tail[0] == '<')
    ensures Lex(PrintAll(nodes) + tail) == Before(SpelledAll(FormsOf(nodes)), Lex(tail))
    decreases nodes, 1
  {
    hide Lex;
    if nodes == [] {
      assert PrintAll(nodes) + tail == tail;
      assert [] + Lex(tail).tokens == Lex(tail).tokens;
    } else {
      var node, rest := nodes[0], nodes[1..];
      var after := PrintAll(rest) + tail;
      assert PrintAll(nodes) + tail == Print(node) + after;
      LexPrinted(rest, tail);
      if node.TextNode? {
        PrintedStart(rest, tail);
        LexRun(node.text, after);
      } else {
        LexElement(node, after);
      }
      SpelledCons(FormOf(node), FormsOf(rest));
      BeforeTwice(Spelled(FormOf(node)), SpelledAll(FormsOf(rest)), Lex(tail));
    }
  }

  lemma PrintedStart(nodes: seq<Node>, tail: string)
    requires nodes == [] || nodes[0].Element?
    requires tail == "" || tail[0] == '<'
    ensures var s := PrintAll(nodes) + tail; s == "" || s[0] == '<'
  {
  }

  lemma {:induction false} LexElement(node: Node, tail: string)
    requires node.Element? && IsPrintable(node)
    ensures Lex(Print(node) + tail) == Before(Spelled(FormOf(node)), Lex(tail))
    decreases node, 0
  {
    hide Lex, IsTagName, IsAttrName, IsAttrValue, PrintInside, PrintAll, SpelledAll, FormsOf, ArePrintable;
    var tag, attrs, forms := node.tag, node.attrs, FormsOf(node.children);
    var closing := "</" + (tag + (">" + tail));
    var inner := PrintAll(node.children) + closing;
    assert Print(node) + tail == "<" + (PrintInside(tag, attrs) + (">" + inner));
    LexOpen(tag, attrs, inner);
    LexPrinted(node.children, closing);
    LexClose(tag, attrs, tail);
    BeforeTwice(SpelledAll(forms), [Close(tag)], Lex(tail));
    BeforeTwice([Open(tag, attrs)], SpelledAll(forms) + [Close(tag)], Lex(tail));
    assert [Open(tag, attrs)] + (SpelledAll(forms) + [Close(tag)]) == [Open(tag, attrs)] + SpelledAll(forms) + [Close(tag)];
  }

  /** Parsing undoes printing: every printable tree that is more than white space is read back whole. */
  lemma ParseOfPrint(node: Node)
    requires IsPrintable(node) && IsMeaningful(node)
    ensures Parse(Print(node)) == Ok(node)
  {
    hide Lex, Spelled, Meant, IsPrintable, IsMeaningful;
    var forms := FormsOf([node]);
    assert ArePrintable([node]);
    assert Print(node) == PrintAll([node]) + "" by {
      assert [node][1..] == [];
    }
    LexPrinted([node], "");
    LexNothing();
    assert SpelledAll(forms) + [] == SpelledAll(forms);
    assert Spells(forms, Print(node));
    ParsesSpelled(forms, Print(node));
    FormsMean([node]);
    assert [node][1..] == [];
    assert Meaningful([]) == [];
  }
}
