/** The WXML parser of component-runtime: a recursive-descent parser over one cursor. */
module Wxml {
  import opened Wrappers
  import opened Text

  type Attrs = map<string, string>

  datatype Node =
    | Element(tag: string, attrs: Attrs, children: seq<Node>)
    | TextNode(text: string)

  datatype ParseError =
    | MissingNeedle(needle: char)
    | UnexpectedClosingTag(tag: string)
    | MissingClosingTag(tag: string)
    | EmptyTag
    | UnterminatedAttributeValue
    | EmptyDocument

  // ----- inside one tag -----

  /** The number of leading ASCII white-space characters of `s`. */
  function Spaces(s: string): (n: nat)
    ensures n <= |s|
    ensures n < |s| ==> !IsAsciiSpace(s[n])
  {
    if s != "" && IsAsciiSpace(s[0]) then 1 + Spaces(s[1..]) else 0
  }

  /** How many characters of `s` an attribute name takes: up to white space or `=`. */
  function NameLength(s: string): (n: nat)
    ensures n <= |s|
    ensures n == 0 && s != "" ==> IsAsciiSpace(s[0]) || s[0] == '='
  {
    if s == "" || IsAsciiSpace(s[0]) || s[0] == '=' then 0 else 1 + NameLength(s[1..])
  }

  /** How many characters of `s` an unquoted value takes: up to ASCII white space. */
  function BareLength(s: string): (n: nat)
    ensures n <= |s|
  {
    if s == "" || IsAsciiSpace(s[0]) then 0 else 1 + BareLength(s[1..])
  }

  /** An attribute value at the start of `s`, and how many characters it takes. */
  function ValueAt(s: string): (r: Result<(string, nat), ParseError>)
    ensures r.Ok? ==> r.value.1 <= |s|
  {
    if s == "" then Ok(("", 0))
    else if s[0] == '"' || s[0] == '\'' then
      var n := Find(s[1..], s[0]);
      if n == |s[1..]| then Err(UnterminatedAttributeValue) else Ok((s[1..][..n], n + 2))
    else Ok((s[..BareLength(s)], BareLength(s)))
  }

  /** The value after an attribute name, if `=` introduces one, and how many characters it takes. */
  function AssignedAt(s: string): (r: Result<(string, nat), ParseError>)
    ensures r.Ok? ==> r.value.1 <= |s|
    ensures r.Ok? && s != "" && s[0] == '=' ==> r.value.1 >= 1
  {
    var n := Spaces(s);
    if n == |s| || s[n] != '=' then Ok(("", n)) else
    var m := n + 1 + Spaces(s[n + 1..]);
    var v :- ValueAt(s[m..]);
    Ok((v.0, m + v.1))
  }

  /** The attribute at the start of `s`: name, value and how many characters it takes. */
  function AttrAt(s: string): (r: Result<(string, string, nat), ParseError>)
    requires s != "" && !IsAsciiSpace(s[0])
    ensures r.Ok? ==> 0 < r.value.2 <= |s|
  {
    hide AssignedAt;
    var n := NameLength(s);
    var v :- AssignedAt(s[n..]);
    Ok((Trim(s[..n]), v.0, n + v.1))
  }

  /** All attributes of `s`; a later attribute replaces an earlier one of the same name. */
  function AttrsOf(s: string, acc: Attrs): Result<Attrs, ParseError>
    decreases |s|
  {
    hide AttrAt, Spaces;
    var n := Spaces(s);
    if n == |s| then Ok(acc) else
    var a :- AttrAt(s[n..]);
    AttrsOf(s[n + a.2..], if a.0 == "" then acc else acc[a.0 := a.1])
  }

  /** The index of the first white space of `s`, or `|s|`. */
  function TagLength(s: string): (n: nat)
    ensures n <= |s|
  {
    if s == "" || IsSpace(s[0]) then 0 else 1 + TagLength(s[1..])
  }

  /** The name and attributes of a tag, given the text between its brackets. */
  function TagInside(s: string): Result<(string, Attrs), ParseError> {
    var t := Trim(s);
    if t == "" then Err(EmptyTag) else
    var n := TagLength(t);
    var attrs :- AttrsOf(t[n..], map[]);
    Ok((t[..n], attrs))
  }

  function SplitSelfClosing(s: string): (string, bool) {
    var t := TrimEnd(s);
    if EndsWith(t, "/") then (TrimEnd(t[..|t| - 1]), true) else (t, false)
  }

  // ----- the token stream -----

  datatype Token =
    | TextRun(text: string)
    | Open(tag: string, attrs: Attrs)
    | SelfClosed(tag: string, attrs: Attrs)
    | Close(tag: string)

  function TagToken(inside: string): (r: Result<Token, ParseError>)
    ensures r.Ok? ==> r.value.Open? || r.value.SelfClosed?
  {
    var (text, selfClosing) := SplitSelfClosing(inside);
    var tag :- TagInside(text);
    Ok(if selfClosing then SelfClosed(tag.0, tag.1) else Open(tag.0, tag.1))
  }

  /** The first token of a non-empty remaining source, and how many characters it takes. */
  function TokenAt(s: string): (r: Result<(Token, nat), ParseError>)
    requires s != ""
    ensures r.Ok? ==> 0 < r.value.1 <= |s|
  {
    hide TagToken;
    if StartsWith(s, "</") then
      var n := Find(s[2..], '>');
      if n == |s[2..]| then Err(MissingNeedle('>')) else Ok((Close(Trim(s[2..][..n])), n + 3))
    else if s[0] == '<' then
      var n := Find(s[1..], '>');
      if n == |s[1..]| then Err(MissingNeedle('>')) else
      var token :- TagToken(s[1..][..n]);
      Ok((token, n + 2))
    else
      var n := Find(s, '<');
      Ok((TextRun(s[..n]), n))
  }

  /** The tokens of a source, and the error that stops the lexer when it does not reach the end. */
  datatype Stream = Stream(tokens: seq<Token>, fault: Option<ParseError>) {
    function Prepend(t: Token): Stream {
      Stream([t] + tokens, fault)
    }

    function Drop(n: nat): Stream
      requires n <= |tokens|
    {
      Stream(tokens[n..], fault)
    }
  }

  function Lex(s: string): Stream
    decreases |s|
  {
    hide TokenAt;
    if s == "" then Stream([], None)
    else match TokenAt(s)
      case Err(e) => Stream([], Some(e))
      case Ok(first) => Lex(s[first.1..]).Prepend(first.0)
  }

  /** The element that starts a stream, and how many tokens it takes. */
  function ElementOf(ts: Stream): (r: Result<(Node, nat), ParseError>)
    requires ts.tokens != [] && (ts.tokens[0].Open? || ts.tokens[0].SelfClosed?)
    ensures r.Ok? ==> 0 < r.value.1 <= |ts.tokens|
    decreases |ts.tokens|, 0
  {
    var first := ts.tokens[0];
    if first.SelfClosed? then Ok((Element(first.tag, first.attrs, []), 1)) else
    var kids :- Siblings(ts.Drop(1), Some(first.tag));
    Ok((Element(first.tag, first.attrs, kids.0), 1 + kids.1))
  }

  /** Sibling nodes at the start of a stream up to the given closing tag, and how many tokens they take. */
  function Siblings(ts: Stream, closing: Option<string>): (r: Result<(seq<Node>, nat), ParseError>)
    ensures r.Ok? ==> r.value.1 <= |ts.tokens|
    ensures r.Ok? && closing.None? ==> r.value.1 == |ts.tokens|
    decreases |ts.tokens|, 1
  {
    if ts.tokens == [] then
      if ts.fault.Some? then Err(ts.fault.value)
      else if closing.Some? then Err(MissingClosingTag(closing.value))
      else Ok(([], 0))
    else if ts.tokens[0].Close? then
      if closing == Some(ts.tokens[0].tag) then Ok(([], 1)) else Err(UnexpectedClosingTag(ts.tokens[0].tag))
    else if ts.tokens[0].TextRun? then
      Continue([TextNode(ts.tokens[0].text)], 1, Siblings(ts.Drop(1), closing))
    else
      var element :- ElementOf(ts);
      Continue([element.0], element.1, Siblings(ts.Drop(element.1), closing))
  }

  /** A sibling list when `done` nodes over `n` tokens come before `rest`. */
  function Continue(done: seq<Node>, n: nat, rest: Result<(seq<Node>, nat), ParseError>)
    : Result<(seq<Node>, nat), ParseError>
  {
    match rest
    case Ok((nodes, m)) => Ok((done + nodes, n + m))
    case Err(e) => Err(e)
  }

  predicate IsMeaningful(node: Node) {
    !(node.TextNode? && Trim(node.text) == "")
  }

  function Meaningful(nodes: seq<Node>): (kept: seq<Node>)
    ensures forall n :: n in kept <==> n in nodes && IsMeaningful(n)
  {
    if nodes == [] then []
    else (if IsMeaningful(nodes[0]) then [nodes[0]] else []) + Meaningful(nodes[1..])
  }

  /** One meaningful node is the document; several are wrapped in a `view`. */
  function Document(children: seq<Node>): Result<Node, ParseError> {
    var kept := Meaningful(children);
    if |kept| == 1 then Ok(kept[0])
    else if |kept| == 0 then Err(EmptyDocument)
    else Ok(Element("view", map[], kept))
  }

  function Parse(source: string): Result<Node, ParseError> {
    var children :- Siblings(Lex(source), None);
    Document(children.0)
  }

  // ----- the parser's steps, as equations -----

  /** One step of the lexer, as an equation. */
  lemma LexStep(s: string)
    requires s != ""
    ensures TokenAt(s).Err? ==> Lex(s) == Stream([], Some(TokenAt(s).error))
    ensures TokenAt(s).Ok? ==>
              && Lex(s).tokens != []
              && Lex(s).tokens[0] == TokenAt(s).value.0
              && Lex(s).Drop(1) == Lex(s[TokenAt(s).value.1..])
  {
    hide TokenAt;
  }

  lemma LexNothing()
    ensures Lex("") == Stream([], None)
  {
  }

  lemma SiblingsOnEnd(ts: Stream, closing: Option<string>)
    requires ts.tokens == []
    ensures Siblings(ts, closing) ==
            if ts.fault.Some? then Err(ts.fault.value)
            else if closing.Some? then Err(MissingClosingTag(closing.value))
            else Ok(([], 0))
  {
  }

  lemma SiblingsOnClose(ts: Stream, closing: Option<string>)
    requires ts.tokens != [] ==> ts.tokens[0].Close?
    ensures ts.tokens == [] && ts.fault.Some? ==> Siblings(ts, closing) == Err(ts.fault.value)
    ensures ts.tokens != [] ==>
              Siblings(ts, closing) == (if closing == Some(ts.tokens[0].tag) then Ok(([], 1))
                                        else Err(UnexpectedClosingTag(ts.tokens[0].tag)))
  {
  }

  lemma SiblingsOnText(ts: Stream, closing: Option<string>)
    requires ts.tokens != [] && ts.tokens[0].TextRun?
    ensures Siblings(ts, closing) == Continue([TextNode(ts.tokens[0].text)], 1, Siblings(ts.Drop(1), closing))
  {
  }

  lemma SiblingsOnElement(ts: Stream, closing: Option<string>)
    requires ts.tokens != [] ==> ts.tokens[0].Open? || ts.tokens[0].SelfClosed?
    ensures ts.tokens == [] && ts.fault.Some? ==> Siblings(ts, closing) == Err(ts.fault.value)
    ensures ts.tokens != [] && ElementOf(ts).Err? ==> Siblings(ts, closing) == Err(ElementOf(ts).error)
    ensures ts.tokens != [] && ElementOf(ts).Ok? ==>
              var (element, n) := ElementOf(ts).value;
              Siblings(ts, closing) == Continue([element], n, Siblings(ts.Drop(n), closing))
  {
  }

  lemma ContinueNothing(rest: Result<(seq<Node>, nat), ParseError>)
    ensures Continue([], 0, rest) == rest
  {
    if rest.Ok? {
      assert [] + rest.value.0 == rest.value.0;
    }
  }

  lemma ContinueTwice(a: seq<Node>, m: nat, b: seq<Node>, n: nat, rest: Result<(seq<Node>, nat), ParseError>)
    ensures Continue(a, m, Continue(b, n, rest)) == Continue(a + b, m + n, rest)
  {
    if rest.Ok? {
      assert a + (b + rest.value.0) == (a + b) + rest.value.0;
    }
  }

  // ----- scanning lengths from what was scanned -----

  lemma {:induction false} BareLengthIs(s: string, n: nat)
    requires n <= |s| && (n < |s| ==> IsAsciiSpace(s[n]))
    requires forall i | 0 <= i < n :: !IsAsciiSpace(s[i])
    ensures BareLength(s) == n
  {
    if n > 0 {
      BareLengthIs(s[1..], n - 1);
    }
  }

  lemma {:induction false} NameLengthIs(s: string, n: nat)
    requires n <= |s| && (n < |s| ==> IsAsciiSpace(s[n]) || s[n] == '=')
    requires forall i | 0 <= i < n :: !IsAsciiSpace(s[i]) && s[i] != '='
    ensures NameLength(s) == n
  {
    if n > 0 {
      NameLengthIs(s[1..], n - 1);
    }
  }

  lemma {:induction false} TagLengthIs(s: string, n: nat)
    requires n <= |s| && (n < |s| ==> IsSpace(s[n]))
    requires forall i | 0 <= i < n :: !IsSpace(s[i])
    ensures TagLength(s) == n
  {
    if n > 0 {
      TagLengthIs(s[1..], n - 1);
    }
  }
}
