/** The parser's code: one cursor moved step by step, proved against the functions of `Wxml`. */
module WxmlParser {
  import opened Wrappers
  import opened Text
  import opened Wxml

  /** `ReadAttrValue` leaves its cursor alone when it fails: the caller returns the error. */
  method ReadAttrValue(source: string, start: nat) returns (r: Result<string, ParseError>, index: nat)
    requires start <= |source|
    ensures start <= index <= |source|
    ensures ValueAt(source[start..]) ==
            if r.Ok? then Ok((r.value, index - start)) else Err(r.error)
  {
    index := start;
    if index >= |source| {
      return Ok(""), index;
    }
    ghost var s := source[start..];
    var quote := source[index];
    if quote == '"' || quote == '\'' {
      index := index + 1;
      var from := index;
      while index < |source| && source[index] != quote
        invariant from <= index <= |source|
        invariant quote !in source[from..index]
      {
        index := index + 1;
      }
      assert s[1..] == source[from..];
      if index >= |source| {
        assert source[from..index] == s[1..];
        FindNone(s[1..], quote);
        return Err(UnterminatedAttributeValue), index;
      }
      assert s[1..][..index - from] == source[from..index];
      FindIs(s[1..], quote, index - from);
      r := Ok(source[from..index]);
      index := index + 1;
      return;
    }
    while index < |source| && !IsAsciiSpace(source[index])
      invariant start <= index <= |source|
      invariant forall i | start <= i < index :: !IsAsciiSpace(source[i])
    {
      index := index + 1;
    }
    BareLengthIs(s, index - start);
    assert s[..index - start] == source[start..index];
    r := Ok(source[start..index]);
  }

  method SkipSpaces(source: string, start: nat) returns (index: nat)
    requires start <= |source|
    ensures start <= index <= |source|
    ensures index - start == Spaces(source[start..])
  {
    index := start;
    while index < |source| && IsAsciiSpace(source[index])
      invariant start <= index <= |source|
      invariant index - start + Spaces(source[index..]) == Spaces(source[start..])
    {
      assert source[index..][1..] == source[index + 1..];
      index := index + 1;
    }
  }

  /** The value after an attribute name: skip white space, and past `=` read a value. */
  method ReadAssigned(source: string, start: nat) returns (r: Result<string, ParseError>, index: nat)
    requires start <= |source|
    ensures start <= index <= |source|
    ensures AssignedAt(source[start..]) ==
            if r.Ok? then Ok((r.value, index - start)) else Err(r.error)
  {
    hide ValueAt, Spaces;
    ghost var s := source[start..];
    index := SkipSpaces(source, start);
    if index < |source| && source[index] == '=' {
      assert s[index - start + 1..] == source[index + 1..];
      index := SkipSpaces(source, index + 1);
      assert s[index - start..] == source[index..];
      r, index := ReadAttrValue(source, index);
    } else {
      r := Ok("");
    }
  }

  method ReadAttr(source: string, start: nat) returns (r: Result<(string, string), ParseError>, index: nat)
    requires start < |source| && !IsAsciiSpace(source[start])
    ensures start <= index <= |source|
    ensures AttrAt(source[start..]) ==
            if r.Ok? then Ok((r.value.0, r.value.1, index - start)) else Err(r.error)
  {
    hide AssignedAt, NameLength, Trim;
    ghost var s := source[start..];
    index := start;
    while index < |source| && !IsAsciiSpace(source[index]) && source[index] != '='
      invariant start <= index <= |source|
      invariant forall i | start <= i < index :: !IsAsciiSpace(source[i]) && source[i] != '='
    {
      index := index + 1;
    }
    NameLengthIs(s, index - start);
    assert s[..index - start] == source[start..index];
    assert s[index - start..] == source[index..];
    var name := Trim(source[start..index]);
    var value;
    value, index := ReadAssigned(source, index);
    if value.Err? {
      return Err(value.error), index;
    }
    r := Ok((name, value.value));
  }

  method ParseAttrs(source: string) returns (r: Result<Attrs, ParseError>)
    ensures r == AttrsOf(source, map[])
  {
    hide AttrAt, Spaces;
    var attrs: Attrs := map[];
    var index := 0;
    assert source[0..] == source;
    while index < |source|
      invariant index <= |source|
      invariant AttrsOf(source[index..], attrs) == AttrsOf(source, map[])
    {
      ghost var s, start := source[index..], index;
      index := SkipSpaces(source, index);
      if index >= |source| {
        return Ok(attrs);
      }
      assert s[index - start..] == source[index..];
      var attr, next := ReadAttr(source, index);
      if attr.Err? {
        return Err(attr.error);
      }
      assert s[next - start..] == source[next..];
      index := next;
      if attr.value.0 != "" {
        attrs := attrs[attr.value.0 := attr.value.1];
      }
    }
    return Ok(attrs);
  }

  method ParseTagInside(source: string) returns (r: Result<(string, Attrs), ParseError>)
    ensures r == TagInside(source)
  {
    hide AttrsOf;
    var t := Trim(source);
    if t == "" {
      return Err(EmptyTag);
    }
    var n := TagLength(t);
    var attrs := ParseAttrs(t[n..]);
    if attrs.Err? {
      return Err(attrs.error);
    }
    return Ok((t[..n], attrs.value));
  }

  class Parser {
    const source: string
    var position: nat

    ghost predicate Valid()
      reads this
    {
      position <= |source|
    }

    ghost function Rest(): string
      reads this
      requires Valid()
    {
      source[position..]
    }

    constructor (source: string)
      ensures Valid() && this.source == source && position == 0
    {
      this.source := source;
      position := 0;
    }

    method ParseDocument() returns (r: Result<Node, ParseError>)
      requires Valid() && position == 0
      modifies this
      ensures Valid() && r == Parse(source)
      ensures r.Ok? ==> position == |source|
    {
      hide Siblings, Lex;
      assert Rest() == source;
      var children := ParseChildren(None);
      if children.Err? {
        return Err(children.error);
      }
      var kept := Meaningful(children.value);
      if |kept| == 1 {
        return Ok(kept[0]);
      } else if |kept| == 0 {
        return Err(EmptyDocument);
      }
      return Ok(Element("view", map[], kept));
    }

    /** Reads siblings up to the closing tag, or to the end of the source without one. */
    method ParseChildren(closing: Option<string>) returns (r: Result<seq<Node>, ParseError>)
      requires Valid()
      modifies this
      ensures Valid() && old(position) <= position
      ensures r.Ok? && closing.None? ==> position == |source|
      ensures r.Ok? && closing.Some? ==> old(position) < position
      ensures SiblingsRead(Lex(old(Rest())), closing, r, Lex(Rest()))
      decreases |source| - position, 1
    {
      hide TokenAt, Lex, Siblings, Continue;
      var children: seq<Node> := [];
      ghost var all := Lex(Rest());
      ghost var taken: nat := 0;
      assert all.Drop(0) == all;
      ContinueNothing(Siblings(all, closing));
      while position < |source|
        invariant Valid() && old(position) <= position
        invariant taken <= |all.tokens| && Lex(Rest()) == all.Drop(taken)
        invariant Siblings(all, closing) == Continue(children, taken, Siblings(Lex(Rest()), closing))
        decreases |source| - position
      {
        ghost var rest := Lex(Rest());
        LexStep(Rest());
        if StartsWith(source[position..], "</") {
          var tag := ReadClosingTag();
          SiblingsOnClose(rest, closing);
          SiblingsDone(all, closing, children, taken, rest);
          if tag.Err? {
            return Err(tag.error);
          }
          if closing == Some(tag.value) {
            return Ok(children);
          }
          return Err(UnexpectedClosingTag(tag.value));
        }
        ghost var before := children;
        if StartsWith(source[position..], "<") {
          var element, m := ReadElement();
          SiblingsOnElement(rest, closing);
          if element.Err? {
            SiblingsDone(all, closing, children, taken, rest);
            return Err(element.error);
          }
          children := children + [element.value];
          ContinueTwice(before, taken, [element.value], m, Siblings(Lex(Rest()), closing));
          taken := taken + m;
        } else {
          var text := ReadText();
          SiblingsOnText(rest, closing);
          children := children + [TextNode(text)];
          ContinueTwice(before, taken, [TextNode(text)], 1, Siblings(Lex(Rest()), closing));
          taken := taken + 1;
        }
      }
      assert Rest() == "";
      LexNothing();
      SiblingsOnEnd(Lex(Rest()), closing);
      SiblingsDone(all, closing, children, taken, Lex(Rest()));
      if closing.Some? {
        return Err(MissingClosingTag(closing.value));
      }
      return Ok(children);
    }

    method ReadElement() returns (r: Result<Node, ParseError>, ghost n: nat)
      requires Valid() && StartsWith(Rest(), "<") && !StartsWith(Rest(), "</")
      modifies this
      ensures Valid() && old(position) < position
      ensures ElementRead(Lex(old(Rest())), r, n, Lex(Rest()))
      decreases |source| - position, 0
    {
      hide TokenAt;
      n := 0;
      LexStep(Rest());
      var tag, selfClosing := ReadTag();
      if tag.Err? {
        return Err(tag.error), n;
      }
      n := 1;
      if selfClosing {
        return Ok(Element(tag.value.0, tag.value.1, [])), n;
      }
      ghost var rest := Lex(Rest());
      var kids := ParseChildren(Some(tag.value.0));
      if kids.Err? {
        return Err(kids.error), n;
      }
      n := 1 + Siblings(rest, Some(tag.value.0)).value.1;
      return Ok(Element(tag.value.0, tag.value.1, kids.value)), n;
    }

    /** The tag of an element: its name, its attributes and whether it closes itself. */
    method ReadTag() returns (r: Result<(string, Attrs), ParseError>, selfClosing: bool)
      requires Valid() && StartsWith(Rest(), "<") && !StartsWith(Rest(), "</")
      modifies this
      ensures Valid() && old(position) < position
      ensures TokenAt(old(Rest())) ==
              if r.Err? then Err(r.error)
              else if selfClosing then Ok((SelfClosed(r.value.0, r.value.1), position - old(position)))
              else Ok((Open(r.value.0, r.value.1), position - old(position)))
    {
      hide TagInside, SplitSelfClosing;
      ghost var s := Rest();
      position := position + 1;
      assert Rest() == s[1..];
      selfClosing := false;
      var inside := ReadUntil('>');
      if inside.Err? {
        return Err(inside.error), false;
      }
      var text: string;
      var split := SplitSelfClosing(inside.value);
      text, selfClosing := split.0, split.1;
      r := ParseTagInside(text);
    }

    method ReadClosingTag() returns (r: Result<string, ParseError>)
      requires Valid() && StartsWith(Rest(), "</")
      modifies this
      ensures Valid() && old(position) < position
      ensures TokenAt(old(Rest())) ==
              if r.Ok? then Ok((Close(r.value), position - old(position))) else Err(r.error)
    {
      ghost var s := Rest();
      position := position + 2;
      assert Rest() == s[2..];
      var tag := ReadUntil('>');
      if tag.Err? {
        return Err(tag.error);
      }
      return Ok(Trim(tag.value));
    }

    method ReadText() returns (text: string)
      requires Valid() && position < |source| && source[position] != '<'
      modifies this
      ensures Valid() && old(position) < position
      ensures TokenAt(old(Rest())) == Ok((TextRun(text), position - old(position)))
    {
      var rest := source[position..];
      var end := Find(rest, '<');
      position := position + end;
      return rest[..end];
    }

    method ReadUntil(needle: char) returns (r: Result<string, ParseError>)
      requires Valid()
      modifies this
      ensures Valid()
      ensures var rest := old(Rest());
        var n := Find(rest, needle);
        if n == |rest| then r == Err(MissingNeedle(needle)) && position == old(position)
        else r == Ok(rest[..n]) && position == old(position) + n + 1
    {
      var rest := source[position..];
      var index := Find(rest, needle);
      if index == |rest| {
        return Err(MissingNeedle(needle));
      }
      r := Ok(rest[..index]);
      position := position + index + 1;
    }
  }

  /** What reading one element from the stream `before` yields, `after` being the stream left. */
  ghost predicate ElementRead(before: Stream, r: Result<Node, ParseError>, n: nat, after: Stream) {
    if before.tokens == [] then r.Err? && before.fault == Some(r.error)
    else
      && (before.tokens[0].Open? || before.tokens[0].SelfClosed?)
      && (if r.Ok? then
            ElementOf(before) == Ok((r.value, n)) && n <= |before.tokens| && after == before.Drop(n)
          else ElementOf(before) == Err(r.error))
  }

  /** What reading siblings from the stream `before` yields, `after` being the stream left. */
  ghost predicate SiblingsRead(before: Stream, closing: Option<string>, r: Result<seq<Node>, ParseError>, after: Stream) {
    match Siblings(before, closing)
    case Err(e) => r == Err(e)
    case Ok((nodes, n)) => r == Ok(nodes) && after == before.Drop(n)
  }

  /** The sibling list is complete when what is left yields no more nodes. */
  lemma SiblingsDone(all: Stream, closing: Option<string>, done: seq<Node>, n: nat, rest: Stream)
    requires n <= |all.tokens| && rest == all.Drop(n)
    requires Siblings(all, closing) == Continue(done, n, Siblings(rest, closing))
    ensures Siblings(rest, closing).Err? ==> Siblings(all, closing) == Err(Siblings(rest, closing).error)
    ensures Siblings(rest, closing).Ok? && Siblings(rest, closing).value.0 == [] ==>
              Siblings(all, closing) == Ok((done, n + Siblings(rest, closing).value.1))
    ensures Siblings(rest, closing).Ok? ==>
              all.Drop(n + Siblings(rest, closing).value.1) == rest.Drop(Siblings(rest, closing).value.1)
  {
    hide Siblings;
    assert done + [] == done;
  }

}
