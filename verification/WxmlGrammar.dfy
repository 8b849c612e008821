/** What the parser accepts: an explicit stack machine, and the balanced token strings. */
module WxmlGrammar {
  import opened Wrappers
  import opened Wxml

  // ----- the stack machine -----

  /** An element whose closing tag is awaited, and the siblings that came before it. */
  datatype Frame = Frame(tag: string, attrs: Attrs, before: seq<Node>)

  function Awaited(stack: seq<Frame>): Option<string> {
    if stack == [] then None else Some(stack[|stack| - 1].tag)
  }

  /** The siblings of the parent once the innermost open element is closed over `top`. */
  function Pop(stack: seq<Frame>, top: seq<Node>): seq<Node>
    requires stack != []
  {
    var frame := stack[|stack| - 1];
    frame.before + [Element(frame.tag, frame.attrs, top)]
  }

  /** Reads one token at a time with an explicit stack of open elements. */
  function Machine(ts: Stream, top: seq<Node>, stack: seq<Frame>): Result<seq<Node>, ParseError>
    decreases |ts.tokens|
  {
    if ts.tokens == [] then
      if ts.fault.Some? then Err(ts.fault.value)
      else if stack != [] then Err(MissingClosingTag(stack[|stack| - 1].tag))
      else Ok(top)
    else
      var rest := ts.Drop(1);
      match ts.tokens[0]
      case TextRun(text) => Machine(rest, top + [TextNode(text)], stack)
      case SelfClosed(tag, attrs) => Machine(rest, top + [Element(tag, attrs, [])], stack)
      case Open(tag, attrs) => Machine(rest, [], stack + [Frame(tag, attrs, top)])
      case Close(tag) =>
        if Awaited(stack) == Some(tag) then Machine(rest, Pop(stack, top), stack[..|stack| - 1])
        else Err(UnexpectedClosingTag(tag))
  }

  /** The machine's run once the recursive parser has read the siblings `r` in its current frame. */
  ghost function Resume(ts: Stream, r: Result<(seq<Node>, nat), ParseError>, top: seq<Node>, stack: seq<Frame>)
    : Result<seq<Node>, ParseError>
    requires r.Ok? ==> r.value.1 <= |ts.tokens|
  {
    if r.Err? then Err(r.error)
    else if stack == [] then Ok(top + r.value.0)
    else Machine(ts.Drop(r.value.1), Pop(stack, top + r.value.0), stack[..|stack| - 1])
  }

  /** Skipping nodes and tokens in `Continue` is skipping them in `Resume`. */
  lemma ResumeContinue(ts: Stream, done: seq<Node>, n: nat, r: Result<(seq<Node>, nat), ParseError>,
                       top: seq<Node>, stack: seq<Frame>)
    requires n <= |ts.tokens| && (r.Ok? ==> n + r.value.1 <= |ts.tokens|)
    ensures Resume(ts, Continue(done, n, r), top, stack) == Resume(ts.Drop(n), r, top + done, stack)
  {
    hide Machine;
    if r.Ok? {
      assert top + (done + r.value.0) == (top + done) + r.value.0;
      assert ts.Drop(n).Drop(r.value.1) == ts.Drop(n + r.value.1);
    }
  }

  /** The machine agrees with the recursive parser in every configuration. */
  lemma {:induction false} MachineIsParser(ts: Stream, top: seq<Node>, stack: seq<Frame>)
    ensures Machine(ts, top, stack) == Resume(ts, Siblings(ts, Awaited(stack)), top, stack)
    decreases |ts.tokens|
  {
    if ts.tokens == [] {
      assert top + [] == top;
    } else {
      match ts.tokens[0]
      case TextRun(text) =>
        MachineIsParser(ts.Drop(1), top + [TextNode(text)], stack);
        ResumeContinue(ts, [TextNode(text)], 1, Siblings(ts.Drop(1), Awaited(stack)), top, stack);
      case SelfClosed(tag, attrs) =>
        MachineIsParser(ts.Drop(1), top + [Element(tag, attrs, [])], stack);
        ResumeContinue(ts, [Element(tag, attrs, [])], 1, Siblings(ts.Drop(1), Awaited(stack)), top, stack);
      case Close(tag) =>
        assert top + [] == top;
      case Open(tag, attrs) =>
        MachineOnOpen(ts, top, stack);
    }
  }

  lemma {:induction false} MachineOnOpen(ts: Stream, top: seq<Node>, stack: seq<Frame>)
    requires ts.tokens != [] && ts.tokens[0].Open?
    ensures Machine(ts, top, stack) == Resume(ts, Siblings(ts, Awaited(stack)), top, stack)
    decreases |ts.tokens|, 0
  {
    var tag, attrs := ts.tokens[0].tag, ts.tokens[0].attrs;
    var pushed := stack + [Frame(tag, attrs, top)];
    MachineIsParser(ts.Drop(1), [], pushed);
    var kids := Siblings(ts.Drop(1), Some(tag));
    if kids.Ok? {
      var element := Element(tag, attrs, kids.value.0);
      var n := 1 + kids.value.1;
      assert [] + kids.value.0 == kids.value.0;
      assert pushed[..|pushed| - 1] == stack;
      assert ts.Drop(1).Drop(kids.value.1) == ts.Drop(n);
      MachineIsParser(ts.Drop(n), top + [element], stack);
      ResumeContinue(ts, [element], n, Siblings(ts.Drop(n), Awaited(stack)), top, stack);
    }
  }

  /** For every source, the parser returns what the stack machine builds: same tree, same error. */
  lemma ParserIsMachine(source: string)
    ensures Parse(source) ==
            match Machine(Lex(source), [], [])
            case Ok(children) => Document(children)
            case Err(e) => Err(e)
  {
    hide Machine, Siblings, Lex;
    MachineIsParser(Lex(source), [], []);
    var r := Siblings(Lex(source), None);
    if r.Ok? {
      assert [] + r.value.0 == r.value.0;
    }
  }

  // ----- the balanced token strings -----

  /** A node as written: an element is either closed by itself or by a closing tag of its name. */
  datatype Form =
    | Run(text: string)
    | Lone(tag: string, attrs: Attrs)
    | Pair(tag: string, attrs: Attrs, inner: seq<Form>)

  function Spelled(f: Form): seq<Token>
    decreases f, 0
  {
    match f
    case Run(text) => [TextRun(text)]
    case Lone(tag, attrs) => [SelfClosed(tag, attrs)]
    case Pair(tag, attrs, inner) => [Open(tag, attrs)] + SpelledAll(inner) + [Close(tag)]
  }

  function SpelledAll(fs: seq<Form>): seq<Token>
    decreases fs, 1
  {
    if fs == [] then [] else Spelled(fs[0]) + SpelledAll(fs[1..])
  }

  function Meant(f: Form): Node
    decreases f, 0
  {
    match f
    case Run(text) => TextNode(text)
    case Lone(tag, attrs) => Element(tag, attrs, [])
    case Pair(tag, attrs, inner) => Element(tag, attrs, MeantAll(inner))
  }

  function MeantAll(fs: seq<Form>): seq<Node>
    decreases fs, 1
  {
    if fs == [] then [] else [Meant(fs[0])] + MeantAll(fs[1..])
  }

  /** Tokens that spell `fs` are read as the nodes `fs` means, whatever follows. */
  lemma {:induction false} ReadsSpelled(fs: seq<Form>, tail: seq<Token>, fault: Option<ParseError>, closing: Option<string>)
    ensures Siblings(Stream(SpelledAll(fs) + tail, fault), closing) ==
            Continue(MeantAll(fs), |SpelledAll(fs)|, Siblings(Stream(tail, fault), closing))
    decreases fs
  {
    hide Siblings, ElementOf;
    var ts := Stream(SpelledAll(fs) + tail, fault);
    if fs == [] {
      assert ts.tokens == tail;
      ContinueNothing(Siblings(ts, closing));
    } else {
      var f, rest := fs[0], fs[1..];
      var after := SpelledAll(rest) + tail;
      assert ts.tokens == Spelled(f) + after;
      assert ts.Drop(|Spelled(f)|) == Stream(after, fault);
      ReadsSpelled(rest, tail, fault, closing);
      if f.Run? {
        SiblingsOnText(ts, closing);
      } else {
        ReadsElement(f, after, fault);
        SiblingsOnElement(ts, closing);
      }
      ContinueTwice([Meant(f)], |Spelled(f)|, MeantAll(rest), |SpelledAll(rest)|, Siblings(Stream(tail, fault), closing));
    }
  }

  lemma {:induction false} ReadsElement(f: Form, after: seq<Token>, fault: Option<ParseError>)
    requires !f.Run?
    ensures var ts := Stream(Spelled(f) + after, fault);
      && (ts.tokens[0].Open? || ts.tokens[0].SelfClosed?)
      && ElementOf(ts) == Ok((Meant(f), |Spelled(f)|))
    decreases f, 0
  {
    hide Siblings, SpelledAll, MeantAll, ElementOf, Spelled, Meant, Continue;
    var ts := Stream(Spelled(f) + after, fault);
    if f.Pair? {
      var inside := [Close(f.tag)] + after;
      PairShape(f, after, fault);
      ReadsSpelled(f.inner, inside, fault, Some(f.tag));
      SiblingsOnClose(Stream(inside, fault), Some(f.tag));
      ContinueEnd(MeantAll(f.inner), |SpelledAll(f.inner)|);
      ElementOfPair(ts, MeantAll(f.inner), |SpelledAll(f.inner)| + 1);
    } else {
      LoneRead(f, after, fault);
    }
  }

  lemma ContinueEnd(nodes: seq<Node>, n: nat)
    ensures Continue(nodes, n, Ok(([], 1))) == Ok((nodes, n + 1))
  {
    assert nodes + [] == nodes;
  }

  lemma LoneRead(f: Form, after: seq<Token>, fault: Option<ParseError>)
    requires f.Lone?
    ensures var ts := Stream(Spelled(f) + after, fault);
      ts.tokens[0].SelfClosed? && ElementOf(ts) == Ok((Meant(f), |Spelled(f)|))
  {
    hide Siblings;
  }

  lemma PairShape(f: Form, after: seq<Token>, fault: Option<ParseError>)
    requires f.Pair?
    ensures var ts := Stream(Spelled(f) + after, fault);
      && ts.tokens != [] && ts.tokens[0] == Open(f.tag, f.attrs)
      && ts.Drop(1) == Stream(SpelledAll(f.inner) + ([Close(f.tag)] + after), fault)
    ensures |Spelled(f)| == |SpelledAll(f.inner)| + 2 && Meant(f) == Element(f.tag, f.attrs, MeantAll(f.inner))
  {
    hide SpelledAll, MeantAll;
  }

  lemma ElementOfPair(ts: Stream, kids: seq<Node>, n: nat)
    requires ts.tokens != [] && ts.tokens[0].Open?
    requires Siblings(ts.Drop(1), Some(ts.tokens[0].tag)) == Ok((kids, n))
    ensures ElementOf(ts) == Ok((Element(ts.tokens[0].tag, ts.tokens[0].attrs, kids), 1 + n))
  {
    hide Siblings;
  }

  ghost function Closer(closing: Option<string>): seq<Token> {
    if closing.Some? then [Close(closing.value)] else []
  }

  /** Whatever the parser accepts is spelled by some forms that mean the nodes it returns. */
  lemma {:induction false} AcceptedIsSpelled(ts: Stream, closing: Option<string>) returns (fs: seq<Form>)
    requires Siblings(ts, closing).Ok?
    ensures ts.tokens[..Siblings(ts, closing).value.1] == SpelledAll(fs) + Closer(closing)
    ensures MeantAll(fs) == Siblings(ts, closing).value.0
    ensures closing.None? ==> ts.fault.None?
    decreases |ts.tokens|, 1
  {
    hide Siblings, ElementOf, SpelledAll, MeantAll;
    SpelledNothing();
    if ts.tokens == [] {
      SiblingsOnEnd(ts, closing);
      return [];
    } else if ts.tokens[0].Close? {
      SiblingsOnClose(ts, closing);
      return [];
    }
    var f: Form;
    var m: nat := 1;
    if ts.tokens[0].TextRun? {
      f := Run(ts.tokens[0].text);
      SiblingsOnText(ts, closing);
    } else {
      SiblingsOnElement(ts, closing);
      f := AcceptedElementIsSpelled(ts);
      m := ElementOf(ts).value.1;
    }
    var rest := AcceptedIsSpelled(ts.Drop(m), closing);
    fs := [f] + rest;
    SpelledCons(f, rest);
    var n := Siblings(ts, closing).value.1;
    assert ts.tokens[..n] == ts.tokens[..m] + ts.Drop(m).tokens[..n - m];
    assert ts.tokens[..m] == Spelled(f);
  }

  lemma SpelledNothing()
    ensures SpelledAll([]) == [] && MeantAll([]) == []
  {
  }

  lemma SpelledCons(f: Form, fs: seq<Form>)
    ensures SpelledAll([f] + fs) == Spelled(f) + SpelledAll(fs)
    ensures MeantAll([f] + fs) == [Meant(f)] + MeantAll(fs)
  {
    assert ([f] + fs)[1..] == fs;
  }

  lemma {:induction false} AcceptedElementIsSpelled(ts: Stream) returns (f: Form)
    requires ts.tokens != [] && (ts.tokens[0].Open? || ts.tokens[0].SelfClosed?)
    requires ElementOf(ts).Ok?
    ensures ts.tokens[..ElementOf(ts).value.1] == Spelled(f) && Meant(f) == ElementOf(ts).value.0
    decreases |ts.tokens|, 0
  {
    hide Siblings;
    var first := ts.tokens[0];
    if first.SelfClosed? {
      return Lone(first.tag, first.attrs);
    }
    var inner := AcceptedIsSpelled(ts.Drop(1), Some(first.tag));
    f := Pair(first.tag, first.attrs, inner);
    var n := Siblings(ts.Drop(1), Some(first.tag)).value.1;
    assert ts.tokens[..1 + n] == [first] + ts.Drop(1).tokens[..n];
  }

  ghost predicate Spells(fs: seq<Form>, source: string) {
    Lex(source) == Stream(SpelledAll(fs), None)
  }

  /**
    A source is parsed exactly when it lexes to its end, its tokens are balanced with matching
    names, and some top-level node is more than white space.
   */
  lemma ParsesIffBalanced(source: string)
    ensures Parse(source).Ok? <==>
            exists fs :: Spells(fs, source) && exists n :: n in MeantAll(fs) && IsMeaningful(n)
  {
    hide Lex, Siblings, SpelledAll;
    if Siblings(Lex(source), None).Ok? {
      var fs := AcceptedIsSpelled(Lex(source), None);
      var ts := Lex(source);
      assert ts.tokens[..|ts.tokens|] == ts.tokens && SpelledAll(fs) + [] == SpelledAll(fs);
      assert Spells(fs, source);
      SomeMeaningful(MeantAll(fs));
    }
    forall fs | Spells(fs, source)
      ensures Siblings(Lex(source), None) == Ok((MeantAll(fs), |SpelledAll(fs)|))
    {
      ParsesSpelled(fs, source);
    }
    forall fs | Spells(fs, source) ensures Parse(source) == Document(MeantAll(fs)) {
      SomeMeaningful(MeantAll(fs));
    }
    forall fs | Spells(fs, source) {
      SomeMeaningful(MeantAll(fs));
    }
  }

  lemma SomeMeaningful(nodes: seq<Node>)
    ensures Document(nodes).Ok? <==> exists n :: n in nodes && IsMeaningful(n)
  {
    var kept := Meaningful(nodes);
    if kept != [] {
      assert kept[0] in kept;
    }
  }

  /** And then the tree is the one its spelling means. */
  lemma ParsesSpelled(fs: seq<Form>, source: string)
    ensures Spells(fs, source) ==> Siblings(Lex(source), None) == Ok((MeantAll(fs), |SpelledAll(fs)|))
    ensures Spells(fs, source) ==> Parse(source) == Document(MeantAll(fs))
  {
    hide Lex, SpelledAll, MeantAll;
    assert SpelledAll(fs) + [] == SpelledAll(fs);
    ReadsSpelled(fs, [], None, None);
    assert Siblings(Stream([], None), None) == Ok(([], 0));
    assert MeantAll(fs) + [] == MeantAll(fs);
  }
}
