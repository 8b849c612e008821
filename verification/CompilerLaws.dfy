/** What compiling makes of texts, conditions, loops, elements and whole components, in closed form. */
module CompilerLaws {
  import opened Wrappers
  import opened Text
  import opened Wxml
  import opened Wxss
  import opened Binding
  import opened Compiler
  import opened BindingLaws
  import opened CompilerAttrs
  import Json
  import Order
  import Positional
  import WxmlMarkup

  // ----- texts -----

  /** The text node of a template: its text with the bindings shown, or nothing when that is blank. */
  lemma TextNodeIs(ps: seq<Piece>, ending: Ending, ctx: Context, classes: Classes, counter: nat)
    requires ArePieces(ps) && IsEnding(ending)
    ensures var source, shown := WritePieces(ps) + WriteEnding(ending), ShownText(ps, ctx) + WriteEnding(ending);
      var out := CompileNode(TextNode(source), ctx, classes, counter);
      && out.nodes == (if IsBlank(shown) then [] else
           [RenderNode("text-" + Positional.Decimal(counter), TextKind, Some(shown), map[], map[], [], [])])
      && out.counter == (if IsBlank(shown) then counter else counter + 1)
      && out.warnings == Complaints(ps) + if ending.Open? then ["unterminated binding in `" + source + "`"] else []
  {
    hide Interpolate, Trim, IsBlank, Positional.Decimal, ArePieces, IsEnding, WritePieces, ShownText, Complaints, WriteEnding;
    TextShows(ps, ending, ctx);
    WxmlMarkup.BlankIff(ShownText(ps, ctx) + WriteEnding(ending));
    TextId(counter);
  }

  lemma TextId(counter: nat)
    ensures NextId("text", counter) == "text-" + Positional.Decimal(counter)
  {
    assert "text" + "-" == "text-";
  }

  // ----- conditions -----

  /** What a condition takes for false. */
  predicate IsNothing(v: Option<Value>) {
    || v == None || v == Some(Json.Null) || v == Some(Json.Bool(false)) || v == Some(Json.Str(""))
    || v == Some(Json.Arr([])) || v == Some(Json.Obj(map[])) || (v.Some? && v.value.Num? && v.value.isZero)
  }

  predicate Shows(attrs: Attrs, ctx: Context) {
    "wx:if" in attrs ==>
      SinglePath(attrs["wx:if"]).Some? && !IsNothing(Resolve(ctx, SinglePath(attrs["wx:if"]).value))
  }

  lemma ConditionIs(attrs: Attrs, ctx: Context)
    ensures ConditionOf(attrs, ctx).Holds? <==> Shows(attrs, ctx)
    ensures ConditionOf(attrs, ctx).Unsupported? <==> "wx:if" in attrs && SinglePath(attrs["wx:if"]).None?
    ensures ConditionOf(attrs, ctx).Unsupported? ==> ConditionOf(attrs, ctx).condition == attrs["wx:if"]
  {
    hide SinglePath, Resolve;
  }

  /** An element that is not shown makes nothing; a condition that is no binding is warned of. */
  lemma NotShown(e: Node, ctx: Context, classes: Classes, counter: nat)
    requires e.Element? && !Shows(e.attrs, ctx)
    ensures CompileElement(e, ctx, classes, counter) ==
            Output([], if SinglePath(e.attrs["wx:if"]).None? then ["unsupported wx:if expression `" + e.attrs["wx:if"] + "`"] else [],
                   counter)
  {
    hide ConditionOf, Shows, SinglePath, CompileLoop, CompileOne;
    ConditionIs(e.attrs, ctx);
    NoConditionShows(e.attrs, ctx);
  }

  lemma NoConditionShows(attrs: Attrs, ctx: Context)
    requires !Shows(attrs, ctx)
    ensures "wx:if" in attrs
  {
  }

  // ----- elements -----

  function TagOf(kind: Kind): string {
    match kind
    case View => "view"
    case TextKind => "text"
    case Image => "image"
    case Button => "button"
    case ScrollView => "scroll-view"
  }

  lemma KindIs(tag: string)
    ensures KindOf(tag) == None <==> forall k :: TagOf(k) != tag
    ensures KindOf(tag).Some? ==> TagOf(KindOf(tag).value) == tag
  {
    assert TagOf(View) == "view" && TagOf(TextKind) == "text" && TagOf(Image) == "image" && TagOf(Button) == "button";
    assert TagOf(ScrollView) == "scroll-view";
  }

  /** The texts of nodes, one after the other; a node without one adds nothing. */
  function AllText(nodes: seq<RenderNode>): string
    decreases |nodes|
  {
    if nodes == [] then "" else
    AllText(nodes[..|nodes| - 1]) + match nodes[|nodes| - 1].text { case Some(s) => s case None => "" }
  }

  lemma {:induction false} TextLast(nodes: seq<RenderNode>, last: RenderNode)
    ensures TextOf(nodes + [last]) == TextOf(nodes) + match last.text { case Some(s) => s case None => "" }
    decreases |nodes|
  {
    if nodes == [] {
      assert nodes + [last] == [last] && [last][1..] == [];
    } else {
      assert (nodes + [last])[1..] == nodes[1..] + [last];
      TextLast(nodes[1..], last);
    }
  }

  lemma {:induction false} TextIs(nodes: seq<RenderNode>)
    ensures TextOf(nodes) == AllText(nodes)
    decreases |nodes|
  {
    if nodes != [] {
      var front := nodes[..|nodes| - 1];
      assert front + [nodes[|nodes| - 1]] == nodes;
      TextIs(front);
      TextLast(front, nodes[|nodes| - 1]);
    }
  }

  /** The node of an element, given those of its children. */
  ghost predicate IsElementOf(n: RenderNode, e: Node, ctx: Context, classes: Classes, counter: nat, kids: seq<RenderNode>)
    requires e.Element?
  {
    && n.id == e.tag + "-" + Positional.Decimal(counter)
    && (TagOf(n.kind) == e.tag || (n.kind == View && forall k :: TagOf(k) != e.tag))
    && n.style == ClassStyle(e.attrs, classes) + (if "style" in e.attrs then Declarations(e.attrs["style"]).style else map[])
    && HasProps(n.props, e.tag, e.attrs.Keys, e.attrs, ctx)
    && |n.events| == |EventsFor(e.tag, e.attrs.Keys, e.attrs)|
    && (forall i | 0 <= i < |n.events| :: (n.events[i].event, n.events[i].handler) == EventsFor(e.tag, e.attrs.Keys, e.attrs)[i])
    && (if e.tag == "text" && kids != [] then n.text == Some(AllText(kids)) && n.children == []
        else n.text == None && n.children == kids)
  }

  function TagWarning(tag: string): seq<string> {
    if exists k :: TagOf(k) == tag then [] else ["unsupported WXML tag `" + tag + "`"]
  }

  /** An element that is shown makes one node, numbered before its children. */
  lemma ElementIs(e: Node, ctx: Context, classes: Classes, counter: nat)
    requires e.Element? && Shows(e.attrs, ctx) && "wx:for" !in e.attrs
    ensures var out, kids := CompileElement(e, ctx, classes, counter), CompileChildren(e.children, ctx, classes, counter + 1);
      && |out.nodes| == 1 && IsElementOf(out.nodes[0], e, ctx, classes, counter, kids.nodes)
      && out.counter == kids.counter
      && out.warnings ==
         TagWarning(e.tag)
         + ((if "style" in e.attrs then Declarations(e.attrs["style"]).warnings else [])
            + WarningsFor(e.tag, Order.SortedKeys(e.attrs.Keys), e.attrs, ctx))
         + kids.warnings
  {
    hide *;
    ConditionIs(e.attrs, ctx);
    ShownOnce(e, ctx, classes, counter);
    AttributesGive(e.tag, e.attrs, ctx, classes);
    OneIs(e, ctx, classes, counter);
    NothingIsEmpty();
    var out, kids := CompileElement(e, ctx, classes, counter), CompileChildren(e.children, ctx, classes, counter + 1);
    ElementHas(out.nodes[0], e, ctx, classes, counter, kids.nodes);
  }

  lemma NothingIsEmpty()
    ensures NOTHING == Styled(map[], [])
  {
  }

  lemma ElementHas(n: RenderNode, e: Node, ctx: Context, classes: Classes, counter: nat, kids: seq<RenderNode>)
    requires e.Element? && n.id == e.tag + "-" + Positional.Decimal(counter)
    requires TagOf(n.kind) == e.tag || (n.kind == View && forall k :: TagOf(k) != e.tag)
    requires n.style == ClassStyle(e.attrs, classes) + (if "style" in e.attrs then Declarations(e.attrs["style"]).style else map[])
    requires HasProps(n.props, e.tag, e.attrs.Keys, e.attrs, ctx) && |n.events| == |EventsFor(e.tag, e.attrs.Keys, e.attrs)|
    requires forall i | 0 <= i < |n.events| :: (n.events[i].event, n.events[i].handler) == EventsFor(e.tag, e.attrs.Keys, e.attrs)[i]
    requires if e.tag == "text" && kids != [] then n.text == Some(AllText(kids)) && n.children == []
             else n.text == None && n.children == kids
    ensures IsElementOf(n, e, ctx, classes, counter, kids)
  {
    hide ClassStyle, Declarations, HasProps, EventsFor, AllText, Positional.Decimal, TagOf;
  }

  lemma ShownOnce(e: Node, ctx: Context, classes: Classes, counter: nat)
    requires e.Element? && ConditionOf(e.attrs, ctx).Holds? && "wx:for" !in e.attrs
    ensures CompileElement(e, ctx, classes, counter) == CompileOne(e, ctx, classes, counter)
  {
    hide ConditionOf, CompileOne;
  }

  lemma OneIs(e: Node, ctx: Context, classes: Classes, counter: nat)
    requires e.Element?
    ensures var out, kids := CompileOne(e, ctx, classes, counter), CompileChildren(e.children, ctx, classes, counter + 1);
      var a := ApplyAttrs(e.tag, e.attrs, ctx, classes);
      && |out.nodes| == 1 && out.counter == kids.counter && out.warnings == TagWarning(e.tag) + a.warnings + kids.warnings
      && out.nodes[0].id == e.tag + "-" + Positional.Decimal(counter)
      && (TagOf(out.nodes[0].kind) == e.tag || (out.nodes[0].kind == View && forall k :: TagOf(k) != e.tag))
      && out.nodes[0].style == a.style && out.nodes[0].props == a.props && out.nodes[0].events == a.events
      && (if e.tag == "text" && kids.nodes != [] then out.nodes[0].text == Some(AllText(kids.nodes)) && out.nodes[0].children == []
          else out.nodes[0].text == None && out.nodes[0].children == kids.nodes)
  {
    hide ApplyAttrs, CompileChildren, KindOf, TextOf, AllText, Positional.Decimal;
    KindIs(e.tag);
    TextIs(CompileChildren(e.children, ctx, classes, counter + 1).nodes);
    assert TagOf(TextKind) == "text";
  }

  // ----- loops -----

  function NameIn(attrs: Attrs, attr: string, otherwise: string): string {
    if attr in attrs then attrs[attr] else otherwise
  }

  /** The scope of one round: the item, and the index over it. */
  function Scope(attrs: Attrs, items: seq<Value>, i: nat, ctx: Context): Context
    requires i < |items|
  {
    Context(ctx.data, ctx.locals[NameIn(attrs, "wx:for-item", "item") := items[i]]
                                [NameIn(attrs, "wx:for-index", "index") := Json.Num(Positional.Decimal(i), i == 0)])
  }

  /** The value of a loop key: the item, a binding, a path of the scope, or else a path of the item. */
  function KeyValue(key: string, item: string, scope: Context): Option<Value> {
    if key == "*this" then Resolve(scope, item)
    else if SinglePath(key).Some? then Resolve(scope, SinglePath(key).value)
    else if !IsDotted(key) then None
    else if Resolve(scope, key).Some? then Resolve(scope, key)
    else Resolve(scope, item + "." + key)
  }

  /** One copy has the attributes of the element but those of the loop, and the text of its key if it has one. */
  ghost predicate AreCopyAttrs(copy: Attrs, attrs: Attrs, scope: Context) {
    var key := if "wx:key" in attrs then KeyValue(attrs["wx:key"], NameIn(attrs, "wx:for-item", "item"), scope) else None;
    && (forall name :: name in copy <==>
          (name in attrs || (name == "data-render-key" && key.Some?))
          && name != "wx:for" && name != "wx:for-item" && name != "wx:for-index")
    && (forall name | name in copy :: copy[name] == if name == "data-render-key" && key.Some? then Shown(key) else attrs[name])
  }

  lemma KeyValueIs(key: string, item: string, scope: Context)
    ensures ResolveKey(key, item, scope) == KeyValue(key, item, scope)
  {
    hide SinglePath, IsSupportedPath, IsDotted, Resolve;
    SupportedIff(key);
  }

  lemma KeyTextIs(v: Value)
    ensures KeyText(v) == Shown(Some(v))
  {
  }

  lemma CopyIs(attrs: Attrs, scope: Context)
    ensures AreCopyAttrs(RoundAttrs(attrs, scope), attrs, scope)
  {
    hide ResolveKey, KeyValue, KeyText, Shown;
    RenderKeyStays();
    if "wx:key" in attrs {
      KeyValueIs(attrs["wx:key"], ItemName(attrs), scope);
      if ResolveKey(attrs["wx:key"], ItemName(attrs), scope).Some? {
        KeyTextIs(ResolveKey(attrs["wx:key"], ItemName(attrs), scope).value);
      }
    }
  }

  lemma RenderKeyStays()
    ensures "data-render-key" !in LOOP_NAMES
  {
    assert "data-render-key"[0] == 'd' && "wx:for"[0] == "wx:for-item"[0] == "wx:for-index"[0] == 'w';
  }

  /** The first `n` rounds of a loop, each a copy of the element in its scope. */
  ghost predicate AreRounds(out: Output, e: Node, items: seq<Value>, n: nat, ctx: Context, classes: Classes, counter: nat)
    requires e.Element? && n <= |items|
    decreases n
  {
    if n == 0 then out == Output([], [], counter) else
    var scope := Scope(e.attrs, items, n - 1, ctx);
    exists front: Output, copy: Attrs ::
      IsRoundAfter(out, front, copy, e, scope, classes) && AreRounds(front, e, items, n - 1, ctx, classes, counter)
  }

  /** One round: a copy of the element, compiled in its scope after what is there. */
  ghost predicate IsRoundAfter(out: Output, front: Output, copy: Attrs, e: Node, scope: Context, classes: Classes)
    requires e.Element?
  {
    && AreCopyAttrs(copy, e.attrs, scope)
    && var last := CompileElement(Element(e.tag, copy, e.children), scope, classes, front.counter);
       out == Output(front.nodes + last.nodes, front.warnings + last.warnings, last.counter)
  }

  lemma {:induction false} RoundsAre(front: Output, e: Node, items: seq<Value>, i: nat, ctx: Context, classes: Classes, counter: nat)
    requires e.Element? && "wx:for" in e.attrs && i <= |items| && AreRounds(front, e, items, i, ctx, classes, counter)
    ensures AreRounds(Then(front, CompileRounds(e, items, i, ctx, classes, front.counter)), e, items, |items|, ctx, classes, counter)
    decreases |items| - i
  {
    hide CompileRounds, CompileElement, RoundAttrs, AreRounds, LoopContext, Scope, AreCopyAttrs;
    if i == |items| {
      RoundsDone(e, items, ctx, classes, front.counter);
      assert front.nodes + [] == front.nodes && front.warnings + [] == front.warnings;
    } else {
      RoundsStep(e, items, i, ctx, classes, front.counter);
      var loop := LoopContext(e.attrs, items, i, ctx);
      var round := CompileElement(Element(e.tag, RoundAttrs(e.attrs, loop), e.children), loop, classes, front.counter);
      OneMoreRound(front, e, items, i, ctx, classes, counter);
      RoundsAre(Then(front, round), e, items, i + 1, ctx, classes, counter);
      var more := CompileRounds(e, items, i + 1, ctx, classes, round.counter);
      assert front.nodes + (round.nodes + more.nodes) == (front.nodes + round.nodes) + more.nodes;
      assert front.warnings + (round.warnings + more.warnings) == (front.warnings + round.warnings) + more.warnings;
    }
  }

  lemma OneMoreRound(front: Output, e: Node, items: seq<Value>, i: nat, ctx: Context, classes: Classes, counter: nat)
    requires e.Element? && "wx:for" in e.attrs && i < |items| && AreRounds(front, e, items, i, ctx, classes, counter)
    ensures var loop := LoopContext(e.attrs, items, i, ctx);
      var round := CompileElement(Element(e.tag, RoundAttrs(e.attrs, loop), e.children), loop, classes, front.counter);
      AreRounds(Then(front, round), e, items, i + 1, ctx, classes, counter)
  {
    hide *;
    ScopeIs(e.attrs, items, i, ctx);
    var loop := LoopContext(e.attrs, items, i, ctx);
    CopyIs(e.attrs, loop);
    var round := CompileElement(Element(e.tag, RoundAttrs(e.attrs, loop), e.children), loop, classes, front.counter);
    IsRound(front, RoundAttrs(e.attrs, loop), e, loop, classes);
    RoundAfter(Then(front, round), front, RoundAttrs(e.attrs, loop), e, items, i, ctx, classes, counter);
  }

  lemma IsRound(front: Output, copy: Attrs, e: Node, scope: Context, classes: Classes)
    requires e.Element? && AreCopyAttrs(copy, e.attrs, scope)
    ensures IsRoundAfter(Then(front, CompileElement(Element(e.tag, copy, e.children), scope, classes, front.counter)), front, copy, e, scope, classes)
  {
    hide CompileElement, AreCopyAttrs;
  }

  lemma RoundAfter(out: Output, front: Output, copy: Attrs, e: Node, items: seq<Value>, i: nat, ctx: Context, classes: Classes, counter: nat)
    requires e.Element? && i < |items| && AreRounds(front, e, items, i, ctx, classes, counter)
    requires IsRoundAfter(out, front, copy, e, Scope(e.attrs, items, i, ctx), classes)
    ensures AreRounds(out, e, items, i + 1, ctx, classes, counter)
  {
    hide CompileElement, IsRoundAfter, Scope;
  }

  lemma ScopeIs(attrs: Attrs, items: seq<Value>, i: nat, ctx: Context)
    requires i < |items|
    ensures LoopContext(attrs, items, i, ctx) == Scope(attrs, items, i, ctx)
  {
  }

  /** A loop makes one copy for each item, in order; over anything but an array it makes nothing. */
  lemma LoopIs(e: Node, ctx: Context, classes: Classes, counter: nat)
    requires e.Element? && Shows(e.attrs, ctx) && "wx:for" in e.attrs
    ensures var out, path := CompileElement(e, ctx, classes, counter), SinglePath(e.attrs["wx:for"]);
      if path.None? then out == Output([], ["unsupported wx:for expression `" + e.attrs["wx:for"] + "`"], counter)
      else
        var v := Resolve(ctx, path.value);
        if v.Some? && v.value.Arr? then AreRounds(out, e, v.value.items, |v.value.items|, ctx, classes, counter) else out == Output([], [], counter)
  {
    hide *;
    ConditionIs(e.attrs, ctx);
    LoopStarts(e, ctx, classes, counter);
    if SinglePath(e.attrs["wx:for"]).Some? {
      var v := Resolve(ctx, SinglePath(e.attrs["wx:for"]).value);
      if v.Some? && v.value.Arr? {
        var items := v.value.items;
        NoRounds(e, items, ctx, classes, counter);
        RoundsAre(Output([], [], counter), e, items, 0, ctx, classes, counter);
        NothingThen(CompileRounds(e, items, 0, ctx, classes, counter), counter);
      }
    }
  }

  lemma LoopStarts(e: Node, ctx: Context, classes: Classes, counter: nat)
    requires e.Element? && ConditionOf(e.attrs, ctx).Holds? && "wx:for" in e.attrs
    ensures var out, path := CompileElement(e, ctx, classes, counter), SinglePath(e.attrs["wx:for"]);
      if path.None? then out == Output([], ["unsupported wx:for expression `" + e.attrs["wx:for"] + "`"], counter)
      else
        var v := Resolve(ctx, path.value);
        if v.Some? && v.value.Arr? then out == CompileRounds(e, v.value.items, 0, ctx, classes, counter) else out == Output([], [], counter)
  {
    hide ConditionOf, SinglePath, Resolve, CompileRounds, CompileOne;
  }

  lemma NothingThen(a: Output, counter: nat)
    ensures Then(Output([], [], counter), a) == a
  {
    assert [] + a.nodes == a.nodes && [] + a.warnings == a.warnings;
  }

  lemma NoRounds(e: Node, items: seq<Value>, ctx: Context, classes: Classes, counter: nat)
    requires e.Element?
    ensures AreRounds(Output([], [], counter), e, items, 0, ctx, classes, counter)
  {
  }

  // ----- children -----

  /** Children are compiled one after the other. */
  lemma {:induction false} ChildrenInOrder(a: seq<Node>, b: seq<Node>, ctx: Context, classes: Classes, counter: nat)
    ensures var first := CompileChildren(a, ctx, classes, counter);
      var second := CompileChildren(b, ctx, classes, first.counter);
      CompileChildren(a + b, ctx, classes, counter) ==
      Output(first.nodes + second.nodes, first.warnings + second.warnings, second.counter)
    decreases |a|
  {
    hide CompileNode;
    if a == [] {
      assert a + b == b;
      var all := CompileChildren(b, ctx, classes, counter);
      assert [] + all.nodes == all.nodes && [] + all.warnings == all.warnings;
    } else {
      assert (a + b)[1..] == a[1..] + b;
      var head := CompileNode(a[0], ctx, classes, counter);
      ChildrenInOrder(a[1..], b, ctx, classes, head.counter);
      var tail := CompileChildren(a[1..], ctx, classes, head.counter);
      var more := CompileChildren(b, ctx, classes, tail.counter);
      assert head.nodes + (tail.nodes + more.nodes) == (head.nodes + tail.nodes) + more.nodes;
      assert head.warnings + (tail.warnings + more.warnings) == (head.warnings + tail.warnings) + more.warnings;
    }
  }

  lemma OnlyChild(node: Node, ctx: Context, classes: Classes, counter: nat)
    ensures CompileChildren([node], ctx, classes, counter) == CompileNode(node, ctx, classes, counter)
    ensures CompileChildren([], ctx, classes, counter) == Output([], [], counter)
  {
    hide CompileNode;
    var only := CompileNode(node, ctx, classes, counter);
    assert [node][1..] == [];
    assert only.nodes + [] == only.nodes && only.warnings + [] == only.warnings;
  }

  // ----- components -----

  /** A component is the first node of its template, compiled over its data alone; the sheet is warned of first. */
  lemma ComponentIs(wxml: string, wxss: string, data: Value)
    ensures match Parse(wxml)
            case Err(e) => Compile(wxml, wxss, data) == Err(WxmlError(e))
            case Ok(tree) =>
              var out := CompileChildren([tree], Context(data, map[]), ParseSheet(wxss).classes, 0);
              if out.nodes == [] then Compile(wxml, wxss, data) == Err(MissingRoot)
              else Compile(wxml, wxss, data) == Ok((out.nodes[0], ParseSheet(wxss).warnings + out.warnings))
  {
    hide Parse, ParseSheet, CompileNode, CompileChildren;
    if Parse(wxml).Ok? {
      OnlyChild(Parse(wxml).value, Context(data, map[]), ParseSheet(wxss).classes, 0);
    }
  }

  /** A `text` with bindings in a `view`: from markup and data to what is shown. */
  function Page(text: string): WxmlMarkup.Markup {
    WxmlMarkup.Around("", "view", [], "", [WxmlMarkup.Around("", "text", [], "", [WxmlMarkup.Literal(text)], "", "")], "", "")
  }

  lemma PageIs(text: string)
    requires text != "" && '<' !in text
    ensures Parse(WxmlMarkup.WriteAll([Page(text)])) == Ok(Element("view", map[], [Element("text", map[], [TextNode(text)])]))
  {
    PageIsMarkup(text);
    PageMeans(text);
    hide *;
    WxmlMarkup.ParseOfMarkup([Page(text)]);
  }

  lemma PageIsMarkup(text: string)
    requires text != "" && '<' !in text
    ensures WxmlMarkup.AreMarkup([Page(text)])
  {
    PlainTags();
    hide WxmlMarkup.IsTag, IsBlank, WxmlMarkup.Body;
    var inner := WxmlMarkup.Around("", "text", [], "", [WxmlMarkup.Literal(text)], "", "");
    assert WxmlMarkup.AreMarkup([WxmlMarkup.Literal(text)]);
    assert WxmlMarkup.IsMarkup(inner);
    assert WxmlMarkup.AreMarkup([inner]);
    assert WxmlMarkup.IsMarkup(Page(text));
  }

  lemma PageMeans(text: string)
    ensures var tree := Element("view", map[], [Element("text", map[], [TextNode(text)])]);
      WxmlMarkup.WithoutBlanks(WxmlMarkup.NodesOf([Page(text)])) == [tree]
  {
    hide IsBlank;
    assert WxmlMarkup.Attributes([]) == map[];
    var inner := WxmlMarkup.Around("", "text", [], "", [WxmlMarkup.Literal(text)], "", "");
    assert WxmlMarkup.NodesOf([WxmlMarkup.Literal(text)]) == [TextNode(text)];
    assert WxmlMarkup.NodesOf([inner]) == [Element("text", map[], [TextNode(text)])];
    var tree := Element("view", map[], [Element("text", map[], [TextNode(text)])]);
    assert [tree][1..] == [];
  }

  lemma PlainTags()
    ensures WxmlMarkup.IsTag("view") && WxmlMarkup.IsTag("text") && IsBlank("")
    ensures WxmlMarkup.Body("view", []) == "view" && WxmlMarkup.Body("text", []) == "text"
  {
  }

  /** The markup of a text with bindings in a `view` shows the text that the data give it. */
  lemma PageShows(ps: seq<Piece>, wxss: string, data: Value)
    requires ArePieces(ps) && WritePieces(ps) != "" && '<' !in WritePieces(ps)
    ensures var shown := ShownText(ps, Context(data, map[]));
      var page := Compile(WxmlMarkup.WriteAll([Page(WritePieces(ps))]), wxss, data);
      && page.Ok?
      && page.value.0.kind == View && |page.value.0.children| == 1 && page.value.0.children[0].kind == TextKind
      && page.value.0.children[0].text == (if IsBlank(shown) then None else Some(shown))
      && page.value.1 == ParseSheet(wxss).warnings + Complaints(ps)
  {
    hide *;
    var source, ctx, classes := WritePieces(ps), Context(data, map[]), ParseSheet(wxss).classes;
    var text := Element("text", map[], [TextNode(source)]);
    PageIs(source);
    ComponentIs(WxmlMarkup.WriteAll([Page(source)]), wxss, data);
    OnlyChild(Element("view", map[], [text]), ctx, classes, 0);
    PlainElement("view", [text], ctx, classes, 0);
    OnlyChild(text, ctx, classes, 1);
    PlainElement("text", [TextNode(source)], ctx, classes, 1);
    OnlyChild(TextNode(source), ctx, classes, 2);
    TextIsShown(ps, ctx, classes, 2);
    var out := CompileNode(TextNode(source), ctx, classes, 2);
    if out.nodes != [] {
      assert out.nodes == [out.nodes[0]];
      OneText(out.nodes[0]);
    }
  }

  lemma TextIsShown(ps: seq<Piece>, ctx: Context, classes: Classes, counter: nat)
    requires ArePieces(ps)
    ensures var shown := ShownText(ps, ctx);
      var out := CompileNode(TextNode(WritePieces(ps)), ctx, classes, counter);
      && out.warnings == Complaints(ps)
      && (if IsBlank(shown) then out.nodes == [] else |out.nodes| == 1 && out.nodes[0].text == Some(shown))
  {
    hide CompileNode, ArePieces, WritePieces, ShownText, Complaints, IsBlank;
    assert WritePieces(ps) + "" == WritePieces(ps) && ShownText(ps, ctx) + "" == ShownText(ps, ctx);
    assert Complaints(ps) + [] == Complaints(ps);
    TextNodeIs(ps, Closed, ctx, classes, counter);
  }

  /** An element without attributes. */
  lemma PlainElement(tag: string, children: seq<Node>, ctx: Context, classes: Classes, counter: nat)
    requires tag == "view" || tag == "text"
    ensures var out, kids := CompileNode(Element(tag, map[], children), ctx, classes, counter), CompileChildren(children, ctx, classes, counter + 1);
      && |out.nodes| == 1 && out.warnings == kids.warnings && out.counter == kids.counter
      && out.nodes[0].kind == (if tag == "view" then View else TextKind)
      && (if tag == "text" && kids.nodes != [] then out.nodes[0].text == Some(AllText(kids.nodes)) && out.nodes[0].children == []
          else out.nodes[0].text == None && out.nodes[0].children == kids.nodes)
  {
    hide *;
    var e := Element(tag, map[], children);
    NoAttributes(tag, ctx);
    ElementIs(e, ctx, classes, counter);
    var out, kids := CompileElement(e, ctx, classes, counter), CompileChildren(children, ctx, classes, counter + 1);
    ElementKind(out.nodes[0], e, ctx, classes, counter, kids.nodes);
    NodeOfElement(e, ctx, classes, counter);
    assert [] + ([] + []) + kids.warnings == kids.warnings;
  }

  lemma NodeOfElement(e: Node, ctx: Context, classes: Classes, counter: nat)
    requires e.Element?
    ensures CompileNode(e, ctx, classes, counter) == CompileElement(e, ctx, classes, counter)
  {
    hide CompileElement;
  }

  lemma NoAttributes(tag: string, ctx: Context)
    requires tag == "view" || tag == "text"
    ensures Shows(map[], ctx) && TagWarning(tag) == []
    ensures var none: Attrs := map[]; WarningsFor(tag, Order.SortedKeys(none.Keys), none, ctx) == []
  {
    assert TagOf(View) == "view" && TagOf(TextKind) == "text";
  }

  lemma ElementKind(n: RenderNode, e: Node, ctx: Context, classes: Classes, counter: nat, kids: seq<RenderNode>)
    requires e.Element? && (e.tag == "view" || e.tag == "text") && IsElementOf(n, e, ctx, classes, counter, kids)
    ensures n.kind == if e.tag == "view" then View else TextKind
    ensures if e.tag == "text" && kids != [] then n.text == Some(AllText(kids)) && n.children == []
            else n.text == None && n.children == kids
  {
    hide AllText, Positional.Decimal, Declarations, ClassStyle, HasProps, EventsFor, TagOf;
    TagsOf(n.kind);
  }

  lemma TagsOf(kind: Kind)
    ensures TagOf(kind) == "view" <==> kind == View
    ensures TagOf(kind) == "text" <==> kind == TextKind
    ensures TagOf(View) == "view" && TagOf(TextKind) == "text"
  {
    assert |"view"| == |"text"| == 4 && |"image"| == 5 && |"button"| == 6 && |"scroll-view"| == 11 && "view"[0] == 'v';
  }

  lemma OneText(n: RenderNode)
    ensures AllText([n]) == match n.text { case Some(s) => s case None => "" }
  {
    assert [n][..0] == [];
  }
}
