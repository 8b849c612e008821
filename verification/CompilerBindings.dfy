/** Event bindings in the compiled tree: each comes from one element of the template in one scope that its loops make. */
module CompilerBindings {
  import opened Wrappers
  import opened Wxml
  import opened Binding
  import opened Compiler
  import opened CompilerEvents
  import Order
  import Wxss

  /** An element of a template, by tag and attributes, in a scope. */
  type Marked = (string, Attrs, Context)

  /** The scopes an element is compiled in: one for each item of its loop, or the one around it. */
  function Scopes(attrs: Attrs, ctx: Context): set<Context> {
    if "wx:for" !in attrs then {ctx} else
    var items := LoopItems(attrs, ctx);
    set i | 0 <= i < |items| :: LoopContext(attrs, items, i, ctx)
  }

  /** All elements of a template, each in the scopes made by the loops around it and on it. */
  function Elements(node: Node, ctx: Context): set<Marked>
    decreases node, 0
  {
    match node
    case TextNode(_) => {}
    case Element(tag, attrs, children) =>
      var scopes := Scopes(attrs, ctx);
      (set s | s in scopes :: (tag, attrs, s)) + set s, m | s in scopes && m in ElementsAll(children, s) :: m
  }

  function ElementsAll(nodes: seq<Node>, ctx: Context): set<Marked>
    decreases nodes, 1
  {
    if nodes == [] then {} else Elements(nodes[0], ctx) + ElementsAll(nodes[1..], ctx)
  }

  /** All bindings of a render tree. */
  function Bound(node: RenderNode): set<EventBinding>
    decreases node, 0
  {
    (set b | b in node.events) + BoundAll(node.children)
  }

  function BoundAll(nodes: seq<RenderNode>): set<EventBinding>
    decreases nodes, 1
  {
    if nodes == [] then {} else Bound(nodes[0]) + BoundAll(nodes[1..])
  }

  /** The value of every `data-*` name that no later one replaces, in the scope. */
  ghost predicate Interpolates(dataset: map<string, Value>, attrs: Attrs, ctx: Context) {
    forall n | n in attrs && IsLastOfKey(n, attrs) ::
      DataKey(n) in dataset && dataset[DataKey(n)] == InterpolateValue(attrs[n], ctx).value
  }

  /** The binding is one of the element's event attributes, with all its `data-*` keys and their values in the scope. */
  ghost predicate BindsOf(b: EventBinding, tag: string, attrs: Attrs, ctx: Context) {
    && (exists n :: n in attrs && BoundEvent(tag, n) == Some(b.event) && attrs[n] == b.handler)
    && b.dataset.Keys == (set n | n in attrs && IsDataName(n) :: DataKey(n))
    && Interpolates(b.dataset, attrs, ctx)
  }

  ghost predicate BindsOfAny(b: EventBinding, src: set<Marked>) {
    exists s :: s in src && BindsOf(b, s.0, s.1, s.2)
  }

  /** Every binding of the nodes belongs to one of the elements. */
  ghost predicate AllBind(nodes: seq<RenderNode>, src: set<Marked>) {
    forall b | b in BoundAll(nodes) :: BindsOfAny(b, src)
  }

  // ----- one element -----

  lemma {:induction false} EventsFromNames(tag: string, names: seq<string>, attrs: Attrs, i: nat) returns (n: string)
    requires forall n | n in names :: n in attrs
    requires i < |EventsOf(tag, names, attrs)|
    ensures n in attrs && BoundEvent(tag, n) == Some(EventsOf(tag, names, attrs)[i].0) && attrs[n] == EventsOf(tag, names, attrs)[i].1
    decreases |names|
  {
    hide BoundEvent;
    n := names[|names| - 1];
    if i < |EventsOf(tag, names[..|names| - 1], attrs)| {
      n := EventsFromNames(tag, names[..|names| - 1], attrs, i);
    }
  }

  lemma AppliedBinds(tag: string, attrs: Attrs, ctx: Context, classes: Classes, b: EventBinding)
    requires b in ApplyAttrs(tag, attrs, ctx, classes).events
    ensures BindsOf(b, tag, attrs, ctx)
  {
    hide ApplyAttrs, EventsOf, DatasetOf, BoundEvent, IsLastOfKey, IsDataName, DataKey, InterpolateValue;
    BindingsCarryDataset(tag, attrs, ctx, classes);
    assert Interpolates(b.dataset, attrs, ctx);
    var names := Order.SortedKeys(attrs.Keys);
    var events := ApplyAttrs(tag, attrs, ctx, classes).events;
    var i :| 0 <= i < |events| && events[i] == b;
    var n := EventsFromNames(tag, names, attrs, i);
  }

  // ----- loop copies -----

  predicate IsMark(name: string) {
    IsDataName(name) || name == "bindtap" || name == "bindload" || name == "binderror"
  }

  /** The same event and `data-*` attributes. */
  ghost predicate SameMarks(a: Attrs, b: Attrs) {
    forall n | IsMark(n) :: (n in a <==> n in b) && (n in a && n in b ==> a[n] == b[n])
  }

  lemma RoundKeepsMarks(attrs: Attrs, loop: Context)
    ensures SameMarks(attrs, RoundAttrs(attrs, loop))
  {
    forall n | IsMark(n) ensures n != RENDER_KEY && n !in LOOP_NAMES {
      assert n[0] == 'd' || n[0] == 'b';
      assert forall s | s in LOOP_NAMES :: s[0] == 'w';
      assert RENDER_KEY[0] == 'd' && !IsDataName(RENDER_KEY);
    }
    hide IsMark, ResolveKey, KeyText;
  }

  lemma SameLast(a: Attrs, b: Attrs, n: string)
    requires SameMarks(a, b)
    ensures IsLastOfKey(n, a) <==> IsLastOfKey(n, b)
  {
    hide IsDataName, DataKey, Order.Less;
    assert forall m | IsDataName(m) :: IsMark(m);
  }

  lemma SameBinds(x: EventBinding, tag: string, a: Attrs, b: Attrs, ctx: Context)
    requires SameMarks(a, b) && BindsOf(x, tag, b, ctx)
    ensures BindsOf(x, tag, a, ctx)
  {
    hide IsDataName, DataKey, IsLastOfKey, InterpolateValue;
    assert forall m | IsDataName(m) :: IsMark(m);
    var n :| n in b && BoundEvent(tag, n) == Some(x.event) && b[n] == x.handler;
    assert IsMark(n);
    forall m | m in a && IsLastOfKey(m, a) ensures m in b && IsLastOfKey(m, b) && a[m] == b[m] {
      SameLast(a, b, m);
      LastIsData(m, a);
    }
    assert Interpolates(x.dataset, a, ctx);
    hide BoundEvent, IsMark;
    assert n in a && a[n] == x.handler;
  }

  lemma LastIsData(n: string, attrs: Attrs)
    requires IsLastOfKey(n, attrs)
    ensures IsDataName(n)
  {
  }

  lemma SameTrans(a: Attrs, b: Attrs, c: Attrs)
    requires SameMarks(a, b) && SameMarks(b, c)
    ensures SameMarks(a, c)
  {
    hide IsMark;
  }

  // ----- the tree -----

  lemma NothingBinds(src: set<Marked>)
    ensures AllBind([], src)
  {
  }

  lemma {:induction false} BoundConcat(a: seq<RenderNode>, b: seq<RenderNode>)
    ensures BoundAll(a + b) == BoundAll(a) + BoundAll(b)
    decreases |a|
  {
    hide Bound;
    if a == [] {
      assert a + b == b;
    } else {
      assert (a + b)[1..] == a[1..] + b;
      BoundConcat(a[1..], b);
    }
  }

  lemma ThenBinds(a: Output, b: Output, src: set<Marked>)
    requires AllBind(a.nodes, src) && AllBind(b.nodes, src)
    ensures AllBind(Then(a, b).nodes, src)
  {
    hide BoundAll, BindsOfAny;
    BoundConcat(a.nodes, b.nodes);
  }

  /** One node from its own bindings and those of its children; a text element may drop the children. */
  lemma OneBinds(node: RenderNode, src: set<Marked>)
    requires forall b | b in node.events :: BindsOfAny(b, src)
    requires AllBind(node.children, src)
    ensures AllBind([Collapse(node)], src)
  {
    hide BindsOfAny;
    assert [Collapse(node)][1..] == [];
    assert BoundAll([Collapse(node)]) == Bound(Collapse(node));
    assert BoundAll([]) == {};
  }

  /** Everything the element compiles to is in the given elements and scopes, under its attributes in the template. */
  ghost predicate Covers(e: Node, given: Attrs, ctx: Context, src: set<Marked>)
    requires e.Element?
  {
    SameMarks(given, e.attrs) && forall s | s in Scopes(e.attrs, ctx) :: CoversIn(e, given, s, src)
  }

  ghost predicate CoversIn(e: Node, given: Attrs, ctx: Context, src: set<Marked>)
    requires e.Element?
  {
    (e.tag, given, ctx) in src && ElementsAll(e.children, ctx) <= src
  }

  lemma ElementCovers(e: Node, ctx: Context, src: set<Marked>)
    requires e.Element? && Elements(e, ctx) <= src
    ensures Covers(e, e.attrs, ctx, src)
  {
    hide ElementsAll, Scopes;
    forall s | s in Scopes(e.attrs, ctx) ensures CoversIn(e, e.attrs, s, src) {
      assert (e.tag, e.attrs, s) in Elements(e, ctx);
      forall m | m in ElementsAll(e.children, s) ensures m in src {
        assert m in Elements(e, ctx);
      }
    }
  }

  /** The copy of a loop's element in one round. */
  lemma CopyCovers(e: Node, given: Attrs, items: seq<Value>, i: nat, ctx: Context, src: set<Marked>)
    requires e.Element? && "wx:for" in e.attrs && items == LoopItems(e.attrs, ctx) && i < |items|
    requires Covers(e, given, ctx, src)
    ensures var loop := LoopContext(e.attrs, items, i, ctx);
      Covers(Element(e.tag, RoundAttrs(e.attrs, loop), e.children), given, loop, src)
  {
    var loop := LoopContext(e.attrs, items, i, ctx);
    RoundKeepsMarks(e.attrs, loop);
    SameTrans(given, e.attrs, RoundAttrs(e.attrs, loop));
    NotALoop(e.attrs, loop);
    assert loop in Scopes(e.attrs, ctx);
    hide SameMarks, LoopContext, RoundAttrs, LoopItems, ElementsAll;
    assert CoversIn(e, given, loop, src);
  }

  lemma NotALoop(attrs: Attrs, loop: Context)
    ensures "wx:for" !in RoundAttrs(attrs, loop)
  {
    assert "wx:for" in LOOP_NAMES;
  }

  lemma {:induction false} NodeBinds(node: Node, ctx: Context, classes: Classes, counter: nat, src: set<Marked>)
    requires Elements(node, ctx) <= src
    ensures AllBind(CompileNode(node, ctx, classes, counter).nodes, src)
    decreases Weight(node), 3, 0
  {
    hide AllBind, CompileElement, Interpolate, ElementsAll, Elements, Covers;
    match node
    case TextNode(source) =>
      NothingBinds(src);
      var r := RenderNode(NextId("text", counter), TextKind, Some(Interpolate(source, ctx).value), map[], map[], [], []);
      OneBinds(r, src);
    case Element(tag, attrs, children) =>
      ElementCovers(node, ctx, src);
      ElementBinds(node, attrs, ctx, classes, counter, src);
  }

  lemma {:induction false} ElementBinds(e: Node, given: Attrs, ctx: Context, classes: Classes, counter: nat, src: set<Marked>)
    requires e.Element? && Covers(e, given, ctx, src)
    ensures AllBind(CompileElement(e, ctx, classes, counter).nodes, src)
    decreases Weight(e), if "wx:for" in e.attrs then 2 else 0, 0
  {
    hide AllBind, ConditionOf, SinglePath, Resolve, CompileRounds, CompileOne, Covers;
    NothingBinds(src);
    if "wx:for" in e.attrs {
      var path := SinglePath(e.attrs["wx:for"]);
      if path.Some? {
        var v := Resolve(ctx, path.value);
        if v.Some? && v.value.Arr? {
          RoundsBind(e, given, v.value.items, 0, ctx, classes, counter, src);
        }
      }
    } else {
      OneElementBinds(e, given, ctx, classes, counter, src);
    }
  }

  lemma {:induction false} RoundsBind(e: Node, given: Attrs, items: seq<Value>, i: nat, ctx: Context, classes: Classes, counter: nat,
                                      src: set<Marked>)
    requires e.Element? && "wx:for" in e.attrs && items == LoopItems(e.attrs, ctx) && i <= |items|
    requires Covers(e, given, ctx, src)
    ensures AllBind(CompileRounds(e, items, i, ctx, classes, counter).nodes, src)
    decreases Weight(e), 0, 1 + |items| - i
  {
    hide AllBind, CompileElement, CompileRounds, Covers, LoopItems, LoopContext, RoundAttrs;
    if i == |items| {
      RoundsDone(e, items, ctx, classes, counter);
      NothingBinds(src);
    } else {
      RoundsStep(e, items, i, ctx, classes, counter);
      var loop := LoopContext(e.attrs, items, i, ctx);
      var copy := Element(e.tag, RoundAttrs(e.attrs, loop), e.children);
      CopyCovers(e, given, items, i, ctx, src);
      NotALoop(e.attrs, loop);
      ElementBinds(copy, given, loop, classes, counter, src);
      var round := CompileElement(copy, loop, classes, counter);
      RoundsBind(e, given, items, i + 1, ctx, classes, round.counter, src);
      ThenBinds(round, CompileRounds(e, items, i + 1, ctx, classes, round.counter), src);
    }
  }

  lemma {:induction false} OneElementBinds(e: Node, given: Attrs, ctx: Context, classes: Classes, counter: nat, src: set<Marked>)
    requires e.Element? && "wx:for" !in e.attrs && Covers(e, given, ctx, src)
    ensures AllBind(CompileOne(e, ctx, classes, counter).nodes, src)
    decreases Weights(e.children), 5, 0
  {
    assert CoversIn(e, given, ctx, src);
    hide AllBind, CompileChildren, ApplyAttrs, KindOf, NextId, Collapse, SameMarks, ElementsAll, BindsOf;
    ChildrenBind(e.children, ctx, classes, counter + 1, src);
    var kids := CompileChildren(e.children, ctx, classes, counter + 1);
    var kind := KindOf(e.tag);
    var applied := ApplyAttrs(e.tag, e.attrs, ctx, classes);
    forall b | b in applied.events ensures BindsOfAny(b, src) {
      AppliedBinds(e.tag, e.attrs, ctx, classes, b);
      SameBinds(b, e.tag, given, e.attrs, ctx);
      var s := (e.tag, given, ctx);
      assert s in src && BindsOf(b, s.0, s.1, s.2);
    }
    var node := RenderNode(NextId(e.tag, counter), if kind.Some? then kind.value else View, None,
                           applied.props, applied.style, applied.events, kids.nodes);
    OneBinds(node, src);
  }

  lemma {:induction false} ChildrenBind(nodes: seq<Node>, ctx: Context, classes: Classes, counter: nat, src: set<Marked>)
    requires ElementsAll(nodes, ctx) <= src
    ensures AllBind(CompileChildren(nodes, ctx, classes, counter).nodes, src)
    decreases Weights(nodes), 4, |nodes|
  {
    hide AllBind, CompileNode, Elements;
    if nodes == [] {
      NothingBinds(src);
    } else {
      NodeBinds(nodes[0], ctx, classes, counter, src);
      var first := CompileNode(nodes[0], ctx, classes, counter);
      ChildrenBind(nodes[1..], ctx, classes, first.counter, src);
      ThenBinds(first, CompileChildren(nodes[1..], ctx, classes, first.counter), src);
    }
  }

  /**
    Whatever the template, the sheet and the data: every binding in the tree is that of one element of the template, and
    carries all `data-*` attributes of this element and no others, with their values in a scope that is the data
    extended by one item of each loop around the element.
   */
  lemma EveryBindingHasItsData(wxml: string, wxss: string, data: Value)
    requires Compile(wxml, wxss, data).Ok?
    ensures forall b | b in Bound(Compile(wxml, wxss, data).value.0) ::
      BindsOfAny(b, Elements(Parse(wxml).value, Context(data, map[])))
  {
    hide Parse, CompileNode, BindsOfAny, Elements;
    var tree, ctx := Parse(wxml).value, Context(data, map[]);
    var output := CompileNode(tree, ctx, Wxss.ParseSheet(wxss).classes, 0);
    NodeBinds(tree, ctx, Wxss.ParseSheet(wxss).classes, 0, Elements(tree, ctx));
  }
}
