/** Renaming a name in a whole template: the compiled tree is the same exactly when the keys of its loops stay. */
module CompilerTrees {
  import opened Wrappers
  import opened Wxml
  import opened Binding
  import opened Compiler
  import opened CompilerScope
  import opened CompilerRename
  import Json
  import Order

  // ----- the render key in the tree -----

  lemma KeyProp(acc: Applied, tag: string, name: string, value: string, ctx: Context)
    ensures var r := ApplyAttr(acc, tag, name, value, ctx);
      if name == RENDER_KEY then "key" in r.props && r.props["key"] == Json.Str(value)
      else ("key" in r.props <==> "key" in acc.props) && ("key" in acc.props ==> r.props["key"] == acc.props["key"])
  {
    hide InterpolateValue, DataKey, SetDataset, Repeat, BoundEvent;
    assert "key"[0] == 'k' && "src"[0] == 's' && "scrollX"[0] == 's' && "scrollY"[0] == 's';
    KindsOfNames(tag, name);
    assert forall n | n in IGNORED :: n[0] != 'd';
    assert RENDER_KEY[0] == 'd';
    KeyBindsNothing(tag);
  }

  lemma KeyBindsNothing(tag: string)
    ensures BoundEvent(tag, RENDER_KEY).None?
  {
    assert RENDER_KEY[0] == 'd' && "bindtap"[0] == "bindload"[0] == "binderror"[0] == 'b';
  }

  lemma {:induction false} KeyProps(acc: Applied, tag: string, attrs: Attrs, names: seq<string>, ctx: Context)
    requires forall n | n in names :: n in attrs
    ensures var r := ApplyNames(acc, tag, attrs, names, ctx);
      if RENDER_KEY in names then "key" in r.props && r.props["key"] == Json.Str(attrs[RENDER_KEY])
      else ("key" in r.props <==> "key" in acc.props) && ("key" in acc.props ==> r.props["key"] == acc.props["key"])
    decreases |names|
  {
    hide ApplyAttr;
    if names != [] {
      KeyProp(acc, tag, names[0], attrs[names[0]], ctx);
      KeyProps(ApplyAttr(acc, tag, names[0], attrs[names[0]], ctx), tag, attrs, names[1..], ctx);
      assert RENDER_KEY in names <==> RENDER_KEY == names[0] || RENDER_KEY in names[1..];
    }
  }

  function KeyOf(attrs: Attrs): Option<string> {
    if RENDER_KEY in attrs then Some(attrs[RENDER_KEY]) else None
  }

  /** An element outside loops compiles to one node, whose `key` is its render key. */
  lemma OneShowsKey(e: Node, ctx: Context, classes: Classes, counter: nat)
    requires e.Element?
    ensures var o := CompileOne(e, ctx, classes, counter);
      && |o.nodes| == 1 && o.counter == CompileChildren(e.children, ctx, classes, counter + 1).counter
      && (match KeyOf(e.attrs)
          case Some(k) => "key" in o.nodes[0].props && o.nodes[0].props["key"] == Json.Str(k)
          case None => "key" !in o.nodes[0].props)
  {
    hide CompileChildren, ApplyNames, InitialStyle, KindOf, NextId, TextOf;
    var s := InitialStyle(e.attrs, classes);
    KeyProps(Applied(s.style, map[], [], s.warnings), e.tag, e.attrs, Order.SortedKeys(e.attrs.Keys), ctx);
  }

  lemma KeyKeepsCondition(attrs: Attrs, k: Option<string>, ctx: Context)
    ensures ConditionOf(WithKey(attrs, k), ctx) == ConditionOf(attrs, ctx)
    ensures "wx:for" in WithKey(attrs, k) <==> "wx:for" in attrs
  {
    hide SinglePath, Truthy;
    assert RENDER_KEY[0] == 'd' && "wx:if"[0] == 'w' && "wx:for"[0] == 'w';
  }

  /** The text of an element outside loops does not depend on its attributes. */
  lemma OneText(e: Node, ctx: Context, classes: Classes, counter: nat)
    requires e.Element?
    ensures var kids := CompileChildren(e.children, ctx, classes, counter + 1).nodes;
      TextOf(CompileOne(e, ctx, classes, counter).nodes) == if KindOf(e.tag) == Some(TextKind) then TextOf(kids) else ""
  {
    hide CompileChildren, ApplyAttrs, KindOf, NextId;
    var nodes := CompileOne(e, ctx, classes, counter).nodes;
    assert nodes[1..] == [];
    assert TextOf(nodes[1..]) == "";
  }

  // ----- outputs that differ in keys at most -----

  /** As many nodes, the same text and the same next id; the same nodes exactly if `same`. */
  ghost predicate Alike(a: Output, b: Output, same: bool) {
    && a.counter == b.counter && |a.nodes| == |b.nodes| && TextOf(a.nodes) == TextOf(b.nodes)
    && (a.nodes == b.nodes <==> same)
  }

  lemma {:induction false} TextConcat(a: seq<RenderNode>, b: seq<RenderNode>)
    ensures TextOf(a + b) == TextOf(a) + TextOf(b)
    decreases |a|
  {
    if a == [] {
      assert a + b == b;
    } else {
      assert (a + b)[1..] == a[1..] + b;
      TextConcat(a[1..], b);
    }
  }

  lemma SplitEqual(a: seq<RenderNode>, p: seq<RenderNode>, b: seq<RenderNode>, q: seq<RenderNode>)
    requires |a| == |b|
    ensures a + p == b + q <==> a == b && p == q
  {
    if a + p == b + q {
      assert a == (a + p)[..|a|] && b == (b + q)[..|b|];
      assert p == (a + p)[|a|..] && q == (b + q)[|b|..];
    }
  }

  lemma ThenAlike(a: Output, p: Output, b: Output, q: Output, one: bool, two: bool)
    requires Alike(a, b, one) && Alike(p, q, two)
    ensures Alike(Then(a, p), Then(b, q), one && two)
  {
    hide TextOf;
    TextConcat(a.nodes, p.nodes);
    TextConcat(b.nodes, q.nodes);
    SplitEqual(a.nodes, p.nodes, b.nodes, q.nodes);
  }

  lemma AlikeItself(a: Output, b: Output)
    requires SameTree(a, b)
    ensures Alike(a, b, true)
  {
  }

  // ----- copies under two keys -----

  /** The copies of an element under two render keys: the same tree exactly when they are not shown or the keys agree. */
  lemma KeyedCopies(e: Node, attrs: Attrs, k: Option<string>, l: Option<string>, ctx: Context, classes: Classes, counter: nat)
    requires e.Element? && "wx:for" !in attrs
    ensures var a := CompileElement(Element(e.tag, WithKey(attrs, k), e.children), ctx, classes, counter);
      var b := CompileElement(Element(e.tag, WithKey(attrs, l), e.children), ctx, classes, counter);
      Alike(a, b, ConditionOf(attrs, ctx).Holds? ==> k == l)
  {
    hide CompileOne, CompileLoop, CompileChildren, TextOf;
    var a, b := Element(e.tag, WithKey(attrs, k), e.children), Element(e.tag, WithKey(attrs, l), e.children);
    assert RENDER_KEY[0] == 'd' && "wx:if"[0] == 'w' && "wx:for"[0] == 'w';
    KeyKeepsCondition(attrs, k, ctx);
    KeyKeepsCondition(attrs, l, ctx);
    OneShowsKey(a, ctx, classes, counter);
    OneShowsKey(b, ctx, classes, counter);
    OneText(a, ctx, classes, counter);
    OneText(b, ctx, classes, counter);
    assert KeyOf(a.attrs) == k && KeyOf(b.attrs) == l;
    hide ConditionOf;
  }

  /** The nodes, if there are any, start with one that shows the key. */
  ghost predicate Shows(o: Output, key: Option<string>) {
    o.nodes != [] ==>
      match key
      case Some(k) => "key" in o.nodes[0].props && o.nodes[0].props["key"] == Json.Str(k)
      case None => "key" !in o.nodes[0].props
  }

  /** An element outside loops: one node under its render key if its condition holds, and otherwise nothing. */
  lemma ShowsKey(e: Node, ctx: Context, classes: Classes, counter: nat)
    requires e.Element? && "wx:for" !in e.attrs
    ensures var o := CompileElement(e, ctx, classes, counter);
      && Shows(o, KeyOf(e.attrs))
      && |o.nodes| == (if ConditionOf(e.attrs, ctx).Holds? then 1 else 0)
      && (o.nodes == [] ==> o.counter == counter)
  {
    hide CompileOne, CompileLoop, ConditionOf;
    OneShowsKey(e, ctx, classes, counter);
  }

  /** A renamed copy under key `k`, the copy under `k`, and the copy under `l`. */
  lemma Compose(a: Output, m: Output, b: Output, k: Option<string>, l: Option<string>, shown: bool, body: bool)
    requires Alike(a, m, shown ==> body) && Alike(m, b, shown ==> k == l)
    requires Shows(a, k) && Shows(b, l) && |b.nodes| == (if shown then 1 else 0)
    ensures Alike(a, b, shown ==> k == l && body)
  {
    hide TextOf;
    if shown && a.nodes == b.nodes {
      assert k == l;
    }
  }

  lemma RoundHasCondition(attrs: Attrs, loop: Context)
    ensures "wx:for" !in RoundAttrs(attrs, loop)
    ensures ConditionOf(RoundAttrs(attrs, loop), loop) == ConditionOf(attrs, loop)
    ensures KeyOf(RoundAttrs(attrs, loop)) == RoundKey(attrs, loop)
  {
    hide ResolveKey, KeyText, ItemName, SinglePath, Truthy;
    assert "wx:for" in LOOP_NAMES && "wx:if" !in LOOP_NAMES;
    assert RENDER_KEY[0] == 'd' && "wx:if"[0] == 'w' && "wx:for"[0] == 'w';
  }

  // ----- the keys that must stay -----

  /** The keys of the loops among the children of an element; a text element shows none of them. */
  ghost predicate BodyStays(tag: string, children: seq<Node>, c: Context, d: Context, x: string, y: string)
    decreases children, 1
  {
    KindOf(tag) == Some(TextKind) || AllStay(children, c, d, x, y)
  }

  ghost predicate AllStay(nodes: seq<Node>, c: Context, d: Context, x: string, y: string)
    decreases nodes, 0
  {
    forall i | 0 <= i < |nodes| :: KeysStay(nodes[i], c, d, x, y)
  }

  /** One round, in scope `c` and in scope `d` with the attributes `other`: if it is shown, its key and those inside it stay. */
  ghost predicate RoundStays(e: Node, other: Attrs, c: Context, d: Context, x: string, y: string)
    requires e.Element?
    decreases e, 0
  {
    ConditionOf(e.attrs, c).Holds? ==>
      RoundKey(other, d) == RoundKey(e.attrs, c) && BodyStays(e.tag, e.children, c, d, x, y)
  }

  /**
    Wherever a loop inside a node shows a round, calling `x` in scope `c` what is `y` in scope `d` leaves its key. A loop
    that binds `x` itself has keys that do not read it.
   */
  ghost predicate KeysStay(node: Node, c: Context, d: Context, x: string, y: string)
    decreases node, 3
  {
    match node
    case TextNode(_) => true
    case Element(tag, attrs, children) =>
      ConditionOf(attrs, c).Holds? ==>
        if "wx:for" !in attrs then BodyStays(tag, children, c, d, x, y)
        else LoopStays(node, c, d, x, y)
  }

  ghost predicate LoopStays(e: Node, c: Context, d: Context, x: string, y: string)
    requires e.Element? && "wx:for" in e.attrs
    decreases e, 2
  {
    forall i | 0 <= i < |LoopItems(e.attrs, c)| :: Stays(e, LoopItems(e.attrs, c), i, c, d, x, y)
  }

  ghost predicate Stays(e: Node, items: seq<Value>, i: nat, c: Context, d: Context, x: string, y: string)
    requires e.Element? && i < |items|
    decreases e, 1
  {
    Rebinds(e.attrs, x) ||
    var other := RenameAttrs(e.tag, e.attrs, x, y);
    RoundStays(e, other, LoopContext(e.attrs, items, i, c), LoopContext(other, items, i, d), x, y)
  }

  // ----- elements -----

  lemma {:induction false} RenamedNode(node: Node, c: Context, d: Context, x: string, y: string, classes: Classes, counter: nat)
    requires IsWord(y) && Related(c, d, x, y) && Allows(node, x, y)
    ensures Alike(CompileNode(Rename(node, x, y), d, classes, counter), CompileNode(node, c, classes, counter),
                  KeysStay(node, c, d, x, y))
    decreases Weight(node), 3, 0
  {
    hide IsWord, Related, RenameText, RestNames, InterpolateRest, CompileElement, LoopAllows, AllowsAll, RenameAttrs, RenameAll,
      BodyStays, LoopStays, ConditionOf;
    match node
    case TextNode(source) =>
      RenamedText(source, RenameText(source, x, y), source, c, d, x, y);
    case Element(_, _, _) =>
      RenamedElement(node, c, d, x, y, classes, counter);
  }

  lemma {:induction false} RenamedElement(e: Node, c: Context, d: Context, x: string, y: string, classes: Classes, counter: nat)
    requires e.Element? && IsWord(y) && Related(c, d, x, y) && Allows(e, x, y)
    ensures Rename(e, x, y).Element?
    ensures Alike(CompileElement(Rename(e, x, y), d, classes, counter), CompileElement(e, c, classes, counter),
                  KeysStay(e, c, d, x, y))
    decreases Weight(e), if "wx:for" in e.attrs then 2 else 0, 0
  {
    hide IsWord, Related, ConditionOf, CompileLoop, CompileOne, Allows, Rename, BodyStays, LoopStays;
    RenamedCondition'(e, c, d, x, y);
    RenameKeepsLoop(e, x, y);
    if "wx:for" in e.attrs {
      RenamedLoop(e, c, d, x, y, classes, counter);
    } else {
      RenamedOne(e, c, d, x, y, classes, counter);
    }
  }

  lemma {:induction false} RenamedLoop(e: Node, c: Context, d: Context, x: string, y: string, classes: Classes, counter: nat)
    requires e.Element? && "wx:for" in e.attrs && IsWord(y) && Related(c, d, x, y) && Allows(e, x, y)
    ensures Rename(e, x, y).Element? && "wx:for" in Rename(e, x, y).attrs
    ensures Alike(CompileLoop(Rename(e, x, y), d, classes, counter), CompileLoop(e, c, classes, counter),
                  LoopStays(e, c, d, x, y))
    decreases Weight(e), 1, 0
  {
    RenameKeepsLoop(e, x, y);
    LoopUnread(e, x, y);
    hide *;
    var r := Rename(e, x, y);
    SameItems(e, r, c, d, x, y);
    LoopIsRounds(e, c, classes, counter);
    LoopIsRounds(r, d, classes, counter);
    RenamedRounds(e, c, d, x, y, classes, counter);
    AlikeBy(CompileRounds(r, LoopItems(e.attrs, c), 0, d, classes, counter), CompileRounds(e, LoopItems(e.attrs, c), 0, c, classes, counter),
            CompileLoop(r, d, classes, counter), CompileLoop(e, c, classes, counter), LoopStays(e, c, d, x, y));
  }

  lemma AlikeBy(p: Output, q: Output, a: Output, b: Output, same: bool)
    requires Alike(p, q, same) && SameTree(a, p) && SameTree(b, q)
    ensures Alike(a, b, same)
  {
  }

  lemma SameItems(e: Node, r: Node, c: Context, d: Context, x: string, y: string)
    requires e.Element? && r.Element? && "wx:for" in e.attrs && "wx:for" in r.attrs
    requires r.attrs["wx:for"] == RenameSingle(e.attrs["wx:for"], x, y)
    requires IsWord(y) && Related(c, d, x, y) && y !in SingleNames(e.attrs["wx:for"])
    ensures LoopItems(r.attrs, d) == LoopItems(e.attrs, c)
  {
    hide IsWord, Related, RenamePath, IsSupportedPath, PathNames, SinglePath, Resolve, RenameSingle;
    var s := e.attrs["wx:for"];
    RenamedSingle(s, x, y);
    if SinglePath(s).Some? {
      SingleIsSupported(s);
      RenamedResolve(SinglePath(s).value, c, d, x, y);
    }
  }

  lemma LoopIsRounds(e: Node, ctx: Context, classes: Classes, counter: nat)
    requires e.Element? && "wx:for" in e.attrs
    ensures SameTree(CompileLoop(e, ctx, classes, counter), CompileRounds(e, LoopItems(e.attrs, ctx), 0, ctx, classes, counter))
  {
    hide CompileLoop, CompileRounds, SinglePath, Resolve;
    LoopStep(e, ctx, classes, counter);
    RoundsDone(e, [], ctx, classes, counter);
  }

  // ----- rounds -----

  function Round(e: Node, items: seq<Value>, i: nat, ctx: Context, classes: Classes, counter: nat): Output
    requires e.Element? && i < |items|
  {
    var loop := LoopContext(e.attrs, items, i, ctx);
    CompileElement(Element(e.tag, RoundAttrs(e.attrs, loop), e.children), loop, classes, counter)
  }

  lemma RoundsUnfold(e: Node, items: seq<Value>, i: nat, ctx: Context, classes: Classes, counter: nat)
    requires e.Element? && "wx:for" in e.attrs && i < |items|
    ensures var round := Round(e, items, i, ctx, classes, counter);
      CompileRounds(e, items, i, ctx, classes, counter) ==
      Then(round, CompileRounds(e, items, i + 1, ctx, classes, round.counter))
  {
    hide CompileElement, RoundAttrs, LoopContext;
    RoundsStep(e, items, i, ctx, classes, counter);
  }

  /** From a round on, two loops over the same items whose rounds are alike one by one. */
  lemma {:induction false} RoundsAlike(e: Node, r: Node, items: seq<Value>, i: nat, c: Context, d: Context, same: seq<bool>,
                                       classes: Classes, counter: nat)
    requires e.Element? && r.Element? && "wx:for" in e.attrs && "wx:for" in r.attrs && i <= |items| == |same|
    requires forall k: nat, n: nat | k < |items| :: Alike(Round(r, items, k, d, classes, n), Round(e, items, k, c, classes, n), same[k])
    ensures Alike(CompileRounds(r, items, i, d, classes, counter), CompileRounds(e, items, i, c, classes, counter),
                  forall k | i <= k < |items| :: same[k])
    decreases |items| - i
  {
    hide CompileRounds, Round, Alike;
    if i == |items| {
      RoundsDone(e, items, c, classes, counter);
      RoundsDone(r, items, d, classes, counter);
      AlikeItself(Output([], [], counter), Output([], [], counter));
    } else {
      RoundsUnfold(e, items, i, c, classes, counter);
      RoundsUnfold(r, items, i, d, classes, counter);
      var a, b := Round(r, items, i, d, classes, counter), Round(e, items, i, c, classes, counter);
      assert Alike(a, b, same[i]);
      SameCounter(a, b, same[i]);
      RoundsAlike(e, r, items, i + 1, c, d, same, classes, b.counter);
      var rest := forall k | i + 1 <= k < |items| :: same[k];
      ThenAlike(a, CompileRounds(r, items, i + 1, d, classes, a.counter), b, CompileRounds(e, items, i + 1, c, classes, b.counter),
                same[i], rest);
      assert (same[i] && rest) == forall k | i <= k < |items| :: same[k];
    }
  }

  lemma SameCounter(a: Output, b: Output, same: bool)
    requires Alike(a, b, same)
    ensures a.counter == b.counter
  {
  }

  lemma {:induction false} RenamedRounds(e: Node, c: Context, d: Context, x: string, y: string, classes: Classes, counter: nat)
    requires e.Element? && "wx:for" in e.attrs && IsWord(y) && Related(c, d, x, y) && Allows(e, x, y)
    ensures Rename(e, x, y).Element? && "wx:for" in Rename(e, x, y).attrs
    ensures var items := LoopItems(e.attrs, c);
      Alike(CompileRounds(Rename(e, x, y), items, 0, d, classes, counter), CompileRounds(e, items, 0, c, classes, counter),
            LoopStays(e, c, d, x, y))
    decreases Weight(e), 0, 3
  {
    RenameKeepsLoop(e, x, y);
    var r, items := Rename(e, x, y), LoopItems(e.attrs, c);
    ghost var same := seq(|items|, i requires 0 <= i < |items| => Stays(e, items, i, c, d, x, y));
    StaysIsLoop(e, c, d, x, y, same);
    hide *;
    forall k: nat, n: nat | k < |items|
      ensures Alike(Round(r, items, k, d, classes, n), Round(e, items, k, c, classes, n), same[k])
    {
      RenamedNthRound(e, r, items, k, c, d, x, y, classes, n);
    }
    RoundsAlike(e, r, items, 0, c, d, same, classes, counter);
  }

  lemma StaysIsLoop(e: Node, c: Context, d: Context, x: string, y: string, same: seq<bool>)
    requires e.Element? && "wx:for" in e.attrs && |same| == |LoopItems(e.attrs, c)|
    requires forall i: nat | i < |same| :: same[i] == Stays(e, LoopItems(e.attrs, c), i, c, d, x, y)
    ensures LoopStays(e, c, d, x, y) == forall i | 0 <= i < |same| :: same[i]
  {
    hide Stays, LoopItems;
  }

  lemma {:induction false} RenamedNthRound(e: Node, r: Node, items: seq<Value>, i: nat, c: Context, d: Context,
                                           x: string, y: string, classes: Classes, counter: nat)
    requires e.Element? && "wx:for" in e.attrs && i < |items| && r == Rename(e, x, y) && r.Element?
    requires IsWord(y) && Related(c, d, x, y) && Allows(e, x, y)
    ensures Alike(Round(r, items, i, d, classes, counter), Round(e, items, i, c, classes, counter), Stays(e, items, i, c, d, x, y))
    decreases Weight(e), 0, 2
  {
    RenameKeepsLoop(e, x, y);
    var loop, loop' := LoopContext(e.attrs, items, i, c), LoopContext(r.attrs, items, i, d);
    var a, b := Round(r, items, i, d, classes, counter), Round(e, items, i, c, classes, counter);
    if Rebinds(e.attrs, x) {
      ReboundAllows(e, x, y);
      ReboundStays(e, items, i, c, d, x, y);
      hide *;
      ReboundRound(e.attrs, r.attrs, items, i, KeyNames(e.attrs) + BodyNames(e), c, d, x, y);
      ReboundSame(e, r.attrs, loop, loop', classes, counter);
      RoundIs(e, items, i, c, classes, counter);
      RoundIs(r, items, i, d, classes, counter);
      AlikeItself(a, b);
    } else {
      LoopAllowed(e, x, y);
      StaysByRound(e, r, items, i, c, d, x, y);
      hide *;
      RelatedInRound(e.attrs, r.attrs, items, i, c, d, x, y);
      RenamedRound(e, r.attrs, loop, loop', x, y, classes, counter);
      RoundIs(e, items, i, c, classes, counter);
      RoundIs(r, items, i, d, classes, counter);
    }
  }

  lemma ReboundStays(e: Node, items: seq<Value>, i: nat, c: Context, d: Context, x: string, y: string)
    requires e.Element? && i < |items| && Rebinds(e.attrs, x)
    ensures Stays(e, items, i, c, d, x, y)
  {
    hide RoundStays, LoopContext, RenameAttrs;
  }

  lemma StaysByRound(e: Node, r: Node, items: seq<Value>, i: nat, c: Context, d: Context, x: string, y: string)
    requires e.Element? && i < |items| && !Rebinds(e.attrs, x) && r == Rename(e, x, y)
    ensures r.Element?
    ensures Stays(e, items, i, c, d, x, y) ==
            RoundStays(e, r.attrs, LoopContext(e.attrs, items, i, c), LoopContext(r.attrs, items, i, d), x, y)
  {
    hide RoundStays, LoopContext, RenameAttrs;
  }

  lemma RoundIs(e: Node, items: seq<Value>, i: nat, ctx: Context, classes: Classes, counter: nat)
    requires e.Element? && i < |items|
    ensures var loop := LoopContext(e.attrs, items, i, ctx);
      Round(e, items, i, ctx, classes, counter) ==
      CompileElement(Element(e.tag, RoundAttrs(e.attrs, loop), e.children), loop, classes, counter)
  {
    hide CompileElement, LoopContext, RoundAttrs;
  }

  /** One round of a loop whose element is renamed, in related scopes. */
  lemma {:induction false} RenamedRound(e: Node, other: Attrs, c: Context, d: Context, x: string, y: string,
                                        classes: Classes, counter: nat)
    requires e.Element? && "wx:for" in e.attrs && IsWord(y) && Related(c, d, x, y)
    requires y !in ConditionNames(e.attrs) && y !in AttrNames(e.tag, e.attrs) && AllowsAll(e.children, x, y)
    requires other.Keys - LOOP_NAMES == e.attrs.Keys - LOOP_NAMES
    requires forall n | n in e.attrs.Keys - LOOP_NAMES :: n in other && other[n] == RenameAttr(e.tag, n, e.attrs[n], x, y)
    ensures Alike(CompileElement(Element(e.tag, RoundAttrs(other, d), RenameAll(e.children, x, y)), d, classes, counter),
                  CompileElement(Element(e.tag, RoundAttrs(e.attrs, c), e.children), c, classes, counter),
                  RoundStays(e, other, c, d, x, y))
    decreases Weight(e), 0, 1
  {
    var k, l := RoundKey(other, d), RoundKey(e.attrs, c);
    CopyWeighs(e, WithKey(RoundAttrs(e.attrs, c), k));
    hide *;
    var attrs := RoundAttrs(e.attrs, c);
    var copy, own := Element(e.tag, WithKey(attrs, k), e.children), Element(e.tag, attrs, e.children);
    var renamed := Element(e.tag, RoundAttrs(other, d), RenameAll(e.children, x, y));
    RenamedRoundAttrs(e.tag, e.attrs, other, c, d, x, y);
    CopyAllows(e, c, k, x, y);
    RenamedElement(copy, c, d, x, y, classes, counter);
    RoundHasCondition(e.attrs, c);
    RoundHasCondition(other, d);
    KeyedCopies(e, attrs, k, l, c, classes, counter);
    OwnKey(e.attrs, c);
    KeyedStays(e, attrs, k, c, d, x, y);
    ShowsKey(renamed, d, classes, counter);
    ShowsKey(own, c, classes, counter);
    StaysIs(e, other, c, d, x, y);
    Compose(CompileElement(renamed, d, classes, counter), CompileElement(copy, c, classes, counter),
            CompileElement(own, c, classes, counter), k, l, ConditionOf(e.attrs, c).Holds?, BodyStays(e.tag, e.children, c, d, x, y));
  }

  lemma KeyedStays(e: Node, attrs: Attrs, k: Option<string>, c: Context, d: Context, x: string, y: string)
    requires e.Element? && "wx:for" !in attrs
    ensures KeysStay(Element(e.tag, WithKey(attrs, k), e.children), c, d, x, y) <==>
            (ConditionOf(attrs, c).Holds? ==> BodyStays(e.tag, e.children, c, d, x, y))
  {
    KeyKeepsCondition(attrs, k, c);
    hide ConditionOf, BodyStays, LoopStays;
  }

  lemma StaysIs(e: Node, other: Attrs, c: Context, d: Context, x: string, y: string)
    requires e.Element?
    ensures RoundStays(e, other, c, d, x, y) <==>
            (ConditionOf(e.attrs, c).Holds? ==>
               RoundKey(other, d) == RoundKey(e.attrs, c) && BodyStays(e.tag, e.children, c, d, x, y))
  {
    hide ConditionOf, BodyStays, RoundKey;
  }

  lemma {:induction false} RenamedOne(e: Node, c: Context, d: Context, x: string, y: string, classes: Classes, counter: nat)
    requires e.Element? && "wx:for" !in e.attrs && IsWord(y) && Related(c, d, x, y) && Allows(e, x, y)
    ensures Rename(e, x, y).Element?
    ensures Alike(CompileOne(Rename(e, x, y), d, classes, counter), CompileOne(e, c, classes, counter),
                  BodyStays(e.tag, e.children, c, d, x, y))
    decreases Weights(e.children), 5, 0
  {
    OneAllowed(e, x, y);
    var r := Rename(e, x, y);
    SameApplied(e, c, d, x, y, classes);
    RenamedChildren(e.children, c, d, x, y, classes, counter + 1);
    hide *;
    OneText(e, c, classes, counter);
    OneText(r, d, classes, counter);
    BodyIs(e.tag, e.children, c, d, x, y);
    OneAlike(e, r, c, d, AllStay(e.children, c, d, x, y), classes, counter);
  }

  lemma BodyIs(tag: string, children: seq<Node>, c: Context, d: Context, x: string, y: string)
    ensures BodyStays(tag, children, c, d, x, y) <==> KindOf(tag) == Some(TextKind) || AllStay(children, c, d, x, y)
  {
    hide AllStay, KindOf;
  }

  lemma SameApplied(e: Node, c: Context, d: Context, x: string, y: string, classes: Classes)
    requires e.Element? && IsWord(y) && Related(c, d, x, y) && y !in AttrNames(e.tag, e.attrs)
    ensures Given(ApplyAttrs(e.tag, RenameAttrs(e.tag, e.attrs, x, y), d, classes)) == Given(ApplyAttrs(e.tag, e.attrs, c, classes))
  {
    hide IsWord, Related, RenameAttrs, AttrNames, ApplyNames, InitialStyle;
    StyleKept(e.tag, e.attrs, classes, x, y);
    var s := InitialStyle(e.attrs, classes);
    RenamedApplies(Applied(s.style, map[], [], s.warnings), Applied(s.style, map[], [], s.warnings),
                   e.tag, e.attrs, Order.SortedKeys(e.attrs.Keys), c, d, x, y);
  }

  /** Two elements alike in attributes and children; one that collapses to text keeps only the children's text. */
  lemma OneAlike(e: Node, r: Node, c: Context, d: Context, kept: bool, classes: Classes, counter: nat)
    requires e.Element? && r.Element? && r.tag == e.tag
    requires Given(ApplyAttrs(r.tag, r.attrs, d, classes)) == Given(ApplyAttrs(e.tag, e.attrs, c, classes))
    requires Alike(CompileChildren(r.children, d, classes, counter + 1), CompileChildren(e.children, c, classes, counter + 1), kept)
    requires TextOf(CompileOne(r, d, classes, counter).nodes) ==
             if KindOf(e.tag) == Some(TextKind) then TextOf(CompileChildren(r.children, d, classes, counter + 1).nodes) else ""
    requires TextOf(CompileOne(e, c, classes, counter).nodes) ==
             if KindOf(e.tag) == Some(TextKind) then TextOf(CompileChildren(e.children, c, classes, counter + 1).nodes) else ""
    ensures Alike(CompileOne(r, d, classes, counter), CompileOne(e, c, classes, counter), KindOf(e.tag) == Some(TextKind) || kept)
  {
    hide CompileChildren, ApplyAttrs, KindOf, NextId, TextOf;
  }

  lemma {:induction false} RenamedChildren(nodes: seq<Node>, c: Context, d: Context, x: string, y: string,
                                           classes: Classes, counter: nat)
    requires IsWord(y) && Related(c, d, x, y) && AllowsAll(nodes, x, y)
    ensures Alike(CompileChildren(RenameAll(nodes, x, y), d, classes, counter), CompileChildren(nodes, c, classes, counter),
                  AllStay(nodes, c, d, x, y))
    decreases Weights(nodes), 4, |nodes|
  {
    hide IsWord, Related, CompileNode, Allows, Rename, KeysStay, Alike, AllStay;
    AllStayStep(nodes, c, d, x, y);
    if nodes == [] {
      AlikeItself(Output([], [], counter), Output([], [], counter));
    } else {
      RenamedNode(nodes[0], c, d, x, y, classes, counter);
      var a, b := CompileNode(Rename(nodes[0], x, y), d, classes, counter), CompileNode(nodes[0], c, classes, counter);
      SameCounter(a, b, KeysStay(nodes[0], c, d, x, y));
      RenamedChildren(nodes[1..], c, d, x, y, classes, b.counter);
      assert RenameAll(nodes, x, y)[1..] == RenameAll(nodes[1..], x, y);
      ThenAlike(a, CompileChildren(RenameAll(nodes[1..], x, y), d, classes, a.counter), b, CompileChildren(nodes[1..], c, classes, b.counter),
                KeysStay(nodes[0], c, d, x, y), AllStay(nodes[1..], c, d, x, y));
    }
  }

  lemma AllStayStep(nodes: seq<Node>, c: Context, d: Context, x: string, y: string)
    ensures AllStay(nodes, c, d, x, y) <==>
            nodes == [] || (KeysStay(nodes[0], c, d, x, y) && AllStay(nodes[1..], c, d, x, y))
  {
    hide KeysStay;
    if nodes != [] && KeysStay(nodes[0], c, d, x, y) && AllStay(nodes[1..], c, d, x, y) {
      forall i | 0 <= i < |nodes| ensures KeysStay(nodes[i], c, d, x, y) {
        if i > 0 {
          assert nodes[i] == nodes[1..][i - 1];
        }
      }
    }
    if AllStay(nodes, c, d, x, y) && nodes != [] {
      forall i | 0 <= i < |nodes[1..]| ensures KeysStay(nodes[1..][i], c, d, x, y) {
        assert nodes[1..][i] == nodes[i + 1];
      }
    }
  }

  // ----- what can be told from the template -----

  /** Every inner loop that reads `x` in its key reads it in the value `v` of `x`, and not in a field of its items. */
  predicate KeysKept(node: Node, x: string, v: Option<Value>)
    decreases node, 0
  {
    node.Element? && !Rebinds(node.attrs, x) ==>
      && ("wx:for" in node.attrs ==> KeyAllows(node.attrs, x, v))
      && AllKeysKept(node.children, x, v)
  }

  predicate AllKeysKept(nodes: seq<Node>, x: string, v: Option<Value>)
    decreases nodes, 1
  {
    nodes == [] || (KeysKept(nodes[0], x, v) && AllKeysKept(nodes[1..], x, v))
  }

  lemma {:induction false} KeptKeysStay(node: Node, c: Context, d: Context, x: string, y: string)
    requires IsWord(y) && Related(c, d, x, y) && Allows(node, x, y) && KeysKept(node, x, LookupName(c, x))
    ensures KeysStay(node, c, d, x, y)
    decreases node, 2
  {
    if node.Element? {
      if "wx:for" in node.attrs {
        KeptLoopStays(node, c, d, x, y);
        hide *;
        ElementStays(node, c, d, x, y);
      } else {
        OneAllowed(node, x, y);
        assert AllKeysKept(node.children, x, LookupName(c, x));
        hide *;
        AllKeptStay(node.children, c, d, x, y);
        BodyIs(node.tag, node.children, c, d, x, y);
        ElementStays(node, c, d, x, y);
      }
    } else {
      hide IsWord, Related, Allows, LookupName;
    }
  }

  lemma ElementStays(e: Node, c: Context, d: Context, x: string, y: string)
    requires e.Element?
    requires if "wx:for" in e.attrs then LoopStays(e, c, d, x, y) else BodyStays(e.tag, e.children, c, d, x, y)
    ensures KeysStay(e, c, d, x, y)
  {
    hide LoopStays, BodyStays, ConditionOf;
  }

  lemma {:induction false} KeptLoopStays(e: Node, c: Context, d: Context, x: string, y: string)
    requires e.Element? && "wx:for" in e.attrs
    requires IsWord(y) && Related(c, d, x, y) && Allows(e, x, y) && KeysKept(e, x, LookupName(c, x))
    ensures LoopStays(e, c, d, x, y)
    decreases e, 1
  {
    hide IsWord, Related, LookupName, Allows, KeysKept, Stays, LoopItems;
    var items := LoopItems(e.attrs, c);
    forall i: nat | i < |items| ensures Stays(e, items, i, c, d, x, y) {
      if Rebinds(e.attrs, x) {
        ReboundStays(e, items, i, c, d, x, y);
      } else {
        KeptRoundStays(e, items, i, c, d, x, y);
      }
    }
  }

  lemma {:induction false} KeptRoundStays(e: Node, items: seq<Value>, i: nat, c: Context, d: Context, x: string, y: string)
    requires e.Element? && "wx:for" in e.attrs && !Rebinds(e.attrs, x) && i < |items|
    requires IsWord(y) && Related(c, d, x, y) && Allows(e, x, y) && KeysKept(e, x, LookupName(c, x))
    ensures Stays(e, items, i, c, d, x, y)
    decreases e, 0
  {
    LoopAllowed(e, x, y);
    RenameKeepsLoop(e, x, y);
    var r := Rename(e, x, y);
    StaysByRound(e, r, items, i, c, d, x, y);
    assert KeyAllows(e.attrs, x, LookupName(c, x)) && AllKeysKept(e.children, x, LookupName(c, x));
    hide *;
    var loop, loop' := LoopContext(e.attrs, items, i, c), LoopContext(r.attrs, items, i, d);
    RelatedInRound(e.attrs, r.attrs, items, i, c, d, x, y);
    KeyIsRenamed(e.tag, e.attrs, r.attrs, x, y);
    if "wx:key" in e.attrs {
      AllowedKey(e.attrs, r.attrs, loop, loop', x, y);
    }
    SameRoundKey(e.tag, e.attrs, r.attrs, loop, loop', x, y);
    AllKeptStay(e.children, loop, loop', x, y);
    BodyIs(e.tag, e.children, loop, loop', x, y);
    StaysIs(e, r.attrs, loop, loop', x, y);
  }

  lemma {:induction false} AllKeptStay(nodes: seq<Node>, c: Context, d: Context, x: string, y: string)
    requires IsWord(y) && Related(c, d, x, y) && AllowsAll(nodes, x, y) && AllKeysKept(nodes, x, LookupName(c, x))
    ensures AllStay(nodes, c, d, x, y)
    decreases nodes, 3
  {
    hide IsWord, Related, LookupName, Allows, KeysKept, KeysStay, AllStay;
    AllStayStep(nodes, c, d, x, y);
    if nodes != [] {
      KeptKeysStay(nodes[0], c, d, x, y);
      AllKeptStay(nodes[1..], c, d, x, y);
    }
  }
}
