/** The compiler's code: a shared counter and warning list, updated while the tree is walked. */
module CompilerCode {
  import opened Wrappers
  import opened Text
  import opened Wxml
  import opened Wxss
  import opened Binding
  import opened Compiler
  import Json
  import Order
  import Positional
  import WxmlParser

  /** What is threaded through one compilation by mutable reference. */
  class Session {
    const classes: Classes
    var counter: nat
    var warnings: seq<string>

    constructor (classes: Classes, warnings: seq<string>)
      ensures this.classes == classes && this.warnings == warnings && counter == 0
    {
      this.classes := classes;
      this.warnings := warnings;
      counter := 0;
    }

    /** The session moved as `output` says, and these are its nodes. */
    twostate predicate Did(output: Output, nodes: seq<RenderNode>)
      reads this
    {
      && nodes == output.nodes
      && counter == output.counter
      && warnings == old(warnings) + output.warnings
    }

    method NextIdentifier(prefix: string) returns (id: string)
      modifies this`counter
      ensures id == NextId(prefix, old(counter)) && counter == old(counter) + 1
    {
      id := prefix + "-" + Positional.Decimal(counter);
      counter := counter + 1;
    }

    /** One arm of the attribute match; `acc` is the node being filled. */
    method ApplyAttribute(acc: Applied, tag: string, name: string, value: string, ctx: Context) returns (next: Applied)
      requires acc.warnings == []
      modifies this`warnings
      ensures next == ApplyAttr(acc, tag, name, value, ctx).(warnings := [])
      ensures warnings == old(warnings) + ApplyAttr(acc, tag, name, value, ctx).warnings
    {
      hide InterpolateValue, DataKey, SetDataset;
      next := acc;
      if name in IGNORED {
      } else if name == RENDER_KEY {
        next := acc.(props := acc.props["key" := Json.Str(value)]);
      } else if name == "bindtap" {
        next := acc.(events := acc.events + [EventBinding(Tap, value, map[])]);
      } else if name == "bindload" && tag == "image" {
        next := acc.(events := acc.events + [EventBinding(ImageLoad, value, map[])]);
      } else if name == "binderror" && tag == "image" {
        next := acc.(events := acc.events + [EventBinding(ImageError, value, map[])]);
      } else if name == "src" && tag == "image" {
        var v := InterpolateValue(value, ctx);
        next := acc.(props := acc.props["src" := v.value]);
        warnings := warnings + v.warnings;
      } else if name == "scroll-x" && tag == "scroll-view" {
        next := acc.(props := acc.props["scrollX" := Json.Bool(value != "false")]);
      } else if name == "scroll-y" && tag == "scroll-view" {
        next := acc.(props := acc.props["scrollY" := Json.Bool(value != "false")]);
      } else if StartsWith(name, DATA) {
        var events := FillDataset(acc.events, DataKey(name), value, ctx);
        next := acc.(events := events);
      }
    }

    /** Every event binding gets the value, which is interpolated anew for each of them. */
    method FillDataset(events: seq<EventBinding>, key: string, value: string, ctx: Context) returns (r: seq<EventBinding>)
      modifies this`warnings
      ensures var v := InterpolateValue(value, ctx);
        r == SetDataset(events, key, v.value) && warnings == old(warnings) + Repeat(v.warnings, |events|)
    {
      hide InterpolateValue, Repeat, SetDataset;
      r := [];
      RepeatNever(InterpolateValue(value, ctx).warnings);
      ghost var v := InterpolateValue(value, ctx);
      for i := 0 to |events|
        invariant |r| == i && forall j | 0 <= j < i :: r[j] == SetDataset(events, key, v.value)[j]
        invariant warnings == old(warnings) + Repeat(v.warnings, i)
      {
        var inserted := InterpolateValue(value, ctx);
        RepeatOnce(v.warnings, i);
        warnings := warnings + inserted.warnings;
        assert warnings == old(warnings) + (Repeat(v.warnings, i) + v.warnings);
        r := r + [events[i].(dataset := events[i].dataset[key := inserted.value])];
      }
    }

    method ApplyAttributes(tag: string, attrs: Attrs, ctx: Context)
      returns (style: Style, props: map<string, Value>, events: seq<EventBinding>)
      modifies this`warnings
      ensures var a := ApplyAttrs(tag, attrs, ctx, classes);
        style == a.style && props == a.props && events == a.events && warnings == old(warnings) + a.warnings
    {
      hide ApplyAttr, ApplyNames;
      style := InitialStyling(attrs);
      ghost var acc := Applied(style, map[], [], InitialStyle(attrs, classes).warnings);
      ghost var all := ApplyAttrs(tag, attrs, ctx, classes);
      var names := Order.SortedKeys(attrs.Keys);
      var node := Applied(style, map[], [], []);
      assert names[0..] == names;
      for i := 0 to |names|
        invariant all == ApplyNames(acc, tag, attrs, names[i..], ctx)
        invariant node == acc.(warnings := []) && warnings == old(warnings) + acc.warnings
      {
        ApplyNamesStep(acc, tag, attrs, names, i, ctx);
        ApplyAttrAppends(acc, tag, names[i], attrs[names[i]], ctx);
        node := ApplyAttribute(node, tag, names[i], attrs[names[i]], ctx);
        acc := ApplyAttr(acc, tag, names[i], attrs[names[i]], ctx);
      }
      ApplyNamesDone(acc, tag, attrs, ctx);
      assert names[|names|..] == [];
      return node.style, node.props, node.events;
    }

    method InitialStyling(attrs: Attrs) returns (style: Style)
      modifies this`warnings
      ensures var s := InitialStyle(attrs, classes);
        style == s.style && warnings == old(warnings) + s.warnings
    {
      hide Words, Declarations;
      style := map[];
      if "class" in attrs {
        var names := Words(attrs["class"]);
        for i := 0 to |names|
          invariant ApplyClasses(map[], names, classes) == ApplyClasses(style, names[i..], classes)
        {
          assert names[i..][0] == names[i] && names[i..][1..] == names[i + 1..];
          if names[i] in classes {
            style := Merge(style, classes[names[i]]);
          }
        }
      }
      if "style" in attrs {
        var inline, inlineWarnings := ParseDeclarations(attrs["style"]);
        warnings := warnings + inlineWarnings;
        style := Merge(style, inline);
      }
    }

    method CompileTheNode(node: Node, ctx: Context) returns (nodes: seq<RenderNode>)
      modifies this
      ensures Did(CompileNode(node, ctx, classes, old(counter)), nodes)
      decreases Weight(node), 3, 0
    {
      hide CompileElement, Interpolate, Trim;
      match node
      case TextNode(source) =>
        var text := InterpolateText(source, ctx);
        warnings := warnings + text.warnings;
        if Trim(text.value) == "" {
          return [];
        }
        var id := NextIdentifier("text");
        return [RenderNode(id, TextKind, Some(text.value), map[], map[], [], [])];
      case Element(_, _, _) =>
        nodes := CompileTheElement(node, ctx);
    }

    method CompileTheElement(e: Node, ctx: Context) returns (nodes: seq<RenderNode>)
      requires e.Element?
      modifies this
      ensures Did(CompileElement(e, ctx, classes, old(counter)), nodes)
      decreases Weight(e), if "wx:for" in e.attrs then 2 else 0, 0
    {
      hide SinglePath, Truthy, Resolve, CompileRounds, CompileOne;
      if "wx:if" in e.attrs {
        var path := SinglePath(e.attrs["wx:if"]);
        if path.None? {
          warnings := warnings + ["unsupported wx:if expression `" + e.attrs["wx:if"] + "`"];
          return [];
        }
        if !Truthy(ctx, path.value) {
          return [];
        }
      }
      if "wx:for" in e.attrs {
        var path := SinglePath(e.attrs["wx:for"]);
        if path.None? {
          warnings := warnings + ["unsupported wx:for expression `" + e.attrs["wx:for"] + "`"];
          return [];
        }
        var items := Resolve(ctx, path.value);
        if items.None? || !items.value.Arr? {
          return [];
        }
        nodes := CompileTheRounds(e, items.value.items, ctx);
        return;
      }
      nodes := CompileTheOne(e, ctx);
    }

    method CompileTheRounds(e: Node, items: seq<Value>, ctx: Context) returns (nodes: seq<RenderNode>)
      requires e.Element? && "wx:for" in e.attrs
      modifies this
      ensures Did(CompileRounds(e, items, 0, ctx, classes, old(counter)), nodes)
      decreases Weight(e), 1, 0
    {
      hide CompileElement, CompileRounds, ResolveKey, KeyText, Json.FromNat;
      nodes := [];
      var itemName := ItemName(e.attrs);
      var indexName := IndexName(e.attrs);
      ghost var all := CompileRounds(e, items, 0, ctx, classes, counter);
      ghost var done := Output([], [], counter);
      ThenNothing(all, counter);
      for index := 0 to |items|
        invariant Did(done, nodes)
        invariant all == Then(done, CompileRounds(e, items, index, ctx, classes, counter))
      {
        RoundsStep(e, items, index, ctx, classes, counter);
        var loopContext := ctx.With(itemName, items[index]).With(indexName, Json.FromNat(index));
        var attrs := e.attrs;
        if "wx:key" in e.attrs {
          var keyValue := ResolveKey(e.attrs["wx:key"], itemName, loopContext);
          if keyValue.Some? {
            attrs := attrs[RENDER_KEY := KeyText(keyValue.value)];
          }
        }
        attrs := attrs - LOOP_NAMES;
        assert attrs == RoundAttrs(e.attrs, loopContext) && loopContext == LoopContext(e.attrs, items, index, ctx);
        ghost var round := CompileElement(Element(e.tag, attrs, e.children), loopContext, classes, counter);
        var more := CompileTheElement(Element(e.tag, attrs, e.children), loopContext);
        nodes := nodes + more;
        ThenTwice(done, round, CompileRounds(e, items, index + 1, ctx, classes, counter));
        done := Then(done, round);
      }
      RoundsDone(e, items, ctx, classes, counter);
      ThenEmpty(done);
    }

    method CompileTheOne(e: Node, ctx: Context) returns (nodes: seq<RenderNode>)
      requires e.Element?
      modifies this
      ensures Did(CompileOne(e, ctx, classes, old(counter)), nodes)
      decreases Weights(e.children), 5, 0
    {
      hide ApplyAttrs, CompileChildren, KindOf, NextId, TextOf;
      ghost var applied := ApplyAttrs(e.tag, e.attrs, ctx, classes);
      ghost var inner := CompileChildren(e.children, ctx, classes, counter + 1);
      ghost var first := if KindOf(e.tag).None? then ["unsupported WXML tag `" + e.tag + "`"] else [];
      var kind := KindOf(e.tag);
      if kind.None? {
        warnings := warnings + ["unsupported WXML tag `" + e.tag + "`"];
      }
      var id := NextIdentifier(e.tag);
      var style, props, events := ApplyAttributes(e.tag, e.attrs, ctx);
      var kids := CompileTheChildren(e.children, ctx);
      assert warnings == old(warnings) + (first + applied.warnings + inner.warnings);
      var node := RenderNode(id, if kind.Some? then kind.value else View, None, props, style, events, kids);
      if node.kind == TextKind && node.text.None? && node.children != [] {
        node := node.(text := Some(TextOf(node.children)), children := []);
      }
      return [node];
    }

    method CompileTheChildren(children: seq<Node>, ctx: Context) returns (nodes: seq<RenderNode>)
      modifies this
      ensures Did(CompileChildren(children, ctx, classes, old(counter)), nodes)
      decreases Weights(children), 4, |children|
    {
      hide CompileNode, CompileChildren, Weight;
      nodes := [];
      ghost var all := CompileChildren(children, ctx, classes, counter);
      ghost var done := Output([], [], counter);
      ThenNothing(all, counter);
      assert children[0..] == children;
      for i := 0 to |children|
        invariant Did(done, nodes)
        invariant all == Then(done, CompileChildren(children[i..], ctx, classes, counter))
      {
        WeightsAt(children, i);
        ChildrenStep(children, i, ctx, classes, counter);
        ghost var first := CompileNode(children[i], ctx, classes, counter);
        var more := CompileTheNode(children[i], ctx);
        nodes := nodes + more;
        ThenTwice(done, first, CompileChildren(children[i + 1..], ctx, classes, counter));
        done := Then(done, first);
      }
      ChildrenDone(ctx, classes, counter);
      ThenEmpty(done);
      assert children[|children|..] == [];
    }
  }

  lemma RepeatOnce(warnings: seq<string>, n: nat)
    ensures Repeat(warnings, n + 1) == Repeat(warnings, n) + warnings
  {
  }

  lemma RepeatNever(warnings: seq<string>)
    ensures Repeat(warnings, 0) == []
  {
  }

  /** The pipeline as one call: a session over the parsed sheet, then the first root it yields. */
  method CompileComponent(wxml: string, wxss: string, data: Value) returns (r: Result<(RenderNode, seq<string>), CompileError>)
    ensures r == Compile(wxml, wxss, data)
  {
    hide Parse, ParseSheet, CompileNode;
    var parser := new WxmlParser.Parser(wxml);
    var tree := parser.ParseDocument();
    if tree.Err? {
      return Err(WxmlError(tree.error));
    }
    var sheet := ReadSheet(wxss);
    var session := new Session(sheet.classes, sheet.warnings);
    var nodes := session.CompileTheNode(tree.value, Context(data, map[]));
    if nodes == [] {
      return Err(MissingRoot);
    }
    return Ok((nodes[0], session.warnings));
  }

  // ----- the loops, one step at a time -----

  lemma ApplyNamesStep(acc: Applied, tag: string, attrs: Attrs, names: seq<string>, i: nat, ctx: Context)
    requires i < |names| && forall n | n in names :: n in attrs
    ensures ApplyNames(acc, tag, attrs, names[i..], ctx) ==
            ApplyNames(ApplyAttr(acc, tag, names[i], attrs[names[i]], ctx), tag, attrs, names[i + 1..], ctx)
  {
    hide ApplyAttr;
    assert names[i..][0] == names[i] && names[i..][1..] == names[i + 1..];
  }

  lemma ApplyNamesDone(acc: Applied, tag: string, attrs: Attrs, ctx: Context)
    ensures ApplyNames(acc, tag, attrs, [], ctx) == acc
  {
  }

  /** One attribute only adds to the warnings. */
  lemma ApplyAttrAppends(acc: Applied, tag: string, name: string, value: string, ctx: Context)
    ensures var next := ApplyAttr(acc.(warnings := []), tag, name, value, ctx);
      ApplyAttr(acc, tag, name, value, ctx) == next.(warnings := acc.warnings + next.warnings)
  {
    hide InterpolateValue, SetDataset, Repeat, DataKey;
    assert acc.warnings + [] == acc.warnings;
  }

  lemma ThenTwice(a: Output, b: Output, c: Output)
    ensures Then(a, Then(b, c)) == Then(Then(a, b), c)
  {
    assert a.nodes + (b.nodes + c.nodes) == (a.nodes + b.nodes) + c.nodes;
    assert a.warnings + (b.warnings + c.warnings) == (a.warnings + b.warnings) + c.warnings;
  }

  lemma ThenNothing(a: Output, counter: nat)
    ensures Then(Output([], [], counter), a) == a
  {
    assert [] + a.nodes == a.nodes && [] + a.warnings == a.warnings;
  }

  lemma ThenEmpty(a: Output)
    ensures Then(a, Output([], [], a.counter)) == a
  {
    assert a.nodes + [] == a.nodes && a.warnings + [] == a.warnings;
  }

  lemma ChildrenStep(nodes: seq<Node>, i: nat, ctx: Context, classes: Classes, counter: nat)
    requires i < |nodes|
    ensures var first := CompileNode(nodes[i], ctx, classes, counter);
      CompileChildren(nodes[i..], ctx, classes, counter) ==
      Then(first, CompileChildren(nodes[i + 1..], ctx, classes, first.counter))
  {
    hide CompileNode;
    assert nodes[i..][0] == nodes[i] && nodes[i..][1..] == nodes[i + 1..];
  }

  lemma ChildrenDone(ctx: Context, classes: Classes, counter: nat)
    ensures CompileChildren([], ctx, classes, counter) == Output([], [], counter)
  {
  }

  lemma {:induction false} WeightsAt(nodes: seq<Node>, i: nat)
    requires i < |nodes|
    ensures Weight(nodes[i]) <= Weights(nodes)
    decreases |nodes|
  {
    if i > 0 {
      WeightsAt(nodes[1..], i - 1);
    }
  }
}
