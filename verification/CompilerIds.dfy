/** Identity and shape of the compiled tree: distinct ids, leaf texts. */
module CompilerIds {
  import opened Wrappers
  import opened Wxml
  import opened Binding
  import opened Compiler
  import Positional
  import Wxss

  // ----- the number of an id -----

  /** What follows the last `-` of an id. */
  function AfterDash(s: string): string {
    if s == "" then ""
    else if '-' in s[1..] then AfterDash(s[1..])
    else if s[0] == '-' then s[1..]
    else s
  }

  lemma {:induction false} AfterDashOf(prefix: string, s: string, digits: string)
    requires s == prefix + "-" + digits && '-' !in digits
    ensures AfterDash(s) == digits
    decreases |prefix|
  {
    if prefix == "" {
      assert s[1..] == digits;
    } else {
      assert s[1..] == prefix[1..] + "-" + digits;
      assert s[1..][|prefix| - 1] == '-';
      AfterDashOf(prefix[1..], s[1..], digits);
    }
  }

  lemma NumberOfId(prefix: string, counter: nat)
    ensures AfterDash(NextId(prefix, counter)) == Positional.Decimal(counter)
  {
    Positional.DecimalRoundTrip(counter);
    AfterDashOf(prefix, NextId(prefix, counter), Positional.Decimal(counter));
  }

  // ----- ids in document order -----

  function Ids(node: RenderNode): seq<string>
    decreases node, 0
  {
    [node.id] + IdsAll(node.children)
  }

  function IdsAll(nodes: seq<RenderNode>): seq<string>
    decreases nodes, 1
  {
    if nodes == [] then [] else Ids(nodes[0]) + IdsAll(nodes[1..])
  }

  lemma {:induction false} IdsConcat(a: seq<RenderNode>, b: seq<RenderNode>)
    ensures IdsAll(a + b) == IdsAll(a) + IdsAll(b)
    decreases |a|
  {
    hide Ids;
    if a == [] {
      assert a + b == b;
    } else {
      assert (a + b)[1..] == a[1..] + b;
      IdsConcat(a[1..], b);
    }
  }

  /** The ids carry strictly increasing numbers, all in the half-open range from `lo` to `hi`. */
  ghost predicate Counted(ids: seq<string>, lo: nat, hi: nat)
    decreases |ids|
  {
    if ids == [] then lo <= hi
    else exists k: nat :: lo <= k < hi && AfterDash(ids[0]) == Positional.Decimal(k) && Counted(ids[1..], k + 1, hi)
  }

  lemma {:induction false} CountedRange(ids: seq<string>, lo: nat, hi: nat)
    requires Counted(ids, lo, hi)
    ensures lo <= hi
  {
  }

  lemma CountedFirst(ids: seq<string>, lo: nat, hi: nat) returns (k: nat)
    requires Counted(ids, lo, hi) && ids != []
    ensures lo <= k < hi && AfterDash(ids[0]) == Positional.Decimal(k) && Counted(ids[1..], k + 1, hi)
  {
    hide AfterDash;
    k :| lo <= k < hi && AfterDash(ids[0]) == Positional.Decimal(k) && Counted(ids[1..], k + 1, hi);
  }

  lemma CountedCons(ids: seq<string>, k: nat, lo: nat, hi: nat)
    requires ids != [] && lo <= k < hi
    requires AfterDash(ids[0]) == Positional.Decimal(k) && Counted(ids[1..], k + 1, hi)
    ensures Counted(ids, lo, hi)
  {
    hide AfterDash;
  }

  lemma {:induction false} CountedConcat(a: seq<string>, lo: nat, mid: nat, b: seq<string>, hi: nat)
    requires Counted(a, lo, mid) && Counted(b, mid, hi)
    ensures Counted(a + b, lo, hi)
    decreases |a|
  {
    hide *;
    CountedRange(a, lo, mid);
    CountedRange(b, mid, hi);
    if a == [] {
      assert a + b == b;
      if b == [] {
        CountedEmpty(lo, hi);
      } else {
        var k := CountedFirst(b, mid, hi);
        CountedCons(b, k, lo, hi);
      }
    } else {
      var k := CountedFirst(a, lo, mid);
      CountedConcat(a[1..], k + 1, mid, b, hi);
      assert (a + b)[1..] == a[1..] + b && (a + b)[0] == a[0];
      CountedCons(a + b, k, lo, hi);
    }
  }

  lemma CountedEmpty(lo: nat, hi: nat)
    requires lo <= hi
    ensures Counted([], lo, hi)
  {
  }

  lemma {:induction false} CountedAbove(ids: seq<string>, lo: nat, hi: nat, i: nat) returns (k: nat)
    requires Counted(ids, lo, hi) && i < |ids|
    ensures lo <= k && AfterDash(ids[i]) == Positional.Decimal(k)
    decreases i
  {
    hide AfterDash, Counted;
    k := CountedFirst(ids, lo, hi);
    if i > 0 {
      k := CountedAbove(ids[1..], k + 1, hi, i - 1);
    }
  }

  ghost predicate Distinct(ids: seq<string>) {
    forall i, j | 0 <= i < j < |ids| :: ids[i] != ids[j]
  }

  lemma {:induction false} CountedDistinct(ids: seq<string>, lo: nat, hi: nat)
    requires Counted(ids, lo, hi)
    ensures Distinct(ids)
    decreases |ids|
  {
    hide AfterDash, Counted;
    if ids != [] {
      var k := CountedFirst(ids, lo, hi);
      CountedDistinct(ids[1..], k + 1, hi);
      forall i, j | 0 <= i < j < |ids| ensures ids[i] != ids[j] {
        if i == 0 {
          var m := CountedAbove(ids[1..], k + 1, hi, j - 1);
          if ids[0] == ids[j] {
            Positional.DecimalInjective(k, m);
          }
        } else {
          assert ids[i] == ids[1..][i - 1] && ids[j] == ids[1..][j - 1];
        }
      }
    }
  }

  // ----- what every compilation step keeps -----

  predicate LeafTexts(node: RenderNode)
    decreases node, 0
  {
    (node.kind == TextKind ==> node.children == []) && AllLeafTexts(node.children)
  }

  predicate AllLeafTexts(nodes: seq<RenderNode>)
    decreases nodes, 1
  {
    forall n | n in nodes :: LeafTexts(n)
  }

  /** Ids from exactly the counter range the step used up, and texts without children. */
  ghost predicate WellNumbered(output: Output, counter: nat) {
    Counted(IdsAll(output.nodes), counter, output.counter) && AllLeafTexts(output.nodes)
  }

  lemma NothingNumbered(warnings: seq<string>, counter: nat)
    ensures WellNumbered(Output([], warnings, counter), counter)
  {
  }

  lemma ThenNumbered(a: Output, b: Output, counter: nat)
    requires WellNumbered(a, counter) && WellNumbered(b, a.counter)
    ensures WellNumbered(Then(a, b), counter)
  {
    hide Ids, LeafTexts, Counted, IdsAll;
    IdsConcat(a.nodes, b.nodes);
    CountedConcat(IdsAll(a.nodes), counter, a.counter, IdsAll(b.nodes), b.counter);
  }

  lemma OneNumbered(node: RenderNode, prefix: string, counter: nat, next: nat, warnings: seq<string>)
    requires node.id == NextId(prefix, counter)
    requires Counted(IdsAll(node.children), counter + 1, next) && LeafTexts(node)
    ensures WellNumbered(Output([node], warnings, next), counter)
  {
    hide AfterDash, NextId, LeafTexts;
    NumberOfId(prefix, counter);
    CountedRange(IdsAll(node.children), counter + 1, next);
    var ids := Ids(node);
    assert ids[1..] == IdsAll(node.children);
    assert Counted(ids, counter, next);
    assert [node][1..] == [];
    assert IdsAll([node]) == ids + [] == ids;
  }

  lemma CollapseNumbered(node: RenderNode, counter: nat, next: nat)
    requires node.text.None?
    requires Counted(IdsAll(node.children), counter, next) && AllLeafTexts(node.children)
    ensures Counted(IdsAll(Collapse(node).children), counter, next) && LeafTexts(Collapse(node))
    ensures Collapse(node).id == node.id
  {
    hide AfterDash;
    CountedRange(IdsAll(node.children), counter, next);
  }

  lemma {:induction false} NodeNumbered(node: Node, ctx: Context, classes: Classes, counter: nat)
    ensures WellNumbered(CompileNode(node, ctx, classes, counter), counter)
    decreases Weight(node), 3, 0
  {
    hide WellNumbered, CompileElement, Interpolate;
    match node
    case TextNode(source) =>
      var text := Interpolate(source, ctx);
      NothingNumbered(text.warnings, counter);
      var r := RenderNode(NextId("text", counter), TextKind, Some(text.value), map[], map[], [], []);
      assert IdsAll([]) == [];
      OneNumbered(r, "text", counter, counter + 1, text.warnings);
    case Element(_, _, _) =>
      ElementNumbered(node, ctx, classes, counter);
  }

  lemma {:induction false} ElementNumbered(e: Node, ctx: Context, classes: Classes, counter: nat)
    requires e.Element?
    ensures WellNumbered(CompileElement(e, ctx, classes, counter), counter)
    decreases Weight(e), if "wx:for" in e.attrs then 2 else 0, 0
  {
    hide WellNumbered, ConditionOf, SinglePath, Resolve, CompileRounds, CompileOne;
    forall w { NothingNumbered(w, counter); }
    if "wx:for" in e.attrs {
      var path := SinglePath(e.attrs["wx:for"]);
      if path.Some? {
        var v := Resolve(ctx, path.value);
        if v.Some? && v.value.Arr? {
          RoundsNumbered(e, v.value.items, 0, ctx, classes, counter);
        }
      }
    } else {
      OneElementNumbered(e, ctx, classes, counter);
    }
  }

  lemma {:induction false} RoundsNumbered(e: Node, items: seq<Value>, i: nat, ctx: Context, classes: Classes, counter: nat)
    requires e.Element? && "wx:for" in e.attrs && i <= |items|
    ensures WellNumbered(CompileRounds(e, items, i, ctx, classes, counter), counter)
    decreases Weight(e), 0, 1 + |items| - i
  {
    hide WellNumbered, CompileElement;
    if i == |items| {
      NothingNumbered([], counter);
    } else {
      var loop := LoopContext(e.attrs, items, i, ctx);
      var copy := Element(e.tag, RoundAttrs(e.attrs, loop), e.children);
      ElementNumbered(copy, loop, classes, counter);
      var round := CompileElement(copy, loop, classes, counter);
      RoundsNumbered(e, items, i + 1, ctx, classes, round.counter);
      ThenNumbered(round, CompileRounds(e, items, i + 1, ctx, classes, round.counter), counter);
    }
  }

  lemma {:induction false} OneElementNumbered(e: Node, ctx: Context, classes: Classes, counter: nat)
    requires e.Element?
    ensures WellNumbered(CompileOne(e, ctx, classes, counter), counter)
    decreases Weights(e.children), 5, 0
  {
    hide CompileChildren, ApplyAttrs, KindOf, NextId, Collapse, Ids, IdsAll, LeafTexts, Counted;
    ChildrenNumbered(e.children, ctx, classes, counter + 1);
    var kids := CompileChildren(e.children, ctx, classes, counter + 1);
    var kind := KindOf(e.tag);
    var applied := ApplyAttrs(e.tag, e.attrs, ctx, classes);
    var node := RenderNode(NextId(e.tag, counter), if kind.Some? then kind.value else View, None,
                           applied.props, applied.style, applied.events, kids.nodes);
    CollapseNumbered(node, counter + 1, kids.counter);
    OneNumbered(Collapse(node), e.tag, counter, kids.counter, CompileOne(e, ctx, classes, counter).warnings);
  }

  lemma {:induction false} ChildrenNumbered(nodes: seq<Node>, ctx: Context, classes: Classes, counter: nat)
    ensures WellNumbered(CompileChildren(nodes, ctx, classes, counter), counter)
    decreases Weights(nodes), 4, |nodes|
  {
    hide WellNumbered, CompileNode;
    if nodes == [] {
      NothingNumbered([], counter);
    } else {
      NodeNumbered(nodes[0], ctx, classes, counter);
      var first := CompileNode(nodes[0], ctx, classes, counter);
      ChildrenNumbered(nodes[1..], ctx, classes, first.counter);
      ThenNumbered(first, CompileChildren(nodes[1..], ctx, classes, first.counter), counter);
    }
  }

  /** Whatever the template, the sheet and the data: all ids differ, and no text has children. */
  lemma CompiledTreeWellFormed(wxml: string, wxss: string, data: Value)
    requires Compile(wxml, wxss, data).Ok?
    ensures var root := Compile(wxml, wxss, data).value.0;
      Distinct(Ids(root)) && LeafTexts(root)
  {
    hide Parse, CompileNode, Counted, LeafTexts, Ids;
    var output := CompileNode(Parse(wxml).value, Context(data, map[]), Wxss.ParseSheet(wxss).classes, 0);
    NodeNumbered(Parse(wxml).value, Context(data, map[]), Wxss.ParseSheet(wxss).classes, 0);
    CountedDistinct(IdsAll(output.nodes), 0, output.counter);
    var ids := Ids(output.nodes[0]);
    assert IdsAll(output.nodes) == ids + IdsAll(output.nodes[1..]);
    assert forall i | 0 <= i < |ids| :: IdsAll(output.nodes)[i] == ids[i];
  }
}
