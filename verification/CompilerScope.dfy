/** Which names a template reads: the compiled tree depends on nothing else of the data. */
module CompilerScope {
  import opened Wrappers
  import opened Text
  import opened Wxml
  import opened Binding
  import opened Compiler
  import Json
  import Order
  import Wxss

  // ----- the names a template reads -----

  /** The top-level name of a path. */
  function PathNames(path: string): set<string> {
    if Segments(path) == [] then {} else {Segments(path)[0]}
  }

  function SingleNames(source: string): set<string> {
    match SinglePath(source)
    case Some(path) => PathNames(path)
    case None => {}
  }

  function RestNames(rest: string): set<string>
    decreases |rest|
  {
    var start := FindPair(rest, '{');
    if start == |rest| then {} else
    var after := rest[start + 2..];
    var end := FindPair(after, '}');
    if end == |after| then {} else
    var expression := Trim(after[..end]);
    (if IsSupportedPath(expression) then PathNames(expression) else {}) + RestNames(after[end + 2..])
  }

  function ValueNames(source: string): set<string> {
    if SinglePath(source).Some? then SingleNames(source) else RestNames(source)
  }

  /** Attributes whose value is interpolated. */
  predicate IsInterpolated(tag: string, name: string) {
    (name == "src" && tag == "image") || IsDataName(name)
  }

  function AttrNames(tag: string, attrs: Attrs): set<string> {
    set n, x | n in attrs && IsInterpolated(tag, n) && x in ValueNames(attrs[n]) :: x
  }

  function ConditionNames(attrs: Attrs): set<string> {
    if "wx:if" in attrs then SingleNames(attrs["wx:if"]) else {}
  }

  function KeyNames(attrs: Attrs): set<string> {
    if "wx:key" !in attrs then {} else
    var key, item := attrs["wx:key"], ItemName(attrs);
    if key == "*this" then PathNames(item)
    else if SinglePath(key).Some? then SingleNames(key)
    else if IsSupportedPath(key) then PathNames(key) + PathNames(item + "." + key)
    else {}
  }

  /** The names a node reads from outside: `wx:for-item` and `wx:for-index` hide their names inside a loop. */
  function Free(node: Node): set<string>
    decreases node, 1
  {
    match node
    case TextNode(source) => RestNames(source)
    case Element(tag, attrs, children) =>
      if "wx:for" in attrs then
        ConditionNames(attrs) + SingleNames(attrs["wx:for"]) +
        (KeyNames(attrs) + BodyNames(node) - {ItemName(attrs), IndexName(attrs)})
      else BodyNames(node)
  }

  /** The names an element reads in one round. */
  function BodyNames(e: Node): set<string>
    requires e.Element?
    decreases e, 0
  {
    ConditionNames(e.attrs) + AttrNames(e.tag, e.attrs) + FreeAll(e.children)
  }

  function FreeAll(nodes: seq<Node>): set<string>
    decreases nodes, 2
  {
    if nodes == [] then {} else Free(nodes[0]) + FreeAll(nodes[1..])
  }

  /** Two scopes in which the given names have the same values. */
  ghost predicate SameOn(names: set<string>, c: Context, d: Context) {
    forall n | n in names :: LookupName(c, n) == LookupName(d, n)
  }

  // ----- bindings -----

  lemma ResolveSame(path: string, c: Context, d: Context)
    requires SameOn(PathNames(path), c, d)
    ensures Resolve(c, path) == Resolve(d, path)
  {
    hide Segments, Walk;
  }

  lemma RestNamesStep(rest: string)
    requires FindPair(rest, '{') < |rest|
    requires var after := rest[FindPair(rest, '{') + 2..]; FindPair(after, '}') < |after|
    ensures var after := rest[FindPair(rest, '{') + 2..];
      var end := FindPair(after, '}');
      var expression := Trim(after[..end]);
      RestNames(rest) ==
      (if IsSupportedPath(expression) then PathNames(expression) else {}) + RestNames(after[end + 2..])
  {
    hide FindPair, PathNames, IsSupportedPath, Trim;
  }

  lemma {:induction false} RestSame(source: string, rest: string, c: Context, d: Context)
    requires SameOn(RestNames(rest), c, d)
    ensures InterpolateRest(source, rest, c) == InterpolateRest(source, rest, d)
    decreases |rest|
  {
    hide FindPair, PathNames, IsSupportedPath, Trim, InterpolateRest, BindingText, RestNames;
    InterpolateStep(source, rest, c);
    InterpolateStep(source, rest, d);
    var start := FindPair(rest, '{');
    if start < |rest| {
      var after := rest[start + 2..];
      var end := FindPair(after, '}');
      if end < |after| {
        RestNamesStep(rest);
        BindingSame(Trim(after[..end]), c, d);
        RestSame(source, after[end + 2..], c, d);
      }
    }
  }

  lemma BindingSame(expression: string, c: Context, d: Context)
    requires IsSupportedPath(expression) ==> SameOn(PathNames(expression), c, d)
    ensures BindingText(expression, c) == BindingText(expression, d)
  {
    hide PathNames, Resolve;
    if IsSupportedPath(expression) {
      ResolveSame(expression, c, d);
    }
  }

  lemma ValueSame(source: string, c: Context, d: Context)
    requires SameOn(ValueNames(source), c, d)
    ensures InterpolateValue(source, c) == InterpolateValue(source, d)
  {
    hide SinglePath, PathNames, RestNames, InterpolateRest, Resolve;
    if SinglePath(source).Some? {
      ResolveSame(SinglePath(source).value, c, d);
    } else {
      RestSame(source, source, c, d);
    }
  }

  lemma {:induction false} ApplySame(acc: Applied, tag: string, attrs: Attrs, names: seq<string>, c: Context, d: Context)
    requires forall n | n in names :: n in attrs
    requires SameOn(AttrNames(tag, attrs), c, d)
    ensures ApplyNames(acc, tag, attrs, names, c) == ApplyNames(acc, tag, attrs, names, d)
    decreases |names|
  {
    hide ValueNames, ApplyAttr;
    if names != [] {
      var name := names[0];
      assert IsInterpolated(tag, name) ==> ValueNames(attrs[name]) <= AttrNames(tag, attrs);
      ApplyOneSame(acc, tag, name, attrs[name], c, d);
      ApplySame(ApplyAttr(acc, tag, name, attrs[name], c), tag, attrs, names[1..], c, d);
    }
  }

  lemma ApplyOneSame(acc: Applied, tag: string, name: string, value: string, c: Context, d: Context)
    requires IsInterpolated(tag, name) ==> SameOn(ValueNames(value), c, d)
    ensures ApplyAttr(acc, tag, name, value, c) == ApplyAttr(acc, tag, name, value, d)
  {
    hide ValueNames, InterpolateValue, DataKey, SetDataset, Repeat;
    if IsInterpolated(tag, name) {
      ValueSame(value, c, d);
    }
  }

  lemma ConditionSame(attrs: Attrs, c: Context, d: Context)
    requires SameOn(ConditionNames(attrs), c, d)
    ensures ConditionOf(attrs, c) == ConditionOf(attrs, d)
  {
    hide SinglePath, PathNames, Resolve;
    if "wx:if" in attrs && SinglePath(attrs["wx:if"]).Some? {
      ResolveSame(SinglePath(attrs["wx:if"]).value, c, d);
    }
  }

  lemma KeySame(attrs: Attrs, c: Context, d: Context)
    requires SameOn(KeyNames(attrs), c, d)
    ensures RoundAttrs(attrs, c) == RoundAttrs(attrs, d)
  {
    hide SinglePath, PathNames, Resolve, KeyText, IsSupportedPath;
    if "wx:key" in attrs {
      var key, item := attrs["wx:key"], ItemName(attrs);
      if key == "*this" {
        ResolveSame(item, c, d);
      } else if SinglePath(key).Some? {
        ResolveSame(SinglePath(key).value, c, d);
      } else if IsSupportedPath(key) {
        ResolveSame(key, c, d);
        ResolveSame(item + "." + key, c, d);
      }
    }
  }

  // ----- trees -----

  lemma {:induction false} NodeSame(node: Node, c: Context, d: Context, classes: Classes, counter: nat)
    requires SameOn(Free(node), c, d)
    ensures CompileNode(node, c, classes, counter) == CompileNode(node, d, classes, counter)
    decreases Weight(node), 3, 0
  {
    hide RestNames, InterpolateRest, CompileElement, BodyNames;
    match node
    case TextNode(source) =>
      RestSame(source, source, c, d);
    case Element(_, _, _) =>
      ElementSame(node, c, d, classes, counter);
  }

  lemma {:induction false} ElementSame(e: Node, c: Context, d: Context, classes: Classes, counter: nat)
    requires e.Element? && SameOn(Free(e), c, d)
    ensures CompileElement(e, c, classes, counter) == CompileElement(e, d, classes, counter)
    decreases Weight(e), if "wx:for" in e.attrs then 2 else 0, 0
  {
    hide SinglePath, PathNames, Resolve, AttrNames, KeyNames, FreeAll, ConditionOf, ConditionNames, CompileRounds, CompileOne;
    ConditionSame(e.attrs, c, d);
    if "wx:for" in e.attrs {
      var path := SinglePath(e.attrs["wx:for"]);
      if path.Some? {
        ResolveSame(path.value, c, d);
        var v := Resolve(c, path.value);
        if v.Some? && v.value.Arr? {
          RoundsSame(e, v.value.items, 0, c, d, classes, counter);
        }
      }
    } else {
      OneSame(e, c, d, classes, counter);
    }
  }

  /** In a round, the loop's own names have the same values and the others have them already. */
  lemma LoopSame(attrs: Attrs, items: seq<Value>, i: nat, names: set<string>, c: Context, d: Context)
    requires i < |items| && SameOn(names - {ItemName(attrs), IndexName(attrs)}, c, d)
    ensures SameOn(names, LoopContext(attrs, items, i, c), LoopContext(attrs, items, i, d))
  {
    forall n | n in names ensures LookupName(LoopContext(attrs, items, i, c), n) == LookupName(LoopContext(attrs, items, i, d), n) {
      if n !in {ItemName(attrs), IndexName(attrs)} {
        assert n in names - {ItemName(attrs), IndexName(attrs)};
      }
    }
  }

  /** A round's copy reads what the element reads in one round. */
  lemma CopyReads(e: Node, attrs: Attrs)
    requires e.Element? && "wx:for" in e.attrs
    requires attrs.Keys - {RENDER_KEY} == e.attrs.Keys - LOOP_NAMES - {RENDER_KEY}
    requires forall n | n in attrs && n != RENDER_KEY :: n in e.attrs && attrs[n] == e.attrs[n]
    ensures Free(Element(e.tag, attrs, e.children)) == BodyNames(e)
  {
    hide ValueNames, FreeAll, SinglePath, PathNames;
    assert "wx:for" in LOOP_NAMES && "wx:for" !in attrs by {
      assert "wx:for" !in e.attrs.Keys - LOOP_NAMES - {RENDER_KEY};
    }
    assert "wx:if" !in LOOP_NAMES && RENDER_KEY[0] == 'd';
    assert "wx:if" in attrs <==> "wx:if" in e.attrs by {
      assert "wx:if" in attrs.Keys - {RENDER_KEY} <==> "wx:if" in e.attrs.Keys - LOOP_NAMES - {RENDER_KEY};
    }
    forall n ensures n in attrs && IsInterpolated(e.tag, n) <==> n in e.attrs && IsInterpolated(e.tag, n) {
      if IsInterpolated(e.tag, n) {
        InterpolatedIsNoLoopName(e.tag, n);
        assert n in attrs.Keys - {RENDER_KEY} <==> n in e.attrs.Keys - LOOP_NAMES - {RENDER_KEY};
      }
    }
    assert AttrNames(e.tag, attrs) == AttrNames(e.tag, e.attrs);
  }

  lemma InterpolatedIsNoLoopName(tag: string, name: string)
    requires IsInterpolated(tag, name)
    ensures name !in LOOP_NAMES && name != RENDER_KEY
  {
    assert DATA[0] == RENDER_KEY[0] == 'd';
    assert forall n | n in LOOP_NAMES :: n[0] == 'w';
  }

  lemma {:induction false} RoundsSame(e: Node, items: seq<Value>, i: nat, c: Context, d: Context, classes: Classes, counter: nat)
    requires e.Element? && "wx:for" in e.attrs && i <= |items|
    requires SameOn(KeyNames(e.attrs) + BodyNames(e) - {ItemName(e.attrs), IndexName(e.attrs)}, c, d)
    ensures CompileRounds(e, items, i, c, classes, counter) == CompileRounds(e, items, i, d, classes, counter)
    decreases Weight(e), 0, 1 + |items| - i
  {
    hide CompileElement, KeyNames, BodyNames, ItemName, IndexName, LoopContext, ResolveKey, KeyText, Free;
    if i < |items| {
      var names := KeyNames(e.attrs) + BodyNames(e);
      LoopSame(e.attrs, items, i, names, c, d);
      var loop, other := LoopContext(e.attrs, items, i, c), LoopContext(e.attrs, items, i, d);
      KeySame(e.attrs, loop, other);
      var copy := Element(e.tag, RoundAttrs(e.attrs, loop), e.children);
      CopyReads(e, copy.attrs);
      ElementSame(copy, loop, other, classes, counter);
      RoundsSame(e, items, i + 1, c, d, classes, CompileElement(copy, loop, classes, counter).counter);
    }
  }

  lemma {:induction false} OneSame(e: Node, c: Context, d: Context, classes: Classes, counter: nat)
    requires e.Element? && SameOn(BodyNames(e), c, d)
    ensures CompileOne(e, c, classes, counter) == CompileOne(e, d, classes, counter)
    decreases Weights(e.children), 5, 0
  {
    hide CompileChildren, ApplyNames, InitialStyle, KindOf, AttrNames, FreeAll, ConditionNames;
    var s := InitialStyle(e.attrs, classes);
    ApplySame(Applied(s.style, map[], [], s.warnings), e.tag, e.attrs, Order.SortedKeys(e.attrs.Keys), c, d);
    ChildrenSame(e.children, c, d, classes, counter + 1);
  }

  lemma {:induction false} ChildrenSame(nodes: seq<Node>, c: Context, d: Context, classes: Classes, counter: nat)
    requires SameOn(FreeAll(nodes), c, d)
    ensures CompileChildren(nodes, c, classes, counter) == CompileChildren(nodes, d, classes, counter)
    decreases Weights(nodes), 4, |nodes|
  {
    hide CompileNode, Free;
    if nodes != [] {
      NodeSame(nodes[0], c, d, classes, counter);
      ChildrenSame(nodes[1..], c, d, classes, CompileNode(nodes[0], c, classes, counter).counter);
    }
  }

  /** Data that agree on the names a template reads compile to the same tree and the same warnings. */
  lemma DependsOnlyOnFreeNames(wxml: string, wxss: string, data: Value, other: Value)
    requires Parse(wxml).Ok? ==>
               forall n | n in Free(Parse(wxml).value) :: Json.Get(data, n) == Json.Get(other, n)
    ensures Compile(wxml, wxss, data) == Compile(wxml, wxss, other)
  {
    hide Parse, CompileNode, Free, Wxss.ParseSheet;
    if Parse(wxml).Ok? {
      NodeSame(Parse(wxml).value, Context(data, map[]), Context(other, map[]), Wxss.ParseSheet(wxss).classes, 0);
    }
  }
}
