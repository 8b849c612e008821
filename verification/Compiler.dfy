/** Compiling a WXML tree to the render tree: conditions, loops, bindings and ids. */
module Compiler {
  import opened Wrappers
  import opened Text
  import opened Wxml
  import opened Wxss
  import opened Binding
  import Json
  import Order
  import Positional

  datatype Kind = View | TextKind | Image | Button | ScrollView

  datatype EventKind = Tap | ImageLoad | ImageError

  datatype EventBinding = EventBinding(event: EventKind, handler: string, dataset: map<string, Value>)

  datatype RenderNode = RenderNode(
    id: string,
    kind: Kind,
    text: Option<string>,
    props: map<string, Value>,
    style: Style,
    events: seq<EventBinding>,
    children: seq<RenderNode>)

  type Classes = map<string, Style>

  // ----- attributes -----

  /** What the attributes of one element give its node. */
  datatype Applied = Applied(
    style: Style,
    props: map<string, Value>,
    events: seq<EventBinding>,
    warnings: seq<string>)

  function ApplyClasses(style: Style, names: seq<string>, classes: Classes): Style
    decreases |names|
  {
    if names == [] then style
    else ApplyClasses(if names[0] in classes then Merge(style, classes[names[0]]) else style, names[1..], classes)
  }

  const IGNORED: set<string> := {"class", "style", "wx:if", "wx:for", "wx:key", "wx:for-item", "wx:for-index"}

  const DATA := "data-"
  const RENDER_KEY := "data-render-key"

  predicate IsDataName(name: string) {
    StartsWith(name, DATA) && name != RENDER_KEY
  }

  /** `trim_start_matches("data-")`: every leading repetition goes. */
  function DataKey(name: string): string
    decreases |name|
  {
    if StartsWith(name, DATA) then DataKey(name[|DATA|..]) else name
  }

  function Repeat(warnings: seq<string>, n: nat): seq<string> {
    if n == 0 then [] else Repeat(warnings, n - 1) + warnings
  }

  function SetDataset(events: seq<EventBinding>, key: string, value: Value): (r: seq<EventBinding>)
    ensures |r| == |events|
    ensures forall i | 0 <= i < |r| :: r[i] == events[i].(dataset := events[i].dataset[key := value])
  {
    if events == [] then []
    else [events[0].(dataset := events[0].dataset[key := value])] + SetDataset(events[1..], key, value)
  }

  /** The event an attribute binds on a tag, if any. */
  function BoundEvent(tag: string, name: string): Option<EventKind> {
    if name == "bindtap" then Some(Tap)
    else if name == "bindload" && tag == "image" then Some(ImageLoad)
    else if name == "binderror" && tag == "image" then Some(ImageError)
    else None
  }

  function ApplyAttr(acc: Applied, tag: string, name: string, value: string, ctx: Context): Applied {
    if name in IGNORED then acc
    else if name == RENDER_KEY then acc.(props := acc.props["key" := Json.Str(value)])
    else if BoundEvent(tag, name).Some? then
      acc.(events := acc.events + [EventBinding(BoundEvent(tag, name).value, value, map[])])
    else if name == "src" && tag == "image" then
      var v := InterpolateValue(value, ctx);
      acc.(props := acc.props["src" := v.value], warnings := acc.warnings + v.warnings)
    else if name == "scroll-x" && tag == "scroll-view" then
      acc.(props := acc.props["scrollX" := Json.Bool(value != "false")])
    else if name == "scroll-y" && tag == "scroll-view" then
      acc.(props := acc.props["scrollY" := Json.Bool(value != "false")])
    else if StartsWith(name, DATA) then
      var v := InterpolateValue(value, ctx);
      acc.(events := SetDataset(acc.events, DataKey(name), v.value),
           warnings := acc.warnings + Repeat(v.warnings, |acc.events|))
    else acc
  }

  function ApplyNames(acc: Applied, tag: string, attrs: Attrs, names: seq<string>, ctx: Context): Applied
    requires forall n | n in names :: n in attrs
    decreases |names|
  {
    hide ApplyAttr;
    if names == [] then acc
    else ApplyNames(ApplyAttr(acc, tag, names[0], attrs[names[0]], ctx), tag, attrs, names[1..], ctx)
  }

  /** The classes in order, then the inline style. */
  function InitialStyle(attrs: Attrs, classes: Classes): Styled {
    var fromClasses := if "class" in attrs then ApplyClasses(map[], Words(attrs["class"]), classes) else map[];
    if "style" in attrs then
      var inline := Declarations(attrs["style"]);
      Styled(Merge(fromClasses, inline.style), inline.warnings)
    else Styled(fromClasses, [])
  }

  function ApplyAttrs(tag: string, attrs: Attrs, ctx: Context, classes: Classes): Applied {
    var s := InitialStyle(attrs, classes);
    ApplyNames(Applied(s.style, map[], [], s.warnings), tag, attrs, Order.SortedKeys(attrs.Keys), ctx)
  }

  // ----- nodes -----

  /** Compiled nodes, the warnings met, and the next free id number. */
  datatype Output = Output(nodes: seq<RenderNode>, warnings: seq<string>, counter: nat)

  function Then(a: Output, b: Output): Output {
    Output(a.nodes + b.nodes, a.warnings + b.warnings, b.counter)
  }

  /** The size of a tree; attributes do not count, so a loop's copies keep the size of the element. */
  function Weight(node: Node): (w: nat)
    ensures w >= 1
    decreases node, 0
  {
    match node
    case TextNode(_) => 1
    case Element(_, _, children) => 1 + Weights(children)
  }

  function Weights(nodes: seq<Node>): nat
    decreases nodes, 1
  {
    if nodes == [] then 0 else Weight(nodes[0]) + Weights(nodes[1..])
  }

  function NextId(prefix: string, counter: nat): string {
    prefix + "-" + Positional.Decimal(counter)
  }

  function KindOf(tag: string): Option<Kind> {
    match tag
    case "view" => Some(View)
    case "text" => Some(TextKind)
    case "image" => Some(Image)
    case "button" => Some(Button)
    case "scroll-view" => Some(ScrollView)
    case _ => None
  }

  function TextOf(nodes: seq<RenderNode>): string {
    if nodes == [] then ""
    else (if nodes[0].text.Some? then nodes[0].text.value else "") + TextOf(nodes[1..])
  }

  /** A text element keeps the text of its children, not the children. */
  function Collapse(node: RenderNode): RenderNode {
    if node.kind == TextKind && node.text.None? && node.children != [] then
      node.(text := Some(TextOf(node.children)), children := [])
    else node
  }

  datatype Condition = Holds | Fails | Unsupported(condition: string)

  function ConditionOf(attrs: Attrs, ctx: Context): Condition {
    if "wx:if" !in attrs then Holds
    else match SinglePath(attrs["wx:if"])
      case None => Unsupported(attrs["wx:if"])
      case Some(path) => if Truthy(ctx, path) then Holds else Fails
  }

  function ItemName(attrs: Attrs): string {
    if "wx:for-item" in attrs then attrs["wx:for-item"] else "item"
  }

  function IndexName(attrs: Attrs): string {
    if "wx:for-index" in attrs then attrs["wx:for-index"] else "index"
  }

  function LoopContext(attrs: Attrs, items: seq<Value>, i: nat, ctx: Context): Context
    requires i < |items|
  {
    ctx.With(ItemName(attrs), items[i]).With(IndexName(attrs), Json.FromNat(i))
  }

  /** The items of a loop; none when the loop has no array. */
  function LoopItems(attrs: Attrs, ctx: Context): seq<Value>
    requires "wx:for" in attrs
  {
    match SinglePath(attrs["wx:for"])
    case None => []
    case Some(path) => match Resolve(ctx, path) case Some(Arr(items)) => items case _ => []
  }

  const LOOP_NAMES: set<string> := {"wx:for", "wx:for-item", "wx:for-index"}

  /** The attributes of the copy compiled for one loop round. */
  function RoundAttrs(attrs: Attrs, loop: Context): Attrs {
    var key := if "wx:key" in attrs then ResolveKey(attrs["wx:key"], ItemName(attrs), loop) else None;
    (if key.Some? then attrs[RENDER_KEY := KeyText(key.value)] else attrs) - LOOP_NAMES
  }

  function CompileNode(node: Node, ctx: Context, classes: Classes, counter: nat): Output
    decreases Weight(node), 3, 0
  {
    match node
    case TextNode(source) =>
      var text := Interpolate(source, ctx);
      if Trim(text.value) == "" then Output([], text.warnings, counter)
      else
        Output([RenderNode(NextId("text", counter), TextKind, Some(text.value), map[], map[], [], [])],
               text.warnings, counter + 1)
    case Element(_, _, _) => CompileElement(node, ctx, classes, counter)
  }

  function CompileElement(e: Node, ctx: Context, classes: Classes, counter: nat): Output
    requires e.Element?
    decreases Weight(e), if "wx:for" in e.attrs then 2 else 0, 0
  {
    match ConditionOf(e.attrs, ctx)
    case Unsupported(c) => Output([], ["unsupported wx:if expression `" + c + "`"], counter)
    case Fails => Output([], [], counter)
    case Holds =>
      if "wx:for" in e.attrs then CompileLoop(e, ctx, classes, counter) else CompileOne(e, ctx, classes, counter)
  }

  function CompileLoop(e: Node, ctx: Context, classes: Classes, counter: nat): Output
    requires e.Element? && "wx:for" in e.attrs
    decreases Weight(e), 1, 0
  {
    match SinglePath(e.attrs["wx:for"])
    case None => Output([], ["unsupported wx:for expression `" + e.attrs["wx:for"] + "`"], counter)
    case Some(path) =>
      match Resolve(ctx, path)
      case Some(Arr(items)) => CompileRounds(e, items, 0, ctx, classes, counter)
      case _ => Output([], [], counter)
  }

  function CompileRounds(e: Node, items: seq<Value>, i: nat, ctx: Context, classes: Classes, counter: nat): Output
    requires e.Element? && "wx:for" in e.attrs && i <= |items|
    decreases Weight(e), 0, 1 + |items| - i
  {
    if i == |items| then Output([], [], counter) else
    var loop := LoopContext(e.attrs, items, i, ctx);
    var round := CompileElement(Element(e.tag, RoundAttrs(e.attrs, loop), e.children), loop, classes, counter);
    Then(round, CompileRounds(e, items, i + 1, ctx, classes, round.counter))
  }

  function CompileOne(e: Node, ctx: Context, classes: Classes, counter: nat): Output
    requires e.Element?
    decreases Weights(e.children), 5, 0
  {
    var kind := KindOf(e.tag);
    var warnings := if kind.None? then ["unsupported WXML tag `" + e.tag + "`"] else [];
    var applied := ApplyAttrs(e.tag, e.attrs, ctx, classes);
    var kids := CompileChildren(e.children, ctx, classes, counter + 1);
    var node := RenderNode(NextId(e.tag, counter), if kind.Some? then kind.value else View, None,
                           applied.props, applied.style, applied.events, kids.nodes);
    Output([Collapse(node)], warnings + applied.warnings + kids.warnings, kids.counter)
  }

  function CompileChildren(nodes: seq<Node>, ctx: Context, classes: Classes, counter: nat): Output
    decreases Weights(nodes), 4, |nodes|
  {
    if nodes == [] then Output([], [], counter) else
    var first := CompileNode(nodes[0], ctx, classes, counter);
    Then(first, CompileChildren(nodes[1..], ctx, classes, first.counter))
  }

  /** One round of a loop, and then the others. */
  lemma RoundsStep(e: Node, items: seq<Value>, i: nat, ctx: Context, classes: Classes, counter: nat)
    requires e.Element? && "wx:for" in e.attrs && i < |items|
    ensures var loop := LoopContext(e.attrs, items, i, ctx);
      var round := CompileElement(Element(e.tag, RoundAttrs(e.attrs, loop), e.children), loop, classes, counter);
      CompileRounds(e, items, i, ctx, classes, counter) ==
      Then(round, CompileRounds(e, items, i + 1, ctx, classes, round.counter))
  {
    hide CompileElement, RoundAttrs;
  }

  lemma RoundsDone(e: Node, items: seq<Value>, ctx: Context, classes: Classes, counter: nat)
    requires e.Element? && "wx:for" in e.attrs
    ensures CompileRounds(e, items, |items|, ctx, classes, counter) == Output([], [], counter)
  {
  }

  datatype CompileError = WxmlError(error: ParseError) | MissingRoot

  /** The whole pipeline: parse the template and the sheet, compile, keep the first root. */
  function Compile(wxml: string, wxss: string, data: Value): Result<(RenderNode, seq<string>), CompileError> {
    match Parse(wxml)
    case Err(e) => Err(WxmlError(e))
    case Ok(tree) =>
      var sheet := ParseSheet(wxss);
      var output := CompileNode(tree, Context(data, map[]), sheet.classes, 0);
      if output.nodes == [] then Err(MissingRoot)
      else Ok((output.nodes[0], sheet.warnings + output.warnings))
  }
}
