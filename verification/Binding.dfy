/** Data binding: the paths of a template and their values in a scope. */
module Binding {
  import opened Wrappers
  import opened Text
  import Json

  type Value = Json.Value

  /** Component data under the loop variables in scope. */
  datatype Context = Context(data: Value, locals: map<string, Value>) {
    function With(name: string, value: Value): Context {
      Context(data, locals[name := value])
    }
  }

  // ----- paths -----

  function NonBlank(parts: seq<string>): (segments: seq<string>)
    ensures forall s | s in segments :: s != ""
  {
    if parts == [] then []
    else if Trim(parts[0]) == "" then NonBlank(parts[1..])
    else [Trim(parts[0])] + NonBlank(parts[1..])
  }

  function Segments(path: string): (segments: seq<string>)
    ensures forall s | s in segments :: s != ""
  {
    NonBlank(Split(path, '.'))
  }

  function LookupName(ctx: Context, name: string): Option<Value> {
    if name in ctx.locals then Some(ctx.locals[name]) else Json.Get(ctx.data, name)
  }

  /** `.length` counts items, characters or members. */
  function LengthOf(v: Value): Option<Value> {
    match v
    case Arr(items) => Some(Json.FromNat(|items|))
    case Str(s) => Some(Json.FromNat(|s|))
    case Obj(fields) => Some(Json.FromNat(|fields|))
    case _ => None
  }

  function Member(v: Value, segment: string): Option<Value> {
    if segment == "length" then LengthOf(v) else Json.Get(v, segment)
  }

  function Walk(v: Value, segments: seq<string>): Option<Value>
    decreases |segments|
  {
    if segments == [] then Some(v) else
    var next :- Member(v, segments[0]);
    Walk(next, segments[1..])
  }

  function ResolveSegments(ctx: Context, segments: seq<string>): Option<Value> {
    if segments == [] then None else
    var first :- LookupName(ctx, segments[0]);
    Walk(first, segments[1..])
  }

  function Resolve(ctx: Context, path: string): Option<Value> {
    ResolveSegments(ctx, Segments(path))
  }

  function Truthy(ctx: Context, path: string): bool {
    match Resolve(ctx, path)
    case None => false
    case Some(Null) => false
    case Some(Bool(b)) => b
    case Some(Num(_, isZero)) => !isZero
    case Some(Str(s)) => s != ""
    case Some(Arr(items)) => items != []
    case Some(Obj(fields)) => fields != map[]
  }

  // ----- expressions -----

  predicate IsWordChar(c: char) {
    'a' <= c <= 'z' || 'A' <= c <= 'Z' || '0' <= c <= '9' || c == '_'
  }

  predicate IsWord(s: string) {
    s != "" && forall c | c in s :: IsWordChar(c)
  }

  predicate IsSupportedPath(expression: string) {
    expression != "" && forall p | p in Split(expression, '.') :: IsWord(p)
  }

  /** The path of a text that is one binding and nothing else. */
  function SinglePath(source: string): Option<string> {
    var s := Trim(source);
    if |s| >= 4 && StartsWith(s, "{{") && EndsWith(s, "}}") then
      var expression := Trim(s[2..|s| - 2]);
      if IsSupportedPath(expression) then Some(expression) else None
    else None
  }

  // ----- interpolation -----

  datatype Rendered<T> = Rendered(value: T, warnings: seq<string>)

  function BindingText(expression: string, ctx: Context): Rendered<string> {
    if !IsSupportedPath(expression) then
      Rendered("", ["unsupported binding expression `" + expression + "`"])
    else match Resolve(ctx, expression)
      case None => Rendered("", [])
      case Some(Null) => Rendered("", [])
      case Some(Str(s)) => Rendered(s, [])
      case Some(v) => Rendered(Json.ToText(v), [])
  }

  /** The rest of a text with its bindings replaced; `source` is the whole text, for warnings. */
  function InterpolateRest(source: string, rest: string, ctx: Context): Rendered<string>
    decreases |rest|
  {
    hide BindingText;
    var start := FindPair(rest, '{');
    if start == |rest| then Rendered(rest, []) else
    var after := rest[start + 2..];
    var end := FindPair(after, '}');
    if end == |after| then Rendered(rest, ["unterminated binding in `" + source + "`"]) else
    var bound := BindingText(Trim(after[..end]), ctx);
    var more := InterpolateRest(source, after[end + 2..], ctx);
    Rendered(rest[..start] + bound.value + more.value, bound.warnings + more.warnings)
  }

  function Interpolate(source: string, ctx: Context): Rendered<string> {
    InterpolateRest(source, source, ctx)
  }

  function InterpolateValue(source: string, ctx: Context): Rendered<Value> {
    match SinglePath(source)
    case Some(path) =>
      var v := Resolve(ctx, path);
      Rendered(if v.Some? then v.value else Json.Null, [])
    case None =>
      var text := Interpolate(source, ctx);
      Rendered(Json.Str(text.value), text.warnings)
  }

  /** A rendering with text and warnings put before it. */
  function After(text: string, warnings: seq<string>, r: Rendered<string>): Rendered<string> {
    Rendered(text + r.value, warnings + r.warnings)
  }

  lemma AfterTwice(s: string, v: seq<string>, t: string, w: seq<string>, r: Rendered<string>)
    ensures After(s, v, After(t, w, r)) == After(s + t, v + w, r)
  {
    assert s + (t + r.value) == (s + t) + r.value;
    assert v + (w + r.warnings) == (v + w) + r.warnings;
  }

  lemma AfterNothing(r: Rendered<string>)
    ensures After("", [], r) == r
  {
    assert "" + r.value == r.value && [] + r.warnings == r.warnings;
  }

  method InterpolateText(source: string, ctx: Context) returns (r: Rendered<string>)
    ensures r == Interpolate(source, ctx)
  {
    hide BindingText, Trim, InterpolateRest, FindPair;
    var output, warnings := "", [];
    ghost var all := Interpolate(source, ctx);
    var rest := source;
    AfterNothing(all);
    while true
      invariant all == After(output, warnings, InterpolateRest(source, rest, ctx))
      decreases |rest|
    {
      InterpolateStep(source, rest, ctx);
      var start := FindPair(rest, '{');
      if start == |rest| {
        assert warnings + [] == warnings;
        return Rendered(output + rest, warnings);
      }
      var afterStart := rest[start + 2..];
      var end := FindPair(afterStart, '}');
      if end == |afterStart| {
        warnings := warnings + ["unterminated binding in `" + source + "`"];
        return Rendered(output + rest, warnings);
      }
      ghost var more := InterpolateRest(source, afterStart[end + 2..], ctx);
      var bound := BindingText(Trim(afterStart[..end]), ctx);
      var piece := rest[..start] + bound.value;
      AfterTwice(output, warnings, piece, bound.warnings, more);
      output := output + piece;
      warnings := warnings + bound.warnings;
      rest := afterStart[end + 2..];
    }
  }

  lemma InterpolateStep(source: string, rest: string, ctx: Context)
    ensures var start := FindPair(rest, '{');
      if start == |rest| then InterpolateRest(source, rest, ctx) == Rendered(rest, [])
      else
        var after := rest[start + 2..];
        var end := FindPair(after, '}');
        if end == |after| then
          InterpolateRest(source, rest, ctx) == Rendered(rest, ["unterminated binding in `" + source + "`"])
        else
          var bound := BindingText(Trim(after[..end]), ctx);
          InterpolateRest(source, rest, ctx) ==
          After(rest[..start] + bound.value, bound.warnings, InterpolateRest(source, after[end + 2..], ctx))
  {
    hide BindingText, Trim, FindPair;
  }

  // ----- loop keys -----

  function KeyText(v: Value): string {
    match v
    case Null => ""
    case Str(s) => s
    case _ => Json.ToText(v)
  }

  /** The value of `wx:key` in the scope of one loop round. */
  function ResolveKey(key: string, itemName: string, ctx: Context): Option<Value> {
    if key == "*this" then Resolve(ctx, itemName)
    else match SinglePath(key)
      case Some(path) => Resolve(ctx, path)
      case None =>
        if !IsSupportedPath(key) then None
        else if Resolve(ctx, key).Some? then Resolve(ctx, key)
        else Resolve(ctx, itemName + "." + key)
  }
}
