/** The WXSS subset: class rules, declarations and the merging of styles. */
module Wxss {
  import opened Wrappers
  import opened Text

  datatype Property =
    | Display | FlexDirection | Width | Height | Margin | Padding | Color | Background
    | Opacity | FontSize | FontWeight | LineHeight | Border | BorderRadius | TextAlign

  /** A `RenderStyle`: the optional fields that are present. */
  type Style = map<Property, string>

  function PropertyNamed(name: string): Option<Property> {
    match name
    case "display" => Some(Display)
    case "flex-direction" => Some(FlexDirection)
    case "width" => Some(Width)
    case "height" => Some(Height)
    case "margin" => Some(Margin)
    case "padding" => Some(Padding)
    case "color" => Some(Color)
    case "background" => Some(Background)
    case "background-color" => Some(Background)
    case "opacity" => Some(Opacity)
    case "font-size" => Some(FontSize)
    case "font-weight" => Some(FontWeight)
    case "line-height" => Some(LineHeight)
    case "border" => Some(Border)
    case "border-radius" => Some(BorderRadius)
    case "text-align" => Some(TextAlign)
    case _ => None
  }

  /** `value.replace("rpx", "px")`. */
  function NormalizeUnit(value: string): string {
    if value == "" then ""
    else if StartsWith(value, "rpx") then "px" + NormalizeUnit(value[3..])
    else [value[0]] + NormalizeUnit(value[1..])
  }

  /** A style with the warnings met on the way. */
  datatype Styled = Styled(style: Style, warnings: seq<string>)

  const NOTHING := Styled(map[], [])

  /** What one declaration says by itself. */
  function Effect(raw: string): Styled {
    var declaration := Trim(raw);
    var n := Find(declaration, ':');
    if declaration == "" then NOTHING
    else if n == |declaration| then Styled(map[], ["unsupported declaration `" + declaration + "`"])
    else
      var name := Trim(declaration[..n]);
      match PropertyNamed(name)
      case Some(p) => Styled(map[p := NormalizeUnit(Trim(declaration[n + 1..]))], [])
      case None => Styled(map[], ["unsupported style property `" + name + "`"])
  }

  function Effects(parts: seq<string>): (r: seq<Styled>)
    ensures |r| == |parts|
    ensures forall i | 0 <= i < |r| :: r[i] == Effect(parts[i])
  {
    seq(|parts|, i requires 0 <= i < |parts| => Effect(parts[i]))
  }

  /** `merge_styles`: a property of the overlay replaces that of the base. */
  function Merge(base: Style, overlay: Style): Style {
    base + overlay
  }

  function Over(a: Styled, b: Styled): Styled {
    Styled(Merge(a.style, b.style), a.warnings + b.warnings)
  }

  function OverAll(acc: Styled, effects: seq<Styled>): Styled
    decreases |effects|
  {
    if effects == [] then acc else OverAll(Over(acc, effects[0]), effects[1..])
  }

  function Declarations(source: string): Styled {
    OverAll(NOTHING, Effects(Split(source, ';')))
  }

  lemma OverNothing(a: Styled)
    ensures Over(a, NOTHING) == a && Over(NOTHING, a) == a
  {
    assert a.style + map[] == a.style && map[] + a.style == a.style;
    assert a.warnings + [] == a.warnings && [] + a.warnings == a.warnings;
  }

  lemma OverAssociative(a: Styled, b: Styled, c: Styled)
    ensures Over(Over(a, b), c) == Over(a, Over(b, c))
  {
    assert (a.style + b.style) + c.style == a.style + (b.style + c.style);
    assert (a.warnings + b.warnings) + c.warnings == a.warnings + (b.warnings + c.warnings);
  }

  lemma OverProperty(a: Styled, p: Property, value: string)
    ensures Over(a, Styled(map[p := value], [])) == a.(style := a.style[p := value])
  {
    assert a.style + map[p := value] == a.style[p := value];
    assert a.warnings + [] == a.warnings;
  }

  lemma OverWarning(a: Styled, warning: string)
    ensures Over(a, Styled(map[], [warning])) == a.(warnings := a.warnings + [warning])
  {
    assert a.style + map[] == a.style;
  }

  lemma {:induction false} OverAllIsOver(acc: Styled, effects: seq<Styled>)
    ensures OverAll(acc, effects) == Over(acc, OverAll(NOTHING, effects))
    decreases |effects|
  {
    hide Over;
    if effects == [] {
      OverNothing(acc);
    } else {
      OverNothing(effects[0]);
      OverAllIsOver(Over(acc, effects[0]), effects[1..]);
      OverAllIsOver(effects[0], effects[1..]);
      OverAssociative(acc, effects[0], OverAll(NOTHING, effects[1..]));
    }
  }

  lemma {:induction false} OverAllConcat(acc: Styled, a: seq<Styled>, b: seq<Styled>)
    ensures OverAll(acc, a + b) == OverAll(OverAll(acc, a), b)
    decreases |a|
  {
    hide Over;
    if a == [] {
      assert a + b == b;
    } else {
      assert (a + b)[1..] == a[1..] + b;
      OverAllConcat(Over(acc, a[0]), a[1..], b);
    }
  }

  /** Parsing `a;b` is parsing `a`, parsing `b`, and merging the second over the first. */
  lemma DeclarationsMerge(a: string, b: string)
    ensures Declarations(a + ";" + b) == Over(Declarations(a), Declarations(b))
  {
    hide Split, OverAll, Over, Effect;
    SplitConcat(a, b, ';');
    assert Effects(Split(a, ';') + Split(b, ';')) == Effects(Split(a, ';')) + Effects(Split(b, ';'));
    OverAllConcat(NOTHING, Effects(Split(a, ';')), Effects(Split(b, ';')));
    OverAllIsOver(Declarations(a), Effects(Split(b, ';')));
  }

  /** Declarations read one by one into a style. */
  method ParseDeclarations(source: string) returns (style: Style, warnings: seq<string>)
    ensures Styled(style, warnings) == Declarations(source)
  {
    hide Split, Trim, Find, NormalizeUnit, PropertyNamed, Over;
    style, warnings := map[], [];
    var parts := Split(source, ';');
    ghost var effects := Effects(parts);
    assert effects[0..] == effects;
    for i := 0 to |parts|
      invariant Declarations(source) == OverAll(Styled(style, warnings), effects[i..])
    {
      assert effects[i..][0] == Effect(parts[i]) && effects[i..][1..] == effects[i + 1..];
      ghost var before := Styled(style, warnings);
      OverNothing(before);
      var declaration := Trim(parts[i]);
      if declaration == "" {
        continue;
      }
      var n := Find(declaration, ':');
      if n == |declaration| {
        OverWarning(before, "unsupported declaration `" + declaration + "`");
        warnings := warnings + ["unsupported declaration `" + declaration + "`"];
        continue;
      }
      var name := Trim(declaration[..n]);
      match PropertyNamed(name) {
        case Some(p) =>
          OverProperty(before, p, NormalizeUnit(Trim(declaration[n + 1..])));
          style := style[p := NormalizeUnit(Trim(declaration[n + 1..]))];
        case None =>
          OverWarning(before, "unsupported style property `" + name + "`");
          warnings := warnings + ["unsupported style property `" + name + "`"];
      }
    }
  }

  // ----- sheets -----

  datatype Sheet = Sheet(classes: map<string, Style>, warnings: seq<string>)

  const NO_RULES := Sheet(map[], [])

  function AddRule(sheet: Sheet, selector: string, body: string): Sheet {
    if StartsWith(selector, ".") then
      var d := Declarations(body);
      Sheet(sheet.classes[Trim(selector[1..]) := d.style], sheet.warnings + d.warnings)
    else if selector != "" then
      sheet.(warnings := sheet.warnings + ["unsupported selector `" + selector + "`"])
    else sheet
  }

  /** The rules of `rest`, and what is left after the last complete one. */
  function RulesOf(sheet: Sheet, rest: string): (r: (Sheet, string))
    decreases |rest|
  {
    hide AddRule;
    var start := Find(rest, '{');
    if start == |rest| then (sheet, rest) else
    var end := Find(rest[start + 1..], '}');
    if end == |rest[start + 1..]| then (sheet, rest)
    else RulesOf(AddRule(sheet, Trim(rest[..start]), rest[start + 1..][..end]), rest[start + 1..][end + 1..])
  }

  function ParseSheet(source: string): Sheet {
    var (sheet, rest) := RulesOf(NO_RULES, source);
    if '{' in rest then sheet.(warnings := sheet.warnings + ["unterminated WXSS rule"]) else sheet
  }

  method ReadSheet(source: string) returns (sheet: Sheet)
    ensures sheet == ParseSheet(source)
  {
    hide Trim, Declarations;
    var classes: map<string, Style> := map[];
    var warnings: seq<string> := [];
    var rest := source;
    while true
      invariant RulesOf(NO_RULES, source) == RulesOf(Sheet(classes, warnings), rest)
      decreases |rest|
    {
      var start := Find(rest, '{');
      if start == |rest| {
        assert rest[..start] == rest;
        return Sheet(classes, warnings);
      }
      var selector := Trim(rest[..start]);
      var afterStart := rest[start + 1..];
      var end := Find(afterStart, '}');
      if end == |afterStart| {
        return Sheet(classes, warnings + ["unterminated WXSS rule"]);
      }
      if StartsWith(selector, ".") {
        var style, more := ParseDeclarations(afterStart[..end]);
        classes := classes[Trim(selector[1..]) := style];
        warnings := warnings + more;
      } else if selector != "" {
        warnings := warnings + ["unsupported selector `" + selector + "`"];
      }
      rest := afterStart[end + 1..];
    }
  }
}
