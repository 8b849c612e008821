/** What style sheets and inline styles mean, as they are written: of one property the last, `rpx` as `px`. */
module WxssLaws {
  import opened Wrappers
  import opened Text
  import opened Wxss

  // ----- units -----

  /** Where `needle` is in `s`. */
  ghost predicate At(s: string, needle: string, i: int) {
    0 <= i && i + |needle| <= |s| && s[i..i + |needle|] == needle
  }

  ghost predicate HasNo(s: string, needle: string) {
    forall i :: !At(s, needle, i)
  }

  lemma UnitIs(s: string)
    requires StartsWith(s, "rpx")
    ensures NormalizeUnit(s) == "px" + NormalizeUnit(s[3..])
  {
  }

  lemma NoUnitHere(s: string)
    requires s != "" && !StartsWith(s, "rpx")
    ensures NormalizeUnit(s) == [s[0]] + NormalizeUnit(s[1..])
  {
  }

  lemma NotInStretch(s: string, rest: string)
    requires s != "" && HasNo(s, "rpx") && (rest == "" || StartsWith(rest, "rpx"))
    ensures !StartsWith(s + rest, "rpx")
  {
    var t := s + rest;
    StartsMeans(t);
    assert !At(s, "rpx", 0);
    assert |s| >= 3 ==> s[0..3] == t[..3];
    assert "rpx"[0] == 'r' && "rpx"[1] == 'p' && "rpx"[2] == 'x';
    assert rest != "" ==> rest[0] == "rpx"[0];
    assert |s| == 1 && rest != "" ==> t[1] == 'r';
    assert |s| == 2 && rest != "" ==> t[2] == 'r';
  }

  lemma StartsMeans(t: string)
    ensures StartsWith(t, "rpx") ==> |t| >= 3 && t[0] == 'r' && t[1] == 'p' && t[2] == 'x'
    ensures t != "" ==> (StartsWith(t, ".") <==> t[0] == '.')
  {
    if StartsWith(t, "rpx") {
      assert t[..3] == "rpx";
    }
    if t != "" && t[0] == '.' {
      assert t[..1] == ".";
    }
  }

  lemma AtShift(s: string, needle: string)
    requires s != "" && HasNo(s, needle)
    ensures HasNo(s[1..], needle)
  {
    forall i ensures At(s[1..], needle, i) ==> At(s, needle, i + 1) {
      assert 0 <= i && i + |needle| <= |s[1..]| ==> s[1..][i..i + |needle|] == s[i + 1..i + 1 + |needle|];
    }
  }

  /** A stretch without the unit is kept, whatever follows: no unit starts inside it and ends after it. */
  lemma {:induction false} KeepsStretch(s: string, rest: string)
    requires HasNo(s, "rpx") && (rest == "" || StartsWith(rest, "rpx"))
    ensures NormalizeUnit(s + rest) == s + NormalizeUnit(rest)
    decreases |s|
  {
    hide NormalizeUnit, HasNo;
    if s == "" {
      assert s + rest == rest && "" + NormalizeUnit(rest) == NormalizeUnit(rest);
    } else {
      var t := s + rest;
      NotInStretch(s, rest);
      NoUnitHere(t);
      AtShift(s, "rpx");
      assert t[1..] == s[1..] + rest;
      KeepsStretch(s[1..], rest);
      assert [s[0]] + (s[1..] + NormalizeUnit(rest)) == s + NormalizeUnit(rest);
    }
  }

  /** Every `rpx` becomes `px`, and nothing else changes. */
  lemma {:induction false} UnitsReplaced(parts: seq<string>)
    requires parts != [] && forall p | p in parts :: HasNo(p, "rpx")
    ensures NormalizeUnit(Join(parts, "rpx")) == Join(parts, "px")
    decreases |parts|
  {
    hide NormalizeUnit, HasNo;
    if |parts| == 1 {
      KeepsStretch(parts[0], "");
      NothingNormal();
      assert parts[0] + "" == parts[0];
    } else {
      var more := Join(parts[1..], "rpx");
      var rest := "rpx" + more;
      assert Join(parts, "rpx") == parts[0] + rest;
      assert rest[..3] == "rpx" && rest[3..] == more;
      KeepsStretch(parts[0], rest);
      UnitIs(rest);
      UnitsReplaced(parts[1..]);
      assert parts[0] + ("px" + Join(parts[1..], "px")) == Join(parts, "px");
    }
  }

  lemma NothingNormal()
    ensures NormalizeUnit("") == ""
  {
  }

  // ----- declarations -----

  function NameOf(p: Property): string {
    match p
    case Display => "display"
    case FlexDirection => "flex-direction"
    case Width => "width"
    case Height => "height"
    case Margin => "margin"
    case Padding => "padding"
    case Color => "color"
    case Background => "background"
    case Opacity => "opacity"
    case FontSize => "font-size"
    case FontWeight => "font-weight"
    case LineHeight => "line-height"
    case Border => "border"
    case BorderRadius => "border-radius"
    case TextAlign => "text-align"
  }

  /** A property has its name, and the background a second one. */
  predicate Names(name: string, p: Property) {
    name == NameOf(p) || (name == "background-color" && p == Background)
  }

  lemma NamedIff(name: string, p: Property)
    ensures PropertyNamed(name) == Some(p) <==> Names(name, p)
  {
    FirstLetters();
  }

  lemma FirstLetters()
    ensures |"display"| == 7 && |"flex-direction"| == 14 && |"width"| == 5 && |"height"| == 6 && |"margin"| == 6
    ensures |"padding"| == 7 && |"color"| == 5 && |"background"| == 10 && |"background-color"| == 16 && |"opacity"| == 7
    ensures |"font-size"| == 9 && |"font-weight"| == 11 && |"line-height"| == 11 && |"border"| == 6
    ensures |"border-radius"| == 13 && |"text-align"| == 10
    ensures "display"[0] == 'd' && "padding"[0] == 'p' && "opacity"[0] == 'o' && "width"[0] == 'w' && "color"[0] == 'c'
    ensures "height"[0] == 'h' && "margin"[0] == 'm' && "border"[0] == 'b' && "background"[0] == 'b' && "text-align"[0] == 't'
    ensures "font-weight"[0] == 'f' && "line-height"[0] == 'l'
  {
  }

  /**
    A declaration with white space around its parts, its value cut at every `rpx`; a text without a colon; nothing but
    white space.
   */
  datatype Written =
    | Declared(lead: string, name: string, before: string, after: string, value: seq<string>, trail: string)
    | Stray(lead: string, text: string, trail: string)
    | Blank(pad: string)

  predicate IsTrimmed(s: string) {
    s == "" || (!IsSpace(s[0]) && !IsSpace(s[|s| - 1]))
  }

  ghost predicate IsWritten(w: Written) {
    match w
    case Declared(lead, name, before, after, value, trail) =>
      && IsBlank(lead) && IsBlank(before) && IsBlank(after) && IsBlank(trail)
      && IsTrimmed(name) && ':' !in name && ';' !in name && name != ""
      && value != [] && (forall p | p in value :: HasNo(p, "rpx")) && IsTrimmed(Join(value, "rpx")) && ';' !in Join(value, "rpx")
      && (Join(value, "rpx") == "" ==> after == "")
    case Stray(lead, text, trail) => IsBlank(lead) && IsBlank(trail) && IsTrimmed(text) && text != "" && ':' !in text && ';' !in text
    case Blank(pad) => IsBlank(pad)
  }

  function WriteOne(w: Written): string {
    match w
    case Declared(lead, name, before, after, value, trail) => lead + (name + before + ":" + (after + Join(value, "rpx"))) + trail
    case Stray(lead, text, trail) => lead + text + trail
    case Blank(pad) => pad
  }

  function WriteStyle(ws: seq<Written>): string
    decreases |ws|
  {
    if ws == [] then "" else if |ws| == 1 then WriteOne(ws[0]) else WriteStyle(ws[..|ws| - 1]) + ";" + WriteOne(ws[|ws| - 1])
  }

  ghost function OneStyle(w: Written): Style {
    if w.Declared? && (exists p :: Names(w.name, p)) then
      var p :| Names(w.name, p);
      map[p := Join(w.value, "px")]
    else map[]
  }

  ghost function OneComplaint(w: Written): seq<string> {
    match w
    case Declared(_, name, _, _, _, _) => if exists p :: Names(name, p) then [] else ["unsupported style property `" + name + "`"]
    case Stray(_, text, _) => ["unsupported declaration `" + text + "`"]
    case Blank(_) => []
  }

  /** What is meant: of one property the last value. */
  ghost function StyleOf(ws: seq<Written>): Style
    decreases |ws|
  {
    if ws == [] then map[] else StyleOf(ws[..|ws| - 1]) + OneStyle(ws[|ws| - 1])
  }

  ghost function ComplaintsOf(ws: seq<Written>): seq<string>
    decreases |ws|
  {
    if ws == [] then [] else ComplaintsOf(ws[..|ws| - 1]) + OneComplaint(ws[|ws| - 1])
  }

  lemma NoSemicolon(pad: string)
    requires IsBlank(pad)
    ensures ';' !in pad && ':' !in pad && '{' !in pad && '}' !in pad && '.' !in pad
  {
  }

  lemma EffectOf(w: Written)
    requires IsWritten(w)
    ensures ';' !in WriteOne(w)
    ensures Effect(WriteOne(w)) == Styled(OneStyle(w), OneComplaint(w))
  {
    hide Trim, IsSpace, NormalizeUnit, Find;
    match w
    case Declared(lead, name, before, after, value, trail) =>
      DeclaredIs(lead, name, before, after, value, trail);
      forall p ensures PropertyNamed(name) == Some(p) <==> Names(name, p) {
        NamedIff(name, p);
      }
      hide PropertyNamed, Names;
    case Stray(lead, text, trail) =>
      NoSemicolon(lead);
      NoSemicolon(trail);
      TrimPadded(lead, text, trail);
      FindNone(text, ':');
    case Blank(pad) =>
      NoSemicolon(pad);
      TrimBlank(pad);
  }

  lemma DeclaredIs(lead: string, name: string, before: string, after: string, value: seq<string>, trail: string)
    requires IsWritten(Declared(lead, name, before, after, value, trail))
    ensures var raw := WriteOne(Declared(lead, name, before, after, value, trail));
      && ';' !in raw
      && Effect(raw) == match PropertyNamed(name)
                        case Some(p) => Styled(map[p := Join(value, "px")], [])
                        case None => Styled(map[], ["unsupported style property `" + name + "`"])
  {
    hide *;
    var v := Join(value, "rpx");
    var raw := WriteOne(Declared(lead, name, before, after, value, trail));
    DeclaredText(lead, name, before, after, value, trail);
    UnitsReplaced(value);
    NoSemicolon(lead);
    NoSemicolon(trail);
    var mid := name + before + ":" + (after + v);
    Colon(name, before, after, v);
    InPieces(lead, mid, trail);
    TrimPadded(lead, mid, trail);
    EffectBy(raw, mid, |name + before|, name, v);
  }

  lemma DeclaredText(lead: string, name: string, before: string, after: string, value: seq<string>, trail: string)
    requires IsWritten(Declared(lead, name, before, after, value, trail))
    ensures var v := Join(value, "rpx");
      && WriteOne(Declared(lead, name, before, after, value, trail)) == lead + (name + before + ":" + (after + v)) + trail
      && IsBlank(lead) && IsBlank(before) && IsBlank(after) && IsBlank(trail)
      && IsTrimmed(name) && ':' !in name && ';' !in name && name != ""
      && IsTrimmed(v) && ';' !in v && (v == "" ==> after == "")
      && value != [] && forall p | p in value :: HasNo(p, "rpx")
  {
    hide IsBlank, IsTrimmed, Join, HasNo;
  }

  /** White space on one side only. */
  lemma TrimAfter(s: string, pad: string)
    requires IsBlank(pad) && IsTrimmed(s)
    ensures Trim(s + pad) == s
  {
    hide IsSpace, TrimStart, TrimEnd, Trim;
    assert "" + s + pad == s + pad;
    TrimPadded("", s, pad);
  }

  lemma TrimBefore(pad: string, s: string)
    requires IsBlank(pad) && IsTrimmed(s)
    ensures Trim(pad + s) == s
  {
    hide IsSpace, TrimStart, TrimEnd, Trim;
    assert pad + s + "" == pad + s;
    TrimPadded(pad, s, "");
  }

  lemma Between(head: string, c: char, tail: string)
    ensures var s := head + [c] + tail;
      && |head| < |s| && s[|head|] == c && s[..|head|] == head && s[|head| + 1..] == tail
      && s[0] == (if head == "" then c else head[0]) && s[|s| - 1] == (if tail == "" then c else tail[|tail| - 1])
    ensures c !in head ==> Find(head + [c] + tail, c) == |head|
  {
    var s := head + [c] + tail;
    assert s[|head|] == c && s[..|head|] == head && s[|head| + 1..] == tail;
    if c !in head {
      FindIs(s, c, |head|);
    }
  }

  lemma Ends(a: string, b: string)
    ensures a != "" ==> (a + b)[0] == a[0]
    ensures b != "" ==> (a + b)[|a + b| - 1] == b[|b| - 1]
    ensures forall c :: c in a + b <==> c in a || c in b
  {
  }

  lemma InPieces(a: string, b: string, c: string)
    ensures forall x :: x in a + b + c <==> x in a || x in b || x in c
  {
  }

  lemma EndsVisible(s: string)
    requires IsTrimmed(s)
    ensures s != "" ==> !IsSpace(s[0]) && !IsSpace(s[|s| - 1])
  {
  }

  /** The name and the value around the colon. */
  lemma Colon(name: string, before: string, after: string, v: string)
    requires IsBlank(before) && IsBlank(after) && IsTrimmed(name) && ':' !in name && ';' !in name && name != ""
    requires IsTrimmed(v) && ';' !in v && (v == "" ==> after == "")
    ensures var mid, n := name + before + ":" + (after + v), |name + before|;
      && mid != "" && !IsSpace(mid[0]) && !IsSpace(mid[|mid| - 1]) && ';' !in mid
      && n < |mid| && Find(mid, ':') == n && Trim(mid[..n]) == name && Trim(mid[n + 1..]) == v
  {
    hide *;
    NoSemicolon(before);
    NoSemicolon(after);
    ColonIsVisible();
    TrimAfter(name, before);
    TrimBefore(after, v);
    EndsVisible(name);
    EndsVisible(v);
    var head, tail := name + before, after + v;
    Ends(name, before);
    Ends(after, v);
    Between(head, ':', tail);
    InPieces(head, ":", tail);
  }

  lemma EffectBy(raw: string, mid: string, n: nat, name: string, v: string)
    requires Trim(raw) == mid && mid != "" && n < |mid| && Find(mid, ':') == n && Trim(mid[..n]) == name && Trim(mid[n + 1..]) == v
    ensures Effect(raw) == match PropertyNamed(name)
                           case Some(p) => Styled(map[p := NormalizeUnit(v)], [])
                           case None => Styled(map[], ["unsupported style property `" + name + "`"])
  {
    hide Trim, Find, PropertyNamed, NormalizeUnit;
  }

  lemma ColonIsVisible()
    ensures !IsSpace(':')
  {
  }

  lemma StyleAlone(s: string)
    requires ';' !in s
    ensures Declarations(s) == Effect(s)
  {
    hide Effect, Over, Split;
    SplitNone(s, ';');
    assert Effects([s]) == [Effect(s)];
    OverNothing(Effect(s));
    assert [Effect(s)][1..] == [];
    assert OverAll(NOTHING, [Effect(s)]) == OverAll(Over(NOTHING, Effect(s)), []);
  }

  /** A style as it is written is read as what it means. */
  lemma {:induction false} StyleIs(ws: seq<Written>)
    requires forall w | w in ws :: IsWritten(w)
    ensures Declarations(WriteStyle(ws)) == Styled(StyleOf(ws), ComplaintsOf(ws))
    decreases |ws|
  {
    hide Declarations, Effect, IsWritten, OneStyle, OneComplaint, WriteOne;
    if ws == [] {
      NoStyle();
    } else {
      var front, last := ws[..|ws| - 1], ws[|ws| - 1];
      EffectOf(last);
      StyleAlone(WriteOne(last));
      StyleIs(front);
      if |ws| == 1 {
        assert ws[0] == last && front == [];
        assert map[] + OneStyle(last) == OneStyle(last) && [] + OneComplaint(last) == OneComplaint(last);
      } else {
        DeclarationsMerge(WriteStyle(front), WriteOne(last));
      }
    }
  }

  lemma NoStyle()
    ensures Declarations("") == NOTHING
  {
    StyleAlone("");
    TrimBlank("");
  }

  // ----- sheets -----

  /**
    A rule of a class, a rule of something else, or a rule without a selector, each with white space around its
    selector and a style between its braces.
   */
  datatype Rule =
    | ClassRule(lead: string, gap: string, name: string, trail: string, body: seq<Written>)
    | OtherRule(lead: string, selector: string, trail: string, inside: string)
    | BareRule(pad: string, inside: string)

  ghost predicate IsRule(r: Rule) {
    match r
    case ClassRule(lead, gap, name, trail, body) =>
      && IsBlank(lead) && IsBlank(gap) && IsBlank(trail) && IsTrimmed(name) && (name == "" ==> gap == "") && '{' !in name
      && (forall w | w in body :: IsWritten(w)) && '}' !in WriteStyle(body)
    case OtherRule(lead, selector, trail, body) =>
      && IsBlank(lead) && IsBlank(trail) && IsTrimmed(selector) && selector != "" && selector[0] != '.'
      && '{' !in selector && '}' !in body
    case BareRule(pad, body) => IsBlank(pad) && '}' !in body
  }

  function Selector(r: Rule): string {
    match r
    case ClassRule(lead, gap, name, trail, _) => lead + ("." + (gap + name)) + trail
    case OtherRule(lead, selector, trail, _) => lead + selector + trail
    case BareRule(pad, _) => pad
  }

  function BodyOf(r: Rule): string {
    if r.ClassRule? then WriteStyle(r.body) else r.inside
  }

  function WriteRules(rs: seq<Rule>): string
    decreases |rs|
  {
    if rs == [] then "" else Selector(rs[0]) + ("{" + (BodyOf(rs[0]) + ("}" + WriteRules(rs[1..]))))
  }

  /** What is meant: of one class the last rule, whole. */
  ghost function WithRule(sheet: Sheet, r: Rule): Sheet {
    match r
    case ClassRule(_, _, name, _, body) => Sheet(sheet.classes[name := StyleOf(body)], sheet.warnings + ComplaintsOf(body))
    case OtherRule(_, selector, _, _) => sheet.(warnings := sheet.warnings + ["unsupported selector `" + selector + "`"])
    case BareRule(_, _) => sheet
  }

  ghost function WithRules(sheet: Sheet, rs: seq<Rule>): Sheet
    decreases |rs|
  {
    if rs == [] then sheet else WithRules(WithRule(sheet, rs[0]), rs[1..])
  }

  lemma ClassSelector(lead: string, gap: string, name: string, trail: string)
    requires IsBlank(lead) && IsBlank(gap) && IsBlank(trail) && IsTrimmed(name) && (name == "" ==> gap == "") && '{' !in name
    ensures var s := lead + ("." + (gap + name)) + trail;
      && '{' !in s && Trim(s) == "." + (gap + name)
      && StartsWith(Trim(s), ".") && Trim(Trim(s)[1..]) == name
  {
    hide *;
    DotIsVisible();
    NoSemicolon(lead);
    NoSemicolon(gap);
    NoSemicolon(trail);
    EndsVisible(name);
    Dotted(gap, name);
    var dotted := "." + (gap + name);
    StartsMeans(dotted);
    TrimBefore(gap, name);
    TrimPadded(lead, dotted, trail);
    InPieces(lead, dotted, trail);
    InPieces(".", gap, name);
    assert "." + gap + name == dotted;
  }

  lemma Dotted(gap: string, name: string)
    requires name == "" ==> gap == ""
    ensures var dotted := "." + (gap + name);
      dotted[0] == '.' && dotted[1..] == gap + name && dotted[|dotted| - 1] == if name == "" then '.' else name[|name| - 1]
  {
  }

  lemma DotIsVisible()
    ensures !IsSpace('.')
  {
  }

  lemma AddsRule(sheet: Sheet, r: Rule)
    requires IsRule(r)
    ensures '{' !in Selector(r) && '}' !in BodyOf(r)
    ensures AddRule(sheet, Trim(Selector(r)), BodyOf(r)) == WithRule(sheet, r)
  {
    match r
    case ClassRule(lead, gap, name, trail, body) =>
      hide IsSpace, TrimStart, TrimEnd, Trim, Declarations, IsWritten, WriteStyle, StyleOf, ComplaintsOf;
      ClassSelector(lead, gap, name, trail);
      StyleIs(body);
    case OtherRule(lead, selector, trail, body) =>
      hide IsSpace, TrimStart, TrimEnd, Declarations;
      NoSemicolon(lead);
      NoSemicolon(trail);
      TrimPadded(lead, selector, trail);
      StartsMeans(selector);
    case BareRule(pad, body) =>
      hide IsSpace, Declarations;
      NoSemicolon(pad);
      TrimBlank(pad);
  }

  lemma RuleStep(sheet: Sheet, selector: string, body: string, rest: string)
    requires '{' !in selector && '}' !in body
    ensures RulesOf(sheet, selector + ("{" + (body + ("}" + rest)))) == RulesOf(AddRule(sheet, Trim(selector), body), rest)
  {
    hide AddRule, Trim, Find;
    var inner := body + ("}" + rest);
    var all := selector + ("{" + inner);
    assert all[|selector|] == '{' && all[..|selector|] == selector && all[|selector| + 1..] == inner;
    FindIs(all, '{', |selector|);
    assert inner[|body|] == '}' && inner[..|body|] == body && inner[|body| + 1..] == rest;
    FindIs(inner, '}', |body|);
  }

  lemma {:induction false} RulesRead(sheet: Sheet, rs: seq<Rule>, rest: string)
    requires forall r | r in rs :: IsRule(r)
    ensures RulesOf(sheet, WriteRules(rs) + rest) == RulesOf(WithRules(sheet, rs), rest)
    decreases |rs|
  {
    hide RulesOf, AddRule, Selector, BodyOf, IsRule, WithRule, Trim;
    if rs == [] {
      assert "" + rest == rest;
    } else {
      var more := WriteRules(rs[1..]) + rest;
      RulesText(Selector(rs[0]), BodyOf(rs[0]), WriteRules(rs[1..]), rest);
      AddsRule(sheet, rs[0]);
      RuleStep(sheet, Selector(rs[0]), BodyOf(rs[0]), more);
      RulesRead(WithRule(sheet, rs[0]), rs[1..], rest);
    }
  }

  lemma RulesText(selector: string, body: string, more: string, rest: string)
    ensures selector + ("{" + (body + ("}" + more))) + rest == selector + ("{" + (body + ("}" + (more + rest))))
  {
    assert "}" + more + rest == "}" + (more + rest);
    assert body + ("}" + more) + rest == body + ("}" + (more + rest));
    assert "{" + (body + ("}" + more)) + rest == "{" + (body + ("}" + (more + rest)));
  }

  /** A sheet as it is written is read as what it means; a rule that is never closed is dropped with a warning. */
  lemma SheetIs(rs: seq<Rule>, rest: string)
    requires (forall r | r in rs :: IsRule(r))
    requires '{' !in rest || '}' !in rest[Find(rest, '{')..]
    ensures ParseSheet(WriteRules(rs) + rest) ==
            var sheet := WithRules(Sheet(map[], []), rs);
            if '{' in rest then sheet.(warnings := sheet.warnings + ["unterminated WXSS rule"]) else sheet
  {
    hide WithRules, WriteRules, IsRule;
    RulesRead(NO_RULES, rs, rest);
    LastRest(WithRules(NO_RULES, rs), rest);
    hide RulesOf;
  }

  lemma LastRest(sheet: Sheet, rest: string)
    requires '{' !in rest || '}' !in rest[Find(rest, '{')..]
    ensures RulesOf(sheet, rest) == (sheet, rest)
  {
    hide AddRule, Find, Trim;
    var start := Find(rest, '{');
    if start < |rest| {
      assert forall c | c in rest[start + 1..] :: c in rest[start..];
      FindNone(rest[start + 1..], '}');
    }
  }
}
