/** What an element's attributes give its node, in closed form: classes, style, props, events and data keys. */
module CompilerAttrs {
  import opened Wrappers
  import opened Text
  import opened Wxml
  import opened Wxss
  import opened Binding
  import opened Compiler
  import Json
  import Order
  import CompilerEvents

  // ----- class lists -----

  datatype Classed = Classed(name: string, gap: string)

  /** Names with white space between them, and maybe behind the last. */
  predicate AreClassed(cs: seq<Classed>)
    decreases |cs|
  {
    cs != [] ==>
      && cs[0].name != "" && (forall c | c in cs[0].name :: !IsSpace(c))
      && IsBlank(cs[0].gap) && (|cs| > 1 ==> cs[0].gap != "") && AreClassed(cs[1..])
  }

  function WriteClassed(cs: seq<Classed>): string
    decreases |cs|
  {
    if cs == [] then "" else cs[0].name + (cs[0].gap + WriteClassed(cs[1..]))
  }

  function NamesOf(cs: seq<Classed>): seq<string>
    decreases |cs|
  {
    if cs == [] then [] else [cs[0].name] + NamesOf(cs[1..])
  }

  lemma {:induction false} WordsSkip(pad: string, s: string)
    requires IsBlank(pad)
    ensures Words(pad + s) == Words(s)
    decreases |pad|
  {
    hide IsSpace;
    if pad == "" {
      assert pad + s == s;
    } else {
      assert pad[0] in pad && (pad + s)[0] == pad[0] && (pad + s)[1..] == pad[1..] + s;
      WordsSkip(pad[1..], s);
      SpaceFirst(pad + s);
    }
  }

  lemma SpaceFirst(s: string)
    requires s != "" && IsSpace(s[0])
    ensures Words(s) == Words(s[1..])
  {
    hide IsSpace;
  }

  lemma {:induction false} WordLengthIs(word: string, rest: string)
    requires (forall c | c in word :: !IsSpace(c)) && (rest == "" || IsSpace(rest[0]))
    ensures WordLength(word + rest) == |word|
    decreases |word|
  {
    hide IsSpace;
    if word == "" {
      assert word + rest == rest;
    } else {
      assert word[0] in word && (word + rest)[1..] == word[1..] + rest;
      WordLengthIs(word[1..], rest);
    }
  }

  lemma WordFirst(word: string, rest: string)
    requires word != "" && (forall c | c in word :: !IsSpace(c)) && (rest == "" || IsSpace(rest[0]))
    ensures Words(word + rest) == [word] + Words(rest)
  {
    WordLengthIs(word, rest);
    hide IsSpace, WordLength;
    assert (word + rest)[..|word|] == word && (word + rest)[|word|..] == rest;
  }

  /** A class list names its classes in order, however they are spaced. */
  lemma {:induction false} WordsAre(lead: string, cs: seq<Classed>)
    requires IsBlank(lead) && AreClassed(cs)
    ensures Words(lead + WriteClassed(cs)) == NamesOf(cs)
    decreases |cs|
  {
    hide IsSpace, Words;
    WordsSkip(lead, WriteClassed(cs));
    if cs == [] {
      NoWords();
    } else {
      var rest := cs[0].gap + WriteClassed(cs[1..]);
      assert rest != "" ==> IsSpace(rest[0]) by {
        if cs[0].gap != "" {
          assert cs[0].gap[0] in cs[0].gap && rest[0] == cs[0].gap[0];
        } else {
          assert |cs| == 1 && cs[1..] == [];
        }
      }
      WordFirst(cs[0].name, rest);
      WordsAre(cs[0].gap, cs[1..]);
    }
  }

  lemma NoWords()
    ensures Words("") == []
  {
  }

  /** Of one property the value of the last class that has it. */
  ghost function StyleOfClasses(names: seq<string>, classes: Classes): Style
    decreases |names|
  {
    if names == [] then map[] else
    var front, last := StyleOfClasses(names[..|names| - 1], classes), names[|names| - 1];
    if last in classes then front + classes[last] else front
  }

  lemma {:induction false} ClassesLast(style: Style, names: seq<string>, last: string, classes: Classes)
    ensures ApplyClasses(style, names + [last], classes) ==
            var front := ApplyClasses(style, names, classes); if last in classes then front + classes[last] else front
    decreases |names|
  {
    if names == [] {
      assert names + [last] == [last] && [last][1..] == [];
    } else {
      assert (names + [last])[1..] == names[1..] + [last];
      ClassesLast(if names[0] in classes then style + classes[names[0]] else style, names[1..], last, classes);
    }
  }

  lemma {:induction false} ClassesInOrder(names: seq<string>, classes: Classes)
    ensures ApplyClasses(map[], names, classes) == StyleOfClasses(names, classes)
    decreases |names|
  {
    if names != [] {
      var front := names[..|names| - 1];
      assert front + [names[|names| - 1]] == names;
      ClassesInOrder(front, classes);
      ClassesLast(map[], front, names[|names| - 1], classes);
    }
  }

  // ----- props -----

  /** The props that the attributes in `names` make, and no others. */
  ghost predicate HasProps(props: map<string, Value>, tag: string, names: set<string>, attrs: Attrs, ctx: Context)
    requires names <= attrs.Keys
  {
    && ("key" in props <==> "data-render-key" in names)
    && ("key" in props ==> props["key"] == Json.Str(attrs["data-render-key"]))
    && ("src" in props <==> tag == "image" && "src" in names)
    && ("src" in props ==> props["src"] == InterpolateValue(attrs["src"], ctx).value)
    && ("scrollX" in props <==> tag == "scroll-view" && "scroll-x" in names)
    && ("scrollX" in props ==> props["scrollX"] == Json.Bool(attrs["scroll-x"] != "false"))
    && ("scrollY" in props <==> tag == "scroll-view" && "scroll-y" in names)
    && ("scrollY" in props ==> props["scrollY"] == Json.Bool(attrs["scroll-y"] != "false"))
    && props.Keys <= {"key", "src", "scrollX", "scrollY"}
  }

  lemma PropsDiffer()
    ensures "key" != "src" && "key" != "scrollX" && "key" != "scrollY" && "src" != "scrollX" && "src" != "scrollY" && "scrollX" != "scrollY"
    ensures "data-render-key" != "src" && "data-render-key" != "scroll-x" && "data-render-key" != "scroll-y"
    ensures "src" != "scroll-x" && "src" != "scroll-y" && "scroll-x" != "scroll-y" && "image" != "scroll-view"
  {
    assert "key"[0] == 'k' && "src"[1] == 'r' && "scrollX"[1] == 'c' && "scrollX"[6] == 'X' && "scrollY"[6] == 'Y';
    assert |"data-render-key"| == 15 && |"src"| == 3 && |"scroll-x"| == 8 && "scroll-x"[7] == 'x' && "scroll-y"[7] == 'y';
  }

  predicate IsPropName(name: string) {
    name == "data-render-key" || name == "src" || name == "scroll-x" || name == "scroll-y"
  }

  lemma PropNamesBindNothing(tag: string, name: string)
    requires IsPropName(name)
    ensures name !in IGNORED && BoundEvent(tag, name).None?
  {
    assert name[0] == 'd' || name[0] == 's';
    assert name[1] != 't' && name[1] != 'l';
    assert forall n | n in IGNORED :: n[0] == 'w' || n[1] == 't' || n[1] == 'l';
  }

  /** What one attribute does: at most one prop, and never the style. */
  lemma AttrStep(acc: Applied, tag: string, name: string, value: string, ctx: Context)
    ensures var next := ApplyAttr(acc, tag, name, value, ctx);
      && next.style == acc.style
      && next.props ==
         (if name == "data-render-key" then acc.props["key" := Json.Str(value)]
          else if tag == "image" && name == "src" then acc.props["src" := InterpolateValue(value, ctx).value]
          else if tag == "scroll-view" && name == "scroll-x" then acc.props["scrollX" := Json.Bool(value != "false")]
          else if tag == "scroll-view" && name == "scroll-y" then acc.props["scrollY" := Json.Bool(value != "false")]
          else acc.props)
      && next.warnings ==
         acc.warnings +
         (if tag == "image" && name == "src" then InterpolateValue(value, ctx).warnings
          else if StartsWith(name, "data-") && name != "data-render-key" then
            Times(InterpolateValue(value, ctx).warnings, |acc.events|)
          else [])
  {
    hide InterpolateValue, DataKey, SetDataset, Order.Less, Repeat, Times, StartsWith;
    PropsDiffer();
    if IsPropName(name) {
      PropNamesBindNothing(tag, name);
    }
    NoDataNames();
    TimesIs(InterpolateValue(value, ctx).warnings, |acc.events|);
    assert acc.warnings + [] == acc.warnings;
  }

  lemma NoDataNames()
    ensures forall n | n in IGNORED :: !StartsWith(n, "data-")
    ensures forall tag, n | BoundEvent(tag, n).Some? :: !StartsWith(n, "data-")
    ensures !StartsWith("src", "data-") && !StartsWith("scroll-x", "data-") && !StartsWith("scroll-y", "data-")
  {
    assert |"data-"| == 5 && "data-"[0] == 'd';
    assert forall n | n in IGNORED :: n[0] != 'd';
    assert forall tag, n | BoundEvent(tag, n).Some? :: n[0] == 'b';
  }

  function Times(warnings: seq<string>, n: nat): seq<string> {
    if n == 0 then [] else warnings + Times(warnings, n - 1)
  }

  lemma {:induction false} TimesIs(warnings: seq<string>, n: nat)
    ensures Times(warnings, n) == Repeat(warnings, n)
  {
    if n == 1 {
      assert Repeat(warnings, 0) == Times(warnings, 0) == [];
      assert [] + warnings == warnings + [];
    } else if n > 1 {
      TimesIs(warnings, n - 1);
      TimesIs(warnings, n - 2);
      assert Repeat(warnings, n - 1) == Repeat(warnings, n - 2) + warnings;
      assert Times(warnings, n - 1) == warnings + Times(warnings, n - 2);
      assert warnings + (Repeat(warnings, n - 2) + warnings) == (warnings + Repeat(warnings, n - 2)) + warnings;
    }
  }

  lemma OneMoreProp(acc: Applied, tag: string, names: set<string>, name: string, attrs: Attrs, ctx: Context)
    requires names <= attrs.Keys && name in attrs && name !in names && HasProps(acc.props, tag, names, attrs, ctx)
    ensures HasProps(ApplyAttr(acc, tag, name, attrs[name], ctx).props, tag, names + {name}, attrs, ctx)
  {
    hide InterpolateValue, ApplyAttr, Times;
    PropsDiffer();
    AttrStep(acc, tag, name, attrs[name], ctx);
  }

  /** The events that the attributes in `names` bind, in the order of their names. */
  function EventsFor(tag: string, names: set<string>, attrs: Attrs): seq<(EventKind, string)>
    requires names <= attrs.Keys
  {
    (if tag == "image" && "binderror" in names then [(ImageError, attrs["binderror"])] else [])
    + (if tag == "image" && "bindload" in names then [(ImageLoad, attrs["bindload"])] else [])
    + (if "bindtap" in names then [(Tap, attrs["bindtap"])] else [])
  }

  lemma BindsInOrder()
    ensures Order.Less("binderror", "bindload") && Order.Less("bindload", "bindtap")
  {
    assert "binderror"[1..] == "inderror" && "bindload"[1..] == "indload" && "bindtap"[1..] == "indtap";
    assert "inderror"[1..] == "nderror" && "indload"[1..] == "ndload" && "indtap"[1..] == "ndtap";
    assert "nderror"[1..] == "derror" && "ndload"[1..] == "dload" && "ndtap"[1..] == "dtap";
    assert Order.Less("derror", "dload") && Order.Less("dload", "dtap");
    assert Order.Less("nderror", "ndload") && Order.Less("ndload", "ndtap");
    assert Order.Less("inderror", "indload") && Order.Less("indload", "indtap");
  }

  lemma LaterBindIsAbsent(names: set<string>, last: string)
    requires last !in names && forall n | n in names :: Order.Less(n, last)
    ensures last == "binderror" ==> "bindload" !in names && "bindtap" !in names
    ensures last == "bindload" ==> "bindtap" !in names
  {
    BindsInOrder();
    Order.LessTransitive("binderror", "bindload", "bindtap");
    Order.LessTrichotomy("binderror", "bindload");
    Order.LessTrichotomy("binderror", "bindtap");
    Order.LessTrichotomy("bindload", "bindtap");
  }

  lemma OneMoreEvent(tag: string, names: set<string>, last: string, attrs: Attrs)
    requires names <= attrs.Keys && last in attrs && last !in names && forall n | n in names :: Order.Less(n, last)
    ensures EventsFor(tag, names + {last}, attrs) ==
            EventsFor(tag, names, attrs)
            + if BoundEvent(tag, last).Some? then [(BoundEvent(tag, last).value, attrs[last])] else []
  {
    hide Order.Less;
    LaterBindIsAbsent(names, last);
    assert |"bindtap"| == 7 && |"bindload"| == 8 && |"binderror"| == 9;
  }

  lemma {:induction false} EventsOfIs(tag: string, names: seq<string>, attrs: Attrs)
    requires Order.StrictlySorted(names) && forall n | n in names :: n in attrs
    ensures CompilerEvents.EventsOf(tag, names, attrs) == EventsFor(tag, (set n | n in names), attrs)
    decreases |names|
  {
    hide Order.Less, EventsFor, BoundEvent;
    if names == [] {
      NoEvents(tag, attrs);
      assert (set n | n in names) == {};
    } else {
      var front, last := names[..|names| - 1], names[|names| - 1];
      EventsOfIs(tag, front, attrs);
      SortedFront(names);
      OneMoreEvent(tag, (set n | n in front), last, attrs);
      assert (set n | n in front) + {last} == (set n | n in names);
    }
  }

  lemma NoEvents(tag: string, attrs: Attrs)
    ensures EventsFor(tag, {}, attrs) == []
  {
  }

  lemma SortedFront(names: seq<string>)
    requires Order.StrictlySorted(names) && names != []
    ensures var front, last := names[..|names| - 1], names[|names| - 1];
      last !in front && (forall n | n in front :: Order.Less(n, last)) && Order.StrictlySorted(front)
  {
    Order.LessTrichotomy(names[|names| - 1], names[|names| - 1]);
  }

  /** The warnings of the attributes in `names`, in order; a data value is warned of once for each event. */
  function WarningsFor(tag: string, names: seq<string>, attrs: Attrs, ctx: Context): seq<string>
    requires forall n | n in names :: n in attrs
    decreases |names|
  {
    if names == [] then [] else
    var front, last := names[..|names| - 1], names[|names| - 1];
    WarningsFor(tag, front, attrs, ctx)
    + (if tag == "image" && last == "src" then InterpolateValue(attrs[last], ctx).warnings
       else if StartsWith(last, "data-") && last != "data-render-key" then
         Times(InterpolateValue(attrs[last], ctx).warnings, |EventsFor(tag, attrs.Keys, attrs)|)
       else [])
  }

  lemma AllBindsBefore(tag: string, names: set<string>, last: string, attrs: Attrs)
    requires names <= attrs.Keys && StartsWith(last, "data-")
    requires forall n | n in attrs && Order.Less(n, last) :: n in names
    ensures EventsFor(tag, names, attrs) == EventsFor(tag, attrs.Keys, attrs)
  {
    assert last[0] == "data-"[0] == 'd' && "bindtap"[0] == "bindload"[0] == "binderror"[0] == 'b';
    assert Order.Less("bindtap", last) && Order.Less("bindload", last) && Order.Less("binderror", last);
  }

  /** What the attributes in `names` make of an element that starts with a style and warnings. */
  ghost predicate Made(acc: Applied, style: Style, warnings: seq<string>, tag: string, names: seq<string>, attrs: Attrs, ctx: Context)
    requires forall n | n in names :: n in attrs
  {
    && acc.style == style
    && HasProps(acc.props, tag, (set n | n in names), attrs, ctx)
    && acc.warnings == warnings + WarningsFor(tag, names, attrs, ctx)
    && CompilerEvents.Carry(acc.events, CompilerEvents.EventsOf(tag, names, attrs), CompilerEvents.DatasetOf(names, attrs, ctx))
  }

  lemma MadeNothing(style: Style, warnings: seq<string>, tag: string, attrs: Attrs, ctx: Context)
    ensures Made(Applied(style, map[], [], warnings), style, warnings, tag, [], attrs, ctx)
  {
    assert warnings + [] == warnings;
    CompilerEvents.NothingCarried(tag, attrs, ctx);
  }

  lemma MadeOneMore(acc: Applied, style: Style, warnings: seq<string>, tag: string, names: seq<string>, i: nat, attrs: Attrs, ctx: Context)
    requires i < |names| && names == Order.SortedKeys(attrs.Keys)
    requires Made(acc, style, warnings, tag, names[..i], attrs, ctx)
    ensures Made(ApplyAttr(acc, tag, names[i], attrs[names[i]], ctx), style, warnings, tag, names[..i + 1], attrs, ctx)
  {
    hide *;
    assert names[..i + 1] == names[..i] + [names[i]];
    SortedPrefix(names, i);
    MadeLast(acc, style, warnings, tag, names[..i], names[i], attrs, ctx);
  }

  lemma MadeLast(acc: Applied, style: Style, warnings: seq<string>, tag: string, before: seq<string>, name: string, attrs: Attrs, ctx: Context)
    requires name in attrs && name !in before && (forall n | n in before :: n in attrs && Order.Less(n, name))
    requires Order.StrictlySorted(before) && forall n | n in attrs && Order.Less(n, name) :: n in before
    requires Made(acc, style, warnings, tag, before, attrs, ctx)
    ensures Made(ApplyAttr(acc, tag, name, attrs[name], ctx), style, warnings, tag, before + [name], attrs, ctx)
  {
    MadeParts(acc, style, warnings, tag, before, attrs, ctx);
    hide *;
    var next, more := ApplyAttr(acc, tag, name, attrs[name], ctx), before + [name];
    CarriedLength(acc.events, CompilerEvents.EventsOf(tag, before, attrs), CompilerEvents.DatasetOf(before, attrs, ctx));
    WarnedOnceMore(acc, tag, before, name, attrs, ctx, warnings);
    CompilerEvents.ApplyAttrCarries(acc, tag, attrs, before, name, ctx);
    PropsLast(acc, tag, before, name, attrs, ctx);
    StyleStays(acc, tag, name, attrs[name], ctx);
    PartsMake(next, style, warnings, tag, more, attrs, ctx);
  }

  lemma StyleStays(acc: Applied, tag: string, name: string, value: string, ctx: Context)
    ensures ApplyAttr(acc, tag, name, value, ctx).style == acc.style
  {
    hide *;
    AttrStep(acc, tag, name, value, ctx);
  }

  lemma PropsLast(acc: Applied, tag: string, before: seq<string>, name: string, attrs: Attrs, ctx: Context)
    requires name in attrs && name !in before && forall n | n in before :: n in attrs
    requires HasProps(acc.props, tag, (set n | n in before), attrs, ctx)
    ensures HasProps(ApplyAttr(acc, tag, name, attrs[name], ctx).props, tag, (set n | n in before + [name]), attrs, ctx)
  {
    hide *;
    OneMoreProp(acc, tag, (set n | n in before), name, attrs, ctx);
    assert (set n | n in before) + {name} == (set n | n in before + [name]);
  }

  lemma MadeParts(acc: Applied, style: Style, warnings: seq<string>, tag: string, names: seq<string>, attrs: Attrs, ctx: Context)
    requires forall n | n in names :: n in attrs
    requires Made(acc, style, warnings, tag, names, attrs, ctx)
    ensures acc.style == style && HasProps(acc.props, tag, (set n | n in names), attrs, ctx)
    ensures acc.warnings == warnings + WarningsFor(tag, names, attrs, ctx)
    ensures CompilerEvents.Carry(acc.events, CompilerEvents.EventsOf(tag, names, attrs), CompilerEvents.DatasetOf(names, attrs, ctx))
  {
    hide HasProps, WarningsFor, CompilerEvents.Carry, CompilerEvents.EventsOf, CompilerEvents.DatasetOf;
  }

  lemma PartsMake(acc: Applied, style: Style, warnings: seq<string>, tag: string, names: seq<string>, attrs: Attrs, ctx: Context)
    requires forall n | n in names :: n in attrs
    requires acc.style == style && HasProps(acc.props, tag, (set n | n in names), attrs, ctx)
    requires acc.warnings == warnings + WarningsFor(tag, names, attrs, ctx)
    requires CompilerEvents.Carry(acc.events, CompilerEvents.EventsOf(tag, names, attrs), CompilerEvents.DatasetOf(names, attrs, ctx))
    ensures Made(acc, style, warnings, tag, names, attrs, ctx)
  {
    hide HasProps, WarningsFor, CompilerEvents.Carry, CompilerEvents.EventsOf, CompilerEvents.DatasetOf;
  }

  lemma WarnedOnceMore(acc: Applied, tag: string, before: seq<string>, name: string, attrs: Attrs, ctx: Context, warnings: seq<string>)
    requires name in attrs && (forall n | n in before :: n in attrs)
    requires Order.StrictlySorted(before) && forall n | n in attrs && Order.Less(n, name) :: n in before
    requires |acc.events| == |CompilerEvents.EventsOf(tag, before, attrs)|
    requires acc.warnings == warnings + WarningsFor(tag, before, attrs, ctx)
    ensures ApplyAttr(acc, tag, name, attrs[name], ctx).warnings == warnings + WarningsFor(tag, before + [name], attrs, ctx)
  {
    hide *;
    AttrStep(acc, tag, name, attrs[name], ctx);
    EventsOfIs(tag, before, attrs);
    if StartsWith(name, "data-") {
      AllBindsBefore(tag, (set n | n in before), name, attrs);
    }
    WarningsLast(tag, before, name, attrs, ctx);
  }

  lemma WarningsLast(tag: string, before: seq<string>, name: string, attrs: Attrs, ctx: Context)
    requires name in attrs && (forall n | n in before :: n in attrs)
    ensures WarningsFor(tag, before + [name], attrs, ctx) ==
            WarningsFor(tag, before, attrs, ctx)
            + (if tag == "image" && name == "src" then InterpolateValue(attrs[name], ctx).warnings
               else if StartsWith(name, "data-") && name != "data-render-key" then
                 Times(InterpolateValue(attrs[name], ctx).warnings, |EventsFor(tag, attrs.Keys, attrs)|)
               else [])
  {
    hide InterpolateValue, Times, StartsWith, EventsFor;
    assert (before + [name])[..|before|] == before;
  }

  lemma CarriedLength(events: seq<EventBinding>, bound: seq<(EventKind, string)>, dataset: map<string, Value>)
    requires CompilerEvents.Carry(events, bound, dataset)
    ensures |events| == |bound|
  {
  }

  lemma SortedPrefix(names: seq<string>, i: nat)
    requires i < |names| && Order.StrictlySorted(names)
    ensures names[i] !in names[..i] && Order.StrictlySorted(names[..i])
    ensures forall n | n in names[..i] :: Order.Less(n, names[i])
    ensures forall n | n in names && Order.Less(n, names[i]) :: n in names[..i]
  {
    hide Order.Less;
    Order.LessTrichotomy(names[i], names[i]);
    forall n | n in names && Order.Less(n, names[i]) ensures n in names[..i] {
      var j :| 0 <= j < |names| && names[j] == n;
      Order.LessTrichotomy(names[i], names[j]);
      if j < i {
        assert names[..i][j] == n;
      }
    }
  }

  lemma {:induction false} MadeRest(acc: Applied, style: Style, warnings: seq<string>, tag: string, names: seq<string>, i: nat, attrs: Attrs, ctx: Context)
    requires i <= |names| && names == Order.SortedKeys(attrs.Keys)
    requires Made(acc, style, warnings, tag, names[..i], attrs, ctx)
    ensures Made(ApplyNames(acc, tag, attrs, names[i..], ctx), style, warnings, tag, names, attrs, ctx)
    decreases |names| - i
  {
    hide ApplyAttr, Made, Order.Less;
    if i == |names| {
      assert names[..i] == names && names[i..] == [];
    } else {
      assert names[i..][0] == names[i] && names[i..][1..] == names[i + 1..];
      MadeOneMore(acc, style, warnings, tag, names, i, attrs, ctx);
      MadeRest(ApplyAttr(acc, tag, names[i], attrs[names[i]], ctx), style, warnings, tag, names, i + 1, attrs, ctx);
    }
  }

  ghost function ClassStyle(attrs: Attrs, classes: Classes): Style {
    if "class" in attrs then StyleOfClasses(Words(attrs["class"]), classes) else map[]
  }

  /** All of it: the style of the classes under the inline one, the props, the events with their handlers, the warnings. */
  lemma AttributesGive(tag: string, attrs: Attrs, ctx: Context, classes: Classes)
    ensures var names, a := Order.SortedKeys(attrs.Keys), ApplyAttrs(tag, attrs, ctx, classes);
      var inline := if "style" in attrs then Declarations(attrs["style"]) else NOTHING;
      && a.style == ClassStyle(attrs, classes) + inline.style
      && HasProps(a.props, tag, attrs.Keys, attrs, ctx)
      && a.warnings == inline.warnings + WarningsFor(tag, names, attrs, ctx)
      && |a.events| == |EventsFor(tag, attrs.Keys, attrs)|
      && forall i | 0 <= i < |a.events| :: (a.events[i].event, a.events[i].handler) == EventsFor(tag, attrs.Keys, attrs)[i]
  {
    hide *;
    var names, a := Order.SortedKeys(attrs.Keys), ApplyAttrs(tag, attrs, ctx, classes);
    var s := InitialStyle(attrs, classes);
    StartsWithStyle(attrs, classes);
    AppliesNames(tag, attrs, ctx, classes);
    assert names[..0] == [] && names[0..] == names;
    MadeNothing(s.style, s.warnings, tag, attrs, ctx);
    MadeRest(Applied(s.style, map[], [], s.warnings), s.style, s.warnings, tag, names, 0, attrs, ctx);
    assert (set n | n in names) == attrs.Keys;
    MadeMeans(a, s.style, s.warnings, tag, names, attrs, ctx);
  }

  lemma AppliesNames(tag: string, attrs: Attrs, ctx: Context, classes: Classes)
    ensures var s := InitialStyle(attrs, classes);
      ApplyAttrs(tag, attrs, ctx, classes) ==
      ApplyNames(Applied(s.style, map[], [], s.warnings), tag, attrs, Order.SortedKeys(attrs.Keys), ctx)
  {
    hide InitialStyle, ApplyNames;
  }

  lemma StartsWithStyle(attrs: Attrs, classes: Classes)
    ensures var inline := if "style" in attrs then Declarations(attrs["style"]) else NOTHING;
      InitialStyle(attrs, classes) == Styled(ClassStyle(attrs, classes) + inline.style, inline.warnings)
  {
    hide Declarations, Words, StyleOfClasses, ApplyClasses;
    if "class" in attrs {
      ClassesInOrder(Words(attrs["class"]), classes);
    }
  }

  lemma MadeMeans(a: Applied, style: Style, warnings: seq<string>, tag: string, names: seq<string>, attrs: Attrs, ctx: Context)
    requires Order.StrictlySorted(names) && (set n | n in names) == attrs.Keys && forall n | n in names :: n in attrs
    requires Made(a, style, warnings, tag, names, attrs, ctx)
    ensures a.style == style && HasProps(a.props, tag, attrs.Keys, attrs, ctx)
    ensures a.warnings == warnings + WarningsFor(tag, names, attrs, ctx)
    ensures |a.events| == |EventsFor(tag, attrs.Keys, attrs)|
    ensures forall i | 0 <= i < |a.events| :: (a.events[i].event, a.events[i].handler) == EventsFor(tag, attrs.Keys, attrs)[i]
  {
    hide HasProps, WarningsFor, EventsFor, CompilerEvents.EventsOf, CompilerEvents.DatasetOf, Order.Less;
    EventsOfIs(tag, names, attrs);
  }

  // ----- data keys -----

  function Prefixes(n: nat): string {
    if n == 0 then "" else "data-" + Prefixes(n - 1)
  }

  /** The key of a data attribute is what follows every leading `data-`; `data-render-key` is none. */
  lemma {:induction false} KeyOfName(n: nat, key: string)
    requires !StartsWith(key, "data-")
    ensures DataKey(Prefixes(n) + key) == key
    ensures n > 0 ==> (IsDataName(Prefixes(n) + key) <==> Prefixes(n) + key != "data-render-key")
  {
    if n == 0 {
      assert "" + key == key;
    } else {
      var rest := Prefixes(n - 1) + key;
      assert Prefixes(n) + key == "data-" + rest && ("data-" + rest)[5..] == rest && ("data-" + rest)[..5] == "data-";
      KeyOfName(n - 1, key);
    }
  }
}
