/** Event bindings and their data sets: which `data-*` attributes every binding carries. */
module CompilerEvents {
  import opened Wrappers
  import opened Text
  import opened Wxml
  import opened Binding
  import opened Compiler
  import Json
  import Order

  /** The data set that the `data-*` names among `names`, taken in order, make. */
  function DatasetOf(names: seq<string>, attrs: Attrs, ctx: Context): map<string, Value>
    requires forall n | n in names :: n in attrs
    decreases |names|
  {
    if names == [] then map[] else
    var last := names[|names| - 1];
    var before := DatasetOf(names[..|names| - 1], attrs, ctx);
    if IsDataName(last) then before[DataKey(last) := InterpolateValue(attrs[last], ctx).value] else before
  }

  /** The event kinds bound among `names`, in order. */
  function EventsOf(tag: string, names: seq<string>, attrs: Attrs): seq<(EventKind, string)>
    requires forall n | n in names :: n in attrs
    decreases |names|
  {
    if names == [] then [] else
    var last := names[|names| - 1];
    var before := EventsOf(tag, names[..|names| - 1], attrs);
    if BoundEvent(tag, last).Some? then before + [(BoundEvent(tag, last).value, attrs[last])] else before
  }

  /** Every binding has this data set, and the bindings are these. */
  ghost predicate Carry(events: seq<EventBinding>, bound: seq<(EventKind, string)>, dataset: map<string, Value>) {
    && |events| == |bound|
    && forall i | 0 <= i < |events| :: events[i] == EventBinding(bound[i].0, bound[i].1, dataset)
  }

  lemma BindBeforeData(tag: string, bind: string, data: string)
    requires BoundEvent(tag, bind).Some? && StartsWith(data, DATA)
    ensures !Order.Less(data, bind) && data != bind && !IsDataName(bind)
  {
    assert data[0] == DATA[0] == 'd';
    assert bind[0] == 'b';
  }

  lemma {:induction false} NoDataNoDataset(names: seq<string>, attrs: Attrs, ctx: Context)
    requires forall n | n in names :: n in attrs && !IsDataName(n)
    ensures DatasetOf(names, attrs, ctx) == map[]
    decreases |names|
  {
    hide IsDataName, InterpolateValue;
    if names != [] {
      NoDataNoDataset(names[..|names| - 1], attrs, ctx);
    }
  }

  /** One attribute takes bindings that carry the names so far to bindings that carry it too. */
  lemma ApplyAttrCarries(acc: Applied, tag: string, attrs: Attrs, names: seq<string>, name: string, ctx: Context)
    requires forall n | n in names + [name] :: n in attrs
    requires forall n | n in names :: Order.Less(n, name)
    requires Carry(acc.events, EventsOf(tag, names, attrs), DatasetOf(names, attrs, ctx))
    ensures Carry(ApplyAttr(acc, tag, name, attrs[name], ctx).events,
                  EventsOf(tag, names + [name], attrs), DatasetOf(names + [name], attrs, ctx))
  {
    hide InterpolateValue, DataKey, Order.Less;
    assert (names + [name])[..|names|] == names;
    if BoundEvent(tag, name).Some? {
      forall n | n in names ensures !IsDataName(n) {
        if StartsWith(n, DATA) {
          BindBeforeData(tag, name, n);
        }
      }
      NoDataNoDataset(names, attrs, ctx);
      BindIsNoData(tag, name);
      hide StartsWith, BoundEvent;
    } else if StartsWith(name, DATA) {
      DataIsNoOther(tag, name);
    }
  }

  lemma BindIsNoData(tag: string, name: string)
    requires BoundEvent(tag, name).Some?
    ensures !IsDataName(name) && name !in IGNORED && name != RENDER_KEY
  {
    assert name[0] == 'b' && DATA[0] == RENDER_KEY[0] == 'd';
    assert forall s | s in IGNORED :: s[0] != 'b';
  }

  lemma DataIsNoOther(tag: string, name: string)
    requires StartsWith(name, DATA)
    ensures name !in IGNORED && BoundEvent(tag, name).None? && name != "src" && name != "scroll-x" && name != "scroll-y"
  {
    assert name[0] == DATA[0] && name[1] == DATA[1];
  }

  lemma {:induction false} ApplyNamesCarries(acc: Applied, tag: string, attrs: Attrs, names: seq<string>, i: nat, ctx: Context)
    requires i <= |names| && Order.StrictlySorted(names) && forall n | n in names :: n in attrs
    requires Carry(acc.events, EventsOf(tag, names[..i], attrs), DatasetOf(names[..i], attrs, ctx))
    ensures Carry(ApplyNames(acc, tag, attrs, names[i..], ctx).events,
                  EventsOf(tag, names, attrs), DatasetOf(names, attrs, ctx))
    decreases |names| - i
  {
    hide ApplyAttr, EventsOf, DatasetOf, Carry, Order.Less;
    if i == |names| {
      assert names[..i] == names && names[i..] == [];
    } else {
      assert names[..i] + [names[i]] == names[..i + 1];
      assert names[i..][0] == names[i] && names[i..][1..] == names[i + 1..];
      ApplyAttrCarries(acc, tag, attrs, names[..i], names[i], ctx);
      ApplyNamesCarries(ApplyAttr(acc, tag, names[i], attrs[names[i]], ctx), tag, attrs, names, i + 1, ctx);
    }
  }

  /** The last of the sorted `data-*` names that has the key of `name`. */
  ghost predicate IsLastOfKey(name: string, attrs: Attrs) {
    && name in attrs && IsDataName(name)
    && forall m | m in attrs && IsDataName(m) && DataKey(m) == DataKey(name) :: m == name || Order.Less(m, name)
  }

  /** Every `data-*` name has such a last one. */
  lemma LastOfKey(name: string, attrs: Attrs) returns (last: string)
    requires name in attrs && IsDataName(name)
    ensures IsLastOfKey(last, attrs) && DataKey(last) == DataKey(name)
  {
    hide IsDataName, DataKey;
    var names := set n | n in attrs && IsDataName(n) && DataKey(n) == DataKey(name);
    assert name in names;
    last := LatestOf(names);
  }

  lemma {:induction false} LatestOf(names: set<string>) returns (last: string)
    requires names != {}
    ensures last in names && forall m | m in names :: m == last || Order.Less(m, last)
    decreases |names|
  {
    hide Order.Less;
    var x :| x in names;
    var rest := names - {x};
    last := x;
    if rest != {} {
      var m := LatestOf(rest);
      Order.LessTrichotomy(m, x);
      if Order.Less(x, m) {
        last := m;
      } else {
        forall y | y in rest ensures Order.Less(y, x) {
          if y != m {
            Order.LessTransitive(y, m, x);
          }
        }
      }
    }
    assert forall y | y in names :: y == x || y in rest;
  }

  lemma {:induction false} DatasetKeys(names: seq<string>, attrs: Attrs, ctx: Context)
    requires forall n | n in names :: n in attrs
    ensures DatasetOf(names, attrs, ctx).Keys == set n | n in names && IsDataName(n) :: DataKey(n)
    decreases |names|
  {
    hide IsDataName, InterpolateValue, DataKey;
    if names != [] {
      DatasetKeys(names[..|names| - 1], attrs, ctx);
      var last := names[|names| - 1];
      assert forall n | n in names :: n in names[..|names| - 1] || n == last;
    }
  }

  lemma {:induction false} DatasetValues(names: seq<string>, attrs: Attrs, ctx: Context, name: string)
    requires Order.StrictlySorted(names) && forall n | n in names :: n in attrs
    requires name in names && IsLastOfKey(name, attrs)
    ensures DataKey(name) in DatasetOf(names, attrs, ctx)
    ensures DatasetOf(names, attrs, ctx)[DataKey(name)] == InterpolateValue(attrs[name], ctx).value
    decreases |names|
  {
    hide IsDataName, InterpolateValue, DataKey, Order.Less;
    var last := names[|names| - 1];
    var front := names[..|names| - 1];
    if last != name {
      assert name in front;
      DatasetValues(front, attrs, ctx, name);
      var i :| 0 <= i < |front| && front[i] == name;
      assert Order.Less(name, last);
      Order.LessTrichotomy(name, last);
    }
  }

  /**
    The bindings of a compiled element are its event attributes in name order, and each carries every
    `data-*` attribute except `data-render-key`: exactly their keys, and under a key the value of the
    last name that has it.
   */
  lemma BindingsCarryDataset(tag: string, attrs: Attrs, ctx: Context, classes: Classes)
    ensures var names := Order.SortedKeys(attrs.Keys);
      Carry(ApplyAttrs(tag, attrs, ctx, classes).events, EventsOf(tag, names, attrs), DatasetOf(names, attrs, ctx))
    ensures forall b | b in ApplyAttrs(tag, attrs, ctx, classes).events ::
      b.dataset.Keys == set n | n in attrs && IsDataName(n) :: DataKey(n)
    ensures forall b, n | b in ApplyAttrs(tag, attrs, ctx, classes).events && n in attrs && IsLastOfKey(n, attrs) ::
      DataKey(n) in b.dataset && b.dataset[DataKey(n)] == InterpolateValue(attrs[n], ctx).value
  {
    hide InterpolateValue, ApplyNames, IsDataName, DataKey, EventsOf, DatasetOf, IsLastOfKey;
    var names := Order.SortedKeys(attrs.Keys);
    var s := InitialStyle(attrs, classes);
    assert names[..0] == [] && names[0..] == names;
    NothingCarried(tag, attrs, ctx);
    ApplyNamesCarries(Applied(s.style, map[], [], s.warnings), tag, attrs, names, 0, ctx);
    DatasetKeys(names, attrs, ctx);
    forall n | n in attrs && IsLastOfKey(n, attrs)
      ensures DataKey(n) in DatasetOf(names, attrs, ctx)
      ensures DatasetOf(names, attrs, ctx)[DataKey(n)] == InterpolateValue(attrs[n], ctx).value
    {
      DatasetValues(names, attrs, ctx, n);
    }
  }

  lemma NothingCarried(tag: string, attrs: Attrs, ctx: Context)
    ensures Carry([], EventsOf(tag, [], attrs), DatasetOf([], attrs, ctx))
  {
  }

  /** A binding carries the value of a given `data-*` name exactly when no later name takes over its key with another value. */
  lemma CarriesValueIff(tag: string, attrs: Attrs, ctx: Context, classes: Classes, name: string, last: string, b: EventBinding)
    requires name in attrs && IsDataName(name)
    requires IsLastOfKey(last, attrs) && DataKey(last) == DataKey(name)
    requires b in ApplyAttrs(tag, attrs, ctx, classes).events
    ensures DataKey(name) in b.dataset
    ensures b.dataset[DataKey(name)] == InterpolateValue(attrs[name], ctx).value <==>
            InterpolateValue(attrs[last], ctx).value == InterpolateValue(attrs[name], ctx).value
  {
    hide InterpolateValue, IsDataName, DataKey;
    BindingsCarryDataset(tag, attrs, ctx, classes);
  }

  const SHARED_KEY: Attrs := map["bindtap" := "go", "data-data-x" := "1", "data-x" := "2"]

  /** `data-data-x` and `data-x` share the key `x`, so the binding loses the value of the first. */
  lemma SharedKeyLosesValue(ctx: Context, classes: Classes) returns (b: EventBinding)
    ensures b in ApplyAttrs("view", SHARED_KEY, ctx, classes).events
    ensures IsDataName("data-data-x") && DataKey("data-data-x") in b.dataset
    ensures b.dataset[DataKey("data-data-x")] != InterpolateValue(SHARED_KEY["data-data-x"], ctx).value
  {
    hide InterpolateValue, ApplyAttrs, IsDataName, DataKey, IsLastOfKey;
    KeyOfX();
    PlainValue("1", '1', ctx);
    PlainValue("2", '2', ctx);
    XIsLast(SHARED_KEY);
    b := SomeBinding(ctx, classes);
    CarriesValueIff("view", SHARED_KEY, ctx, classes, "data-data-x", "data-x", b);
  }

  lemma SomeBinding(ctx: Context, classes: Classes) returns (b: EventBinding)
    ensures b in ApplyAttrs("view", SHARED_KEY, ctx, classes).events
  {
    assert "bindtap" in SHARED_KEY;
    hide *;
    var names := Order.SortedKeys(SHARED_KEY.Keys);
    var events := ApplyAttrs("view", SHARED_KEY, ctx, classes).events;
    BindingsCarryDataset("view", SHARED_KEY, ctx, classes);
    TapIsBound(SHARED_KEY, names);
    CarryLength(events, EventsOf("view", names, SHARED_KEY), DatasetOf(names, SHARED_KEY, ctx));
    return events[0];
  }

  lemma CarryLength(events: seq<EventBinding>, bound: seq<(EventKind, string)>, dataset: map<string, Value>)
    requires Carry(events, bound, dataset)
    ensures |events| == |bound|
  {
  }

  lemma {:induction false} TapIsBound(attrs: Attrs, names: seq<string>)
    requires forall n | n in names :: n in attrs
    requires "bindtap" in names
    ensures EventsOf("view", names, attrs) != []
    decreases |names|
  {
    var last := names[|names| - 1];
    if last != "bindtap" {
      TapIsBound(attrs, names[..|names| - 1]);
    }
  }

  lemma KeyOfX()
    ensures IsDataName("data-data-x") && IsDataName("data-x")
    ensures DataKey("data-data-x") == "x" && DataKey("data-x") == "x"
  {
    assert StartsWith("data-data-x", DATA) && "data-data-x"[5..] == "data-x";
    assert StartsWith("data-x", DATA) && "data-x"[5..] == "x";
    assert !StartsWith("x", DATA);
    assert DataKey("x") == "x";
    assert DataKey("data-x") == "x";
  }

  lemma PlainValue(s: string, c: char, ctx: Context)
    requires s == [c] && (c == '1' || c == '2')
    ensures InterpolateValue(s, ctx).value == Json.Str(s)
  {
    TrimFixed(s);
  }

  lemma XIsLast(attrs: Attrs)
    requires attrs == map["bindtap" := "go", "data-data-x" := "1", "data-x" := "2"]
    ensures IsLastOfKey("data-x", attrs)
  {
    KeyOfX();
    assert !StartsWith("bindtap", DATA);
    DataDataFirst();
  }

  lemma DataDataFirst()
    ensures Order.Less("data-data-x", "data-x")
  {
    assert "data-data-x"[1..] == "ata-data-x" && "data-x"[1..] == "ata-x";
    assert "ata-data-x"[1..] == "ta-data-x" && "ata-x"[1..] == "ta-x";
    assert "ta-data-x"[1..] == "a-data-x" && "ta-x"[1..] == "a-x";
    assert "a-data-x"[1..] == "-data-x" && "a-x"[1..] == "-x";
    assert "-data-x"[1..] == "data-x" && "-x"[1..] == "x";
    assert Order.Less("data-x", "x");
    assert Order.Less("-data-x", "-x");
    assert Order.Less("a-data-x", "a-x");
    assert Order.Less("ta-data-x", "ta-x");
    assert Order.Less("ata-data-x", "ata-x");
  }
}
