/** What mounting, an event and an expiry do as a whole: which scripts run, and what all of them leave. */
module ComponentRuns {
  import opened Wrappers
  import opened ComponentVm
  import opened ComponentLaws
  import Json
  import SetData
  import Text

  // ----- what a list of scripts leaves -----

  /** The updates that a script sets before it ends or throws. */
  function Updates(script: Script): seq<SetData.Update> {
    if script == [] || script[0].Throw? then []
    else (if script[0].Set? then script[0].updates else []) + Updates(script[1..])
  }

  function FirstThrow(script: Script): Option<string> {
    if script == [] then None else if script[0].Throw? then Some(script[0].message) else FirstThrow(script[1..])
  }

  /** What is run in order: a line of the trace, or a script. */
  datatype Item = Line(entry: Entry) | Body(script: Script)

  /** The items up to the first script that throws, that one too. */
  function Reached(items: seq<Item>): seq<Item>
    decreases |items|
  {
    if items == [] then []
    else if items[0].Body? && FirstThrow(items[0].script).Some? then [items[0]]
    else [items[0]] + Reached(items[1..])
  }

  function ErrorOf(items: seq<Item>): Option<JsError>
    decreases |items|
  {
    if items == [] then None
    else if items[0].Body? && FirstThrow(items[0].script).Some? then Some(Thrown(FirstThrow(items[0].script).value))
    else ErrorOf(items[1..])
  }

  function Lines(items: seq<Item>): seq<Entry>
    decreases |items|
  {
    if items == [] then [] else (if items[0].Line? then [items[0].entry] else []) + Lines(items[1..])
  }

  function AllUpdates(items: seq<Item>): seq<SetData.Update>
    decreases |items|
  {
    if items == [] then [] else (if items[0].Body? then Updates(items[0].script) else []) + AllUpdates(items[1..])
  }

  function AllPushes(items: seq<Item>): seq<Action>
    decreases |items|
  {
    if items == [] then [] else (if items[0].Body? then Pushes(items[0].script) else []) + AllPushes(items[1..])
  }

  function AllRegisters(items: seq<Item>, name: string): seq<Script>
    decreases |items|
  {
    if items == [] then [] else (if items[0].Body? then Registers(items[0].script, name) else []) + AllRegisters(items[1..], name)
  }

  /** `after` is what running the items leaves of `vm`. */
  ghost predicate HasRun(vm: Vm, after: Vm, items: seq<Item>) {
    && vm.instance.Some? && after.instance.Some?
    && after.definition == vm.definition && after.expired == vm.expired
    && after.instance.value.data == SetData.ApplyAll(vm.instance.value.data, AllUpdates(items))
    && after.actions == vm.actions + AllPushes(items)
    && after.trace == vm.trace + Lines(items)
    && forall name :: HandlersOf(after, name) == HandlersOf(vm, name) + AllRegisters(items, name)
  }

  // ----- concatenation -----

  lemma {:induction false} LinesConcat(a: seq<Item>, b: seq<Item>)
    ensures Lines(a + b) == Lines(a) + Lines(b)
    decreases |a|
  {
    if a == [] {
      assert a + b == b;
    } else {
      var all := a + b;
      assert all[0] == a[0] && all[1..] == a[1..] + b;
      LinesConcat(a[1..], b);
      LinesFirst(a);
      LinesFirst(all);
      hide Lines;
      var first := if a[0].Line? then [a[0].entry] else [];
      assert first + Lines(a[1..]) + Lines(b) == first + (Lines(a[1..]) + Lines(b));
    }
  }

  lemma LinesFirst(items: seq<Item>)
    requires items != []
    ensures Lines(items) == (if items[0].Line? then [items[0].entry] else []) + Lines(items[1..])
  {
  }

  lemma {:induction false} AllUpdatesConcat(a: seq<Item>, b: seq<Item>)
    ensures AllUpdates(a + b) == AllUpdates(a) + AllUpdates(b)
    decreases |a|
  {
    hide Updates;
    if a == [] {
      assert a + b == b;
    } else {
      assert (a + b)[1..] == a[1..] + b;
      AllUpdatesConcat(a[1..], b);
    }
  }

  lemma {:induction false} PushesConcat(a: seq<Item>, b: seq<Item>)
    ensures AllPushes(a + b) == AllPushes(a) + AllPushes(b)
    decreases |a|
  {
    hide Pushes;
    if a == [] {
      assert a + b == b;
    } else {
      assert (a + b)[1..] == a[1..] + b;
      PushesConcat(a[1..], b);
    }
  }

  lemma {:induction false} RegistersConcat(a: seq<Item>, b: seq<Item>, name: string)
    ensures AllRegisters(a + b, name) == AllRegisters(a, name) + AllRegisters(b, name)
    decreases |a|
  {
    hide Registers;
    if a == [] {
      assert a + b == b;
    } else {
      assert (a + b)[1..] == a[1..] + b;
      RegistersConcat(a[1..], b, name);
    }
  }

  lemma {:induction false} ReachedConcat(a: seq<Item>, b: seq<Item>)
    ensures ErrorOf(a).None? ==> Reached(a) == a && Reached(a + b) == a + Reached(b) && ErrorOf(a + b) == ErrorOf(b)
    ensures ErrorOf(a).Some? ==> Reached(a + b) == Reached(a) && ErrorOf(a + b) == ErrorOf(a)
    decreases |a|
  {
    hide FirstThrow;
    if a == [] {
      assert a + b == b;
    } else {
      assert (a + b)[1..] == a[1..] + b && (a + b)[0] == a[0];
      ReachedConcat(a[1..], b);
    }
  }

  lemma {:induction false} UpdatesConcat(fields: Fields, a: seq<SetData.Update>, b: seq<SetData.Update>)
    ensures SetData.ApplyAll(fields, a + b) == SetData.ApplyAll(SetData.ApplyAll(fields, a), b)
    decreases |a|
  {
    hide SetData.ApplyOne;
    if a == [] {
      assert a + b == b;
    } else {
      assert (a + b)[1..] == a[1..] + b;
      UpdatesConcat(SetData.ApplyOne(fields, a[0]), a[1..], b);
    }
  }

  lemma RunThen(vm: Vm, mid: Vm, after: Vm, a: seq<Item>, b: seq<Item>)
    requires HasRun(vm, mid, a) && HasRun(mid, after, b)
    ensures HasRun(vm, after, a + b)
  {
    hide HandlersOf, SetData.ApplyAll, AllRegisters, AllUpdates, AllPushes, Lines;
    LinesConcat(a, b);
    AllUpdatesConcat(a, b);
    PushesConcat(a, b);
    UpdatesConcat(vm.instance.value.data, AllUpdates(a), AllUpdates(b));
    assert vm.actions + AllPushes(a) + AllPushes(b) == vm.actions + (AllPushes(a) + AllPushes(b));
    assert vm.trace + Lines(a) + Lines(b) == vm.trace + (Lines(a) + Lines(b));
    forall name ensures HandlersOf(after, name) == HandlersOf(vm, name) + AllRegisters(a + b, name) {
      RegistersConcat(a, b, name);
      var h, r, s := HandlersOf(vm, name), AllRegisters(a, name), AllRegisters(b, name);
      assert h + r + s == h + (r + s);
    }
  }

  lemma RanNothing(vm: Vm)
    requires vm.instance.Some?
    ensures HasRun(vm, vm, [])
  {
    hide HandlersOf;
    assert vm.actions + [] == vm.actions && vm.trace + [] == vm.trace;
    forall name ensures HandlersOf(vm, name) == HandlersOf(vm, name) + [] {
      assert HandlersOf(vm, name) + [] == HandlersOf(vm, name);
    }
  }

  // ----- one script -----

  lemma StepLeaves(vm: Vm, step: Step)
    requires vm.instance.Some?
    ensures var (next, e) := RunStep(vm, step);
      && next.trace == vm.trace && next.instance.Some?
      && next.instance.value.data ==
         (if step.Set? then SetData.ApplyAll(vm.instance.value.data, step.updates) else vm.instance.value.data)
      && e == if step.Throw? then Some(Thrown(step.message)) else None
  {
    hide SetData.ApplyAll, Queued, HandlersOf;
  }

  lemma {:induction false} RunLeaves(vm: Vm, script: Script)
    requires vm.instance.Some?
    ensures var (next, e) := Run(vm, script);
      && next.trace == vm.trace && next.instance.Some?
      && next.instance.value.data == SetData.ApplyAll(vm.instance.value.data, Updates(script))
      && e == match FirstThrow(script) { case Some(message) => Some(Thrown(message)) case None => None }
    decreases |script|
  {
    hide RunStep, SetData.ApplyAll;
    NoUpdates(if vm.instance.Some? then vm.instance.value.data else map[]);
    if script != [] {
      StepLeaves(vm, script[0]);
      var (next, e) := RunStep(vm, script[0]);
      if e.None? {
        RunLeaves(next, script[1..]);
        var first := if script[0].Set? then script[0].updates else [];
        UpdatesConcat(vm.instance.value.data, first, Updates(script[1..]));
      }
    }
  }

  lemma NoUpdates(fields: Fields)
    ensures SetData.ApplyAll(fields, []) == fields
  {
  }

  lemma OneBody(script: Script)
    ensures var items := [Body(script)];
      && AllUpdates(items) == Updates(script) && AllPushes(items) == Pushes(script) && Lines(items) == []
      && (forall name :: AllRegisters(items, name) == Registers(script, name))
      && ErrorOf(items) == (match FirstThrow(script) { case Some(message) => Some(Thrown(message)) case None => None })
      && Reached(items) == items
  {
    hide Updates, Pushes, Registers, FirstThrow;
    assert [Body(script)][1..] == [];
    assert Updates(script) + [] == Updates(script) && Pushes(script) + [] == Pushes(script);
    forall name ensures AllRegisters([Body(script)], name) == Registers(script, name) {
      assert Registers(script, name) + [] == Registers(script, name);
    }
  }

  lemma ScriptHasRun(vm: Vm, script: Script)
    requires vm.instance.Some?
    ensures var (next, e) := Run(vm, script);
      HasRun(vm, next, [Body(script)]) && e == ErrorOf([Body(script)])
  {
    hide *;
    var next := Run(vm, script).0;
    OneBody(script);
    RunLeaves(vm, script);
    RunEffects(vm, script, "");
    SameFrameIs(vm, next);
    forall name ensures HandlersOf(next, name) == HandlersOf(vm, name) + Registers(script, name) {
      RunEffects(vm, script, name);
    }
    assert vm.trace + [] == vm.trace;
    HaveRun(vm, next, [Body(script)]);
  }

  lemma SameFrameIs(a: Vm, b: Vm)
    requires SameFrame(a, b)
    ensures a.definition == b.definition && a.expired == b.expired
  {
  }

  lemma HaveRun(vm: Vm, after: Vm, items: seq<Item>)
    requires vm.instance.Some? && after.instance.Some? && after.definition == vm.definition && after.expired == vm.expired
    requires after.actions == vm.actions + AllPushes(items) && after.trace == vm.trace + Lines(items)
    requires after.instance.value.data == SetData.ApplyAll(vm.instance.value.data, AllUpdates(items))
    requires forall name :: HandlersOf(after, name) == HandlersOf(vm, name) + AllRegisters(items, name)
    ensures HasRun(vm, after, items)
  {
    hide HandlersOf, SetData.ApplyAll, AllRegisters, AllUpdates, AllPushes, Lines;
  }

  lemma NoteHasRun(vm: Vm, kind: Kind, name: string)
    requires vm.instance.Some?
    ensures HasRun(vm, Note(vm, kind, name), [Line(Entry(kind, name))])
  {
    var item: Item := Line(Entry(kind, name));
    assert [item][1..] == [];
    assert vm.actions + [] == vm.actions && [Entry(kind, name)] + [] == [Entry(kind, name)];
    forall other ensures HandlersOf(Note(vm, kind, name), other) == HandlersOf(vm, other) + AllRegisters([item], other) {
      assert HandlersOf(vm, other) + [] == HandlersOf(vm, other);
    }
  }

  // ----- notifications and phases -----

  function Bodies(scripts: seq<Script>): seq<Item>
    decreases |scripts|
  {
    if scripts == [] then [] else [Body(scripts[0])] + Bodies(scripts[1..])
  }

  lemma {:induction false} HandlersHaveRun(vm: Vm, name: string, i: nat)
    requires vm.instance.Some? && i <= |HandlersOf(vm, name)|
    ensures var (next, e) := NotifyFrom(vm, name, i);
      var items := Bodies(Scheduled(HandlersOf(vm, name)[i..], name));
      HasRun(vm, next, Reached(items)) && e == ErrorOf(items)
    decreases SizeAll(HandlersOf(vm, name)[i..])
  {
    hide Run, HandlersOf, SizeAll, HasRun, Registers, FirstThrow;
    var handlers := HandlersOf(vm, name);
    if i == |handlers| {
      RanNothing(vm);
    } else {
      var script := handlers[i];
      var (next, e) := Run(vm, script);
      PendingShrinks(vm, name, i);
      ScriptHasRun(vm, script);
      RunEffects(vm, script, name);
      assert handlers[i..][0] == script && handlers[i..][1..] == handlers[i + 1..];
      assert HandlersOf(next, name)[i + 1..] == handlers[i + 1..] + Registers(script, name);
      var rest := Scheduled(HandlersOf(next, name)[i + 1..], name);
      BodiesFirst(script, rest);
      assert [Body(script)][1..] == [];
      ReachedConcat([Body(script)], Bodies(rest));
      if e.None? {
        HasRunInstance(vm, next, [Body(script)]);
        HandlersHaveRun(next, name, i + 1);
        RunThen(vm, next, NotifyFrom(next, name, i + 1).0, [Body(script)], Reached(Bodies(rest)));
      } else {
        assert Reached([Body(script)]) == [Body(script)];
      }
    }
  }

  lemma HasRunInstance(vm: Vm, after: Vm, items: seq<Item>)
    requires HasRun(vm, after, items)
    ensures after.instance.Some? && after.definition == vm.definition && after.expired == vm.expired
    ensures after.actions == vm.actions + AllPushes(items) && after.trace == vm.trace + Lines(items)
    ensures after.instance.value.data == SetData.ApplyAll(vm.instance.value.data, AllUpdates(items))
    ensures forall name :: HandlersOf(after, name) == HandlersOf(vm, name) + AllRegisters(items, name)
  {
  }

  lemma BodiesFirst(script: Script, rest: seq<Script>)
    ensures Bodies([script] + rest) == [Body(script)] + Bodies(rest)
  {
    assert ([script] + rest)[1..] == rest;
  }

  function LifeItems(d: Definition, name: string): seq<Item> {
    if name in d.lifetimes then [Line(Entry(Lifecycle, name)), Body(d.lifetimes[name])] else []
  }

  /** A notification with these handlers; those that they register for it run as well. */
  function NoticeItems(name: string, handlers: seq<Script>): seq<Item> {
    [Line(Entry(Notification, name))] + Bodies(Scheduled(handlers, name))
  }

  lemma LifeHasRun(vm: Vm, name: string)
    requires vm.instance.Some? && vm.definition.Some?
    ensures var (next, e) := CallLifecycle(vm, name);
      var items := LifeItems(vm.definition.value, name);
      HasRun(vm, next, Reached(items)) && e == ErrorOf(items)
  {
    hide Run, HasRun, Note, Reached, ErrorOf;
    RanNothing(vm);
    NothingReached();
    if name in vm.definition.value.lifetimes {
      NotedThenRun(vm, Lifecycle, name, vm.definition.value.lifetimes[name]);
    }
  }

  lemma NothingReached()
    ensures Reached([]) == [] && ErrorOf([]) == None
  {
  }

  lemma NotedThenRun(vm: Vm, kind: Kind, name: string, script: Script)
    requires vm.instance.Some?
    ensures var (next, e) := Run(Note(vm, kind, name), script);
      var items := [Line(Entry(kind, name)), Body(script)];
      HasRun(vm, next, Reached(items)) && e == ErrorOf(items)
  {
    hide *;
    var noted, line := Note(vm, kind, name), Line(Entry(kind, name));
    NoteHasRun(vm, kind, name);
    HasRunInstance(vm, noted, [line]);
    ScriptHasRun(noted, script);
    RunThen(vm, noted, Run(noted, script).0, [line], [Body(script)]);
    LineReached(Entry(kind, name), [Body(script)]);
    OneBody(script);
    assert [line] + [Body(script)] == [line, Body(script)];
  }

  lemma LineReached(entry: Entry, rest: seq<Item>)
    ensures Reached([Line(entry)] + rest) == [Line(entry)] + Reached(rest) && ErrorOf([Line(entry)] + rest) == ErrorOf(rest)
  {
    assert ([Line(entry)] + rest)[1..] == rest;
  }

  lemma NoticeHasRun(vm: Vm, name: string)
    requires vm.instance.Some? && Text.Lower(name) == name
    ensures var (next, e) := Notify(vm, name);
      var items := NoticeItems(name, HandlersOf(vm, name));
      HasRun(vm, next, Reached(items)) && e == ErrorOf(items)
  {
    NotifyIs(vm, name);
    hide *;
    var noted, line := Note(vm, Notification, name), Line(Entry(Notification, name));
    var items := Bodies(Scheduled(HandlersOf(vm, name), name));
    NoteHasRun(vm, Notification, name);
    HasRunInstance(vm, noted, [line]);
    SameHandlers(vm, Notification, name, name);
    HandlersHaveRun(noted, name, 0);
    assert HandlersOf(noted, name)[0..] == HandlersOf(vm, name);
    RunThen(vm, noted, NotifyFrom(noted, name, 0).0, [line], Reached(items));
    LineReached(Entry(Notification, name), items);
    NoticeIs(name, HandlersOf(vm, name));
  }

  lemma NoticeIs(name: string, handlers: seq<Script>)
    ensures NoticeItems(name, handlers) == [Line(Entry(Notification, name))] + Bodies(Scheduled(handlers, name))
  {
    hide Bodies, Scheduled;
  }

  lemma SameHandlers(vm: Vm, kind: Kind, name: string, other: string)
    ensures HandlersOf(Note(vm, kind, name), other) == HandlersOf(vm, other)
  {
  }

  lemma NotifyIs(vm: Vm, name: string)
    requires vm.instance.Some? && Text.Lower(name) == name
    ensures Notify(vm, name) == NotifyFrom(Note(vm, Notification, name), name, 0)
  {
    hide NotifyFrom, Note;
  }

  lemma Names()
    ensures Text.Lower("input") == "input" && Text.Lower("result") == "result" && Text.Lower("expire") == "expire"
  {
  }

  // ----- a sequence of parts -----

  /** One part of a call after the parts before it. */
  lemma PartAfter(vm: Vm, mid: Vm, end: Vm, a: seq<Item>, b: seq<Item>, e: Option<JsError>)
    requires HasRun(vm, mid, Reached(a)) && ErrorOf(a).None?
    requires HasRun(mid, end, Reached(b)) && e == ErrorOf(b)
    ensures HasRun(vm, end, Reached(a + b)) && e == ErrorOf(a + b)
  {
    hide HasRun, Reached, ErrorOf;
    ReachedConcat(a, b);
    RunThen(vm, mid, end, a, Reached(b));
  }

  lemma PartNever(a: seq<Item>, b: seq<Item>)
    requires ErrorOf(a).Some?
    ensures Reached(a + b) == Reached(a) && ErrorOf(a + b) == ErrorOf(a)
  {
    hide Reached, ErrorOf;
    ReachedConcat(a, b);
  }

  /** All that mounting runs: the two functions, and between them the two notifications with the handlers registered by then. */
  function MountItems(d: Definition): seq<Item> {
    var created := LifeItems(d, "created");
    var input := created + NoticeItems("input", AllRegisters(created, "input"));
    var result := input + NoticeItems("result", AllRegisters(input, "result"));
    result + LifeItems(d, "attached")
  }

  function Seeded(d: Definition, seed: Fields, properties: Fields): Fields {
    map key | key in d.data.Keys + seed.Keys + properties.Keys ::
      if key in seed then seed[key] else if key in properties then properties[key] else d.data[key]
  }

  function Built(vm: Vm, seed: Fields, properties: Fields): Vm
    requires vm.definition.Some?
  {
    vm.(instance := Some(Instance(Seeded(vm.definition.value, seed, properties), map[])))
  }

  lemma BuildIs(vm: Vm, seed: Fields, properties: Fields)
    requires vm.definition.Some?
    ensures Build(vm, seed, properties) == Built(vm, seed, properties)
    ensures forall name :: HandlersOf(Built(vm, seed, properties), name) == []
  {
    assert vm.definition.value.data + properties + seed == Seeded(vm.definition.value, seed, properties);
  }

  lemma MountPhases(vm: Vm)
    requires vm.instance.Some? && vm.definition.Some? && forall name :: HandlersOf(vm, name) == []
    ensures var (end, e) := RunPhases(vm, MOUNTING);
      HasRun(vm, end, Reached(MountItems(vm.definition.value))) && e == ErrorOf(MountItems(vm.definition.value))
  {
    Names();
    MountPhasesAre(vm);
    hide *;
    var d := vm.definition.value;
    var created := LifeItems(d, "created");
    var input := created + NoticeItems("input", AllRegisters(created, "input"));
    var result := input + NoticeItems("result", AllRegisters(input, "result"));
    var all := result + LifeItems(d, "attached");
    MountItemsAre(d);
    LifeHasRun(vm, "created");
    var (v1, e1) := CallLifecycle(vm, "created");
    if e1.Some? {
      PartNever(created, NoticeItems("input", AllRegisters(created, "input")));
      PartNever(input, NoticeItems("result", AllRegisters(input, "result")));
      PartNever(result, LifeItems(d, "attached"));
    } else {
      HandlersThen(vm, v1, created, "input");
      NoticeHasRun(v1, "input");
      var (v2, e2) := Notify(v1, "input");
      PartAfter(vm, v1, v2, created, NoticeItems("input", AllRegisters(created, "input")), e2);
      if e2.Some? {
        PartNever(input, NoticeItems("result", AllRegisters(input, "result")));
        PartNever(result, LifeItems(d, "attached"));
      } else {
        HandlersThen(vm, v2, input, "result");
        NoticeHasRun(v2, "result");
        var (v3, e3) := Notify(v2, "result");
        PartAfter(vm, v2, v3, input, NoticeItems("result", AllRegisters(input, "result")), e3);
        if e3.Some? {
          PartNever(result, LifeItems(d, "attached"));
        } else {
          HandlersThen(vm, v3, result, "result");
          LifeHasRun(v3, "attached");
          var (v4, e4) := CallLifecycle(v3, "attached");
          PartAfter(vm, v3, v4, result, LifeItems(d, "attached"), e4);
        }
      }
    }
  }

  lemma MountItemsAre(d: Definition)
    ensures var created := LifeItems(d, "created");
      var input := created + NoticeItems("input", AllRegisters(created, "input"));
      var result := input + NoticeItems("result", AllRegisters(input, "result"));
      MountItems(d) == result + LifeItems(d, "attached")
  {
    hide LifeItems, NoticeItems, AllRegisters;
  }

  lemma HandlersThen(vm: Vm, mid: Vm, items: seq<Item>, name: string)
    requires HasRun(vm, mid, Reached(items)) && ErrorOf(items).None? && HandlersOf(vm, name) == []
    ensures HandlersOf(mid, name) == AllRegisters(items, name) && mid.instance.Some? && mid.definition == vm.definition
  {
    hide *;
    ReachedConcat(items, []);
    HasRunInstance(vm, mid, items);
    assert [] + AllRegisters(items, name) == AllRegisters(items, name);
  }

  lemma MountPhasesAre(vm: Vm)
    ensures RunPhases(vm, MOUNTING) ==
            var (v1, e1) := CallLifecycle(vm, "created");
            if e1.Some? then (v1, e1) else
            var (v2, e2) := Notify(v1, "input");
            if e2.Some? then (v2, e2) else
            var (v3, e3) := Notify(v2, "result");
            if e3.Some? then (v3, e3) else CallLifecycle(v3, "attached")
  {
    hide RunPhases, CallLifecycle, Notify;
    var v1 := CallLifecycle(vm, "created").0;
    var v2 := Notify(v1, "input").0;
    FourPhases(vm, Life("created"), Notice("input"), Notice("result"), Life("attached"));
    TwoPhases(v2, Notice("result"), Life("attached"));
    assert MOUNTING == [Life("created"), Notice("input"), Notice("result"), Life("attached")];
  }

  /** What a call that ran these items answers: the error of the first script that throws, or the state and both queues, emptied. */
  ghost predicate Answers(vm: Vm, items: seq<Item>, after: Vm, r: Result<Snapshot, JsError>)
    requires vm.instance.Some?
  {
    && after.definition == vm.definition && after.instance.Some?
    && after.instance.value.data == SetData.ApplyAll(vm.instance.value.data, AllUpdates(Reached(items)))
    && (forall name :: HandlersOf(after, name) == HandlersOf(vm, name) + AllRegisters(Reached(items), name))
    && match ErrorOf(items)
       case Some(e) =>
         && r == Err(e)
         && after.actions == vm.actions + AllPushes(Reached(items)) && after.trace == vm.trace + Lines(Reached(items))
       case None =>
         && r == Ok(Snapshot(after.instance.value.data, vm.actions + AllPushes(items), vm.trace + Lines(items)))
         && after.actions == [] && after.trace == []
  }

  /** Ending a call whose parts have run. */
  lemma Ends(vm: Vm, end: Vm, items: seq<Item>, expires: bool)
    requires HasRun(vm, end, Reached(items))
    ensures ErrorOf(items).Some? ==> Answers(vm, items, end, Err(ErrorOf(items).value))
    ensures ErrorOf(items).None? ==>
              var (after, r) := Finish(if expires then end.(expired := true) else end);
              Answers(vm, items, after, r) && after.expired == (expires || vm.expired)
  {
    hide SetData.ApplyAll, AllRegisters, AllUpdates, AllPushes, Lines, Reached, ErrorOf;
    ReachedConcat(items, []);
  }

  /** A mount starts from the defaults under the properties under the seed, and answers for all that it runs. */
  lemma MountIs(vm: Vm, seed: Fields, properties: Fields)
    ensures var (after, r) := RunMount(vm, seed, properties);
      if vm.definition.None? then after == vm && r == Err(NoDefinition)
      else
        && Answers(Built(vm, seed, properties), MountItems(vm.definition.value), after, r)
        && after.expired == vm.expired
  {
    hide RunPhases, Answers, HasRun, MountItems, Build, Built, Finish, HandlersOf;
    if vm.definition.Some? {
      BuiltKeeps(vm, seed, properties);
      BuildIs(vm, seed, properties);
      var built := Built(vm, seed, properties);
      MountPhases(built);
      HasRunInstance(built, RunPhases(built, MOUNTING).0, Reached(MountItems(vm.definition.value)));
      Ends(built, RunPhases(built, MOUNTING).0, MountItems(vm.definition.value), false);
    }
  }

  lemma BuiltKeeps(vm: Vm, seed: Fields, properties: Fields)
    requires vm.definition.Some?
    ensures var built := Built(vm, seed, properties);
      built.instance.Some? && built.definition == vm.definition && built.expired == vm.expired
  {
  }

  /** An event is refused after expiry, without a definition or its method; otherwise the method runs on the mounted component. */
  lemma EventIs(vm: Vm, name: string)
    requires vm.instance.Some?
    ensures var (after, r) := RunDispatch(vm, name);
      if vm.expired then after == vm && r == Err(ComponentExpired)
      else if vm.definition.None? then after == vm && r == Err(NoDefinition)
      else if name !in vm.definition.value.methods then after == vm && r == Err(MethodNotFound(name))
      else
        && Answers(vm, [Line(Entry(Event, name)), Body(vm.definition.value.methods[name])], after, r)
        && after.expired == vm.expired
  {
    hide Run, Note, Answers, HasRun, Finish, HandlersOf, Reached, ErrorOf;
    if !vm.expired && vm.definition.Some? && name in vm.definition.value.methods {
      var script := vm.definition.value.methods[name];
      var items := [Line(Entry(Event, name)), Body(script)];
      NotedThenRun(vm, Event, name, script);
      HasRunInstance(vm, Run(Note(vm, Event, name), script).0, Reached(items));
      Ends(vm, Run(Note(vm, Event, name), script).0, items, false);
    }
  }

  /** The pushes of a script before it sets data, throws or ends, and what then stops it. */
  function PushesUnmounted(script: Script): seq<Action> {
    if script == [] || script[0].Set? || script[0].Throw? then []
    else (if script[0].Push? then Queued(script[0].action) else []) + PushesUnmounted(script[1..])
  }

  function StopUnmounted(script: Script): Option<JsError> {
    if script == [] then None
    else match script[0]
      case Set(_) => Some(NoInstance)
      case Throw(message) => Some(Thrown(message))
      case _ => StopUnmounted(script[1..])
  }

  lemma {:induction false} RunUnmounted(vm: Vm, script: Script)
    requires vm.instance.None?
    ensures var (next, e) := Run(vm, script);
      var added := PushesUnmounted(script);
      next == vm.(actions := vm.actions + added, pushed := vm.pushed + added) && e == StopUnmounted(script)
    decreases |script|
  {
    hide Queued;
    if script == [] {
      assert vm.actions + [] == vm.actions && vm.pushed + [] == vm.pushed;
    } else {
      var (next, e) := RunStep(vm, script[0]);
      if e.None? {
        RunUnmounted(next, script[1..]);
        var first := if script[0].Push? then Queued(script[0].action) else [];
        Enqueued(vm, next, first, PushesUnmounted(script[1..]));
      } else {
        assert vm.actions + [] == vm.actions && vm.pushed + [] == vm.pushed;
      }
    }
  }

  lemma Enqueued(vm: Vm, next: Vm, first: seq<Action>, rest: seq<Action>)
    requires next.actions == vm.actions + first && next.pushed == vm.pushed + first
    ensures next.actions + rest == vm.actions + (first + rest) && next.pushed + rest == vm.pushed + (first + rest)
    ensures vm.actions + [] == vm.actions && vm.pushed + [] == vm.pushed
  {
  }

  /** Without a mounted component an event's method may push but not set data, and an expiry fails. */
  lemma Unmounted(vm: Vm, name: string)
    requires vm.instance.None? && vm.definition.Some? && !vm.expired
    ensures RunExpire(vm) == (vm, Err(NoInstance))
    ensures name in vm.definition.value.methods ==>
              var script := vm.definition.value.methods[name];
              var (after, r) := RunDispatch(vm, name);
              var all := vm.actions + PushesUnmounted(script);
              match StopUnmounted(script)
              case Some(e) => r == Err(e) && after.actions == all && after.trace == vm.trace + [Entry(Event, name)]
              case None => r == Ok(Snapshot(map[], all, vm.trace + [Entry(Event, name)])) && after.actions == [] && after.trace == []
  {
    hide Run, RunPhases, PushesUnmounted, StopUnmounted;
    ExpiringNeedsInstance(vm);
    if name in vm.definition.value.methods {
      RunUnmounted(Note(vm, Event, name), vm.definition.value.methods[name]);
    }
  }

  const UPPER := "ABCDEFGHIJKLMNOPQRSTUVWXYZ"
  const LOWER := "abcdefghijklmnopqrstuvwxyz"

  /** Notification names: upper-case letters become lower-case ones, and nothing else changes. */
  lemma LowerIs(s: string, i: nat, k: nat)
    requires i < |s| && k < 26
    ensures |Text.Lower(s)| == |s|
    ensures s[i] == UPPER[k] ==> Text.Lower(s)[i] == LOWER[k]
    ensures s[i] !in UPPER ==> Text.Lower(s)[i] == s[i]
  {
    InAlphabet(s[i]);
  }

  lemma InAlphabet(c: char)
    ensures 'A' <= c <= 'Z' ==> c in UPPER
    ensures forall k | 0 <= k < 26 :: UPPER[k] as int == 'A' as int + k && LOWER[k] as int == 'a' as int + k
  {
    assert 'A' <= c <= 'Z' ==> UPPER[c as int - 'A' as int] == c;
  }

  function ExpiryItems(vm: Vm): seq<Item>
    requires vm.definition.Some?
  {
    NoticeItems("expire", HandlersOf(vm, "expire")) + LifeItems(vm.definition.value, "detached")
  }

  lemma ExpiryPhases(vm: Vm)
    requires vm.instance.Some? && vm.definition.Some?
    ensures var (end, e) := RunPhases(vm, EXPIRING);
      HasRun(vm, end, Reached(ExpiryItems(vm))) && e == ErrorOf(ExpiryItems(vm))
  {
    Names();
    ExpiryPhasesAre(vm);
    ExpiryItemsAre(vm);
    hide *;
    var first, last := NoticeItems("expire", HandlersOf(vm, "expire")), LifeItems(vm.definition.value, "detached");
    NoticeHasRun(vm, "expire");
    var (v1, e1) := Notify(vm, "expire");
    if e1.Some? {
      PartNever(first, last);
    } else {
      HasRunInstance(vm, v1, Reached(first));
      LifeHasRun(v1, "detached");
      var (v2, e2) := CallLifecycle(v1, "detached");
      PartAfter(vm, v1, v2, first, last, e2);
    }
  }

  lemma ExpiryItemsAre(vm: Vm)
    requires vm.definition.Some?
    ensures ExpiryItems(vm) == NoticeItems("expire", HandlersOf(vm, "expire")) + LifeItems(vm.definition.value, "detached")
  {
    hide LifeItems, NoticeItems;
  }

  lemma ExpiryPhasesAre(vm: Vm)
    ensures RunPhases(vm, EXPIRING) ==
            var (v1, e1) := Notify(vm, "expire");
            if e1.Some? then (v1, e1) else CallLifecycle(v1, "detached")
  {
    hide RunPhases, CallLifecycle, Notify;
    TwoPhases(vm, EXPIRING[0], EXPIRING[1]);
    assert EXPIRING == [Notice("expire"), Life("detached")];
  }

  /** An expiry runs once, and marks the component only when nothing it ran threw; later ones only empty the queues. */
  lemma ExpiryIs(vm: Vm)
    requires vm.instance.Some? && vm.definition.Some?
    ensures var (after, r) := RunExpire(vm);
      if vm.expired then
        && after == vm.(actions := [], trace := [])
        && r == Ok(Snapshot(vm.instance.value.data, vm.actions, vm.trace))
      else
        && Answers(vm, ExpiryItems(vm), after, r)
        && (after.expired <==> ErrorOf(ExpiryItems(vm)).None?)
  {
    hide RunPhases, Answers, HasRun, ExpiryItems, HandlersOf, Reached, ErrorOf;
    if !vm.expired {
      ExpiryPhases(vm);
      HasRunInstance(vm, RunPhases(vm, EXPIRING).0, Reached(ExpiryItems(vm)));
      Ends(vm, RunPhases(vm, EXPIRING).0, ExpiryItems(vm), true);
    }
  }

  // ----- actions -----

  /** The follow-up blocks that ask for a call, with their name and their arguments, an empty object if those are none. */
  predicate IsCallBlock(block: Value, name: string, arguments: Value) {
    && block.Obj? && "type" in block.fields && block.fields["type"] == Json.Str("api/call")
    && "data" in block.fields && block.fields["data"].Obj?
    && var data := block.fields["data"].fields;
       && "name" in data && data["name"] == Json.Str(name)
       && arguments == (if "arguments" in data && data["arguments"].Obj? then data["arguments"] else Json.Obj(map[]))
  }

  lemma CallBlockIff(block: Value, name: string, arguments: Value)
    ensures CallOf(block) == Some(ApiCall(name, arguments)) <==> IsCallBlock(block, name, arguments)
    ensures CallOf(block).Some? ==> CallOf(block).value.ApiCall?
  {
  }

  /** A follow-up message is queued with a call for each block that asks for one, in order; any other action alone. */
  lemma QueuedIs(front: seq<Value>, block: Value, other: Action)
    ensures !other.SendFollowUp? ==> Queued(other) == [other]
    ensures Queued(SendFollowUp([])) == [SendFollowUp([])]
    ensures Queued(SendFollowUp(front + [block])) ==
            [SendFollowUp(front + [block])] + Queued(SendFollowUp(front))[1..] + match CallOf(block) { case Some(call) => [call] case None => [] }
  {
    hide CallOf;
    CallsLast(front, block);
  }

  lemma {:induction false} CallsLast(front: seq<Value>, block: Value)
    ensures CallsOf(front + [block]) == CallsOf(front) + match CallOf(block) { case Some(call) => [call] case None => [] }
    decreases |front|
  {
    hide CallOf;
    if front == [] {
      assert front + [block] == [block] && [block][1..] == [];
    } else {
      assert (front + [block])[1..] == front[1..] + [block];
      CallsLast(front[1..], block);
    }
  }

  // ----- the host -----

  /** What the host makes of the script side's answer: its own state only when every action decodes, its result only when that renders too. */
  lemma HostIs(h: Host, call: Call)
    requires !(call.DispatchCall? && h.expired)
    ensures var (after, r), (vm, answer) := Do(h, call), Invoke(h.vm, call);
      && after.vm == vm
      && match answer
         case Err(e) => r == Err(Script(e)) && after == h.(vm := vm)
         case Ok(s) =>
           if exists a, p :: a in s.actions && a.ExpireCards? && p in a.paths && !p.Str? then r == Err(InvalidJson) && after == h.(vm := vm)
           else
             && after == Host(vm, s.data, h.trace + s.trace, h.expired || call.ExpireCall?, h.mounted || call.MountCall?)
             && r == if call.renders then Ok(Outcome(s.actions, s.trace, s.data)) else Err(RenderFailed)
  {
    hide Invoke;
    var answer := Invoke(h.vm, call).1;
    if answer.Ok? {
      DecodesIff(answer.value);
    }
    hide AllDecode;
  }

  lemma DecodesIff(s: Snapshot)
    ensures AllDecode(s) <==> !exists a, p :: a in s.actions && a.ExpireCards? && p in a.paths && !p.Str?
  {
  }

  /** An expired host refuses events before the script side sees them. */
  lemma ExpiredHostRefuses(h: Host, name: string, renders: bool)
    requires h.expired
    ensures Do(h, DispatchCall(name, renders)) == (h, Err(Expired))
  {
    hide Invoke;
  }
}
