/** What every run of calls on a component keeps: nothing pushed is lost or doubled, and expiry is final. */
module ComponentLaws {
  import opened Wrappers
  import opened ComponentVm
  import Json
  import Text

  // ----- the queues -----

  /** What entered the queues is what was drained, `out` and `seen`, and then what still waits. */
  ghost predicate Owes(vm: Vm, out: seq<Action>, seen: seq<Entry>) {
    vm.pushed == out + vm.actions && vm.traced == seen + vm.trace
  }

  /** Parts of the variables no script touches. */
  ghost predicate SameFrame(a: Vm, b: Vm) {
    a.definition == b.definition && a.expired == b.expired && (a.instance.Some? ==> b.instance.Some?)
  }

  lemma StepOwes(vm: Vm, step: Step, out: seq<Action>, seen: seq<Entry>)
    requires Owes(vm, out, seen)
    ensures Owes(RunStep(vm, step).0, out, seen) && SameFrame(vm, RunStep(vm, step).0)
  {
    hide CallsOf;
    if step.Push? {
      var added := Queued(step.action);
      assert out + vm.actions + added == out + (vm.actions + added);
    }
  }

  lemma {:induction false} RunOwes(vm: Vm, script: Script, out: seq<Action>, seen: seq<Entry>)
    requires Owes(vm, out, seen)
    ensures Owes(Run(vm, script).0, out, seen) && SameFrame(vm, Run(vm, script).0)
    decreases |script|
  {
    hide RunStep;
    if script != [] {
      StepOwes(vm, script[0], out, seen);
      if RunStep(vm, script[0]).1.None? {
        RunOwes(RunStep(vm, script[0]).0, script[1..], out, seen);
      }
    }
  }

  lemma NoteOwes(vm: Vm, kind: Kind, name: string, out: seq<Action>, seen: seq<Entry>)
    requires Owes(vm, out, seen)
    ensures Owes(Note(vm, kind, name), out, seen) && SameFrame(vm, Note(vm, kind, name))
  {
    assert seen + vm.trace + [Entry(kind, name)] == seen + (vm.trace + [Entry(kind, name)]);
  }

  lemma {:induction false} NotifyOwes(vm: Vm, name: string, i: nat, out: seq<Action>, seen: seq<Entry>)
    requires i <= |HandlersOf(vm, name)| && Owes(vm, out, seen)
    ensures Owes(NotifyFrom(vm, name, i).0, out, seen) && SameFrame(vm, NotifyFrom(vm, name, i).0)
    decreases SizeAll(HandlersOf(vm, name)[i..])
  {
    hide Run, HandlersOf, SizeAll, Owes;
    if i < |HandlersOf(vm, name)| {
      var (next, e) := Run(vm, HandlersOf(vm, name)[i]);
      PendingShrinks(vm, name, i);
      RunOwes(vm, HandlersOf(vm, name)[i], out, seen);
      if e.None? {
        NotifyOwes(next, name, i + 1, out, seen);
      }
    }
  }

  lemma PhaseOwes(vm: Vm, phase: Phase, out: seq<Action>, seen: seq<Entry>)
    requires Owes(vm, out, seen)
    ensures Owes(RunPhase(vm, phase).0, out, seen) && SameFrame(vm, RunPhase(vm, phase).0)
  {
    hide Run, NotifyFrom, Owes, Note;
    match phase
    case Life(name) =>
      if vm.definition.Some? && name in vm.definition.value.lifetimes {
        NoteOwes(vm, Lifecycle, name, out, seen);
        RunOwes(Note(vm, Lifecycle, name), vm.definition.value.lifetimes[name], out, seen);
      }
    case Notice(name) =>
      if vm.instance.Some? {
        NoteOwes(vm, Notification, Text.Lower(name), out, seen);
        NotifyOwes(Note(vm, Notification, Text.Lower(name)), Text.Lower(name), 0, out, seen);
      }
  }

  lemma {:induction false} PhasesOwe(vm: Vm, phases: seq<Phase>, out: seq<Action>, seen: seq<Entry>)
    requires Owes(vm, out, seen)
    ensures Owes(RunPhases(vm, phases).0, out, seen) && SameFrame(vm, RunPhases(vm, phases).0)
    decreases |phases|
  {
    hide RunPhase, Owes;
    if phases != [] {
      PhaseOwes(vm, phases[0], out, seen);
      if RunPhase(vm, phases[0]).1.None? {
        PhasesOwe(RunPhase(vm, phases[0]).0, phases[1..], out, seen);
      }
    }
  }

  /** The actions and trace entries a call takes out of the queues. */
  function Drained(vm: Vm, call: Call): Snapshot {
    match Invoke(vm, call).1
    case Ok(s) => s
    case Err(_) => Snapshot(map[], [], [])
  }

  lemma FinishOwes(vm: Vm, out: seq<Action>, seen: seq<Entry>)
    requires Owes(vm, out, seen)
    ensures var s := Drain(vm).1;
      Owes(Finish(vm).0, out + s.actions, seen + s.trace) && SameFrame(vm, Finish(vm).0)
  {
  }

  lemma NothingOwed(vm: Vm, out: seq<Action>, seen: seq<Entry>)
    requires Owes(vm, out, seen)
    ensures Owes(vm, out + [], seen + [])
  {
    assert out + [] == out && seen + [] == seen;
  }

  lemma InvokeOwes(vm: Vm, call: Call, out: seq<Action>, seen: seq<Entry>)
    requires Owes(vm, out, seen)
    ensures var s := Drained(vm, call);
      Owes(Invoke(vm, call).0, out + s.actions, seen + s.trace)
  {
    hide Run, RunPhases, Owes, Note, Drain, Build;
    var after := Invoke(vm, call).0;
    match call
    case MountCall(seed, properties, _) =>
      if vm.definition.None? {
        NothingOwed(vm, out, seen);
      } else {
        BuildOwes(vm, seed, properties, out, seen);
        PhasesOwe(Build(vm, seed, properties), MOUNTING, out, seen);
        EndOwes(RunPhases(Build(vm, seed, properties), MOUNTING).0, out, seen);
      }
    case DispatchCall(name, _) =>
      if vm.expired || vm.definition.None? || name !in vm.definition.value.methods {
        NothingOwed(vm, out, seen);
      } else {
        NoteOwes(vm, Event, name, out, seen);
        RunOwes(Note(vm, Event, name), vm.definition.value.methods[name], out, seen);
        EndOwes(Run(Note(vm, Event, name), vm.definition.value.methods[name]).0, out, seen);
      }
    case ExpireCall(_) =>
      if vm.expired {
        EndOwes(vm, out, seen);
      } else {
        PhasesOwe(vm, EXPIRING, out, seen);
        EndOwes(RunPhases(vm, EXPIRING).0, out, seen);
        ExpiredOwes(RunPhases(vm, EXPIRING).0, out, seen);
      }
  }

  /** Both ways a call can end. */
  lemma EndOwes(vm: Vm, out: seq<Action>, seen: seq<Entry>)
    requires Owes(vm, out, seen)
    ensures Owes(vm, out + [], seen + [])
    ensures Owes(Finish(vm).0, out + Drain(vm).1.actions, seen + Drain(vm).1.trace)
  {
    NothingOwed(vm, out, seen);
    FinishOwes(vm, out, seen);
  }

  lemma BuildOwes(vm: Vm, seed: Fields, properties: Fields, out: seq<Action>, seen: seq<Entry>)
    requires Owes(vm, out, seen) && vm.definition.Some?
    ensures Owes(Build(vm, seed, properties), out, seen)
  {
  }

  lemma ExpiredOwes(vm: Vm, out: seq<Action>, seen: seq<Entry>)
    requires Owes(vm, out, seen)
    ensures var e := vm.(expired := true);
      Owes(Finish(e).0, out + Drain(e).1.actions, seen + Drain(e).1.trace)
  {
    assert Owes(vm.(expired := true), out, seen);
    FinishOwes(vm.(expired := true), out, seen);
  }

  // ----- runs of calls -----

  function After(h: Host, calls: seq<Call>): Host
    decreases |calls|
  {
    if calls == [] then h else After(Do(h, calls[0]).0, calls[1..])
  }

  predicate Reaches(h: Host, call: Call) {
    !(call.DispatchCall? && h.expired)
  }

  /** Everything the calls take out of the action queue, in order. */
  function DrainedActions(h: Host, calls: seq<Call>): seq<Action>
    decreases |calls|
  {
    if calls == [] then [] else
    (if Reaches(h, calls[0]) then Drained(h.vm, calls[0]).actions else []) + DrainedActions(Do(h, calls[0]).0, calls[1..])
  }

  function DrainedTrace(h: Host, calls: seq<Call>): seq<Entry>
    decreases |calls|
  {
    if calls == [] then [] else
    (if Reaches(h, calls[0]) then Drained(h.vm, calls[0]).trace else []) + DrainedTrace(Do(h, calls[0]).0, calls[1..])
  }

  lemma DoIsInvoke(h: Host, call: Call)
    ensures Do(h, call).0.vm == if Reaches(h, call) then Invoke(h.vm, call).0 else h.vm
  {
    hide Invoke;
  }

  lemma {:induction false} OwesAlong(h: Host, calls: seq<Call>, out: seq<Action>, seen: seq<Entry>)
    requires Owes(h.vm, out, seen)
    ensures Owes(After(h, calls).vm, out + DrainedActions(h, calls), seen + DrainedTrace(h, calls))
    decreases |calls|
  {
    hide Do, Drained, Owes, Invoke;
    NothingOwed(h.vm, out, seen);
    if calls != [] {
      var call := calls[0];
      var next := Do(h, call).0;
      DoIsInvoke(h, call);
      InvokeOwes(h.vm, call, out, seen);
      var a := if Reaches(h, call) then Drained(h.vm, call).actions else [];
      var t := if Reaches(h, call) then Drained(h.vm, call).trace else [];
      OwesAlong(next, calls[1..], out + a, seen + t);
      assert out + a + DrainedActions(next, calls[1..]) == out + (a + DrainedActions(next, calls[1..]));
      assert seen + t + DrainedTrace(next, calls[1..]) == seen + (t + DrainedTrace(next, calls[1..]));
    }
  }

  function Fresh(definition: Option<Definition>): Host {
    Host(Vm(definition, None, false, [], [], [], []), map[], [], false, false)
  }

  /**
    In every run, what the scripts ever pushed is what the calls drained followed by what still waits:
    in order, nothing lost, nothing twice. A call whose script throws leaves its actions for a later call.
   */
  lemma ActionsAreConserved(definition: Option<Definition>, calls: seq<Call>)
    ensures var end := After(Fresh(definition), calls).vm;
      && end.pushed == DrainedActions(Fresh(definition), calls) + end.actions
      && end.traced == DrainedTrace(Fresh(definition), calls) + end.trace
  {
    hide After, DrainedActions, DrainedTrace;
    var h := Fresh(definition);
    OwesAlong(h, calls, [], []);
    assert [] + DrainedActions(h, calls) == DrainedActions(h, calls);
    assert [] + DrainedTrace(h, calls) == DrainedTrace(h, calls);
  }

  /** The actions a call's caller gets. */
  function Received(h: Host, call: Call): seq<Action> {
    match Do(h, call).1
    case Ok(outcome) => outcome.actions
    case Err(_) => []
  }

  /** The caller gets what was drained, unless decoding the snapshot or rendering its state fails: then it is gone. */
  lemma DrainedIsReceivedUnless(h: Host, call: Call)
    requires Reaches(h, call)
    ensures var failed := Do(h, call).1 == Err(InvalidJson) || Do(h, call).1 == Err(RenderFailed);
      Received(h, call) == if failed then [] else Drained(h.vm, call).actions
    ensures Do(h, call).1 == Err(InvalidJson) ==> exists a :: a in Drained(h.vm, call).actions && !Decodes(a)
  {
    hide Invoke;
  }

  // ----- expiry -----

  /** The host says expired only if the script side does, and only a mounted component expires. */
  ghost predicate Sound(h: Host) {
    && (h.expired ==> h.vm.expired)
    && (h.vm.expired ==> h.vm.instance.Some?)
    && (h.mounted ==> h.vm.instance.Some?)
    && (h.vm.instance.Some? ==> h.vm.definition.Some?)
  }

  /** What a call does to the variables no script touches. */
  lemma InvokeFrame(vm: Vm, call: Call, out: seq<Action>, seen: seq<Entry>)
    requires Owes(vm, out, seen)
    ensures var (after, r) := Invoke(vm, call);
      && after.definition == vm.definition
      && (vm.instance.Some? ==> after.instance.Some?)
      && (after.expired == (vm.expired || (call.ExpireCall? && r.Ok?)))
      && (call.MountCall? && r.Ok? ==> after.instance.Some? && after.definition.Some?)
      && (after.instance.Some? && vm.instance.None? ==> after.definition.Some?)
      && (call.ExpireCall? && r.Ok? && !vm.expired ==> after.instance.Some?)
  {
    hide Run, RunPhase, RunPhases, Owes, Note, Build;
    match call
    case MountCall(seed, properties, _) =>
      if vm.definition.Some? {
        BuildOwes(vm, seed, properties, out, seen);
        BuildFrame(vm, seed, properties);
        PhasesOwe(Build(vm, seed, properties), MOUNTING, out, seen);
      }
    case DispatchCall(name, _) =>
      NoteOwes(vm, Event, name, out, seen);
      if !vm.expired && vm.definition.Some? && name in vm.definition.value.methods {
        RunOwes(Note(vm, Event, name), vm.definition.value.methods[name], out, seen);
        DispatchFrame(vm, name, out, seen);
      }
    case ExpireCall(_) =>
      if !vm.expired {
        PhasesOwe(vm, EXPIRING, out, seen);
        if vm.instance.None? {
          ExpiringNeedsInstance(vm);
        }
      }
  }

  lemma BuildFrame(vm: Vm, seed: Fields, properties: Fields)
    requires vm.definition.Some?
    ensures SameFrame(vm, Build(vm, seed, properties)) && Build(vm, seed, properties).instance.Some?
  {
  }

  /** Without an instance there is none after an event either. */
  lemma DispatchFrame(vm: Vm, name: string, out: seq<Action>, seen: seq<Entry>)
    ensures RunDispatch(vm, name).0.instance.Some? && vm.instance.None? ==> vm.definition.Some?
  {
    hide Run;
  }

  lemma ExpiringNeedsInstance(vm: Vm)
    requires vm.instance.None?
    ensures RunPhases(vm, EXPIRING) == (vm, Some(NoInstance))
  {
    hide NotifyFrom, CallLifecycle;
  }

  lemma SoundKept(h: Host, call: Call, out: seq<Action>, seen: seq<Entry>)
    requires Sound(h) && Owes(h.vm, out, seen)
    ensures Sound(Do(h, call).0)
  {
    hide Invoke, Owes, AllDecode;
    InvokeFrame(h.vm, call, out, seen);
  }

  lemma {:induction false} SoundAlong(h: Host, calls: seq<Call>, out: seq<Action>, seen: seq<Entry>)
    requires Sound(h) && Owes(h.vm, out, seen)
    ensures Sound(After(h, calls))
    decreases |calls|
  {
    hide Do, Owes, Sound, Invoke, Drained;
    if calls != [] {
      SoundKept(h, calls[0], out, seen);
      DoIsInvoke(h, calls[0]);
      InvokeOwes(h.vm, calls[0], out, seen);
      var s := Drained(h.vm, calls[0]);
      if Reaches(h, calls[0]) {
        SoundAlong(Do(h, calls[0]).0, calls[1..], out + s.actions, seen + s.trace);
      } else {
        SoundAlong(Do(h, calls[0]).0, calls[1..], out, seen);
      }
    }
  }

  /** In every run, the host's flags agree with the script side. */
  lemma FlagsAreSound(definition: Option<Definition>, calls: seq<Call>)
    ensures Sound(After(Fresh(definition), calls))
  {
    hide After;
    SoundAlong(Fresh(definition), calls, [], []);
  }

  /** Once the script side has expired: no event runs, and expiring again runs nothing and only empties the queues. */
  lemma AfterExpiry(h: Host, name: string, renders: bool)
    requires Sound(h) && h.vm.expired
    ensures var (after, r) := Do(h, DispatchCall(name, renders));
      after == h && r == Err(if h.expired then Expired else Script(ComponentExpired))
    ensures var (after, r) := Do(h, ExpireCall(renders));
      after.vm == h.vm.(actions := [], trace := [])
  {
    hide Run, RunPhases;
  }

  lemma {:induction false} ExpiryIsFinal(h: Host, calls: seq<Call>, out: seq<Action>, seen: seq<Entry>)
    requires Owes(h.vm, out, seen) && h.vm.expired
    ensures After(h, calls).vm.expired && (h.expired ==> After(h, calls).expired)
    decreases |calls|
  {
    hide Do, Owes, Invoke, Drained;
    if calls != [] {
      DoIsInvoke(h, calls[0]);
      InvokeFrame(h.vm, calls[0], out, seen);
      InvokeOwes(h.vm, calls[0], out, seen);
      FlagStays(h, calls[0]);
      var s := Drained(h.vm, calls[0]);
      if Reaches(h, calls[0]) {
        ExpiryIsFinal(Do(h, calls[0]).0, calls[1..], out + s.actions, seen + s.trace);
      } else {
        ExpiryIsFinal(Do(h, calls[0]).0, calls[1..], out, seen);
      }
    }
  }

  lemma FlagStays(h: Host, call: Call)
    ensures h.expired ==> Do(h, call).0.expired
  {
    hide Invoke;
  }

  // ----- what an expiry runs -----

  predicate Throws(script: Script) {
    exists i | 0 <= i < |script| :: script[i].Throw?
  }

  /** What a script queues before it ends or throws. */
  function Pushes(script: Script): seq<Action> {
    if script == [] || script[0].Throw? then []
    else StepPushes(script[0]) + Pushes(script[1..])
  }

  /** The handlers of a notification that a script registers before it ends or throws. */
  function Registers(script: Script, name: string): (r: seq<Script>)
    ensures SizeAll(r) < Size(script)
  {
    if script == [] || script[0].Throw? then []
    else if script[0].On? && Text.Lower(script[0].name) == name then
      var more := Registers(script[1..], name);
      assert ([script[0].handler] + more)[1..] == more;
      [script[0].handler] + more
    else Registers(script[1..], name)
  }

  function PushesAll(scripts: seq<Script>): seq<Action> {
    if scripts == [] then [] else Pushes(scripts[0]) + PushesAll(scripts[1..])
  }

  /** A queue of scripts, each of which may put more at its end: all of them, in the order in which they run. */
  function Scheduled(queue: seq<Script>, name: string): seq<Script>
    decreases SizeAll(queue)
  {
    if queue == [] then [] else
    SizeAllConcat(queue[1..], Registers(queue[0], name));
    [queue[0]] + Scheduled(queue[1..] + Registers(queue[0], name), name)
  }

  /** A mounted component's script fails exactly if it throws, and queues and registers just what stands before that. */
  lemma {:induction false} RunEffects(vm: Vm, script: Script, name: string)
    requires vm.instance.Some?
    ensures var (next, e) := Run(vm, script);
      && (e.Some? <==> Throws(script))
      && SameFrame(vm, next)
      && next.actions == vm.actions + Pushes(script)
      && HandlersOf(next, name) == HandlersOf(vm, name) + Registers(script, name)
    decreases |script|
  {
    hide RunStep, HandlersOf, Throws, Pushes, Registers, StepPushes, StepHandlers;
    ThrowsStep(script);
    EffectsStep(script, name);
    if script == [] {
      assert vm.actions + [] == vm.actions && HandlersOf(vm, name) + [] == HandlersOf(vm, name);
    } else {
      StepEffects(vm, script[0], name);
      var (next, e) := RunStep(vm, script[0]);
      var p, r := StepPushes(script[0]), StepHandlers(script[0], name);
      if e.None? {
        RunEffects(next, script[1..], name);
        assert vm.actions + p + Pushes(script[1..]) == vm.actions + (p + Pushes(script[1..]));
        assert HandlersOf(vm, name) + r + Registers(script[1..], name) == HandlersOf(vm, name) + (r + Registers(script[1..], name));
      }
    }
  }

  function StepPushes(step: Step): seq<Action> {
    if step.Push? then Queued(step.action) else []
  }

  function StepHandlers(step: Step, name: string): seq<Script> {
    if step.On? && Text.Lower(step.name) == name then [step.handler] else []
  }

  lemma EffectsStep(script: Script, name: string)
    ensures script == [] ==> Pushes(script) == [] && Registers(script, name) == []
    ensures script != [] && script[0].Throw? ==>
              && Pushes(script) == StepPushes(script[0]) == [] && Registers(script, name) == StepHandlers(script[0], name) == []
    ensures script != [] && !script[0].Throw? ==>
              && Pushes(script) == StepPushes(script[0]) + Pushes(script[1..])
              && Registers(script, name) == StepHandlers(script[0], name) + Registers(script[1..], name)
  {
    hide Queued, Text.Lower;
    if script != [] {
      assert [] + Registers(script[1..], name) == Registers(script[1..], name);
    }
  }

  lemma ThrowsStep(script: Script)
    ensures Throws(script) <==> script != [] && (script[0].Throw? || Throws(script[1..]))
  {
    if script != [] && Throws(script) && !script[0].Throw? {
      var i :| 0 <= i < |script| && script[i].Throw?;
      assert script[1..][i - 1].Throw?;
    }
    if script != [] && Throws(script[1..]) {
      var i :| 0 <= i < |script[1..]| && script[1..][i].Throw?;
      assert script[i + 1].Throw?;
    }
  }

  lemma StepEffects(vm: Vm, step: Step, name: string)
    requires vm.instance.Some?
    ensures var (next, e) := RunStep(vm, step);
      && (e.Some? <==> step.Throw?)
      && SameFrame(vm, next)
      && next.actions == vm.actions + StepPushes(step)
      && HandlersOf(next, name) == HandlersOf(vm, name) + StepHandlers(step, name)
  {
    hide Queued, Text.Lower;
  }

  predicate AnyThrows(scripts: seq<Script>) {
    exists i | 0 <= i < |scripts| :: Throws(scripts[i])
  }

  lemma AnyThrowsStep(script: Script, rest: seq<Script>)
    ensures AnyThrows([script] + rest) <==> Throws(script) || AnyThrows(rest)
  {
    hide Throws;
    var all := [script] + rest;
    assert forall i | 0 <= i < |rest| :: all[i + 1] == rest[i];
    if Throws(script) {
      assert Throws(all[0]);
    }
    if AnyThrows(rest) {
      var i :| 0 <= i < |rest| && Throws(rest[i]);
      assert Throws(all[i + 1]);
    }
  }

  /** The live walk over the handlers is the queue that its scripts extend. */
  lemma {:induction false} NotifyEffects(vm: Vm, name: string, i: nat)
    requires vm.instance.Some? && i <= |HandlersOf(vm, name)|
    ensures var (next, e) := NotifyFrom(vm, name, i);
      var scripts := Scheduled(HandlersOf(vm, name)[i..], name);
      && (e.Some? <==> AnyThrows(scripts))
      && SameFrame(vm, next)
      && (e.None? ==> next.actions == vm.actions + PushesAll(scripts))
    decreases SizeAll(HandlersOf(vm, name)[i..])
  {
    hide Run, HandlersOf, SizeAll, Throws, AnyThrows, Pushes, Registers;
    var handlers := HandlersOf(vm, name);
    if i == |handlers| {
      NoneThrows();
    } else {
      var (next, e) := Run(vm, handlers[i]);
      PendingShrinks(vm, name, i);
      RunEffects(vm, handlers[i], name);
      assert handlers[i..][0] == handlers[i] && handlers[i..][1..] == handlers[i + 1..];
      assert HandlersOf(next, name)[i + 1..] == handlers[i + 1..] + Registers(handlers[i], name);
      var rest := Scheduled(HandlersOf(next, name)[i + 1..], name);
      AnyThrowsStep(handlers[i], rest);
      assert ([handlers[i]] + rest)[1..] == rest;
      if e.None? {
        NotifyEffects(next, name, i + 1);
      }
    }
  }

  lemma NoneThrows()
    ensures !AnyThrows([])
  {
  }

  /** The function that runs when a component goes, if it has one. */
  function Detached(vm: Vm): seq<Script> {
    if vm.definition.Some? && "detached" in vm.definition.value.lifetimes then [vm.definition.value.lifetimes["detached"]] else []
  }

  /** All an expiry runs: the handlers of its notification, those they add, and the `detached` function. */
  function ExpiryScripts(vm: Vm): seq<Script> {
    Scheduled(HandlersOf(vm, "expire"), "expire") + Detached(vm)
  }

  lemma NoticeEffects(vm: Vm)
    requires vm.instance.Some?
    ensures var (told, e) := RunPhase(vm, Notice("expire"));
      var scripts := Scheduled(HandlersOf(vm, "expire"), "expire");
      && SameFrame(vm, told) && (e.None? <==> !AnyThrows(scripts))
      && (e.None? ==> told.actions == vm.actions + PushesAll(scripts))
  {
    hide NotifyFrom, AnyThrows, Scheduled, PushesAll, Note, HandlersOf;
    assert Text.Lower("expire") == "expire";
    NotedAlike(vm, Notification, "expire", "expire");
    NotifyEffects(Note(vm, Notification, "expire"), "expire", 0);
    assert HandlersOf(Note(vm, Notification, "expire"), "expire")[0..] == HandlersOf(vm, "expire");
    assert RunPhase(vm, Notice("expire")) == NotifyFrom(Note(vm, Notification, "expire"), "expire", 0);
  }

  lemma DetachedEffects(vm: Vm)
    requires vm.instance.Some?
    ensures var (end, e) := RunPhase(vm, Life("detached"));
      var last := Detached(vm);
      && SameFrame(vm, end)
      && (e.None? <==> vm.definition.Some? && (last == [] || !Throws(last[0])))
      && (e.None? ==> end.actions == vm.actions + (if last == [] then [] else Pushes(last[0])))
  {
    hide Run, Throws, Pushes, Note;
    assert vm.actions + [] == vm.actions;
    if vm.definition.Some? && "detached" in vm.definition.value.lifetimes {
      NotedAlike(vm, Lifecycle, "detached", "expire");
      var script := vm.definition.value.lifetimes["detached"];
      RunEffects(Note(vm, Lifecycle, "detached"), script, "expire");
      assert Detached(vm) == [script];
      assert RunPhase(vm, Life("detached")) == Run(Note(vm, Lifecycle, "detached"), script);
    }
  }

  lemma ExpiryEffects(vm: Vm)
    ensures var (end, e) := RunPhases(vm, EXPIRING);
      && end.expired == vm.expired
      && (e.None? <==> vm.instance.Some? && vm.definition.Some? && !AnyThrows(ExpiryScripts(vm)))
      && (e.None? ==> end.actions == vm.actions + PushesAll(ExpiryScripts(vm)))
  {
    hide RunPhase, RunPhases, AnyThrows, Throws, Scheduled, PushesAll, Pushes, HandlersOf, Detached;
    TwoPhases(vm, EXPIRING[0], EXPIRING[1]);
    if vm.instance.Some? {
      NoticeEffects(vm);
      var told := RunPhase(vm, Notice("expire")).0;
      SameDetached(vm, told);
      DetachedEffects(told);
      var scripts, last := Scheduled(HandlersOf(vm, "expire"), "expire"), Detached(vm);
      Concluded(scripts, last);
      assert vm.actions + PushesAll(scripts) + (if last == [] then [] else Pushes(last[0])) ==
             vm.actions + (PushesAll(scripts) + (if last == [] then [] else Pushes(last[0])));
    } else {
      NoNotice(vm);
    }
  }

  lemma NoNotice(vm: Vm)
    requires vm.instance.None?
    ensures RunPhase(vm, Notice("expire")) == (vm, Some(NoInstance))
  {
  }

  lemma SameDetached(a: Vm, b: Vm)
    requires SameFrame(a, b)
    ensures Detached(a) == Detached(b) && |Detached(a)| <= 1
  {
  }

  lemma NotedAlike(vm: Vm, kind: Kind, name: string, other: string)
    ensures var noted := Note(vm, kind, name);
      && SameFrame(vm, noted) && SameFrame(noted, vm) && noted.actions == vm.actions
      && HandlersOf(noted, other) == HandlersOf(vm, other)
  {
  }

  /** One script or none after the others. */
  lemma {:induction false} Concluded(scripts: seq<Script>, last: seq<Script>)
    requires |last| <= 1
    ensures AnyThrows(scripts + last) <==> AnyThrows(scripts) || (last != [] && Throws(last[0]))
    ensures PushesAll(scripts + last) == PushesAll(scripts) + (if last == [] then [] else Pushes(last[0]))
    decreases |scripts|
  {
    hide Throws, AnyThrows, Pushes;
    if scripts == [] {
      NoneThrows();
      assert [] + last == last;
      if last != [] {
        assert last == [last[0]] + [];
        AnyThrowsStep(last[0], []);
        assert last[1..] == [];
      }
    } else {
      var rest := scripts[1..];
      Concluded(rest, last);
      AnyThrowsStep(scripts[0], rest);
      AnyThrowsStep(scripts[0], rest + last);
      assert scripts == [scripts[0]] + rest && scripts + last == [scripts[0]] + (rest + last);
      assert (scripts + last)[1..] == rest + last;
    }
  }

  /**
    An expiry succeeds unknown to the host exactly when nothing it runs throws, and an action that waits or that it
    queues does not decode.
   */
  lemma FlagsPartIff(h: Host, renders: bool)
    requires !h.vm.expired && !h.expired
    ensures var after := Do(h, ExpireCall(renders)).0;
      after.vm.expired && !after.expired <==>
        && h.vm.instance.Some? && h.vm.definition.Some? && !AnyThrows(ExpiryScripts(h.vm))
        && exists a :: a in h.vm.actions + PushesAll(ExpiryScripts(h.vm)) && !Decodes(a)
  {
    hide RunPhases, ExpiryScripts, AnyThrows, PushesAll, Decodes, AllDecode;
    ExpiryEffects(h.vm);
    var end := RunPhases(h.vm, EXPIRING).0;
    DrainDecodes(end.(expired := true));
  }

  lemma DrainDecodes(vm: Vm)
    ensures AllDecode(Drain(vm).1) <==> !exists a :: a in vm.actions && !Decodes(a)
  {
    hide Decodes;
  }

  // ----- components whose actions all decode -----

  /** Every card the script asks to expire is named by texts, in the handlers it registers too. */
  predicate CleanScript(script: Script)
    decreases script
  {
    script == [] || (CleanStep(script[0]) && CleanScript(script[1..]))
  }

  predicate CleanStep(step: Step)
    decreases step
  {
    match step
    case Push(action) => Decodes(action)
    case On(_, handler) => CleanScript(handler)
    case _ => true
  }

  predicate CleanDefinition(d: Definition) {
    && (forall n | n in d.lifetimes :: CleanScript(d.lifetimes[n]))
    && (forall n | n in d.methods :: CleanScript(d.methods[n]))
  }

  /** Whatever waits in the queue decodes, and whatever can still run only adds what decodes. */
  ghost predicate CleanVm(vm: Vm) {
    && (vm.definition.Some? ==> CleanDefinition(vm.definition.value))
    && (vm.instance.Some? ==> forall n, i | n in vm.instance.value.handlers && 0 <= i < |vm.instance.value.handlers[n]| ::
          CleanScript(vm.instance.value.handlers[n][i]))
    && forall a | a in vm.actions :: Decodes(a)
  }

  lemma {:induction false} CallsDecode(content: seq<Json.Value>)
    ensures forall a | a in CallsOf(content) :: Decodes(a)
    decreases |content|
  {
    if content != [] {
      CallsDecode(content[1..]);
    }
  }

  lemma StepStaysClean(vm: Vm, step: Step)
    requires CleanVm(vm) && CleanStep(step)
    ensures CleanVm(RunStep(vm, step).0)
  {
    hide CleanScript, CleanDefinition, Decodes;
    if step.Push? && step.action.SendFollowUp? {
      CallsDecode(step.action.content);
    }
    hide CallsOf;
  }

  lemma {:induction false} RunStaysClean(vm: Vm, script: Script)
    requires CleanVm(vm) && CleanScript(script)
    ensures CleanVm(Run(vm, script).0)
    decreases |script|
  {
    hide RunStep, CleanVm;
    if script != [] {
      StepStaysClean(vm, script[0]);
      if RunStep(vm, script[0]).1.None? {
        RunStaysClean(RunStep(vm, script[0]).0, script[1..]);
      }
    }
  }

  lemma HandlerIsClean(vm: Vm, name: string, i: nat)
    requires CleanVm(vm) && i < |HandlersOf(vm, name)|
    ensures CleanScript(HandlersOf(vm, name)[i])
  {
    hide CleanScript;
  }

  lemma {:induction false} NotifyStaysClean(vm: Vm, name: string, i: nat)
    requires i <= |HandlersOf(vm, name)| && CleanVm(vm)
    ensures CleanVm(NotifyFrom(vm, name, i).0)
    decreases SizeAll(HandlersOf(vm, name)[i..])
  {
    hide Run, HandlersOf, SizeAll, CleanVm;
    if i < |HandlersOf(vm, name)| {
      var (next, e) := Run(vm, HandlersOf(vm, name)[i]);
      PendingShrinks(vm, name, i);
      HandlerIsClean(vm, name, i);
      RunStaysClean(vm, HandlersOf(vm, name)[i]);
      if e.None? {
        NotifyStaysClean(next, name, i + 1);
      }
    }
  }

  lemma NoteStaysClean(vm: Vm, kind: Kind, name: string)
    requires CleanVm(vm)
    ensures CleanVm(Note(vm, kind, name))
  {
  }

  lemma LifetimeIsClean(vm: Vm, name: string)
    requires CleanVm(vm) && vm.definition.Some?
    ensures name in vm.definition.value.lifetimes ==> CleanScript(vm.definition.value.lifetimes[name])
    ensures name in vm.definition.value.methods ==> CleanScript(vm.definition.value.methods[name])
  {
  }

  lemma PhaseStaysClean(vm: Vm, phase: Phase)
    requires CleanVm(vm)
    ensures CleanVm(RunPhase(vm, phase).0)
  {
    hide Run, NotifyFrom, CleanVm, Note;
    match phase
    case Life(name) =>
      if vm.definition.Some? && name in vm.definition.value.lifetimes {
        LifetimeIsClean(vm, name);
        NoteStaysClean(vm, Lifecycle, name);
        RunStaysClean(Note(vm, Lifecycle, name), vm.definition.value.lifetimes[name]);
      }
    case Notice(name) =>
      if vm.instance.Some? {
        NoteStaysClean(vm, Notification, Text.Lower(name));
        NotifyStaysClean(Note(vm, Notification, Text.Lower(name)), Text.Lower(name), 0);
      }
  }

  lemma {:induction false} PhasesStayClean(vm: Vm, phases: seq<Phase>)
    requires CleanVm(vm)
    ensures CleanVm(RunPhases(vm, phases).0)
    decreases |phases|
  {
    hide RunPhase, CleanVm;
    if phases != [] {
      PhaseStaysClean(vm, phases[0]);
      if RunPhase(vm, phases[0]).1.None? {
        PhasesStayClean(RunPhase(vm, phases[0]).0, phases[1..]);
      }
    }
  }

  lemma FinishStaysClean(vm: Vm)
    requires CleanVm(vm)
    ensures CleanVm(Finish(vm).0) && AllDecode(Drain(vm).1)
    ensures CleanVm(vm.(expired := true))
    ensures CleanVm(Finish(vm.(expired := true)).0) && AllDecode(Drain(vm.(expired := true)).1)
  {
    hide CleanDefinition, CleanScript, Decodes;
  }

  lemma BuildStaysClean(vm: Vm, seed: Fields, properties: Fields)
    requires CleanVm(vm) && vm.definition.Some?
    ensures CleanVm(Build(vm, seed, properties))
  {
  }

  lemma InvokeStaysClean(vm: Vm, call: Call)
    requires CleanVm(vm)
    ensures CleanVm(Invoke(vm, call).0)
    ensures Invoke(vm, call).1.Ok? ==> AllDecode(Invoke(vm, call).1.value)
  {
    hide Run, RunPhases, CleanVm, Note, Build, Drain, AllDecode;
    match call
    case MountCall(seed, properties, _) =>
      if vm.definition.Some? {
        BuildStaysClean(vm, seed, properties);
        PhasesStayClean(Build(vm, seed, properties), MOUNTING);
        FinishStaysClean(RunPhases(Build(vm, seed, properties), MOUNTING).0);
      }
    case DispatchCall(name, _) =>
      if !vm.expired && vm.definition.Some? && name in vm.definition.value.methods {
        LifetimeIsClean(vm, name);
        NoteStaysClean(vm, Event, name);
        RunStaysClean(Note(vm, Event, name), vm.definition.value.methods[name]);
        FinishStaysClean(Run(Note(vm, Event, name), vm.definition.value.methods[name]).0);
      }
    case ExpireCall(_) =>
      if vm.expired {
        FinishStaysClean(vm);
      } else {
        PhasesStayClean(vm, EXPIRING);
        FinishStaysClean(RunPhases(vm, EXPIRING).0);
      }
  }

  lemma FlagsStayTogether(h: Host, call: Call, out: seq<Action>, seen: seq<Entry>)
    requires CleanVm(h.vm) && h.expired == h.vm.expired && Owes(h.vm, out, seen)
    ensures var next := Do(h, call).0;
      CleanVm(next.vm) && next.expired == next.vm.expired
  {
    hide Invoke, Owes, AllDecode, CleanVm;
    InvokeFrame(h.vm, call, out, seen);
    InvokeStaysClean(h.vm, call);
  }

  lemma {:induction false} FlagsTogetherAlong(h: Host, calls: seq<Call>, out: seq<Action>, seen: seq<Entry>)
    requires CleanVm(h.vm) && h.expired == h.vm.expired && Owes(h.vm, out, seen)
    ensures After(h, calls).expired == After(h, calls).vm.expired
    decreases |calls|
  {
    hide Do, Owes, CleanVm, Invoke, Drained;
    if calls != [] {
      FlagsStayTogether(h, calls[0], out, seen);
      DoIsInvoke(h, calls[0]);
      InvokeOwes(h.vm, calls[0], out, seen);
      var s := Drained(h.vm, calls[0]);
      if Reaches(h, calls[0]) {
        FlagsTogetherAlong(Do(h, calls[0]).0, calls[1..], out + s.actions, seen + s.trace);
      } else {
        FlagsTogetherAlong(Do(h, calls[0]).0, calls[1..], out, seen);
      }
    }
  }

  /** If a component only ever asks to expire cards named by texts, host and script side agree on expiry in every run. */
  lemma CleanFlagsAgree(definition: Definition, calls: seq<Call>)
    requires CleanDefinition(definition)
    ensures var h := After(Fresh(Some(definition)), calls);
      h.expired == h.vm.expired
  {
    hide After, CleanDefinition;
    FlagsTogetherAlong(Fresh(Some(definition)), calls, [], []);
  }

  const UNDECODABLE := ExpireCards(true, [Json.Null], None)

  /** A component whose `detached` function asks to expire a card whose path is not a text. */
  const CARELESS := Definition(map[], map["detached" := [Push(UNDECODABLE)]], map[])

  const NOTICES := [Entry(Notification, "input"), Entry(Notification, "result")]

  /** Mounted: the two notifications every mount sends are in the host's trace. */
  const MOUNTED :=
    Host(Vm(Some(CARELESS), Some(Instance(map[], map[])), false, [], [], [], NOTICES), map[], NOTICES, false, true)

  lemma QuietNotice(vm: Vm, name: string)
    requires vm.instance.Some? && name !in vm.instance.value.handlers && Text.Lower(name) == name
    ensures Notify(vm, name) == (Note(vm, Notification, name), None)
  {
  }

  lemma PushRuns(vm: Vm, action: Action)
    requires !action.SendFollowUp?
    ensures Run(vm, [Push(action)]) == (Enqueue(vm, [action]), None)
  {
    var script := [Push(action)];
    assert script[1..] == [] && [action] + [] == [action];
    assert Run(Enqueue(vm, [action]), []) == (Enqueue(vm, [action]), None);
  }

  /** The phases of a mount, of which only the notices leave a trace. */
  lemma CarelessPhases(vm: Vm)
    requires vm.definition == Some(CARELESS) && vm.instance == Some(Instance(map[], map[]))
    ensures RunPhases(vm, MOUNTING) == (Note(Note(vm, Notification, "input"), Notification, "result"), None)
  {
    hide Notify, Run, Note, RunPhases;
    assert "created" !in CARELESS.lifetimes && "attached" !in CARELESS.lifetimes by {
      assert "created"[0] == 'c' && "attached"[0] == 'a' && "detached"[0] == 'd';
    }
    assert Text.Lower("input") == "input" && Text.Lower("result") == "result";
    FourPhases(vm, MOUNTING[0], MOUNTING[1], MOUNTING[2], MOUNTING[3]);
    QuietNotice(vm, "input");
    NoteKeeps(vm, Notification, "input");
    var noted := Note(vm, Notification, "input");
    QuietNotice(noted, "result");
    NoteKeeps(noted, Notification, "result");
  }

  lemma CarelessMounts()
    ensures Do(Fresh(Some(CARELESS)), MountCall(map[], map[], true)).0 == MOUNTED
  {
    hide RunPhases, CARELESS;
    var vm := Fresh(Some(CARELESS)).vm;
    NothingAdded();
    assert Build(vm, map[], map[]) == vm.(instance := Some(Instance(map[], map[])));
    CarelessPhases(Build(vm, map[], map[]));
    assert [] + [Entry(Notification, "input")] + [Entry(Notification, "result")] == NOTICES;
    assert [] + NOTICES == NOTICES;
  }

  lemma NothingAdded()
    ensures CARELESS.data + map[] + map[] == map[]
  {
  }

  lemma CarelessExpires()
    ensures var after := Do(MOUNTED, ExpireCall(true)).0;
      after.vm.expired && !after.expired
  {
    hide Notify, Run, RunPhases, AllDecode, Note, Enqueue;
    var vm := MOUNTED.vm;
    TwoPhases(vm, Notice("expire"), Life("detached"));
    assert Text.Lower("expire") == "expire";
    QuietNotice(vm, "expire");
    var noted := Note(vm, Notification, "expire");
    NoteKeeps(vm, Notification, "expire");
    PushRuns(Note(noted, Lifecycle, "detached"), UNDECODABLE);
    NoteKeeps(noted, Lifecycle, "detached");
    var end := Enqueue(Note(noted, Lifecycle, "detached"), [UNDECODABLE]);
    EnqueueLast(Note(noted, Lifecycle, "detached"), UNDECODABLE);
    Undecoded(end.(expired := true));
  }

  /** So the two flags can differ in a run: a component that is mounted and then expired. */
  lemma FlagsCanDiffer()
    ensures var h := After(Fresh(Some(CARELESS)), [MountCall(map[], map[], true), ExpireCall(true)]);
      h.vm.expired && !h.expired
  {
    hide Do, After, Fresh, CARELESS;
    var mount, expire := MountCall(map[], map[], true), ExpireCall(true);
    CarelessMounts();
    CarelessExpires();
    AfterTwo(Fresh(Some(CARELESS)), mount, expire);
  }

  lemma AfterTwo(h: Host, a: Call, b: Call)
    ensures After(h, [a, b]) == Do(Do(h, a).0, b).0
  {
    hide Do;
    assert [a, b][1..] == [b] && [b][1..] == [];
    assert After(h, [a, b]) == After(Do(h, a).0, [b]);
    assert After(Do(h, a).0, [b]) == After(Do(Do(h, a).0, b).0, []);
  }

  lemma NoteKeeps(vm: Vm, kind: Kind, name: string)
    ensures Note(vm, kind, name).definition == vm.definition && Note(vm, kind, name).instance == vm.instance
  {
  }

  lemma EnqueueLast(vm: Vm, action: Action)
    ensures action in Enqueue(vm, [action]).actions
  {
  }

  lemma Undecoded(vm: Vm)
    requires UNDECODABLE in vm.actions
    ensures !AllDecode(Drain(vm).1)
  {
    assert [Json.Null][0] in UNDECODABLE.paths;
    assert !Decodes(UNDECODABLE);
  }
}
