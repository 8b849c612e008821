/** A mini-program component: the script side with its queues, and the host side that drains them. */
module ComponentVm {
  import opened Wrappers
  import Json
  import SetData
  import Text

  type Value = Json.Value
  type Fields = map<string, Value>

  datatype Action =
    | SendFollowUp(content: seq<Value>)
    | ApiCall(name: string, arguments: Value)
    | ExpireCards(all: bool, paths: seq<Value>, matching: Option<string>)
    | OpenDetail(url: string)
    | SetRelated(path: Option<string>, query: Value)

  /** What a lifecycle function, a method or a notification handler does, in order. */
  datatype Step =
    | Set(updates: seq<SetData.Update>)
    | Push(action: Action)
    | On(name: string, handler: seq<Step>)
    | Throw(message: string)

  type Script = seq<Step>

  datatype Kind = Lifecycle | Notification | Event

  datatype Entry = Entry(kind: Kind, name: string)

  datatype Definition = Definition(data: Fields, lifetimes: map<string, Script>, methods: map<string, Script>)

  datatype Instance = Instance(data: Fields, handlers: map<string, seq<Script>>)

  /** The variables of the script side; `pushed` and `traced` record all that ever entered the two queues. */
  datatype Vm = Vm(
    definition: Option<Definition>, instance: Option<Instance>, expired: bool,
    actions: seq<Action>, trace: seq<Entry>, pushed: seq<Action>, traced: seq<Entry>)

  datatype JsError = NoDefinition | ComponentExpired | MethodNotFound(name: string) | NoInstance | Thrown(message: string)

  datatype Snapshot = Snapshot(data: Fields, actions: seq<Action>, trace: seq<Entry>)

  // ----- actions -----

  /** The API call a content block asks for. */
  function CallOf(block: Value): Option<Action> {
    match (Json.Get(block, "type"), Json.Get(block, "data"))
    case (Some(Str(t)), Some(Obj(data))) =>
      if t == "api/call" && "name" in data && data["name"].Str? then
        Some(ApiCall(data["name"].s, if "arguments" in data && data["arguments"].Obj? then data["arguments"] else Json.EMPTY_OBJECT))
      else None
    case _ => None
  }

  function CallsOf(content: seq<Value>): seq<Action> {
    if content == [] then []
    else (match CallOf(content[0]) case Some(a) => [a] case None => []) + CallsOf(content[1..])
  }

  /** What one pushed action adds to the queue: itself, and for a follow-up message the calls among its blocks. */
  function Queued(a: Action): seq<Action> {
    [a] + if a.SendFollowUp? then CallsOf(a.content) else []
  }

  function Enqueue(vm: Vm, added: seq<Action>): Vm {
    vm.(actions := vm.actions + added, pushed := vm.pushed + added)
  }

  function Note(vm: Vm, kind: Kind, name: string): Vm {
    vm.(trace := vm.trace + [Entry(kind, name)], traced := vm.traced + [Entry(kind, name)])
  }

  // ----- scripts -----

  function HandlersOf(vm: Vm, name: string): seq<Script> {
    if vm.instance.Some? && name in vm.instance.value.handlers then vm.instance.value.handlers[name] else []
  }

  /** Names of notifications are compared in lower case. */
  function Register(vm: Vm, notification: string, handler: Script): Vm {
    if vm.instance.None? then vm else
    var name := Text.Lower(notification);
    vm.(instance := Some(vm.instance.value.(handlers := vm.instance.value.handlers[name := HandlersOf(vm, name) + [handler]])))
  }

  function SetFields(vm: Vm, updates: seq<SetData.Update>): (r: (Vm, Option<JsError>)) {
    if vm.instance.None? then (vm, Some(NoInstance))
    else (vm.(instance := Some(vm.instance.value.(data := SetData.ApplyAll(vm.instance.value.data, updates)))), None)
  }

  /** One step of a script. */
  function RunStep(vm: Vm, step: Step): (r: (Vm, Option<JsError>)) {
    match step
    case Set(updates) => SetFields(vm, updates)
    case Push(action) => (Enqueue(vm, Queued(action)), None)
    case On(name, handler) => (Register(vm, name, handler), None)
    case Throw(message) => (vm, Some(Thrown(message)))
  }

  function Run(vm: Vm, script: Script): (r: (Vm, Option<JsError>))
    decreases |script|
  {
    if script == [] then (vm, None) else
    var (next, e) := RunStep(vm, script[0]);
    if e.Some? then (next, e) else Run(next, script[1..])
  }

  /** How much a script can still register, itself included. */
  function Size(script: Script): nat
    decreases script
  {
    1 + if script == [] then 0 else StepSize(script[0]) + Size(script[1..])
  }

  function StepSize(step: Step): nat
    decreases step
  {
    if step.On? then Size(step.handler) else 0
  }

  function SizeAll(scripts: seq<Script>): nat {
    if scripts == [] then 0 else Size(scripts[0]) + SizeAll(scripts[1..])
  }

  lemma {:induction false} SizeAllConcat(a: seq<Script>, b: seq<Script>)
    ensures SizeAll(a + b) == SizeAll(a) + SizeAll(b)
    decreases |a|
  {
    if a == [] {
      assert a + b == b;
    } else {
      assert (a + b)[1..] == a[1..] + b;
      SizeAllConcat(a[1..], b);
    }
  }

  lemma StepRegisters(vm: Vm, step: Step, name: string) returns (added: seq<Script>)
    ensures HandlersOf(RunStep(vm, step).0, name) == HandlersOf(vm, name) + added
    ensures SizeAll(added) <= StepSize(step)
  {
    hide SetData.ApplyAll, CallsOf;
    added := [];
    if step.On? && vm.instance.Some? && Text.Lower(step.name) == name {
      added := [step.handler];
      assert added[1..] == [];
    } else {
      assert HandlersOf(vm, name) + [] == HandlersOf(vm, name);
    }
  }

  /** A script registers strictly less than it weighs itself. */
  lemma {:induction false} RunRegisters(vm: Vm, script: Script, name: string) returns (added: seq<Script>)
    ensures HandlersOf(Run(vm, script).0, name) == HandlersOf(vm, name) + added
    ensures SizeAll(added) < Size(script)
    decreases |script|
  {
    hide RunStep, HandlersOf, SizeAll, StepSize;
    added := NoneRegistered(vm, name);
    if script != [] {
      var (next, e) := RunStep(vm, script[0]);
      added := StepRegisters(vm, script[0], name);
      if e.None? {
        var more := RunRegisters(next, script[1..], name);
        SizeAllConcat(added, more);
        assert HandlersOf(vm, name) + added + more == HandlersOf(vm, name) + (added + more);
        added := added + more;
      }
    }
  }

  lemma NoneRegistered(vm: Vm, name: string) returns (added: seq<Script>)
    ensures HandlersOf(vm, name) == HandlersOf(vm, name) + added && SizeAll(added) == 0
  {
    added := [];
  }

  // ----- notifications -----

  lemma PendingShrinks(vm: Vm, name: string, i: nat)
    requires i < |HandlersOf(vm, name)|
    ensures var next := Run(vm, HandlersOf(vm, name)[i]).0;
      i + 1 <= |HandlersOf(next, name)| && SizeAll(HandlersOf(next, name)[i + 1..]) < SizeAll(HandlersOf(vm, name)[i..])
  {
    hide Run, Size;
    var handlers := HandlersOf(vm, name);
    var added := RunRegisters(vm, handlers[i], name);
    assert (handlers + added)[i + 1..] == handlers[i + 1..] + added;
    SizeAllConcat(handlers[i + 1..], added);
    assert handlers[i..][1..] == handlers[i + 1..];
  }

  /** Runs the handlers from `i` on; those that handlers add to the list while it is walked run as well. */
  function NotifyFrom(vm: Vm, name: string, i: nat): (r: (Vm, Option<JsError>))
    requires i <= |HandlersOf(vm, name)|
    decreases SizeAll(HandlersOf(vm, name)[i..])
  {
    hide Run, HandlersOf, SizeAll;
    if i == |HandlersOf(vm, name)| then (vm, None) else
    var (next, e) := Run(vm, HandlersOf(vm, name)[i]);
    PendingShrinks(vm, name, i);
    if e.Some? then (next, e) else NotifyFrom(next, name, i + 1)
  }

  function Notify(vm: Vm, name: string): (r: (Vm, Option<JsError>)) {
    if vm.instance.None? then (vm, Some(NoInstance))
    else NotifyFrom(Note(vm, Notification, Text.Lower(name)), Text.Lower(name), 0)
  }

  function CallLifecycle(vm: Vm, name: string): (r: (Vm, Option<JsError>)) {
    if vm.definition.None? then (vm, Some(NoDefinition))
    else if name in vm.definition.value.lifetimes then
      Run(Note(vm, Lifecycle, name), vm.definition.value.lifetimes[name])
    else (vm, None)
  }

  // ----- the three entry points -----

  /** Reads the state and empties both queues. */
  function Drain(vm: Vm): (r: (Vm, Snapshot)) {
    (vm.(actions := [], trace := []),
     Snapshot(if vm.instance.Some? then vm.instance.value.data else map[], vm.actions, vm.trace))
  }

  function Finish(vm: Vm): (r: (Vm, Result<Snapshot, JsError>)) {
    (Drain(vm).0, Ok(Drain(vm).1))
  }

  function Build(vm: Vm, seed: Fields, properties: Fields): Vm
    requires vm.definition.Some?
  {
    vm.(instance := Some(Instance(vm.definition.value.data + properties + seed, map[])))
  }

  datatype Phase = Life(name: string) | Notice(name: string)

  function RunPhase(vm: Vm, phase: Phase): (r: (Vm, Option<JsError>)) {
    match phase
    case Life(name) => CallLifecycle(vm, name)
    case Notice(name) => Notify(vm, name)
  }

  function RunPhases(vm: Vm, phases: seq<Phase>): (r: (Vm, Option<JsError>))
    decreases |phases|
  {
    if phases == [] then (vm, None) else
    var (next, e) := RunPhase(vm, phases[0]);
    if e.Some? then (next, e) else RunPhases(next, phases[1..])
  }

  const MOUNTING := [Life("created"), Notice("input"), Notice("result"), Life("attached")]
  const EXPIRING := [Notice("expire"), Life("detached")]

  function RunMount(vm: Vm, seed: Fields, properties: Fields): (r: (Vm, Result<Snapshot, JsError>)) {
    if vm.definition.None? then (vm, Err(NoDefinition)) else
    var (end, e) := RunPhases(Build(vm, seed, properties), MOUNTING);
    if e.Some? then (end, Err(e.value)) else Finish(end)
  }

  function RunDispatch(vm: Vm, name: string): (r: (Vm, Result<Snapshot, JsError>)) {
    if vm.expired then (vm, Err(ComponentExpired))
    else if vm.definition.None? then (vm, Err(NoDefinition))
    else if name !in vm.definition.value.methods then (vm, Err(MethodNotFound(name)))
    else
      var (end, e) := Run(Note(vm, Event, name), vm.definition.value.methods[name]);
      if e.Some? then (end, Err(e.value)) else Finish(end)
  }

  function RunExpire(vm: Vm): (r: (Vm, Result<Snapshot, JsError>)) {
    if vm.expired then Finish(vm) else
    var (end, e) := RunPhases(vm, EXPIRING);
    if e.Some? then (end, Err(e.value)) else Finish(end.(expired := true))
  }

  class Runtime {
    var vm: Vm

    constructor (definition: Option<Definition>)
      ensures vm == Vm(definition, None, false, [], [], [], [])
    {
      vm := Vm(definition, None, false, [], [], [], []);
    }

    method PushAction(action: Action)
      modifies this
      ensures vm == Enqueue(old(vm), Queued(action))
    {
      hide CallOf, Enqueue, CallsOf;
      assert [action] + [] == [action];
      vm := Enqueue(vm, [action]);
      if action.SendFollowUp? {
        var content := action.content;
        ghost var added: seq<Action> := [action];
        assert content[0..] == content;
        for i := 0 to |content|
          invariant vm == Enqueue(old(vm), added)
          invariant Queued(action) == added + CallsOf(content[i..])
        {
          assert content[i..][0] == content[i] && content[i..][1..] == content[i + 1..];
          CallsStep(added, content[i..]);
          var call := CallOf(content[i]);
          if call.Some? {
            vm := Enqueue(vm, [call.value]);
            EnqueueTwice(old(vm), added, [call.value]);
            added := added + [call.value];
          }
        }
        CallsEnd(added);
      }
    }

    method RunScript(script: Script) returns (error: Option<JsError>)
      modifies this
      ensures (vm, error) == Run(old(vm), script)
    {
      hide SetData.ApplyAll, CallsOf, Register;
      assert script[0..] == script;
      for i := 0 to |script|
        invariant Run(vm, script[i..]) == Run(old(vm), script)
      {
        assert script[i..][1..] == script[i + 1..];
        match script[i] {
          case Set(updates) =>
            if vm.instance.None? {
              return Some(NoInstance);
            }
            var target := new SetData.Target(vm.instance.value.data);
            target.ApplySetData(updates);
            vm := vm.(instance := Some(vm.instance.value.(data := target.data)));
          case Push(action) =>
            PushAction(action);
          case On(name, handler) =>
            vm := Register(vm, name, handler);
          case Throw(message) =>
            return Some(Thrown(message));
        }
      }
      return None;
    }

    /** Walks the live list of handlers, as the list grows. */
    method RunHandlers(name: string) returns (error: Option<JsError>)
      modifies this
      ensures (vm, error) == NotifyFrom(old(vm), name, 0)
    {
      hide Run, HandlersOf, SizeAll;
      var i := 0;
      while i < |HandlersOf(vm, name)|
        invariant i <= |HandlersOf(vm, name)|
        invariant NotifyFrom(vm, name, i) == NotifyFrom(old(vm), name, 0)
        decreases SizeAll(HandlersOf(vm, name)[i..])
      {
        PendingShrinks(vm, name, i);
        error := RunScript(HandlersOf(vm, name)[i]);
        if error.Some? {
          return;
        }
        i := i + 1;
      }
      return None;
    }

    method NotifyHandlers(name: string) returns (error: Option<JsError>)
      modifies this
      ensures (vm, error) == Notify(old(vm), name)
    {
      hide NotifyFrom;
      if vm.instance.None? {
        return Some(NoInstance);
      }
      var normalized := Text.Lower(name);
      vm := Note(vm, Notification, normalized);
      error := RunHandlers(normalized);
    }

    method RunLifecycle(name: string) returns (error: Option<JsError>)
      modifies this
      ensures (vm, error) == CallLifecycle(old(vm), name)
    {
      hide Run;
      if vm.definition.None? {
        return Some(NoDefinition);
      }
      if name !in vm.definition.value.lifetimes {
        return None;
      }
      vm := Note(vm, Lifecycle, name);
      error := RunScript(vm.definition.value.lifetimes[name]);
    }

    method TakeSnapshot() returns (s: Snapshot)
      modifies this
      ensures (vm, s) == Drain(old(vm))
    {
      s := Snapshot(if vm.instance.Some? then vm.instance.value.data else map[], vm.actions, vm.trace);
      vm := vm.(actions := []);
      vm := vm.(trace := []);
    }

    method MountComponent(seed: Fields, properties: Fields) returns (r: Result<Snapshot, JsError>)
      modifies this
      ensures (vm, r) == RunMount(old(vm), seed, properties)
    {
      hide CallLifecycle, Notify;
      if vm.definition.None? {
        return Err(NoDefinition);
      }
      vm := Build(vm, seed, properties);
      FourPhases(vm, MOUNTING[0], MOUNTING[1], MOUNTING[2], MOUNTING[3]);
      var e := RunLifecycle("created");
      if e.Some? { return Err(e.value); }
      e := NotifyHandlers("input");
      if e.Some? { return Err(e.value); }
      e := NotifyHandlers("result");
      if e.Some? { return Err(e.value); }
      e := RunLifecycle("attached");
      if e.Some? { return Err(e.value); }
      var s := TakeSnapshot();
      return Ok(s);
    }

    method DispatchEvent(name: string) returns (r: Result<Snapshot, JsError>)
      modifies this
      ensures (vm, r) == RunDispatch(old(vm), name)
    {
      hide Run;
      if vm.expired {
        return Err(ComponentExpired);
      }
      if vm.definition.None? {
        return Err(NoDefinition);
      }
      if name !in vm.definition.value.methods {
        return Err(MethodNotFound(name));
      }
      vm := Note(vm, Event, name);
      var e := RunScript(vm.definition.value.methods[name]);
      if e.Some? { return Err(e.value); }
      var s := TakeSnapshot();
      return Ok(s);
    }

    method ExpireComponent() returns (r: Result<Snapshot, JsError>)
      modifies this
      ensures (vm, r) == RunExpire(old(vm))
    {
      hide CallLifecycle, Notify;
      if !vm.expired {
        TwoPhases(vm, EXPIRING[0], EXPIRING[1]);
        var e := NotifyHandlers("expire");
        if e.Some? { return Err(e.value); }
        e := RunLifecycle("detached");
        if e.Some? { return Err(e.value); }
        vm := vm.(expired := true);
      }
      var s := TakeSnapshot();
      return Ok(s);
    }
  }

  lemma CallsStep(added: seq<Action>, content: seq<Value>)
    requires content != []
    ensures var call := CallOf(content[0]);
      added + CallsOf(content) == (if call.Some? then added + [call.value] else added) + CallsOf(content[1..])
  {
    hide CallOf;
    var call := CallOf(content[0]);
    if call.Some? {
      assert added + ([call.value] + CallsOf(content[1..])) == added + [call.value] + CallsOf(content[1..]);
    } else {
      assert [] + CallsOf(content[1..]) == CallsOf(content[1..]);
    }
  }

  lemma CallsEnd(added: seq<Action>)
    ensures added + CallsOf([]) == added
  {
  }

  lemma EnqueueTwice(vm: Vm, a: seq<Action>, b: seq<Action>)
    ensures Enqueue(Enqueue(vm, a), b) == Enqueue(vm, a + b)
  {
    assert vm.actions + a + b == vm.actions + (a + b);
    assert vm.pushed + a + b == vm.pushed + (a + b);
  }

  lemma TwoPhases(vm: Vm, a: Phase, b: Phase)
    ensures RunPhases(vm, [a, b]) ==
            var (v, e) := RunPhase(vm, a);
            if e.Some? then (v, e) else RunPhase(v, b)
  {
    hide RunPhase;
    var (v, e) := RunPhase(vm, a);
    assert [a, b][1..] == [b] && [b][1..] == [];
    assert RunPhases(v, [b]) == (var (w, f) := RunPhase(v, b); if f.Some? then (w, f) else RunPhases(w, []));
  }

  lemma FourPhases(vm: Vm, a: Phase, b: Phase, c: Phase, d: Phase)
    ensures RunPhases(vm, [a, b, c, d]) ==
            var (v, e) := RunPhase(vm, a);
            if e.Some? then (v, e) else
            var (w, f) := RunPhase(v, b);
            if f.Some? then (w, f) else RunPhases(w, [c, d])
    ensures forall w :: RunPhases(w, [c, d]) ==
                        var (x, g) := RunPhase(w, c);
                        if g.Some? then (x, g) else RunPhase(x, d)
  {
    hide RunPhase;
    assert [a, b, c, d][1..] == [b, c, d] && [b, c, d][1..] == [c, d];
    forall w ensures RunPhases(w, [c, d]) ==
                     var (x, g) := RunPhase(w, c);
                     if g.Some? then (x, g) else RunPhase(x, d)
    {
      TwoPhases(w, c, d);
    }
  }

  // ----- the host side -----

  datatype HostError = Expired | Script(error: JsError) | InvalidJson | RenderFailed

  datatype Outcome = Outcome(actions: seq<Action>, trace: seq<Entry>, state: Fields)

  /** The host's fields, and the script side it drives. */
  datatype Host = Host(vm: Vm, state: Fields, trace: seq<Entry>, expired: bool, mounted: bool)

  predicate Decodes(a: Action) {
    a.ExpireCards? ==> forall p | p in a.paths :: p.Str?
  }

  predicate AllDecode(s: Snapshot) {
    forall a | a in s.actions :: Decodes(a)
  }

  function Decode(r: Result<Snapshot, JsError>): Result<Snapshot, HostError> {
    match r
    case Err(e) => Err(Script(e))
    case Ok(s) => if AllDecode(s) then Ok(s) else Err(InvalidJson)
  }

  /** Takes over a snapshot; compiling the new state to a render tree may fail. */
  function Apply(h: Host, s: Snapshot, renders: bool): (r: (Host, Result<Outcome, HostError>)) {
    (h.(state := s.data, trace := h.trace + s.trace),
     if renders then Ok(Outcome(s.actions, s.trace, s.data)) else Err(RenderFailed))
  }

  datatype Call =
    | MountCall(seed: Fields, properties: Fields, renders: bool)
    | DispatchCall(name: string, renders: bool)
    | ExpireCall(renders: bool)

  /** The script side's part of a call. */
  function Invoke(vm: Vm, call: Call): (r: (Vm, Result<Snapshot, JsError>)) {
    match call
    case MountCall(seed, properties, _) => RunMount(vm, seed, properties)
    case DispatchCall(name, _) => RunDispatch(vm, name)
    case ExpireCall(_) => RunExpire(vm)
  }

  function Mark(h: Host, call: Call): Host {
    match call
    case MountCall(_, _, _) => h.(mounted := true)
    case DispatchCall(_, _) => h
    case ExpireCall(_) => h.(expired := true)
  }

  /** One call of the host's interface. */
  function Do(h: Host, call: Call): (r: (Host, Result<Outcome, HostError>)) {
    if call.DispatchCall? && h.expired then (h, Err(Expired)) else
    var (vm, r) := Invoke(h.vm, call);
    match Decode(r)
    case Err(e) => (h.(vm := vm), Err(e))
    case Ok(s) => Apply(Mark(h.(vm := vm), call), s, call.renders)
  }

  class ComponentInstance {
    const js: Runtime
    var state: Fields
    var trace: seq<Entry>
    var expired: bool
    var mounted: bool

    ghost function View(): Host
      reads this, js
    {
      Host(js.vm, state, trace, expired, mounted)
    }

    constructor (definition: Option<Definition>)
      ensures fresh(js)
      ensures View() == Host(Vm(definition, None, false, [], [], [], []), map[], [], false, false)
    {
      js := new Runtime(definition);
      state := map[];
      trace := [];
      expired := false;
      mounted := false;
    }

    method ApplySnapshot(s: Snapshot, renders: bool) returns (r: Result<Outcome, HostError>)
      modifies this
      ensures (View(), r) == Apply(old(View()), s, renders)
    {
      state := s.data;
      trace := trace + s.trace;
      if !renders {
        return Err(RenderFailed);
      }
      return Ok(Outcome(s.actions, s.trace, state));
    }

    method Mount(seed: Fields, properties: Fields, renders: bool) returns (r: Result<Outcome, HostError>)
      modifies this, js
      ensures (View(), r) == Do(old(View()), MountCall(seed, properties, renders))
    {
      hide RunMount;
      var called := js.MountComponent(seed, properties);
      var snapshot := Decode(called);
      if snapshot.Err? {
        return Err(snapshot.error);
      }
      mounted := true;
      r := ApplySnapshot(snapshot.value, renders);
    }

    method DispatchEvent(name: string, renders: bool) returns (r: Result<Outcome, HostError>)
      modifies this, js
      ensures (View(), r) == Do(old(View()), DispatchCall(name, renders))
    {
      hide RunDispatch;
      if expired {
        return Err(Expired);
      }
      var called := js.DispatchEvent(name);
      var snapshot := Decode(called);
      if snapshot.Err? {
        return Err(snapshot.error);
      }
      r := ApplySnapshot(snapshot.value, renders);
    }

    method Expire(renders: bool) returns (r: Result<Outcome, HostError>)
      modifies this, js
      ensures (View(), r) == Do(old(View()), ExpireCall(renders))
    {
      hide RunExpire;
      var called := js.ExpireComponent();
      var snapshot := Decode(called);
      if snapshot.Err? {
        return Err(snapshot.error);
      }
      expired := true;
      r := ApplySnapshot(snapshot.value, renders);
    }
  }
}
