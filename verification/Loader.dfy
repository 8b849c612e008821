/** The CommonJS loader: a module is cached before its body runs, so cycles end. */
module Loader {
  import opened Wrappers
  import opened ModulePath
  import Text

  /**
    What a module body does, in order; a failing operation throws out of every body under way, up to a `require` inside
    a try block. A failure of the other operations that the body catches itself has no effect, so there is no case for it.
   */
  datatype Op =
    | Require(specifier: string, catches: bool)
    | RegisterApi(name: string, isFunction: bool)
    | Use(isFunction: bool)
    | Throw(message: string)

  type Modules = map<string, seq<Op>>

  datatype LoadError =
    | Path(error: PathError)
    | EmptyApiName
    | HandlerNotFunction(name: string)
    | DuplicateApi(name: string)
    | MiddlewareNotFunction
    | Thrown(message: string)

  /** The loader's state: cached ids, the bodies started so far, those that threw, registered names and middlewares. */
  datatype State = State(cache: set<string>, ran: seq<string>, broken: set<string>, apis: seq<string>, middlewares: nat)

  const EMPTY := State({}, [], {}, [], 0)

  function Register(st: State, name: string, isFunction: bool): Result<State, LoadError> {
    if name == "" then Err(EmptyApiName)
    else if !isFunction then Err(HandlerNotFunction(name))
    else if name in st.apis then Err(DuplicateApi(name))
    else Ok(st.(apis := st.apis + [name]))
  }

  // ----- loading -----

  /** `require` from `parent`: the state afterwards, and the id or the error that was thrown. */
  function Load(mods: Modules, st: State, parent: string, specifier: string): (r: (State, Result<string, LoadError>))
    ensures st.cache <= r.0.cache && st.broken <= r.0.broken
    decreases |mods.Keys - st.cache|, 1, 0
  {
    match Normalize(parent, specifier, mods.Keys)
    case Err(e) => (st, Err(Path(e)))
    case Ok(id) =>
      if id in st.cache then (st, Ok(id))
      else
        var started := st.(cache := st.cache + {id}, ran := st.ran + [id]);
        Shrinks(mods.Keys, st.cache, started.cache, id);
        var (end, r) := RunOps(mods, started, id, mods[id]);
        if r.Ok? then (end, Ok(id)) else (end.(broken := end.broken + {id}), Err(r.error))
  }

  lemma Shrinks(all: set<string>, before: set<string>, after: set<string>, id: string)
    requires id in all && id !in before && before <= after && id in after
    ensures |all - after| < |all - before|
  {
    SubsetSize(all - after, all - before - {id});
    assert all - before == (all - before - {id}) + {id};
  }

  lemma {:induction false} SubsetSize(a: set<string>, b: set<string>)
    requires a <= b
    ensures |a| <= |b|
    decreases |a|
  {
    if a != {} {
      var x :| x in a;
      SubsetSize(a - {x}, b - {x});
    }
  }

  lemma FewerLeft(all: set<string>, before: set<string>, after: set<string>)
    requires before <= after
    ensures |all - after| <= |all - before|
  {
    SubsetSize(all - after, all - before);
  }

  function RunOps(mods: Modules, st: State, id: string, ops: seq<Op>): (r: (State, Result<(), LoadError>))
    ensures st.cache <= r.0.cache && st.broken <= r.0.broken
    decreases |mods.Keys - st.cache|, 2, |ops|
  {
    hide Normalize, Register;
    if ops == [] then (st, Ok(())) else
    match ops[0]
    case Require(specifier, catches) =>
      var (next, r) := Load(mods, st, id, specifier);
      if r.Err? && !catches then (next, Err(r.error)) else
      FewerLeft(mods.Keys, st.cache, next.cache);
      RunOps(mods, next, id, ops[1..])
    case RegisterApi(name, isFunction) =>
      var r := Register(st, name, isFunction);
      if r.Err? then (st, Err(r.error)) else
      RegisterKeepsCache(st, name, isFunction);
      RunOps(mods, r.value, id, ops[1..])
    case Use(isFunction) =>
      if !isFunction then (st, Err(MiddlewareNotFunction))
      else RunOps(mods, st.(middlewares := st.middlewares + 1), id, ops[1..])
    case Throw(message) => (st, Err(Thrown(message)))
  }

  lemma RegisterKeepsCache(st: State, name: string, isFunction: bool)
    ensures Register(st, name, isFunction).Ok? ==>
              var next := Register(st, name, isFunction).value;
              next.cache == st.cache && next.ran == st.ran && next.broken == st.broken
  {
  }

  /** One operation of a body, and then the rest. */
  lemma RunStep(mods: Modules, st: State, id: string, ops: seq<Op>)
    requires ops != []
    ensures RunOps(mods, st, id, ops) ==
            (match ops[0]
             case Require(specifier, catches) =>
               (var (next, r) := Load(mods, st, id, specifier);
               if r.Err? && !catches then (next, Err(r.error)) else RunOps(mods, next, id, ops[1..]))
             case RegisterApi(name, isFunction) =>
               (var r := Register(st, name, isFunction);
               if r.Err? then (st, Err(r.error)) else RunOps(mods, r.value, id, ops[1..]))
             case Use(isFunction) =>
               if isFunction then RunOps(mods, st.(middlewares := st.middlewares + 1), id, ops[1..])
               else (st, Err(MiddlewareNotFunction))
             case Throw(message) => (st, Err(Thrown(message))))
  {
    hide Load, Register;
  }

  lemma RunNothing(mods: Modules, st: State, id: string)
    ensures RunOps(mods, st, id, []) == (st, Ok(()))
  {
  }

  /** Loading the entry module. */
  function LoadEntry(mods: Modules): (State, Result<string, LoadError>) {
    Load(mods, EMPTY, "index", "index")
  }

  class Runtime {
    const mods: Modules
    var state: State

    constructor (mods: Modules)
      ensures this.mods == mods && state == EMPTY
    {
      this.mods := mods;
      state := EMPTY;
    }

    method RequireModule(parent: string, specifier: string) returns (r: Result<string, LoadError>)
      modifies this
      ensures (state, r) == Load(mods, old(state), parent, specifier)
      decreases |mods.Keys - state.cache|, 1, 0
    {
      var id := NormalizeRequire(parent, specifier, mods.Keys);
      if id.Err? {
        return Err(Path(id.error));
      }
      if id.value in state.cache {
        return Ok(id.value);
      }
      Shrinks(mods.Keys, state.cache, state.cache + {id.value}, id.value);
      state := state.(cache := state.cache + {id.value});
      state := state.(ran := state.ran + [id.value]);
      var end := RunBody(id.value);
      if end.Err? {
        state := state.(broken := state.broken + {id.value});
        return Err(end.error);
      }
      return Ok(id.value);
    }

    method RunBody(id: string) returns (r: Result<(), LoadError>)
      requires id in mods
      modifies this
      ensures (state, r) == RunOps(mods, old(state), id, mods[id])
      decreases |mods.Keys - state.cache|, 2, |mods[id]|
    {
      hide Normalize, Load, Register;
      var ops := mods[id];
      assert ops[0..] == ops;
      for i := 0 to |ops|
        invariant old(state).cache <= state.cache
        invariant RunOps(mods, old(state), id, ops) == RunOps(mods, state, id, ops[i..])
      {
        assert ops[i..][0] == ops[i] && ops[i..][1..] == ops[i + 1..];
        FewerLeft(mods.Keys, old(state).cache, state.cache);
        match ops[i] {
          case Require(specifier, catches) =>
            var required := RequireModule(id, specifier);
            if required.Err? && !catches {
              return Err(required.error);
            }
          case RegisterApi(name, isFunction) =>
            var registered := RegisterHandler(name, isFunction);
            if registered.Err? {
              return Err(registered.error);
            }
          case Use(isFunction) =>
            if !isFunction {
              return Err(MiddlewareNotFunction);
            }
            state := state.(middlewares := state.middlewares + 1);
          case Throw(message) =>
            return Err(Thrown(message));
        }
      }
      return Ok(());
    }

    method RegisterHandler(name: string, isFunction: bool) returns (r: Result<(), LoadError>)
      modifies this
      ensures match Register(old(state), name, isFunction)
              case Err(e) => r == Err(e) && state == old(state)
              case Ok(next) => r == Ok(()) && state == next
      ensures state.cache == old(state).cache
    {
      if |name| == 0 {
        return Err(EmptyApiName);
      }
      if !isFunction {
        return Err(HandlerNotFunction(name));
      }
      if name in state.apis {
        return Err(DuplicateApi(name));
      }
      state := state.(apis := state.apis + [name]);
      return Ok(());
    }
  }

  // ----- bodies run at most once -----

  ghost predicate Distinct(ids: seq<string>) {
    forall i, j | 0 <= i < j < |ids| :: ids[i] != ids[j]
  }

  /** The cached ids are the bodies started, each once, and only those throw; registered names differ. */
  ghost predicate Consistent(st: State) {
    && Distinct(st.ran) && Distinct(st.apis) && st.broken <= st.cache
    && forall id :: id in st.cache <==> id in st.ran
  }

  lemma {:induction false} LoadConsistent(mods: Modules, st: State, parent: string, specifier: string)
    requires Consistent(st)
    ensures Consistent(Load(mods, st, parent, specifier).0)
    decreases |mods.Keys - st.cache|, 1, 0
  {
    hide RunOps, Normalize, Consistent;
    NormalizeFinds(parent, specifier, mods.Keys);
    var found := Normalize(parent, specifier, mods.Keys);
    if found.Ok? && found.value !in st.cache {
      var id := found.value;
      var started := st.(cache := st.cache + {id}, ran := st.ran + [id]);
      StartConsistent(st, id);
      Shrinks(mods.Keys, st.cache, started.cache, id);
      RunConsistent(mods, started, id, mods[id]);
      ThrowConsistent(RunOps(mods, started, id, mods[id]).0, id);
    }
  }

  lemma StartConsistent(st: State, id: string)
    requires Consistent(st) && id !in st.cache
    ensures Consistent(st.(cache := st.cache + {id}, ran := st.ran + [id]))
  {
  }

  lemma ThrowConsistent(st: State, id: string)
    requires Consistent(st) && id in st.cache
    ensures Consistent(st.(broken := st.broken + {id}))
  {
  }

  lemma NormalizeFinds(parent: string, specifier: string, modules: set<string>)
    ensures Normalize(parent, specifier, modules).Ok? ==> Normalize(parent, specifier, modules).value in modules
  {
  }

  lemma RegisterConsistent(st: State, name: string, isFunction: bool)
    requires Consistent(st) && Register(st, name, isFunction).Ok?
    ensures Consistent(Register(st, name, isFunction).value)
  {
  }

  lemma {:induction false} RunConsistent(mods: Modules, st: State, id: string, ops: seq<Op>)
    requires Consistent(st)
    ensures Consistent(RunOps(mods, st, id, ops).0)
    decreases |mods.Keys - st.cache|, 2, |ops|
  {
    hide Load, RunOps, Register, Normalize;
    if ops == [] {
      RunNothing(mods, st, id);
    } else {
      RunStep(mods, st, id, ops);
      match ops[0]
      case Require(specifier, catches) =>
        LoadConsistent(mods, st, id, specifier);
        var (next, r) := Load(mods, st, id, specifier);
        if r.Ok? || catches {
          FewerLeft(mods.Keys, st.cache, next.cache);
          RunConsistent(mods, next, id, ops[1..]);
        }
      case RegisterApi(name, isFunction) =>
        var r := Register(st, name, isFunction);
        if r.Ok? {
          RegisterKeepsCache(st, name, isFunction);
          RegisterConsistent(st, name, isFunction);
          RunConsistent(mods, r.value, id, ops[1..]);
        }
      case Use(isFunction) =>
        if isFunction {
          RunConsistent(mods, st.(middlewares := st.middlewares + 1), id, ops[1..]);
        }
      case Throw(_) =>
    }
  }

  /** Whatever the modules, and whether loading succeeds or throws, each body runs at most once. */
  lemma BodiesRunOnce(mods: Modules)
    ensures var st := LoadEntry(mods).0;
      Distinct(st.ran) && Distinct(st.apis) && forall id :: id in st.cache <==> id in st.ran
  {
    hide Load;
    LoadConsistent(mods, EMPTY, "index", "index");
  }

  // ----- what is loaded -----

  /** A body of `from` requires the module `to`. */
  ghost predicate Edge(mods: Modules, from: string, to: string) {
    from in mods && exists op :: op in mods[from] && op.Require? && Normalize(from, op.specifier, mods.Keys) == Ok(to)
  }

  ghost predicate IsPath(mods: Modules, path: seq<string>) {
    && path != []
    && forall i | 0 <= i < |path| - 1 :: Edge(mods, path[i], path[i + 1])
  }

  ghost predicate Reaches(mods: Modules, from: string, to: string) {
    exists path :: IsPath(mods, path) && path[0] == from && path[|path| - 1] == to
  }

  lemma ReachesSelf(mods: Modules, id: string)
    ensures Reaches(mods, id, id)
  {
    assert IsPath(mods, [id]) && [id][0] == id && [id][|[id]| - 1] == id;
  }

  lemma ReachesNext(mods: Modules, a: string, b: string, c: string)
    requires Reaches(mods, a, b) && Edge(mods, b, c)
    ensures Reaches(mods, a, c)
  {
    hide Edge;
    var path :| IsPath(mods, path) && path[0] == a && path[|path| - 1] == b;
    var longer := path + [c];
    forall i | 0 <= i < |longer| - 1 ensures Edge(mods, longer[i], longer[i + 1]) {
      if i < |path| - 1 {
        assert Edge(mods, path[i], path[i + 1]);
      }
    }
    assert IsPath(mods, longer) && longer[0] == a && longer[|longer| - 1] == c;
  }

  /** Everything loaded between two states is reachable from `root`. */
  ghost predicate OnlyReachable(mods: Modules, root: string, before: set<string>, after: set<string>) {
    forall id | id in after && id !in before :: Reaches(mods, root, id)
  }

  /** Every module loaded between two states has all its requirements loaded in the second, unless its body threw. */
  ghost predicate Complete(mods: Modules, before: State, after: State) {
    forall id, to | id in after.cache && id !in before.cache && id !in after.broken && Edge(mods, id, to) :: to in after.cache
  }

  lemma {:induction false} LoadReaches(mods: Modules, st: State, root: string, parent: string, specifier: string)
    requires Normalize(parent, specifier, mods.Keys).Ok? ==> Reaches(mods, root, Normalize(parent, specifier, mods.Keys).value)
    ensures OnlyReachable(mods, root, st.cache, Load(mods, st, parent, specifier).0.cache)
    decreases |mods.Keys - st.cache|, 1, 0
  {
    hide RunOps, Normalize, Reaches;
    NormalizeFinds(parent, specifier, mods.Keys);
    var id := Normalize(parent, specifier, mods.Keys);
    if id.Ok? && id.value !in st.cache {
      var started := st.(cache := st.cache + {id.value}, ran := st.ran + [id.value]);
      Shrinks(mods.Keys, st.cache, started.cache, id.value);
      RunReaches(mods, started, root, id.value, mods[id.value]);
    }
  }

  lemma {:induction false} RunReaches(mods: Modules, st: State, root: string, id: string, ops: seq<Op>)
    requires id in mods && Reaches(mods, root, id) && forall op | op in ops :: op in mods[id]
    ensures OnlyReachable(mods, root, st.cache, RunOps(mods, st, id, ops).0.cache)
    decreases |mods.Keys - st.cache|, 2, |ops|
  {
    hide Load, Normalize, Reaches;
    if ops != [] {
      match ops[0]
      case Require(specifier, catches) =>
        var to := Normalize(id, specifier, mods.Keys);
        if to.Ok? {
          assert Edge(mods, id, to.value);
          ReachesNext(mods, root, id, to.value);
        }
        LoadReaches(mods, st, root, id, specifier);
        var (next, r) := Load(mods, st, id, specifier);
        if r.Ok? || catches {
          FewerLeft(mods.Keys, st.cache, next.cache);
          RunReaches(mods, next, root, id, ops[1..]);
        }
      case RegisterApi(name, isFunction) =>
        var r := Register(st, name, isFunction);
        if r.Ok? {
          RunReaches(mods, r.value, root, id, ops[1..]);
        }
      case Use(isFunction) =>
        if isFunction {
          RunReaches(mods, st.(middlewares := st.middlewares + 1), root, id, ops[1..]);
        }
      case Throw(_) =>
    }
  }

  /** All requirements among `ops` that name a module are loaded. */
  ghost predicate AllLoaded(mods: Modules, id: string, ops: seq<Op>, cache: set<string>) {
    forall op | op in ops && op.Require? ::
      Normalize(id, op.specifier, mods.Keys).Ok? ==> Normalize(id, op.specifier, mods.Keys).value in cache
  }

  lemma {:induction false} LoadCompletes(mods: Modules, st: State, parent: string, specifier: string)
    ensures var (end, r) := Load(mods, st, parent, specifier);
      && Complete(mods, st, end)
      && (r.Ok? ==> Normalize(parent, specifier, mods.Keys) == Ok(r.value))
      && (Normalize(parent, specifier, mods.Keys).Ok? ==> Normalize(parent, specifier, mods.Keys).value in end.cache)
    decreases |mods.Keys - st.cache|, 1, 0
  {
    hide RunOps, Normalize, Edge;
    NormalizeFinds(parent, specifier, mods.Keys);
    var found := Normalize(parent, specifier, mods.Keys);
    if found.Ok? && found.value !in st.cache {
      var id := found.value;
      var started := st.(cache := st.cache + {id}, ran := st.ran + [id]);
      Shrinks(mods.Keys, st.cache, started.cache, id);
      RunCompletes(mods, started, id, mods[id]);
      var end := Load(mods, st, parent, specifier).0;
      forall m, to | m in end.cache && m !in st.cache && m !in end.broken && Edge(mods, m, to) ensures to in end.cache {
        if m == id {
          EdgeRequires(mods, id, to, end.cache);
        }
      }
    }
  }

  lemma EdgeRequires(mods: Modules, id: string, to: string, cache: set<string>)
    requires Edge(mods, id, to) && AllLoaded(mods, id, mods[id], cache)
    ensures to in cache
  {
    hide Normalize;
  }

  lemma {:induction false} RunCompletes(mods: Modules, st: State, id: string, ops: seq<Op>)
    ensures var (end, r) := RunOps(mods, st, id, ops);
      Complete(mods, st, end) && (r.Ok? ==> AllLoaded(mods, id, ops, end.cache))
    decreases |mods.Keys - st.cache|, 2, |ops|
  {
    hide Load, RunOps, Register, Normalize, Edge;
    if ops == [] {
      RunNothing(mods, st, id);
    } else {
      RunStep(mods, st, id, ops);
      assert forall op | op in ops :: op == ops[0] || op in ops[1..];
      match ops[0]
      case Require(specifier, catches) =>
        LoadCompletes(mods, st, id, specifier);
        var (next, r) := Load(mods, st, id, specifier);
        if r.Ok? || catches {
          FewerLeft(mods.Keys, st.cache, next.cache);
          RunCompletes(mods, next, id, ops[1..]);
        }
      case RegisterApi(name, isFunction) =>
        if Register(st, name, isFunction).Ok? {
          RegisterKeepsCache(st, name, isFunction);
          RunCompletes(mods, Register(st, name, isFunction).value, id, ops[1..]);
        }
      case Use(isFunction) =>
        if isFunction {
          RunCompletes(mods, st.(middlewares := st.middlewares + 1), id, ops[1..]);
        }
      case Throw(_) =>
    }
  }

  /** No body catches what `require` throws. */
  ghost predicate NothingCaught(mods: Modules) {
    forall id | id in mods :: NoneCatches(mods[id])
  }

  predicate NoneCatches(ops: seq<Op>) {
    forall op | op in ops && op.Require? :: !op.catches
  }

  /** Then a load that succeeds leaves no body behind that threw. */
  lemma {:induction false} LoadBreaksNothing(mods: Modules, st: State, parent: string, specifier: string)
    requires NothingCaught(mods) && Load(mods, st, parent, specifier).1.Ok?
    ensures Load(mods, st, parent, specifier).0.broken == st.broken
    decreases |mods.Keys - st.cache|, 1, 0
  {
    hide RunOps, Normalize, NoneCatches;
    NormalizeFinds(parent, specifier, mods.Keys);
    var id := Normalize(parent, specifier, mods.Keys).value;
    if id !in st.cache {
      var started := st.(cache := st.cache + {id}, ran := st.ran + [id]);
      Shrinks(mods.Keys, st.cache, started.cache, id);
      RunBreaksNothing(mods, started, id, mods[id]);
    }
  }

  lemma {:induction false} RunBreaksNothing(mods: Modules, st: State, id: string, ops: seq<Op>)
    requires NothingCaught(mods) && NoneCatches(ops) && RunOps(mods, st, id, ops).1.Ok?
    ensures RunOps(mods, st, id, ops).0.broken == st.broken
    decreases |mods.Keys - st.cache|, 2, |ops|
  {
    hide Load, RunOps, Register, Normalize, NothingCaught;
    if ops == [] {
      RunNothing(mods, st, id);
    } else {
      RunStep(mods, st, id, ops);
      match ops[0]
      case Require(specifier, _) =>
        LoadBreaksNothing(mods, st, id, specifier);
        var next := Load(mods, st, id, specifier).0;
        FewerLeft(mods.Keys, st.cache, next.cache);
        RunBreaksNothing(mods, next, id, ops[1..]);
      case RegisterApi(name, isFunction) =>
        RegisterKeepsCache(st, name, isFunction);
        RunBreaksNothing(mods, Register(st, name, isFunction).value, id, ops[1..]);
      case Use(isFunction) =>
        RunBreaksNothing(mods, st.(middlewares := st.middlewares + 1), id, ops[1..]);
      case Throw(_) =>
    }
  }

  /** A path on which every module that requires the next one has run to its end. */
  ghost predicate RanThrough(mods: Modules, path: seq<string>, broken: set<string>) {
    IsPath(mods, path) && forall i | 0 <= i < |path| - 1 :: path[i] !in broken
  }

  lemma {:induction false} PathStaysLoaded(path: seq<string>, cache: set<string>)
    requires path != [] && path[0] in cache
    requires forall i | 0 <= i < |path| - 1 :: path[i] in cache ==> path[i + 1] in cache
    ensures path[|path| - 1] in cache
    decreases |path|
  {
    if |path| > 1 {
      PathStaysLoaded(path[1..], cache);
    }
  }

  /** Every module whose body threw has its requirements loaded all the same. */
  ghost predicate BrokenAreServed(mods: Modules, st: State) {
    forall id, to | id in st.broken && Edge(mods, id, to) :: to in st.cache
  }

  ghost predicate AllReachableLoaded(mods: Modules, st: State) {
    forall id | Reaches(mods, "index", id) :: id in st.cache
  }

  lemma ServedIff(mods: Modules, st: State)
    requires Complete(mods, EMPTY, st) && "index" in st.cache && Consistent(st) && OnlyReachable(mods, "index", {}, st.cache)
    ensures AllReachableLoaded(mods, st) <==> BrokenAreServed(mods, st)
  {
    hide Edge;
    if AllReachableLoaded(mods, st) {
      forall id, to | id in st.broken && Edge(mods, id, to) ensures to in st.cache {
        ReachesNext(mods, "index", id, to);
      }
    }
    if BrokenAreServed(mods, st) {
      forall id | Reaches(mods, "index", id) ensures id in st.cache {
        var path :| IsPath(mods, path) && path[0] == "index" && path[|path| - 1] == id;
        PathStaysLoaded(path, st.cache);
      }
    }
  }

  /** The entry id, as `require` resolves it. */
  lemma EntryResolves(mods: Modules)
    ensures Normalize("index", "index", mods.Keys) ==
            if "index" in mods then Ok("index") else Err(ModuleNotFound("index"))
  {
    hide Text.Split;
    Text.SplitNone("index", '/');
    assert Move([], ["index"]) == Some(["index"]) by {
      assert ["index"][1..] == [] && [] + ["index"] == ["index"];
    }
    NoScheme();
    assert "index"[2..] == "dex" && !Text.EndsWith("index", ".js");
  }

  lemma StepContains(s: string, needle: string, next: string)
    requires s != "" && needle != "" && s[0] != needle[0] && s[1..] == next
    ensures Text.Contains(s, needle) == Text.Contains(next, needle)
  {
  }

  lemma NoScheme()
    ensures !IsRefused("index")
  {
    hide Text.Contains;
    StepContains("index", "://", "ndex");
    StepContains("ndex", "://", "dex");
    StepContains("dex", "://", "ex");
    StepContains("ex", "://", "x");
    StepContains("x", "://", "");
    NothingContained("://");
  }

  lemma NothingContained(needle: string)
    requires needle != ""
    ensures !Text.Contains("", needle)
  {
  }

  /**
    Whatever the modules, only those reachable from the entry are loaded. When loading succeeds, all those are that can
    be reached past bodies that did not throw; and all reachable ones, exactly if those that threw, and were caught, had
    their requirements loaded. If no body catches what `require` throws, none threw.
   */
  lemma LoadsExactlyTheReachable(mods: Modules)
    ensures var (st, r) := LoadEntry(mods);
      && OnlyReachable(mods, "index", {}, st.cache)
      && (r.Ok? ==> forall path | RanThrough(mods, path, st.broken) && path[0] == "index" :: path[|path| - 1] in st.cache)
      && (r.Ok? ==> (AllReachableLoaded(mods, st) <==> BrokenAreServed(mods, st)))
      && (r.Ok? && NothingCaught(mods) ==> st.broken == {} && AllReachableLoaded(mods, st))
  {
    hide Load, Normalize, Edge, NothingCaught, Reaches;
    EntryResolves(mods);
    ReachesSelf(mods, "index");
    LoadReaches(mods, EMPTY, "index", "index", "index");
    LoadConsistent(mods, EMPTY, "index", "index");
    var (st, r) := LoadEntry(mods);
    if r.Ok? {
      LoadCompletes(mods, EMPTY, "index", "index");
      ServedIff(mods, st);
      if NothingCaught(mods) {
        LoadBreaksNothing(mods, EMPTY, "index", "index");
      }
      forall path | RanThrough(mods, path, st.broken) && path[0] == "index" ensures path[|path| - 1] in st.cache {
        assert forall i | 0 <= i < |path| - 1 :: Edge(mods, path[i], path[i + 1]);
        PathStaysLoaded(path, st.cache);
      }
    }
  }

  lemma LetterResolves(parent: string, c: char, modules: set<string>)
    requires 'a' <= c <= 'z' && [c] in modules
    ensures Normalize(parent, [c], modules) == Ok([c])
  {
    hide Text.Split, Text.Contains;
    StepContains([c], "://", "");
    NothingContained("://");
    Text.SplitNone([c], '/');
    assert Move([], [[c]]) == Some([[c]]) by {
      assert [[c]][1..] == [] && [] + [[c]] == [[c]];
    }
  }

  const CATCHER: Modules := map["index" := [Require("a", true)], "a" := [Throw("stop"), Require("b", false)], "b" := []]

  /** Entry `index` catches that `a` throws before it requires `b`: loading succeeds, and `b` is reachable but not loaded. */
  lemma CaughtFailureSkips()
    ensures var (st, r) := LoadEntry(CATCHER);
      r.Ok? && st.broken == {"a"} && st.cache == {"index", "a"} && Reaches(CATCHER, "index", "b")
  {
    hide Normalize, Reaches, RunOps, Edge;
    assert "index" in CATCHER && "a" in CATCHER && "b" in CATCHER;
    EntryResolves(CATCHER);
    assert ['a'] == "a" && ['b'] == "b";
    LetterResolves("index", 'a', CATCHER.Keys);
    LetterResolves("a", 'b', CATCHER.Keys);
    assert EMPTY.(cache := EMPTY.cache + {"index"}, ran := EMPTY.ran + ["index"]) == State({"index"}, ["index"], {}, [], 0);
    CatcherRuns();
    CatcherEdges();
    ReachesSelf(CATCHER, "index");
    ReachesNext(CATCHER, "index", "index", "a");
    ReachesNext(CATCHER, "index", "a", "b");
  }

  lemma CatcherEdges()
    requires Normalize("index", "a", CATCHER.Keys) == Ok("a") && Normalize("a", "b", CATCHER.Keys) == Ok("b")
    ensures Edge(CATCHER, "index", "a") && Edge(CATCHER, "a", "b")
  {
    hide Normalize;
    assert CATCHER["index"][0] == Require("a", true) && CATCHER["a"][1] == Require("b", false);
  }

  lemma CatcherRuns()
    requires Normalize("index", "a", CATCHER.Keys) == Ok("a")
    ensures var (st, r) := RunOps(CATCHER, State({"index"}, ["index"], {}, [], 0), "index", CATCHER["index"]);
      r.Ok? && st.broken == {"a"} && st.cache == {"index", "a"}
  {
    hide Normalize, RunOps;
    var st := State({"index"}, ["index"], {}, [], 0);
    RunStep(CATCHER, st, "index", CATCHER["index"]);
    var inner := State({"index"} + {"a"}, ["index"] + ["a"], {}, [], 0);
    RunStep(CATCHER, inner, "a", CATCHER["a"]);
    var next := Load(CATCHER, st, "index", "a").0;
    RunNothing(CATCHER, next, "index");
    assert CATCHER["index"][1..] == [];
  }
}
