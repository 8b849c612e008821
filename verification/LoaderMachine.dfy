/** Loading as one loop over a stack of started bodies, and the recursive loader as the same. */
module LoaderMachine {
  import opened Wrappers
  import opened ModulePath
  import opened Loader

  /** A started body with what it has left to do, and whether the `require` that started it stands in a try block. */
  datatype Frame = Frame(id: string, ops: seq<Op>, catches: bool)

  /** The loader, the bodies under way, the innermost last, and the error that is looking for a try block. */
  datatype Machine = Machine(st: State, stack: seq<Frame>, thrown: Option<LoadError>)

  function Top(m: Machine): Frame
    requires m.stack != []
  {
    m.stack[|m.stack| - 1]
  }

  function Below(m: Machine): seq<Frame>
    requires m.stack != []
  {
    m.stack[..|m.stack| - 1]
  }

  /** The body on top goes on behind its operation. */
  function Proceed(m: Machine, st: State): Machine
    requires m.stack != [] && Top(m).ops != []
  {
    Machine(st, Below(m) + [Top(m).(ops := Top(m).ops[1..])], None)
  }

  /** An error leaves the body on top, which is broken, and stops where its `require` stands in a try block. */
  function Leave(m: Machine, e: LoadError): Machine
    requires m.stack != []
  {
    Machine(m.st.(broken := m.st.broken + {Top(m).id}), Below(m), if Top(m).catches then None else Some(e))
  }

  function Required(mods: Modules, m: Machine, specifier: string, catches: bool): Machine
    requires m.stack != [] && Top(m).ops != []
  {
    var found := Normalize(Top(m).id, specifier, mods.Keys);
    if found.Err? then (if catches then Proceed(m, m.st) else Leave(m, Path(found.error)))
    else if found.value in m.st.cache then Proceed(m, m.st)
    else
      var st := m.st.(cache := m.st.cache + {found.value}, ran := m.st.ran + [found.value]);
      Machine(st, Proceed(m, st).stack + [Frame(found.value, mods[found.value], catches)], None)
  }

  /** One turn of the loop. */
  function Turn(mods: Modules, m: Machine): Machine
    requires m.stack != []
  {
    var top := Top(m);
    if m.thrown.Some? then Leave(m, m.thrown.value)
    else if top.ops == [] then m.(stack := Below(m))
    else match top.ops[0]
      case Require(specifier, catches) => Required(mods, m, specifier, catches)
      case RegisterApi(name, isFunction) =>
        if name != "" && isFunction && name !in m.st.apis then Proceed(m, m.st.(apis := m.st.apis + [name]))
        else Leave(m, if name == "" then EmptyApiName else if !isFunction then HandlerNotFunction(name) else DuplicateApi(name))
      case Use(isFunction) =>
        if isFunction then Proceed(m, m.st.(middlewares := m.st.middlewares + 1)) else Leave(m, MiddlewareNotFunction)
      case Throw(message) => Leave(m, Thrown(message))
  }

  function Remaining(stack: seq<Frame>): nat
    decreases |stack|
  {
    if stack == [] then 0 else Remaining(stack[..|stack| - 1]) + 1 + |stack[|stack| - 1].ops|
  }

  lemma RemainingLast(below: seq<Frame>, top: Frame)
    ensures Remaining(below + [top]) == Remaining(below) + 1 + |top.ops|
  {
    assert (below + [top])[..|below|] == below;
  }

  lemma TurnShrinks(mods: Modules, m: Machine)
    requires m.stack != []
    ensures var next := Turn(mods, m);
      && |mods.Keys - next.st.cache| <= |mods.Keys - m.st.cache|
      && (|mods.Keys - next.st.cache| == |mods.Keys - m.st.cache| ==> Remaining(next.stack) < Remaining(m.stack))
  {
    hide *;
    StackSplits(m);
    RemainingLast(Below(m), Top(m));
    LeaveShrinks(m);
    ProceedShrinks(m);
    if Top(m).ops != [] && Top(m).ops[0].Require? {
      RequireShrinks(mods, m, Top(m).ops[0].specifier, Top(m).ops[0].catches);
    }
    OneOf(mods, m);
  }

  lemma OneOf(mods: Modules, m: Machine)
    requires m.stack != []
    ensures var next := Turn(mods, m);
      || (exists e :: next == Leave(m, e))
      || next == m.(stack := Below(m))
      || (Top(m).ops != [] && Top(m).ops[0].Require? && next == Required(mods, m, Top(m).ops[0].specifier, Top(m).ops[0].catches))
      || (Top(m).ops != [] && exists st: State :: st.cache == m.st.cache && next == Proceed(m, st))
  {
    hide Required, Proceed, Leave, Top, Below;
  }

  lemma LeaveShrinks(m: Machine)
    requires m.stack != []
    ensures forall e :: Leave(m, e).st.cache == m.st.cache && Remaining(Leave(m, e).stack) < Remaining(m.stack)
  {
    hide Remaining;
    StackSplits(m);
    RemainingLast(Below(m), Top(m));
  }

  lemma ProceedShrinks(m: Machine)
    requires m.stack != []
    ensures Top(m).ops != [] ==> forall st :: Proceed(m, st).st == st && Remaining(Proceed(m, st).stack) < Remaining(m.stack)
  {
    hide Remaining;
    StackSplits(m);
    RemainingLast(Below(m), Top(m));
    if Top(m).ops != [] {
      RemainingLast(Below(m), Top(m).(ops := Top(m).ops[1..]));
    }
  }

  lemma StackSplits(m: Machine)
    requires m.stack != []
    ensures m.stack == Below(m) + [Top(m)]
  {
  }

  lemma RequireShrinks(mods: Modules, m: Machine, specifier: string, catches: bool)
    requires m.stack != [] && Top(m).ops != []
    ensures var next := Required(mods, m, specifier, catches);
      && |mods.Keys - next.st.cache| <= |mods.Keys - m.st.cache|
      && (|mods.Keys - next.st.cache| == |mods.Keys - m.st.cache| ==> Remaining(next.stack) < Remaining(m.stack))
  {
    hide Normalize, Remaining, Proceed, Leave, Top, Below;
    LeaveShrinks(m);
    ProceedShrinks(m);
    NormalizeFinds(Top(m).id, specifier, mods.Keys);
    var found := Normalize(Top(m).id, specifier, mods.Keys);
    if found.Ok? && found.value !in m.st.cache {
      Shrinks(mods.Keys, m.st.cache, m.st.cache + {found.value}, found.value);
    }
  }

  /** The loop, until no body is under way. */
  function Loop(mods: Modules, m: Machine): (State, Option<LoadError>)
    decreases |mods.Keys - m.st.cache|, Remaining(m.stack)
  {
    hide Turn, Remaining;
    if m.stack == [] then (m.st, m.thrown) else
    TurnShrinks(mods, m);
    Loop(mods, Turn(mods, m))
  }

  lemma LoopTurn(mods: Modules, m: Machine)
    requires m.stack != []
    ensures Loop(mods, m) == Loop(mods, Turn(mods, m))
  {
    hide Turn;
  }

  lemma TopOf(below: seq<Frame>, top: Frame, st: State, thrown: Option<LoadError>)
    ensures var m := Machine(st, below + [top], thrown);
      Top(m) == top && Below(m) == below
  {
  }

  /** The machine when a body has run to its end, or thrown. */
  function Ended(st: State, frame: Frame, below: seq<Frame>, r: Result<(), LoadError>): Machine {
    match r
    case Ok(_) => Machine(st, below, None)
    case Err(e) => Machine(st.(broken := st.broken + {frame.id}), below, if frame.catches then None else Some(e))
  }

  /** One turn of a body that is no `require` of a new module. */
  lemma PlainTurn(mods: Modules, st: State, frame: Frame, below: seq<Frame>)
    ensures var m := Machine(st, below + [frame], None);
      var rest := if frame.ops == [] then frame else frame.(ops := frame.ops[1..]);
      && (frame.ops == [] ==> Turn(mods, m) == Machine(st, below, None))
      && (frame.ops != [] ==>
            match frame.ops[0]
            case Require(specifier, catches) =>
              (var found := Normalize(frame.id, specifier, mods.Keys);
               match found
               case Err(e) =>
                 Turn(mods, m) == if catches then Machine(st, below + [rest], None) else Ended(st, frame, below, Err(Path(e)))
               case Ok(id) =>
                 Turn(mods, m) ==
                 if id in st.cache then Machine(st, below + [rest], None)
                 else Machine(st.(cache := st.cache + {id}, ran := st.ran + [id]), below + [rest] + [Frame(id, mods[id], catches)], None))
            case RegisterApi(name, isFunction) =>
              (match Register(st, name, isFunction)
               case Err(e) => Turn(mods, m) == Ended(st, frame, below, Err(e))
               case Ok(next) => Turn(mods, m) == Machine(next, below + [rest], None))
            case Use(isFunction) =>
              Turn(mods, m) ==
              if isFunction then Machine(st.(middlewares := st.middlewares + 1), below + [rest], None)
              else Ended(st, frame, below, Err(MiddlewareNotFunction))
            case Throw(message) => Turn(mods, m) == Ended(st, frame, below, Err(Thrown(message))))
  {
    hide Normalize;
    TopOf(below, frame, st, None);
    if frame.ops != [] && frame.ops[0].Require? {
      NormalizeFinds(frame.id, frame.ops[0].specifier, mods.Keys);
    }
  }

  lemma ThrownTurn(mods: Modules, st: State, frame: Frame, below: seq<Frame>, e: LoadError)
    ensures Turn(mods, Machine(st, below + [frame], Some(e))) == Ended(st, frame, below, Err(e))
  {
    TopOf(below, frame, st, Some(e));
  }

  /** The loop takes a body to the state in which the recursion ends it, whatever is below it. */
  lemma {:induction false} LoopIsBody(mods: Modules, st: State, frame: Frame, below: seq<Frame>)
    ensures var (end, r) := RunOps(mods, st, frame.id, frame.ops);
      Loop(mods, Machine(st, below + [frame], None)) == Loop(mods, Ended(end, frame, below, r))
    decreases |mods.Keys - st.cache|, |frame.ops|
  {
    hide RunOps, Load, Turn, Loop, Normalize, Register, Ended;
    var m := Machine(st, below + [frame], None);
    LoopTurn(mods, m);
    PlainTurn(mods, st, frame, below);
    if frame.ops == [] {
      RunNothing(mods, st, frame.id);
      EndedWell(st, frame, below);
    } else {
      var rest := frame.(ops := frame.ops[1..]);
      RunStep(mods, st, frame.id, frame.ops);
      match frame.ops[0]
      case Require(specifier, catches) =>
        LoopIsRequire(mods, st, frame, below);
      case RegisterApi(name, isFunction) =>
        var r := Register(st, name, isFunction);
        if r.Ok? {
          RegisterKeepsCache(st, name, isFunction);
          LoopIsBody(mods, r.value, rest, below);
          SameEnd(frame, rest, below);
        }
      case Use(isFunction) =>
        if isFunction {
          LoopIsBody(mods, st.(middlewares := st.middlewares + 1), rest, below);
          SameEnd(frame, rest, below);
        }
      case Throw(_) =>
    }
  }

  lemma EndedWell(st: State, frame: Frame, below: seq<Frame>)
    ensures Ended(st, frame, below, Ok(())) == Machine(st, below, None)
  {
  }

  lemma SameEnd(frame: Frame, rest: Frame, below: seq<Frame>)
    requires rest.id == frame.id && rest.catches == frame.catches
    ensures forall st, r :: Ended(st, rest, below, r) == Ended(st, frame, below, r)
  {
  }

  lemma {:induction false} LoopIsRequire(mods: Modules, st: State, frame: Frame, below: seq<Frame>)
    requires frame.ops != [] && frame.ops[0].Require?
    ensures var (end, r) := RunOps(mods, st, frame.id, frame.ops);
      Loop(mods, Machine(st, below + [frame], None)) == Loop(mods, Ended(end, frame, below, r))
    decreases |mods.Keys - st.cache|, |frame.ops|, 0
  {
    hide RunOps, Load, Turn, Loop, Normalize, Ended;
    var specifier, catches, rest := frame.ops[0].specifier, frame.ops[0].catches, frame.(ops := frame.ops[1..]);
    var m := Machine(st, below + [frame], None);
    LoopTurn(mods, m);
    PlainTurn(mods, st, frame, below);
    RunStep(mods, st, frame.id, frame.ops);
    SameEnd(frame, rest, below);
    LoadIs(mods, st, frame.id, specifier);
    var found := Normalize(frame.id, specifier, mods.Keys);
    if found.Err? || found.value in st.cache {
      if found.Ok? || catches {
        LoopIsBody(mods, st, rest, below);
      }
    } else {
      var id := found.value;
      NormalizeFinds(frame.id, specifier, mods.Keys);
      var started, inner := st.(cache := st.cache + {id}, ran := st.ran + [id]), Frame(id, mods[id], catches);
      Shrinks(mods.Keys, st.cache, started.cache, id);
      LoopIsBody(mods, started, inner, below + [rest]);
      var (end, r) := RunOps(mods, started, id, mods[id]);
      EndedIs(end, inner, below + [rest], r);
      var next := if r.Ok? then end else end.(broken := end.broken + {id});
      FewerLeft(mods.Keys, started.cache, next.cache);
      if r.Ok? || catches {
        LoopIsBody(mods, next, rest, below);
      } else {
        LoopTurn(mods, Machine(next, below + [rest], Some(r.error)));
        ThrownTurn(mods, next, rest, below, r.error);
      }
    }
  }

  lemma EndedIs(st: State, frame: Frame, below: seq<Frame>, r: Result<(), LoadError>)
    ensures Ended(st, frame, below, r) ==
            Machine(if r.Ok? then st else st.(broken := st.broken + {frame.id}), below,
                    if r.Ok? || frame.catches then None else Some(r.error))
  {
  }

  lemma LoadIs(mods: Modules, st: State, parent: string, specifier: string)
    ensures var found := Normalize(parent, specifier, mods.Keys);
      if found.Err? then Load(mods, st, parent, specifier) == (st, Err(Path(found.error)))
      else if found.value in st.cache then Load(mods, st, parent, specifier) == (st, Ok(found.value))
      else
        && found.value in mods
        && var started := st.(cache := st.cache + {found.value}, ran := st.ran + [found.value]);
           var (end, r) := RunOps(mods, started, found.value, mods[found.value]);
           Load(mods, st, parent, specifier) ==
           if r.Ok? then (end, Ok(found.value)) else (end.(broken := end.broken + {found.value}), Err(r.error))
  {
    hide RunOps, Normalize;
    NormalizeFinds(parent, specifier, mods.Keys);
  }

  /**
    On every set of modules, cyclic ones and throwing bodies too, a recursive `require` does what the loop does: the
    same bodies in the same order, the same registrations, the same body where an error is caught, the same answer.
   */
  lemma LoadIsLoop(mods: Modules, st: State, parent: string, specifier: string)
    ensures var (end, answer) := Load(mods, st, parent, specifier);
      match Normalize(parent, specifier, mods.Keys)
      case Err(e) => end == st && answer == Err(Path(e))
      case Ok(id) =>
        if id in st.cache then end == st && answer == Ok(id)
        else
          && id in mods
          && var started := Machine(st.(cache := st.cache + {id}, ran := st.ran + [id]), [Frame(id, mods[id], false)], None);
             var (last, thrown) := Loop(mods, started);
             end == last && answer == if thrown.Some? then Err(thrown.value) else Ok(id)
  {
    hide RunOps, Load, Turn, Loop, Normalize, Ended;
    LoadIs(mods, st, parent, specifier);
    var found := Normalize(parent, specifier, mods.Keys);
    if found.Ok? && found.value !in st.cache {
      var id := found.value;
      var started, frame := st.(cache := st.cache + {id}, ran := st.ran + [id]), Frame(id, mods[id], false);
      assert [] + [frame] == [frame];
      LoopIsBody(mods, started, frame, []);
      var (end, r) := RunOps(mods, started, id, mods[id]);
      EndedIs(end, frame, [], r);
      LoopEnds(mods, Ended(end, frame, [], r));
    }
  }

  lemma LoopEnds(mods: Modules, m: Machine)
    requires m.stack == []
    ensures Loop(mods, m) == (m.st, m.thrown)
  {
    hide Turn;
  }
}
