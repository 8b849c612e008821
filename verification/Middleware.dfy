/** The onion of middlewares around an API handler: `dispatch` and `next` with their two guards. */
module Middleware {

  datatype Value = Undefined | Defined(value: string)

  /** Both guards throw the same message; the model keeps them apart. */
  datatype Error = CalledTwice | PositionReused | Thrown(message: string)

  datatype Outcome = Resolved(value: Value) | Rejected(error: Error)

  /** What an asynchronous middleware does, in order; `AwaitNext(true)` is an await inside a try block. */
  datatype Step =
    | Emit(what: string)
    | AwaitNext(catches: bool)
    | Return(value: Value)
    | ReturnNext
    | Throw(message: string)

  datatype SyncEnd = Give(value: Value) | GiveNext | ThrowNow(message: string)

  /** A middleware; `Absent` is a value that is not truthy, which `dispatch` passes over. */
  datatype Body = Async(steps: seq<Step>) | Sync(emits: seq<string>, end: SyncEnd) | Absent

  datatype Handler =
    | AsyncHandler(emits: seq<string>, outcome: Outcome)
    | SyncHandler(emits: seq<string>, outcome: Outcome)
    | NoHandler

  /**
    `Exit` is the end of a body's own result: for an asynchronous body its return, for a synchronous one that returns
    `next()` the moment when the promise it handed on settles, although the function itself returned before.
   */
  datatype Event = Enter(position: nat) | Said(position: nat, what: string) | Exit(position: nat)

  /**
    One `dispatch`: its trace, how its promise settles, whether it threw instead of returning one, and how many
    positions it reached.
   */
  datatype Run = Run(trace: seq<Event>, outcome: Outcome, thrown: bool, reached: nat)

  /** A body's own result, and whether it called `next`. */
  datatype Ran = Ran(trace: seq<Event>, outcome: Outcome, called: bool)

  function Says(p: nat, emits: seq<string>): (trace: seq<Event>)
    ensures |trace| == |emits|
    ensures forall i | 0 <= i < |trace| :: trace[i] == Said(p, emits[i])
  {
    seq(|emits|, i requires 0 <= i < |emits| => Said(p, emits[i]))
  }

  // ----- the fold -----

  /** An asynchronous body at `p` around `down`, the one thing `next` can run. */
  function RunSteps(p: nat, steps: seq<Step>, called: bool, seen: Value, down: Run): Ran
    decreases |steps|, 0
  {
    if steps == [] then Ran([], Resolved(Undefined), called)
    else StepThen(p, steps[0], steps[1..], called, seen, down)
  }

  /** One step, and then the rest of the body. */
  function StepThen(p: nat, step: Step, rest: seq<Step>, called: bool, seen: Value, down: Run): Ran
    decreases |rest|, 1
  {
    match step
    case Emit(what) => Before([Said(p, what)], RunSteps(p, rest, called, seen, down))
    case AwaitNext(catches) =>
      if called then
        if catches then RunSteps(p, rest, true, seen, down) else Ran([], Rejected(CalledTwice), true)
      else if down.outcome.Resolved? then
        Before(down.trace, RunSteps(p, rest, true, down.outcome.value, down))
      else if catches then Before(down.trace, RunSteps(p, rest, true, seen, down))
      else Ran(down.trace, down.outcome, true)
    case Return(value) => Ran([], Resolved(value), called)
    case ReturnNext => Ran([], Resolved(seen), called)
    case Throw(message) => Ran([], Rejected(Thrown(message)), called)
  }

  function Before(trace: seq<Event>, r: Ran): Ran {
    r.(trace := trace + r.trace)
  }

  /** The body's own part of a dispatch at `p`. */
  function OwnRun(p: nat, body: Body, down: Run): Ran {
    match body
    case Absent => Ran([], Resolved(Undefined), false)
    case Async(steps) => RunSteps(p, steps, false, Undefined, down)
    case Sync(emits, Give(value)) => Ran(Says(p, emits), Resolved(value), false)
    case Sync(emits, GiveNext) => Ran(Says(p, emits) + down.trace, down.outcome, true)
    case Sync(emits, ThrowNow(message)) => Ran(Says(p, emits), Rejected(Thrown(message)), false)
  }

  /** A synchronous body that throws, or whose `next` throws, throws out of `dispatch`. */
  predicate ThrowsNow(body: Body, down: Run) {
    body.Sync? && (body.end.ThrowNow? || (body.end.GiveNext? && down.thrown))
  }

  /** What an undefined result is replaced by: the promise that `next` returned, if it returned one. */
  function NextResult(called: bool, down: Run): Outcome {
    if called && !down.thrown then down.outcome else Resolved(Undefined)
  }

  function Settle(own: Ran, down: Run): Outcome {
    if own.outcome == Resolved(Undefined) then NextResult(own.called, down) else own.outcome
  }

  function Wrap(p: nat, body: Body, down: Run): Run {
    var own := OwnRun(p, body, down);
    Run(if body.Absent? then [] else [Enter(p)] + own.trace + [Exit(p)],
        if ThrowsNow(body, down) then own.outcome else Settle(own, down),
        ThrowsNow(body, down),
        1 + if own.called then down.reached else 0)
  }

  function Handle(p: nat, handler: Handler): (r: Run)
    ensures r.reached == 1
  {
    match handler
    case NoHandler => Run([], Resolved(Undefined), false, 1)
    case AsyncHandler(emits, outcome) => Run([Enter(p)] + Says(p, emits) + [Exit(p)], outcome, false, 1)
    case SyncHandler(emits, outcome) => Run([Enter(p)] + Says(p, emits) + [Exit(p)], outcome, outcome.Rejected?, 1)
  }

  /** The right fold of the chain, from position `p` inwards. It has no guard on positions. */
  function Fold(chain: seq<Body>, handler: Handler, p: nat): Run
    requires p <= |chain|
    decreases |chain| - p
  {
    if p == |chain| then Handle(p, handler) else Wrap(p, chain[p], Fold(chain, handler, p + 1))
  }

  lemma FoldStep(chain: seq<Body>, handler: Handler, p: nat)
    requires p < |chain|
    ensures Fold(chain, handler, p) == Wrap(p, chain[p], Fold(chain, handler, p + 1))
  {
    hide RunSteps;
  }

  lemma StepsOnce(p: nat, steps: seq<Step>, called: bool, seen: Value, down: Run)
    ensures RunSteps(p, steps, called, seen, down) ==
            if steps == [] then Ran([], Resolved(Undefined), called)
            else StepThen(p, steps[0], steps[1..], called, seen, down)
  {
    hide StepThen;
  }

  lemma FoldEnd(chain: seq<Body>, handler: Handler)
    ensures Fold(chain, handler, |chain|) == Handle(|chain|, handler)
  {
    hide Wrap, Handle;
  }

  lemma WrapAbsent(p: nat, down: Run)
    ensures Wrap(p, Absent, down) == Run([], Resolved(Undefined), false, 1)
  {
  }

  lemma WrapAsync(p: nat, steps: seq<Step>, down: Run)
    ensures var own := RunSteps(p, steps, false, Undefined, down);
      Wrap(p, Async(steps), down) ==
      Run([Enter(p)] + own.trace + [Exit(p)], Settle(own, down), false, 1 + if own.called then down.reached else 0)
  {
    hide RunSteps;
  }

  // ----- the dispatcher -----

  class Dispatcher {
    const chain: seq<Body>
    const handler: Handler
    var index: int
    var trace: seq<Event>

    constructor (chain: seq<Body>, handler: Handler)
      ensures this.chain == chain && this.handler == handler && index == -1 && trace == []
    {
      this.chain := chain;
      this.handler := handler;
      index := -1;
      trace := [];
    }

    method Dispatch(position: nat) returns (outcome: Outcome, thrown: bool)
      requires position <= |chain|
      modifies this
      ensures position <= old(index) ==> outcome == Rejected(PositionReused) && thrown && index == old(index) && trace == old(trace)
      ensures var run := Fold(chain, handler, position);
        position > old(index) ==>
        outcome == run.outcome && thrown == run.thrown && trace == old(trace) + run.trace && index == position + run.reached - 1
      decreases |chain| - position
    {
      hide RunSteps, Fold, Wrap, Handle;
      if position <= index {
        return Rejected(PositionReused), true;
      }
      index := position;
      if position == |chain| {
        FoldEnd(chain, handler);
        outcome, thrown := CallHandler();
        return;
      }
      ghost var down := Fold(chain, handler, position + 1);
      match chain[position] {
        case Absent =>
          FoldStep(chain, handler, position);
          WrapAbsent(position, down);
          return Resolved(Undefined), false;
        case Async(steps) =>
          outcome := RunAsync(position, steps);
          FoldStep(chain, handler, position);
          WrapAsync(position, steps, down);
          return outcome, false;
        case Sync(emits, end) =>
          outcome, thrown := RunSync(position, emits, end);
      }
    }

    method RunSync(position: nat, emits: seq<string>, end: SyncEnd) returns (outcome: Outcome, thrown: bool)
      requires position < |chain| && index == position && chain[position] == Sync(emits, end)
      modifies this
      ensures var run := Fold(chain, handler, position);
        outcome == run.outcome && thrown == run.thrown && trace == old(trace) + run.trace && index == position + run.reached - 1
      decreases |chain| - position, 0
    {
      hide RunSteps, Fold;
      FoldStep(chain, handler, position);
      trace := trace + [Enter(position)];
      trace := trace + Says(position, emits);
      match end {
        case Give(value) =>
          outcome, thrown := Resolved(value), false;
        case GiveNext =>
          outcome, thrown := Dispatch(position + 1);
          // an undefined result is replaced by the result of `next`, which is undefined too
        case ThrowNow(message) =>
          outcome, thrown := Rejected(Thrown(message)), true;
      }
      ghost var down := Fold(chain, handler, position + 1);
      trace := trace + [Exit(position)];
      assert trace == old(trace) + ([Enter(position)] + OwnRun(position, chain[position], down).trace + [Exit(position)]);
    }

    method CallHandler() returns (outcome: Outcome, thrown: bool)
      modifies this`trace
      ensures var run := Handle(|chain|, handler);
        outcome == run.outcome && thrown == run.thrown && trace == old(trace) + run.trace
    {
      match handler {
        case NoHandler =>
          return Resolved(Undefined), false;
        case AsyncHandler(emits, result) =>
          trace := trace + ([Enter(|chain|)] + Says(|chain|, emits) + [Exit(|chain|)]);
          return result, false;
        case SyncHandler(emits, result) =>
          trace := trace + ([Enter(|chain|)] + Says(|chain|, emits) + [Exit(|chain|)]);
          return result, result.Rejected?;
      }
    }

    /** The first call of `next` at `position`; `nextResult` is assigned only if `dispatch` returns. */
    method CallNext(position: nat) returns (inner: Outcome, nextResult: Outcome)
      requires position < |chain| && index == position
      modifies this
      ensures var down := Fold(chain, handler, position + 1);
        && inner == down.outcome && nextResult == NextResult(true, down)
        && trace == old(trace) + down.trace && index == position + down.reached
      decreases |chain| - position, 0
    {
      hide Fold;
      var thrown;
      inner, thrown := Dispatch(position + 1);
      nextResult := Resolved(Undefined);
      if !thrown {
        nextResult := inner;
      }
    }

    /** The body of an asynchronous middleware and the continuation that picks its result. */
    method RunAsync(position: nat, steps: seq<Step>) returns (outcome: Outcome)
      requires position < |chain| && index == position && chain[position] == Async(steps)
      modifies this
      ensures var run := Fold(chain, handler, position);
        outcome == run.outcome && trace == old(trace) + run.trace && index == position + run.reached - 1
      decreases |chain| - position, 1
    {
      hide RunSteps, Fold, Wrap, OwnRun, NextResult, Before;
      FoldStep(chain, handler, position);
      ghost var down := Fold(chain, handler, position + 1);
      WrapAsync(position, steps, down);
      trace := trace + [Enter(position)];
      var called, nextResult, seen := false, Resolved(Undefined), Undefined;
      var own := Resolved(Undefined);
      ghost var all := RunSteps(position, steps, false, Undefined, down);
      assert steps[0..] == steps;
      NotCalled(down);
      BeforeNothing(all);
      ghost var said: seq<Event> := [];
      assert trace == old(trace) + [Enter(position)] + said;
      var i, ended := 0, false;
      while i < |steps| && !ended
        invariant 0 <= i <= |steps|
        invariant trace == old(trace) + [Enter(position)] + said
        invariant index == if called then position + down.reached else position
        invariant nextResult == NextResult(called, down)
        invariant !ended ==> all == Before(said, RunSteps(position, steps[i..], called, seen, down))
        invariant !ended ==> own == Resolved(Undefined)
        invariant ended ==> all == Ran(said, own, called)
        decreases |steps| - i, !ended
      {
        StepsOnce(position, steps[i..], called, seen, down);
        assert steps[i..][0] == steps[i] && steps[i..][1..] == steps[i + 1..];
        match steps[i] {
          case Emit(what) =>
            BeforeRest(said, [Said(position, what)], RunSteps(position, steps[i + 1..], called, seen, down));
            trace := trace + [Said(position, what)];
            said := said + [Said(position, what)];
          case AwaitNext(catches) =>
            if called {
              if !catches {
                own, ended := Rejected(CalledTwice), true;
                BeforeEnd(said, [], own, called);
              }
            } else {
              called := true;
              var inner;
              inner, nextResult := CallNext(position);
              ghost var before := said;
              said := said + down.trace;
              if inner.Resolved? {
                seen := inner.value;
              }
              if inner.Rejected? && !catches {
                own, ended := inner, true;
                BeforeEnd(before, down.trace, own, called);
              } else {
                BeforeRest(before, down.trace, RunSteps(position, steps[i + 1..], called, seen, down));
              }
            }
          case Return(value) =>
            own, ended := Resolved(value), true;
            BeforeEnd(said, [], own, called);
          case ReturnNext =>
            own, ended := Resolved(seen), true;
            BeforeEnd(said, [], own, called);
          case Throw(message) =>
            own, ended := Rejected(Thrown(message)), true;
            BeforeEnd(said, [], own, called);
        }
        i := i + 1;
      }
      if !ended {
        StepsOnce(position, [], called, seen, down);
        BeforeEnd(said, [], own, called);
      }
      trace := trace + [Exit(position)];
      if own != Resolved(Undefined) {
        return own;
      }
      NotCalled(down);
      return if called then nextResult else Resolved(Undefined);
    }
  }

  lemma NotCalled(down: Run)
    ensures NextResult(false, down) == Resolved(Undefined)
  {
  }

  lemma BeforeNothing(r: Ran)
    ensures Before([], r) == r
  {
    assert [] + r.trace == r.trace;
  }

  lemma BeforeRest(a: seq<Event>, b: seq<Event>, r: Ran)
    ensures Before(a, Before(b, r)) == Before(a + b, r)
  {
    assert a + (b + r.trace) == a + b + r.trace;
  }

  lemma BeforeEnd(a: seq<Event>, b: seq<Event>, outcome: Outcome, called: bool)
    ensures Before(a, Ran(b, outcome, called)) == Ran(a + b, outcome, called)
    ensures Before(a, Ran([], outcome, called)) == Ran(a, outcome, called)
  {
    assert a + [] == a;
  }

  method RunMiddlewareChain(chain: seq<Body>, handler: Handler) returns (outcome: Outcome, trace: seq<Event>)
    ensures outcome == Fold(chain, handler, 0).outcome && trace == Fold(chain, handler, 0).trace
  {
    var d := new Dispatcher(chain, handler);
    var thrown;
    outcome, thrown := d.Dispatch(0);
    trace := d.trace;
  }
}
