/** What every run of a middleware chain keeps. */
module MiddlewareLaws {
  import opened Middleware

  // ----- which positions run -----

  function Entered(trace: seq<Event>): seq<nat> {
    if trace == [] then []
    else (if trace[0].Enter? then [trace[0].position] else []) + Entered(trace[1..])
  }

  lemma EnteredStep(trace: seq<Event>)
    ensures trace == [] ==> Entered(trace) == []
    ensures trace != [] ==> Entered(trace) == (if trace[0].Enter? then [trace[0].position] else []) + Entered(trace[1..])
  {
  }

  lemma {:induction false} EnteredConcat(a: seq<Event>, b: seq<Event>)
    ensures Entered(a + b) == Entered(a) + Entered(b)
    decreases |a|
  {
    hide Entered;
    EnteredStep(a);
    EnteredStep(a + b);
    if a == [] {
      assert a + b == b;
    } else {
      assert (a + b)[1..] == a[1..] + b;
      EnteredConcat(a[1..], b);
    }
  }

  lemma {:induction false} SaysEnterNothing(p: nat, emits: seq<string>)
    ensures Entered(Says(p, emits)) == []
    decreases |emits|
  {
    if emits != [] {
      assert Says(p, emits)[1..] == Says(p, emits[1..]);
      SaysEnterNothing(p, emits[1..]);
    }
  }

  lemma EnteredWrapped(p: nat, inner: seq<Event>)
    ensures Entered([Enter(p)] + inner + [Exit(p)]) == [p] + Entered(inner)
  {
    var x: Event := Exit(p);
    EnteredConcat([Enter(p)] + inner, [x]);
    EnteredConcat([Enter(p)], inner);
    assert Entered([x]) == [] && Entered([Enter(p)]) == [p] by {
      assert [x][1..] == [] && [Enter(p)][1..] == [];
    }
  }

  lemma {:induction false} StepsEntered(p: nat, steps: seq<Step>, called: bool, seen: Value, down: Run)
    ensures var r := RunSteps(p, steps, called, seen, down);
      Entered(r.trace) == (if !called && r.called then Entered(down.trace) else []) && (called ==> r.called)
    decreases |steps|
  {
    hide RunSteps, Entered;
    StepsOnce(p, steps, called, seen, down);
    NothingEntered(p);
    if steps != [] {
      match steps[0]
      case Emit(what) =>
        var r := RunSteps(p, steps[1..], called, seen, down);
        StepsEntered(p, steps[1..], called, seen, down);
        SaidEnters(p, what);
        EnteredConcat([Said(p, what)], r.trace);
      case AwaitNext(catches) =>
        var got := if !called && down.outcome.Resolved? then down.outcome.value else seen;
        StepsEntered(p, steps[1..], true, got, down);
        EnteredConcat(down.trace, RunSteps(p, steps[1..], true, got, down).trace);
      case _ =>
    }
  }

  lemma NothingEntered(p: nat)
    ensures Entered([]) == []
  {
  }

  lemma SaidEnters(p: nat, what: string)
    ensures Entered([Said(p, what)]) == []
  {
    assert [Said(p, what)][1..] == [];
  }

  lemma OwnEntered(p: nat, body: Body, down: Run)
    ensures var own := OwnRun(p, body, down);
      Entered(own.trace) == if own.called then Entered(down.trace) else []
  {
    hide RunSteps, Entered;
    NothingEntered(p);
    match body
    case Absent =>
    case Async(steps) => StepsEntered(p, steps, false, Undefined, down);
    case Sync(emits, end) =>
      SaysEnterNothing(p, emits);
      EnteredConcat(Says(p, emits), down.trace);
  }

  /** Positions from `p`, in order, without a gap or a repetition. */
  ghost predicate Consecutive(p: nat, positions: seq<nat>) {
    forall i | 0 <= i < |positions| :: positions[i] == p + i
  }

  /**
    The positions entered from `p` on are `p`, `p + 1` and so on, each once; the innermost is the handler's if any.
    So the handler, at position `|chain|`, runs at most once, and after every middleware before it has started.
   */
  lemma {:induction false} EntersInOrder(chain: seq<Body>, handler: Handler, p: nat)
    requires p <= |chain|
    ensures var entered := Entered(Fold(chain, handler, p).trace);
      Consecutive(p, entered) && |entered| <= Fold(chain, handler, p).reached <= |chain| - p + 1
    decreases |chain| - p
  {
    hide Fold, Entered, OwnRun;
    NothingEntered(p);
    if p == |chain| {
      FoldEnd(chain, handler);
      match handler
      case NoHandler =>
      case AsyncHandler(emits, _) => SaysEnterNothing(p, emits); EnteredWrapped(p, Says(p, emits));
      case SyncHandler(emits, _) => SaysEnterNothing(p, emits); EnteredWrapped(p, Says(p, emits));
    } else {
      FoldStep(chain, handler, p);
      var down := Fold(chain, handler, p + 1);
      EntersInOrder(chain, handler, p + 1);
      OwnEntered(p, chain[p], down);
      EnteredWrapped(p, OwnRun(p, chain[p], down).trace);
    }
  }

  // ----- nesting -----

  /** No stack of positions that differ. */
  const BROKEN: seq<nat> := [0, 0]

  /** Replays a trace against the stack of positions under way: only the innermost may speak or exit. */
  function Replay(trace: seq<Event>, stack: seq<nat>): (r: seq<nat>)
    decreases |trace|
  {
    if trace == [] then stack else
    var rest := trace[1..];
    match trace[0]
    case Enter(p) => if IsOuterOf(stack, p) then Replay(rest, stack + [p]) else BROKEN
    case Said(p, _) => if stack != [] && stack[|stack| - 1] == p then Replay(rest, stack) else BROKEN
    case Exit(p) => if stack != [] && stack[|stack| - 1] == p then Replay(rest, stack[..|stack| - 1]) else BROKEN
  }

  /** The positions under way are `0` up to `p - 1`. */
  predicate IsOuterOf(stack: seq<nat>, p: nat) {
    |stack| == p && forall i | 0 <= i < p :: stack[i] == i
  }

  /** A trace that can run inside the positions below `p` and leaves them as they were. */
  ghost predicate Nested(trace: seq<Event>, p: nat) {
    forall more: seq<Event>, stack: seq<nat> | IsOuterOf(stack, p) :: Replay(trace + more, stack) == Replay(more, stack)
  }

  lemma NestedNothing(p: nat)
    ensures Nested([], p)
  {
    forall more: seq<Event>, stack: seq<nat> | IsOuterOf(stack, p) ensures Replay([] + more, stack) == Replay(more, stack) {
      assert [] + more == more;
    }
  }

  lemma NestedConcat(a: seq<Event>, b: seq<Event>, p: nat)
    requires Nested(a, p) && Nested(b, p)
    ensures Nested(a + b, p)
  {
    hide Replay;
    forall more: seq<Event>, stack: seq<nat> | IsOuterOf(stack, p) ensures Replay(a + b + more, stack) == Replay(more, stack) {
      assert a + b + more == a + (b + more);
    }
  }

  lemma NestedSaid(p: nat, what: string)
    ensures Nested([Said(p, what)], p + 1)
  {
    forall more: seq<Event>, stack: seq<nat> | IsOuterOf(stack, p + 1)
      ensures Replay([Said(p, what)] + more, stack) == Replay(more, stack)
    {
      assert ([Said(p, what)] + more)[1..] == more;
    }
  }

  lemma NestedWrapped(p: nat, inner: seq<Event>)
    requires Nested(inner, p + 1)
    ensures Nested([Enter(p)] + inner + [Exit(p)], p)
  {
    var t := [Enter(p)] + inner + [Exit(p)];
    forall more: seq<Event>, stack: seq<nat> | IsOuterOf(stack, p) ensures Replay(t + more, stack) == Replay(more, stack) {
      var tail := [Exit(p)] + more;
      assert (t + more)[1..] == inner + tail;
      assert IsOuterOf(stack + [p], p + 1);
      assert Replay(inner + tail, stack + [p]) == Replay(tail, stack + [p]);
      assert tail[1..] == more && (stack + [p])[..p] == stack;
    }
  }

  lemma {:induction false} NestedSays(p: nat, emits: seq<string>)
    ensures Nested(Says(p, emits), p + 1)
    decreases |emits|
  {
    hide Nested;
    if emits == [] {
      NestedNothing(p + 1);
      assert Says(p, emits) == [];
    } else {
      NestedSaid(p, emits[0]);
      NestedSays(p, emits[1..]);
      assert Says(p, emits) == [Said(p, emits[0])] + Says(p, emits[1..]);
      NestedConcat([Said(p, emits[0])], Says(p, emits[1..]), p + 1);
    }
  }

  lemma {:induction false} StepsNested(p: nat, steps: seq<Step>, called: bool, seen: Value, down: Run)
    requires Nested(down.trace, p + 1)
    ensures Nested(RunSteps(p, steps, called, seen, down).trace, p + 1)
    decreases |steps|
  {
    hide RunSteps, Nested;
    StepsOnce(p, steps, called, seen, down);
    NestedNothing(p + 1);
    if steps != [] {
      match steps[0]
      case Emit(what) =>
        StepsNested(p, steps[1..], called, seen, down);
        NestedSaid(p, what);
        NestedConcat([Said(p, what)], RunSteps(p, steps[1..], called, seen, down).trace, p + 1);
      case AwaitNext(catches) =>
        var got := if !called && down.outcome.Resolved? then down.outcome.value else seen;
        StepsNested(p, steps[1..], true, got, down);
        NestedConcat(down.trace, RunSteps(p, steps[1..], true, got, down).trace, p + 1);
      case _ =>
    }
  }

  lemma OwnNested(p: nat, body: Body, down: Run)
    requires Nested(down.trace, p + 1)
    ensures Nested(OwnRun(p, body, down).trace, p + 1)
  {
    hide RunSteps, Nested;
    NestedNothing(p + 1);
    match body
    case Absent =>
    case Async(steps) => StepsNested(p, steps, false, Undefined, down);
    case Sync(emits, end) =>
      NestedSays(p, emits);
      NestedConcat(Says(p, emits), down.trace, p + 1);
  }

  lemma {:induction false} FoldNested(chain: seq<Body>, handler: Handler, p: nat)
    requires p <= |chain|
    ensures Nested(Fold(chain, handler, p).trace, p)
    decreases |chain| - p
  {
    hide Fold, OwnRun, Nested;
    NestedNothing(p);
    if p == |chain| {
      FoldEnd(chain, handler);
      match handler
      case NoHandler =>
      case AsyncHandler(emits, _) => NestedSays(p, emits); NestedWrapped(p, Says(p, emits));
      case SyncHandler(emits, _) => NestedSays(p, emits); NestedWrapped(p, Says(p, emits));
    } else {
      FoldStep(chain, handler, p);
      FoldNested(chain, handler, p + 1);
      OwnNested(p, chain[p], Fold(chain, handler, p + 1));
      NestedWrapped(p, OwnRun(p, chain[p], Fold(chain, handler, p + 1)).trace);
    }
  }

  /** The whole trace is an onion: it replays from the empty stack to the empty stack. */
  lemma TraceIsOnion(chain: seq<Body>, handler: Handler)
    ensures Replay(Fold(chain, handler, 0).trace, []) == []
  {
    hide Fold;
    var t := Fold(chain, handler, 0).trace;
    FoldNested(chain, handler, 0);
    var none: seq<Event>, outside: seq<nat> := [], [];
    assert t + none == t && IsOuterOf(outside, 0);
    assert Replay(t + none, outside) == Replay(none, outside);
  }

  // ----- the result -----

  /** The body at `p` as it runs in this chain. */
  function Own(chain: seq<Body>, handler: Handler, p: nat): Ran
    requires p < |chain|
  {
    OwnRun(p, chain[p], Fold(chain, handler, p + 1))
  }

  /** The body at `p` leaves the result to the promise of its `next`. */
  predicate Passes(chain: seq<Body>, handler: Handler, p: nat)
    requires p < |chain|
  {
    var own := Own(chain, handler, p);
    own.outcome == Resolved(Undefined) && own.called && !Fold(chain, handler, p + 1).thrown
  }

  /** What the position `p` gives when it does not pass: the handler's result, or its body's own. */
  function Given(chain: seq<Body>, handler: Handler, p: nat): Outcome
    requires p <= |chain|
  {
    if p == |chain| then Handle(p, handler).outcome else Own(chain, handler, p).outcome
  }

  /** The chain's result is that of the outermost position that does not leave it to its `next`. */
  lemma {:induction false} OutermostDecides(chain: seq<Body>, handler: Handler, from: nat, k: nat)
    requires from <= k <= |chain|
    requires forall i | from <= i < k :: Passes(chain, handler, i)
    requires k < |chain| ==> !Passes(chain, handler, k)
    ensures Fold(chain, handler, from).outcome == Given(chain, handler, k)
    decreases k - from
  {
    hide Fold, OwnRun;
    if from == |chain| {
      FoldEnd(chain, handler);
    } else {
      FoldStep(chain, handler, from);
      if from < k {
        assert Passes(chain, handler, from);
        OutermostDecides(chain, handler, from + 1, k);
        PassingDoesNotThrow(chain, handler, from);
      }
    }
  }

  lemma PassingDoesNotThrow(chain: seq<Body>, handler: Handler, p: nat)
    requires p < |chain| && Passes(chain, handler, p)
    ensures !ThrowsNow(chain[p], Fold(chain, handler, p + 1))
  {
    hide Fold, RunSteps;
  }

  /** A middleware that awaits `next` in a try block and returns nothing. */
  const SWALLOW := Async([AwaitNext(true)])

  lemma SwallowRuns(p: nat, down: Run)
    ensures RunSteps(p, SWALLOW.steps, false, Undefined, down) == Ran(down.trace, Resolved(Undefined), true)
  {
    hide RunSteps;
    StepsOnce(p, SWALLOW.steps, false, Undefined, down);
    assert SWALLOW.steps[1..] == [];
    var seen := if down.outcome.Resolved? then down.outcome.value else Undefined;
    StepsOnce(p, [], true, seen, down);
    assert down.trace + [] == down.trace;
  }

  /**
    Catching an inner error does not stop it: an asynchronous body that has called `next` and ends without a result
    gives the promise of `next`, rejected or not, unless the inner function threw instead of returning a promise.
   */
  lemma SwallowedErrorResurfacesIff(chain: seq<Body>, handler: Handler, p: nat)
    requires p < |chain| && chain[p].Async? && Fold(chain, handler, p + 1).outcome.Rejected?
    requires Own(chain, handler, p).called && Own(chain, handler, p).outcome == Resolved(Undefined)
    ensures var inner := Fold(chain, handler, p + 1);
      && (Fold(chain, handler, p).outcome.Rejected? <==> !inner.thrown)
      && Fold(chain, handler, p).outcome == if inner.thrown then Resolved(Undefined) else inner.outcome
  {
    hide Fold, RunSteps;
    FoldStep(chain, handler, p);
    WrapAsync(p, chain[p].steps, Fold(chain, handler, p + 1));
  }

  /** Such a body, around a handler whose promise is rejected: the error it caught is the result. */
  lemma CaughtErrorComesBack(message: string)
    ensures Fold([SWALLOW], AsyncHandler([], Rejected(Thrown(message))), 0).outcome == Rejected(Thrown(message))
  {
    hide Fold, RunSteps;
    var chain, handler := [SWALLOW], AsyncHandler([], Rejected(Thrown(message)));
    FoldEnd(chain, handler);
    SwallowRuns(0, Fold(chain, handler, 1));
    SwallowedErrorResurfacesIff(chain, handler, 0);
  }

  // ----- any schedule -----

  /** The dispatcher seen from its `next` closures, which may be called at any time and in any order. */
  datatype Guards = Guards(index: nat, called: seq<bool>, started: seq<nat>)

  datatype Answer = Dispatched(position: nat) | Refused(error: Error) | NoSuchNext

  /** After `dispatch(0)`. */
  const STARTED := Guards(0, [false], [0])

  /** Someone calls the `next` given to position `p`; there is none before `p` starts, for an absent middleware or for the handler. */
  function Next(chain: seq<Body>, g: Guards, p: nat): (r: (Guards, Answer)) {
    if p >= |g.called| || p >= |chain| || chain[p].Absent? then (g, NoSuchNext)
    else if g.called[p] then (g, Refused(CalledTwice))
    else
      var marked := g.(called := g.called[p := true]);
      if p + 1 <= g.index then (marked, Refused(PositionReused))
      else (Guards(p + 1, marked.called + [false], g.started + [p + 1]), Dispatched(p + 1))
  }

  function Answers(chain: seq<Body>, g: Guards, calls: seq<nat>): (r: (Guards, seq<Answer>))
    decreases |calls|
  {
    if calls == [] then (g, []) else
    var (next, a) := Next(chain, g, calls[0]);
    var (end, rest) := Answers(chain, next, calls[1..]);
    (end, [a] + rest)
  }

  /** Either guard alone would do: a position has called `next` exactly when it lies below the index. */
  ghost predicate GuardsAgree(chain: seq<Body>, g: Guards) {
    && |g.called| == g.index + 1 <= |chain| + 1
    && (forall p | 0 <= p <= g.index :: g.called[p] == (p < g.index))
    && Consecutive(0, g.started) && |g.started| == g.index + 1
  }

  lemma {:induction false} AnswersKeepGuards(chain: seq<Body>, g: Guards, calls: seq<nat>)
    requires GuardsAgree(chain, g)
    ensures var (end, answers) := Answers(chain, g, calls);
      && GuardsAgree(chain, end) && |answers| == |calls| && end.started == g.started + Dispatches(answers)
      && (forall i | 0 <= i < |answers| :: answers[i] != Refused(PositionReused))
    decreases |calls|
  {
    if calls != [] {
      var (next, a) := Next(chain, g, calls[0]);
      NextKeepsGuards(chain, g, calls[0]);
      AnswersKeepGuards(chain, next, calls[1..]);
      var rest := Answers(chain, next, calls[1..]).1;
      assert ([a] + rest)[1..] == rest;
    }
  }

  /** The positions that calls of `next` started, in the order of the calls. */
  function Dispatches(answers: seq<Answer>): seq<nat>
    decreases |answers|
  {
    if answers == [] then []
    else (if answers[0].Dispatched? then [answers[0].position] else []) + Dispatches(answers[1..])
  }

  /**
    However the `next` functions are called after `dispatch(0)`: the position guard never refuses, and the positions
    started are 1, 2 and so on, each once.
   */
  lemma AnySchedule(chain: seq<Body>, calls: seq<nat>)
    ensures var (end, answers) := Answers(chain, STARTED, calls);
      && GuardsAgree(chain, end) && |answers| == |calls|
      && Consecutive(1, Dispatches(answers)) && |Dispatches(answers)| == end.index <= |chain|
      && (forall i | 0 <= i < |answers| :: answers[i] != Refused(PositionReused))
  {
    hide Answers, Dispatches;
    AnswersKeepGuards(chain, STARTED, calls);
    var (end, answers) := Answers(chain, STARTED, calls);
    forall i | 0 <= i < |Dispatches(answers)| ensures Dispatches(answers)[i] == 1 + i {
      assert end.started[1 + i] == Dispatches(answers)[i];
    }
  }

  lemma NextKeepsGuards(chain: seq<Body>, g: Guards, p: nat)
    requires GuardsAgree(chain, g)
    ensures GuardsAgree(chain, Next(chain, g, p).0)
    ensures Next(chain, g, p).1 != Refused(PositionReused)
    ensures Next(chain, g, p).1.Dispatched? <==> p == g.index < |chain| && !chain[p].Absent?
    ensures Next(chain, g, p).1 == Refused(CalledTwice) ==> p < g.index
  {
  }
}
