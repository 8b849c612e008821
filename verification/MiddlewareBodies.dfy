/** What one position of a middleware chain does, told by the indices of its steps instead of step by step. */
module MiddlewareBodies {
  import opened Middleware

  /** The step at `j` is the first that awaits `next`. */
  predicate IsFirstAwait(steps: seq<Step>, j: nat) {
    j < |steps| && steps[j].AwaitNext? && forall k | 0 <= k < j :: !steps[k].AwaitNext?
  }

  /** The body ends at `j`: it returns, throws, or awaits outside a try block a rejection or a second `next`. */
  predicate EndsAt(steps: seq<Step>, j: nat, down: Run) {
    && j < |steps|
    && match steps[j]
       case Emit(_) => false
       case AwaitNext(catches) => !catches && (down.outcome.Rejected? || !IsFirstAwait(steps, j))
       case _ => true
  }

  /** The body takes its first `n` steps, and the last of them ends it if it has more. */
  predicate Takes(steps: seq<Step>, n: nat, down: Run) {
    && n <= |steps|
    && (forall j | 0 <= j < n - 1 :: !EndsAt(steps, j, down))
    && (n < |steps| ==> n > 0 && EndsAt(steps, n - 1, down))
  }

  /** What the first `n` steps leave in the trace. */
  function TraceOf(p: nat, steps: seq<Step>, n: nat, down: Run): seq<Event>
    requires n <= |steps|
  {
    if n == 0 then [] else
    TraceOf(p, steps, n - 1, down)
    + match steps[n - 1]
      case Emit(what) => [Said(p, what)]
      case AwaitNext(_) => if IsFirstAwait(steps, n - 1) then down.trace else []
      case _ => []
  }

  predicate Awaits(steps: seq<Step>, n: nat) {
    exists j | 0 <= j < n && j < |steps| :: steps[j].AwaitNext?
  }

  /** What the body gives that takes `n` steps. */
  function GivenBy(steps: seq<Step>, n: nat, down: Run): Outcome
    requires n <= |steps|
  {
    if n == 0 || !EndsAt(steps, n - 1, down) then Resolved(Undefined)
    else
      match steps[n - 1]
      case Return(value) => Resolved(value)
      case ReturnNext => if Awaits(steps, n) && down.outcome.Resolved? then down.outcome else Resolved(Undefined)
      case Throw(message) => Rejected(Thrown(message))
      case AwaitNext(_) => if IsFirstAwait(steps, n - 1) then down.outcome else Rejected(CalledTwice)
      case Emit(_) => Resolved(Undefined)
  }

  /** The body after `i` steps that did not end it. */
  lemma {:induction false} BodyFrom(p: nat, steps: seq<Step>, i: nat, n: nat, seen: Value, down: Run)
    requires Takes(steps, n, down) && i <= n && (i == n ==> n == 0 || !EndsAt(steps, n - 1, down))
    requires seen == if Awaits(steps, i) && down.outcome.Resolved? then down.outcome.value else Undefined
    ensures var rest := RunSteps(p, steps[i..], Awaits(steps, i), seen, down);
      && TraceOf(p, steps, i, down) + rest.trace == TraceOf(p, steps, n, down)
      && rest.outcome == GivenBy(steps, n, down)
      && rest.called == Awaits(steps, n)
    decreases n - i
  {
    hide RunSteps, TraceOf, GivenBy;
    StepsOnce(p, steps[i..], Awaits(steps, i), seen, down);
    if i == n {
      Unended(steps, n, down);
      assert steps[i..] == [];
      EndGives(steps, n, down);
      assert TraceOf(p, steps, i, down) + [] == TraceOf(p, steps, n, down);
    } else {
      assert steps[i..][0] == steps[i] && steps[i..][1..] == steps[i + 1..];
      AwaitsNext(steps, i);
      TraceStep(p, steps, i, down);
      if EndsAt(steps, i, down) {
        assert i + 1 == n;
        EndGives(steps, n, down);
        assert TraceOf(p, steps, i, down) + [] == TraceOf(p, steps, i, down);
      } else {
        var next := if Awaits(steps, i + 1) && down.outcome.Resolved? then down.outcome.value else Undefined;
        BodyFrom(p, steps, i + 1, n, next, down);
        var rest := RunSteps(p, steps[i + 1..], Awaits(steps, i + 1), next, down);
        Joined(TraceOf(p, steps, i, down), if steps[i].Emit? then [Said(p, steps[i].what)] else if IsFirstAwait(steps, i) then down.trace else [],
               rest.trace);
      }
    }
  }

  lemma Unended(steps: seq<Step>, n: nat, down: Run)
    requires Takes(steps, n, down) && (n == 0 || !EndsAt(steps, n - 1, down))
    ensures n == |steps|
  {
  }

  lemma Joined(a: seq<Event>, b: seq<Event>, c: seq<Event>)
    ensures a + b + c == a + (b + c) && a + [] == a && [] + c == c
  {
  }

  lemma TraceStep(p: nat, steps: seq<Step>, i: nat, down: Run)
    requires i < |steps|
    ensures TraceOf(p, steps, i + 1, down) ==
            TraceOf(p, steps, i, down)
            + if steps[i].Emit? then [Said(p, steps[i].what)] else if IsFirstAwait(steps, i) then down.trace else []
  {
  }

  lemma AwaitsNext(steps: seq<Step>, i: nat)
    requires i < |steps|
    ensures Awaits(steps, i + 1) <==> Awaits(steps, i) || steps[i].AwaitNext?
    ensures steps[i].AwaitNext? ==> (IsFirstAwait(steps, i) <==> !Awaits(steps, i))
  {
  }

  lemma EndGives(steps: seq<Step>, n: nat, down: Run)
    requires n <= |steps|
    ensures n == 0 || !EndsAt(steps, n - 1, down) ==> GivenBy(steps, n, down) == Resolved(Undefined)
    ensures n > 0 && EndsAt(steps, n - 1, down) ==>
              GivenBy(steps, n, down) ==
              match steps[n - 1]
              case Return(value) => Resolved(value)
              case ReturnNext => if Awaits(steps, n) && down.outcome.Resolved? then down.outcome else Resolved(Undefined)
              case Throw(message) => Rejected(Thrown(message))
              case AwaitNext(_) => if IsFirstAwait(steps, n - 1) then down.outcome else Rejected(CalledTwice)
              case Emit(_) => Resolved(Undefined)
  {
  }

  /** Every body takes some number of steps. */
  lemma {:induction false} EveryBodyTakes(steps: seq<Step>, from: nat, down: Run) returns (n: nat)
    requires from <= |steps| && forall j | 0 <= j < from :: !EndsAt(steps, j, down)
    ensures Takes(steps, n, down)
    decreases |steps| - from
  {
    if from == |steps| {
      return from;
    }
    if EndsAt(steps, from, down) {
      return from + 1;
    }
    n := EveryBodyTakes(steps, from + 1, down);
  }

  /** An asynchronous middleware speaks, awaits, and ends as its steps say, up to the first that ends it. */
  lemma BodyIs(p: nat, steps: seq<Step>, n: nat, down: Run)
    requires Takes(steps, n, down)
    ensures RunSteps(p, steps, false, Undefined, down) == Ran(TraceOf(p, steps, n, down), GivenBy(steps, n, down), Awaits(steps, n))
  {
    hide RunSteps, GivenBy;
    assert steps[0..] == steps && TraceOf(p, steps, 0, down) == [];
    var own := RunSteps(p, steps, false, Undefined, down);
    assert [] + own.trace == own.trace;
    BodyFrom(p, steps, 0, n, Undefined, down);
  }

  /** The whole of one position, given what is inside it. */
  lemma AsyncIs(chain: seq<Body>, handler: Handler, p: nat, steps: seq<Step>, n: nat)
    requires p < |chain| && chain[p] == Async(steps) && Takes(steps, n, Fold(chain, handler, p + 1))
    ensures var down, run := Fold(chain, handler, p + 1), Fold(chain, handler, p);
      var given, waited := GivenBy(steps, n, down), Awaits(steps, n);
      && run.trace == [Enter(p)] + TraceOf(p, steps, n, down) + [Exit(p)]
      && run.outcome == (if given != Resolved(Undefined) then given
                         else if waited && !down.thrown then down.outcome else Resolved(Undefined))
      && !run.thrown && run.reached == if waited then 1 + down.reached else 1
  {
    hide Fold, RunSteps, TraceOf, GivenBy, Awaits;
    FoldStep(chain, handler, p);
    WrapAsync(p, steps, Fold(chain, handler, p + 1));
    BodyIs(p, steps, n, Fold(chain, handler, p + 1));
  }

  function Voices(p: nat, emits: seq<string>): (trace: seq<Event>)
    decreases |emits|
  {
    if emits == [] then [] else Voices(p, emits[..|emits| - 1]) + [Said(p, emits[|emits| - 1])]
  }

  lemma {:induction false} SaysAre(p: nat, emits: seq<string>)
    ensures Says(p, emits) == Voices(p, emits)
    decreases |emits|
  {
    if emits != [] {
      SaysAre(p, emits[..|emits| - 1]);
    }
  }

  /** A synchronous middleware speaks and gives, hands on what is inside it, or throws; a value that is no function is passed over. */
  lemma SyncIs(chain: seq<Body>, handler: Handler, p: nat)
    requires p < |chain| && !chain[p].Async?
    ensures var down, run := Fold(chain, handler, p + 1), Fold(chain, handler, p);
      if chain[p].Absent? then run == Run([], Resolved(Undefined), false, 1)
      else
        var own, end := [Enter(p)] + Voices(p, chain[p].emits), chain[p].end;
        && run.trace == own + (if end.GiveNext? then down.trace else []) + [Exit(p)]
        && run.outcome == (if end.Give? then Resolved(end.value) else if end.ThrowNow? then Rejected(Thrown(end.message)) else down.outcome)
        && run.thrown == (end.ThrowNow? || (end.GiveNext? && down.thrown))
        && run.reached == if end.GiveNext? then 1 + down.reached else 1
  {
    hide Fold, RunSteps;
    FoldStep(chain, handler, p);
    if chain[p].Sync? {
      SaysAre(p, chain[p].emits);
      var down := Fold(chain, handler, p + 1);
      assert [Enter(p)] + Says(p, chain[p].emits) + [] == [Enter(p)] + Says(p, chain[p].emits);
      assert [Enter(p)] + (Says(p, chain[p].emits) + down.trace) == [Enter(p)] + Says(p, chain[p].emits) + down.trace;
    }
  }

  /** The handler, inside all of them. */
  lemma HandlerIs(chain: seq<Body>, handler: Handler)
    ensures var run, p := Fold(chain, handler, |chain|), |chain|;
      if handler.NoHandler? then run == Run([], Resolved(Undefined), false, 1)
      else run == Run([Enter(p)] + Voices(p, handler.emits) + [Exit(p)], handler.outcome,
                      handler.SyncHandler? && handler.outcome.Rejected?, 1)
  {
    hide Fold;
    FoldEnd(chain, handler);
    if !handler.NoHandler? {
      SaysAre(|chain|, handler.emits);
    }
  }

  /** A dispatch throws exactly if synchronous middlewares hand on a throw from a synchronous one or the handler. */
  lemma {:induction false} ThrowsIff(chain: seq<Body>, handler: Handler, p: nat)
    requires p <= |chain|
    ensures Fold(chain, handler, p).thrown <==> exists k | p <= k <= |chain| :: ThrowsFrom(chain, handler, p, k)
    decreases |chain| - p
  {
    hide Fold;
    if p == |chain| {
      HandlerIs(chain, handler);
      assert Fold(chain, handler, p).thrown <==> ThrowsFrom(chain, handler, p, p);
    } else {
      ThrowsIff(chain, handler, p + 1);
      if chain[p].Async? {
        FoldStep(chain, handler, p);
        WrapAsync(p, chain[p].steps, Fold(chain, handler, p + 1));
      } else {
        SyncIs(chain, handler, p);
      }
      assert ThrowsFrom(chain, handler, p, p) <==> chain[p].Sync? && chain[p].end.ThrowNow?;
      forall k | p < k <= |chain|
        ensures ThrowsFrom(chain, handler, p, k) <==> HandsOn(chain[p]) && ThrowsFrom(chain, handler, p + 1, k)
      {
      }
      if HandsOn(chain[p]) && Fold(chain, handler, p + 1).thrown {
        var k :| p + 1 <= k <= |chain| && ThrowsFrom(chain, handler, p + 1, k);
        assert ThrowsFrom(chain, handler, p, k);
      }
    }
  }

  predicate HandsOn(body: Body) {
    body.Sync? && body.end.GiveNext?
  }

  predicate ThrowsFrom(chain: seq<Body>, handler: Handler, p: nat, k: nat)
    requires p <= k <= |chain|
  {
    && (forall j | p <= j < k :: HandsOn(chain[j]))
    && if k < |chain| then chain[k].Sync? && chain[k].end.ThrowNow? else handler.SyncHandler? && handler.outcome.Rejected?
  }
}
