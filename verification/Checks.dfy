/** Checks made one after the other, of which the first that fails gives the answer. */
module Checks {
  import opened Wrappers

  datatype Check<E> = Check(passes: bool, error: E)

  function FirstFailure<E>(checks: seq<Check<E>>): Option<E>
    decreases |checks|
  {
    if checks == [] then None else if checks[0].passes then FirstFailure(checks[1..]) else Some(checks[0].error)
  }

  lemma FirstStep<E>(first: Check<E>, rest: seq<Check<E>>)
    ensures FirstFailure([first] + rest) == if first.passes then FirstFailure(rest) else Some(first.error)
  {
    assert ([first] + rest)[1..] == rest;
  }

  lemma NoFailure<E>()
    ensures FirstFailure<E>([]) == None
  {
  }
}
