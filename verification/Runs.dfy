/** Runs of a state machine whose step function says which steps are possible. */
module Runs {
  import opened Streams

  /** Where the steps `es` lead from s, if each of them is possible when its turn comes. */
  function Run<S, E>(next: (S, E) -> Option<S>, s: S, es: seq<E>): Option<S>
    decreases |es|
  {
    if es == [] then Some(s)
    else match next(s, es[0])
      case Some(t) => Run(next, t, es[1..])
      case None => None
  }

  ghost predicate KeptBy<S, E>(next: (S, E) -> Option<S>, inv: S -> bool, s: S, e: E) {
    inv(s) && next(s, e).Some? ==> inv(next(s, e).value)
  }

  /** What every step keeps holds after every run. */
  lemma {:induction false} RunKeeps<S(!new), E(!new)>(next: (S, E) -> Option<S>, inv: S -> bool, s: S, es: seq<E>)
    requires inv(s) && forall t, e :: KeptBy(next, inv, t, e)
    ensures Run(next, s, es).Some? ==> inv(Run(next, s, es).value)
    decreases |es|
  {
    if es != [] && next(s, es[0]).Some? {
      assert KeptBy(next, inv, s, es[0]);
      RunKeeps(next, inv, next(s, es[0]).value, es[1..]);
    }
  }

  /** A run given by the states it passes. */
  lemma {:induction false} RunAlong<S, E>(next: (S, E) -> Option<S>, states: seq<S>, es: seq<E>)
    requires |states| == |es| + 1
    requires forall i :: 0 <= i < |es| ==> next(states[i], es[i]) == Some(states[i + 1])
    ensures Run(next, states[0], es) == Some(states[|es|])
    decreases |es|
  {
    if es != [] {
      assert next(states[0], es[0]) == Some(states[1]);
      forall i | 0 <= i < |es| - 1 ensures next(states[1..][i], es[1..][i]) == Some(states[1..][i + 1]) {
        assert next(states[i + 1], es[i + 1]) == Some(states[i + 2]);
      }
      RunAlong(next, states[1..], es[1..]);
    }
  }

  lemma {:induction false} RunAppend<S, E>(next: (S, E) -> Option<S>, s: S, es: seq<E>, fs: seq<E>)
    requires Run(next, s, es).Some?
    ensures Run(next, s, es + fs) == Run(next, Run(next, s, es).value, fs)
    decreases |es|
  {
    if es == [] {
      assert es + fs == fs;
    } else {
      assert (es + fs)[1..] == es[1..] + fs;
      RunAppend(next, next(s, es[0]).value, es[1..], fs);
    }
  }

  /** There is always a number not used yet. */
  lemma {:induction false} UpperBound(xs: set<nat>) returns (m: nat)
    ensures forall x :: x in xs ==> x < m
  {
    m := 0;
    if xs != {} {
      var x :| x in xs;
      var r := UpperBound(xs - {x});
      assert xs == xs - {x} + {x};
      m := if r <= x then x + 1 else r;
    }
  }
}
