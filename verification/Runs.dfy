/** Runs of a step function inside a block of code. The step function is a parameter, so
    that these facts do not depend on what an instruction does. */
module Runs {
  import opened Vm

  type Stepper = State -> State

  function Steps(step: Stepper, s: State, n: nat): State
    decreases n
  {
    if n == 0 then s else Steps(step, step(s), n - 1)
  }

  /** The pc lies in the half-open block [lo, hi). */
  predicate At(s: State, lo: nat, hi: nat) {
    s.Running? && lo <= s.pc < hi
  }

  /** The first n states from s on all lie in the block. */
  predicate Inside(step: Stepper, s: State, n: nat, lo: nat, hi: nat)
    decreases n
  {
    n == 0 || (At(s, lo, hi) && Inside(step, step(s), n - 1, lo, hi))
  }

  /** t is reached from s in n steps, the n states before it in the block. */
  predicate Reaches(step: Stepper, s: State, n: nat, lo: nat, hi: nat, t: State)
    decreases n
  {
    if n == 0 then s == t else At(s, lo, hi) && Reaches(step, step(s), n - 1, lo, hi, t)
  }

  lemma {:induction false} ReachesSteps(step: Stepper, s: State, n: nat, lo: nat, hi: nat, t: State)
    requires Reaches(step, s, n, lo, hi, t)
    ensures Steps(step, s, n) == t && Inside(step, s, n, lo, hi)
    decreases n
  {
    if n > 0 { ReachesSteps(step, step(s), n - 1, lo, hi, t); }
  }

  lemma {:induction false} InsideAt(step: Stepper, s: State, n: nat, k: nat, lo: nat, hi: nat)
    requires Inside(step, s, n, lo, hi) && k < n
    ensures At(Steps(step, s, k), lo, hi)
    decreases k
  {
    if k > 0 { InsideAt(step, step(s), n - 1, k - 1, lo, hi); }
  }

  /** Runs concatenate; the block may be widened on the way. */
  lemma {:induction false} Chain(step: Stepper, s: State, n1: nat, t: State, n2: nat, u: State, lo: nat, hi: nat)
    requires Reaches(step, s, n1, lo, hi, t) && Reaches(step, t, n2, lo, hi, u)
    ensures Reaches(step, s, n1 + n2, lo, hi, u)
    decreases n1
  {
    if n1 > 0 { Chain(step, step(s), n1 - 1, t, n2, u, lo, hi); }
  }

  lemma {:induction false} ChainInside(step: Stepper, s: State, n1: nat, t: State, n2: nat, lo: nat, hi: nat)
    requires Reaches(step, s, n1, lo, hi, t) && Inside(step, t, n2, lo, hi)
    ensures Inside(step, s, n1 + n2, lo, hi)
    decreases n1
  {
    if n1 > 0 { ChainInside(step, step(s), n1 - 1, t, n2, lo, hi); }
  }

  lemma {:induction false} Widen(step: Stepper, s: State, n: nat, t: State, lo: nat, hi: nat, lo': nat, hi': nat)
    requires Reaches(step, s, n, lo, hi, t) && lo' <= lo && hi <= hi'
    ensures Reaches(step, s, n, lo', hi', t)
    decreases n
  {
    if n > 0 { Widen(step, step(s), n - 1, t, lo, hi, lo', hi'); }
  }

  lemma {:induction false} WidenInside(step: Stepper, s: State, n: nat, lo: nat, hi: nat, lo': nat, hi': nat)
    requires Inside(step, s, n, lo, hi) && lo' <= lo && hi <= hi'
    ensures Inside(step, s, n, lo', hi')
    decreases n
  {
    if n > 0 { WidenInside(step, step(s), n - 1, lo, hi, lo', hi'); }
  }

  lemma {:induction false} Shorten(step: Stepper, s: State, n: nat, k: nat, lo: nat, hi: nat)
    requires Inside(step, s, n, lo, hi) && k <= n
    ensures Inside(step, s, k, lo, hi)
    decreases k
  {
    if k > 0 { Shorten(step, step(s), n - 1, k - 1, lo, hi); }
  }

  /** A stopped state is where every longer run ends too. */
  lemma {:induction false} StoppedStays(step: Stepper, s: State, n: nat)
    requires step(s) == s
    ensures Steps(step, s, n) == s
    decreases n
  {
    if n > 0 { StoppedStays(step, s, n - 1); }
  }

  lemma {:induction false} StepsAdd(step: Stepper, s: State, a: nat, b: nat)
    ensures Steps(step, s, a + b) == Steps(step, Steps(step, s, a), b)
    decreases a
  {
    if a > 0 { StepsAdd(step, step(s), a - 1, b); }
  }
}
