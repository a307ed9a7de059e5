/**
 * Streams produced by a state machine: a step function advances the state
 * and an output function reads one value off each state. The generator of
 * `script.js` is such a machine; its lemmas are stated here once for any
 * step and output.
 */
module Stream {

  /** The state after `n` steps from `s`. */
  function After<S>(step: S -> S, s: S, n: nat): S {
    if n == 0 then s else step(After(step, s, n - 1))
  }

  /** The outputs of the first `n` states from `s`, in order. */
  function Outputs<S, T>(step: S -> S, out: S -> T, s: S, n: nat): seq<T> {
    if n == 0 then [] else Outputs(step, out, s, n - 1) + [out(After(step, s, n - 1))]
  }

  /** `n` steps give `n` outputs. */
  lemma {:induction false} OutputsLength<S, T>(step: S -> S, out: S -> T, s: S, n: nat)
    ensures |Outputs(step, out, s, n)| == n
  {
    if n > 0 {
      OutputsLength(step, out, s, n - 1);
    }
  }

  /** Output `k` is read off the state reached after `k` steps. */
  lemma {:induction false} OutputAt<S, T>(step: S -> S, out: S -> T, s: S, n: nat, k: nat)
    requires k < n
    ensures |Outputs(step, out, s, n)| == n && Outputs(step, out, s, n)[k] == out(After(step, s, k))
  {
    if k < n - 1 {
      OutputAt(step, out, s, n - 1, k);
    } else {
      OutputsLength(step, out, s, n - 1);
    }
  }

  /** Running `m` steps and then `n` more is one run of `m + n` steps. */
  lemma {:induction false} OutputsThenOutputs<S, T>(step: S -> S, out: S -> T, s: S, m: nat, n: nat)
    ensures After(step, After(step, s, m), n) == After(step, s, m + n)
    ensures Outputs(step, out, s, m) + Outputs(step, out, After(step, s, m), n) == Outputs(step, out, s, m + n)
  {
    if n > 0 {
      OutputsThenOutputs(step, out, s, m, n - 1);
    }
  }
}
