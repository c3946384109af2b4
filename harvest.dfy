/**
 * Keystream harvesting: step a state and append the 8 bytes sampled from each new state.
 * Both the standalone `generate_key_stream` and the client's `Encrypting` phase do this;
 * the state, the step and the sampling are parameters.
 */
module Harvest {
  import opened Wire

  /** The state after `n` steps from `s`. */
  function Iterate<S>(step: S -> S, s: S, n: nat): S {
    if n == 0 then s else step(Iterate(step, s, n - 1))
  }

  /** Stepping `a` times and then `b` times is stepping `a + b` times. */
  lemma {:induction false} IterateAdd<S>(step: S -> S, s: S, a: nat, b: nat)
    ensures Iterate(step, Iterate(step, s, a), b) == Iterate(step, s, a + b)
  {
    if b > 0 {
      IterateAdd(step, s, a, b - 1);
    }
  }

  /** The bytes harvested over `n` steps from `s`: the samples of states 1 to n, in order. */
  function Stream<S>(step: S -> S, sample: S -> Bytes8, s: S, n: nat): (ks: seq<bv8>)
    ensures |ks| == 8 * n
  {
    if n == 0 then [] else Stream(step, sample, s, n - 1) + sample(Iterate(step, s, n))
  }

  /** Harvesting fewer steps gives a prefix of harvesting more. */
  lemma {:induction false} StreamPrefix<S>(step: S -> S, sample: S -> Bytes8, s: S, n: nat, m: nat)
    requires n <= m
    ensures Stream(step, sample, s, m)[..8 * n] == Stream(step, sample, s, n)
  {
    if n < m {
      StreamPrefix(step, sample, s, n, m - 1);
      assert Stream(step, sample, s, m)[..8 * (m - 1)] == Stream(step, sample, s, m - 1);
    }
  }

  /** Chunk `k` of the stream is the sample of the state after `k + 1` steps. */
  lemma StreamChunk<S>(step: S -> S, sample: S -> Bytes8, s: S, n: nat, k: nat)
    requires k < n
    ensures Stream(step, sample, s, n)[8 * k .. 8 * k + 8] == sample(Iterate(step, s, k + 1))
  {
    StreamPrefix(step, sample, s, k + 1, n);
    var whole := Stream(step, sample, s, n);
    assert whole[8 * k .. 8 * k + 8] == whole[..8 * (k + 1)][8 * k ..];
  }

  /** Harvesting from the state `a` steps after `s`: chunk `k` is the sample of state `a + k + 1` from `s`. */
  lemma StreamAfter<S>(step: S -> S, sample: S -> Bytes8, s: S, a: nat, n: nat, k: nat)
    requires k < n
    ensures Stream(step, sample, Iterate(step, s, a), n)[8 * k .. 8 * k + 8] == sample(Iterate(step, s, a + k + 1))
  {
    StreamChunk(step, sample, Iterate(step, s, a), n, k);
    IterateAdd(step, s, a, k + 1);
  }

  /** What `emit` makes of states 1 to n after `s`, concatenated in order. */
  function Trace<S, T>(step: S -> S, emit: S -> seq<T>, s: S, n: nat): seq<T> {
    if n == 0 then [] else Trace(step, emit, s, n - 1) + emit(Iterate(step, s, n))
  }

  /** When every state emits `w` items, `n` steps emit `w * n`. */
  lemma {:induction false} TraceLength<S, T>(step: S -> S, emit: S -> seq<T>, s: S, w: nat, n: nat)
    requires forall x :: |emit(x)| == w
    ensures |Trace(step, emit, s, n)| == w * n
  {
    if n > 0 {
      TraceLength(step, emit, s, w, n - 1);
      assert w * n == w * (n - 1) + w;
    }
  }

  /** Tracing fewer steps gives a prefix of tracing more. */
  lemma {:induction false} TracePrefix<S, T>(step: S -> S, emit: S -> seq<T>, s: S, k: nat, n: nat)
    requires k <= n
    ensures Trace(step, emit, s, k) <= Trace(step, emit, s, n)
  {
    if k < n {
      TracePrefix(step, emit, s, k, n - 1);
    }
  }

  /** When every state emits `w` items, items `w * k` to `w * k + w` of the trace come from state `k + 1`. */
  lemma TraceChunk<S, T>(step: S -> S, emit: S -> seq<T>, s: S, w: nat, n: nat, k: nat)
    requires forall x :: |emit(x)| == w
    requires k < n
    ensures w * k + w <= |Trace(step, emit, s, n)|
    ensures Trace(step, emit, s, n)[w * k .. w * k + w] == emit(Iterate(step, s, k + 1))
  {
    var upTo := Trace(step, emit, s, k + 1);
    TraceLength(step, emit, s, w, k);
    TracePrefix(step, emit, s, k + 1, n);
    assert Trace(step, emit, s, n)[w * k .. w * k + w] == upTo[w * k ..];
  }
}
