/** A step taken once for each event of a history, and what carries over from step to step. */
module Iteration {

  function Iterate<S, E>(step: (S, E) -> S, s: S, h: seq<E>, n: nat): S
    requires n <= |h|
  {
    if n == 0 then s else step(Iterate(step, s, h, n - 1), h[n - 1])
  }

  /** What the events from b on and before c add up to. */
  function Total<S, E>(step: (S, E) -> S, s: S, h: seq<E>, gain: (S, E) -> int, b: nat, c: nat): int
    requires b <= c <= |h|
  {
    if b == c then 0 else Total(step, s, h, gain, b, c - 1) + gain(Iterate(step, s, h, c - 1), h[c - 1])
  }

  /** States that each of the events keeps within a set stay in it. */
  lemma {:induction false} Kept<S, E>(step: (S, E) -> S, s: S, h: seq<E>, kept: iset<S>, b: nat, n: nat)
    requires b <= n <= |h| && Iterate(step, s, h, b) in kept
    requires forall k, t | b <= k < n && t in kept :: step(t, h[k]) in kept
    ensures Iterate(step, s, h, n) in kept
    decreases n
  {
    if b < n { Kept(step, s, h, kept, b, n - 1); }
  }

  /** A size that each event changes by its gain grows by the total. */
  lemma {:induction false} Grows<S, E>(
      step: (S, E) -> S, s: S, h: seq<E>, size: S -> int, gain: (S, E) -> int, b: nat, c: nat)
    requires b <= c <= |h|
    requires forall k | b <= k < c ::
      size(step(Iterate(step, s, h, k), h[k])) == size(Iterate(step, s, h, k)) + gain(Iterate(step, s, h, k), h[k])
    ensures size(Iterate(step, s, h, c)) == size(Iterate(step, s, h, b)) + Total(step, s, h, gain, b, c)
    decreases c
  {
    if b < c { Grows(step, s, h, size, gain, b, c - 1); }
  }

  /** A view that none of the events changes is the same after them. */
  lemma {:induction false} Unseen<S, E, V>(step: (S, E) -> S, s: S, h: seq<E>, view: S -> V, b: nat, n: nat)
    requires b <= n <= |h|
    requires forall k | b <= k < n :: view(step(Iterate(step, s, h, k), h[k])) == view(Iterate(step, s, h, k))
    ensures view(Iterate(step, s, h, n)) == view(Iterate(step, s, h, b))
    decreases n
  {
    if b < n { Unseen(step, s, h, view, b, n - 1); }
  }
}
