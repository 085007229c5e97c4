/** Values shared by every component of the model. */
module Basics {

  datatype Option<+T> = None | Some(value: T)

  datatype Result<+T, +E> = Ok(value: T) | Err(error: E)

  function Min(a: int, b: int): int {
    if a <= b then a else b
  }

  function Max(a: int, b: int): int {
    if a >= b then a else b
  }

  /** Rust's `filter_map`, collected. */
  function FilterMap<S, T>(f: S -> Option<T>, xs: seq<S>): seq<T> {
    if xs == [] then [] else (if f(xs[0]).Some? then [f(xs[0]).value] else []) + FilterMap(f, xs[1..])
  }

  lemma {:induction false} FilterMapAppend<S, T>(f: S -> Option<T>, a: seq<S>, b: seq<S>)
    ensures FilterMap(f, a + b) == FilterMap(f, a) + FilterMap(f, b)
  {
    if a == [] {
      assert a + b == b;
    } else {
      var first := if f(a[0]).Some? then [f(a[0]).value] else [];
      calc {
        FilterMap(f, a + b);
        { assert (a + b)[0] == a[0] && (a + b)[1..] == a[1..] + b; }
        first + FilterMap(f, a[1..] + b);
        { FilterMapAppend(f, a[1..], b); }
        first + (FilterMap(f, a[1..]) + FilterMap(f, b));
        (first + FilterMap(f, a[1..])) + FilterMap(f, b);
        FilterMap(f, a) + FilterMap(f, b);
      }
    }
  }

  lemma FilterMapOne<S, T>(f: S -> Option<T>, x: S)
    ensures FilterMap(f, [x]) == if f(x).Some? then [f(x).value] else []
  {
    assert [x][1..] == [];
  }

  /** The state of a machine after its first `n` inputs. */
  function StateAfter<S, I>(step: (S, I) -> S, s: S, inputs: seq<I>, n: nat): S
    requires n <= |inputs|
  {
    if n == 0 then s else step(StateAfter(step, s, inputs, n - 1), inputs[n - 1])
  }

  /** The state of a machine after all of its inputs. */
  function Final<S, I>(step: (S, I) -> S, s: S, inputs: seq<I>): S {
    StateAfter(step, s, inputs, |inputs|)
  }

  /** A run given state by state. */
  lemma {:induction false} StatesAlong<S, I>(step: (S, I) -> S, s: S, inputs: seq<I>, states: seq<S>, n: nat)
    requires |states| == |inputs| + 1 && n <= |inputs| && states[0] == s
    requires forall i | 0 <= i < |inputs| :: step(states[i], inputs[i]) == states[i + 1]
    ensures StateAfter(step, s, inputs, n) == states[n]
  {
    if n > 0 {
      StatesAlong(step, s, inputs, states, n - 1);
    }
  }

  lemma {:induction false} StateInPrefix<S, I>(step: (S, I) -> S, s: S, a: seq<I>, b: seq<I>, n: nat)
    requires n <= |a|
    ensures StateAfter(step, s, a + b, n) == StateAfter(step, s, a, n)
  {
    if n > 0 {
      StateInPrefix(step, s, a, b, n - 1);
    }
  }

  /** A run on a concatenation goes on from where the first part ends. */
  lemma {:induction false} StateInSuffix<S, I>(step: (S, I) -> S, s: S, a: seq<I>, b: seq<I>, n: nat)
    requires n <= |b|
    ensures StateAfter(step, s, a + b, |a| + n) == StateAfter(step, Final(step, s, a), b, n)
  {
    if n == 0 {
      StateInPrefix(step, s, a, b, |a|);
    } else {
      StateInSuffix(step, s, a, b, n - 1);
      assert (a + b)[|a| + n - 1] == b[n - 1];
    }
  }

  /** What the first `n` steps of a run gain in all. */
  function Tally<S, I>(step: (S, I) -> S, s: S, inputs: seq<I>, gain: (S, I) -> nat, n: nat): nat
    requires n <= |inputs|
  {
    if n == 0 then 0
    else Tally(step, s, inputs, gain, n - 1) + gain(StateAfter(step, s, inputs, n - 1), inputs[n - 1])
  }

  predicate GainsAt<S, I>(
    step: (S, I) -> S, m: S -> nat, a: (S, I) -> nat, b: (S, I) -> nat, c: (S, I) -> nat, x: S, e: I)
  {
    m(step(x, e)) == m(x) + a(x, e) + b(x, e) + c(x, e)
  }

  lemma {:induction false} TallyInRuns<S(!new), I(!new)>(
    step: (S, I) -> S, s: S, inputs: seq<I>, m: S -> nat, a: (S, I) -> nat, b: (S, I) -> nat, c: (S, I) -> nat, n: nat)
    requires n <= |inputs|
    requires forall x, e {:trigger GainsAt(step, m, a, b, c, x, e)} :: GainsAt(step, m, a, b, c, x, e)
    ensures m(StateAfter(step, s, inputs, n))
         == m(s) + Tally(step, s, inputs, a, n) + Tally(step, s, inputs, b, n) + Tally(step, s, inputs, c, n)
  {
    if n > 0 {
      TallyInRuns(step, s, inputs, m, a, b, c, n - 1);
      assert GainsAt(step, m, a, b, c, StateAfter(step, s, inputs, n - 1), inputs[n - 1]);
    }
  }

  /** What the first `n` steps of a run leave behind, in order. */
  function Gathered<S, I, X>(step: (S, I) -> S, s: S, inputs: seq<I>, leaves: (S, I) -> seq<X>, n: nat): seq<X>
    requires n <= |inputs|
  {
    if n == 0 then []
    else Gathered(step, s, inputs, leaves, n - 1) + leaves(StateAfter(step, s, inputs, n - 1), inputs[n - 1])
  }

  lemma {:induction false} OneEach<S, I, X>(step: (S, I) -> S, s: S, inputs: seq<I>, leaves: (S, I) -> seq<X>, xs: seq<X>, n: nat)
    requires n <= |inputs| == |xs|
    requires forall k | 0 <= k < |inputs| :: leaves(StateAfter(step, s, inputs, k), inputs[k]) == [xs[k]]
    ensures Gathered(step, s, inputs, leaves, n) == xs[..n]
  {
    if n > 0 {
      OneEach(step, s, inputs, leaves, xs, n - 1);
    }
  }

  predicate FollowsAt<S, I, X(!new)>(
    step: (S, I) -> S, leaves: (S, I) -> seq<X>, gain: (S, I) -> nat, inv: (S, seq<X>, nat) -> bool,
    x: S, left: seq<X>, k: nat, e: I)
  {
    inv(x, left, k) ==> inv(step(x, e), left + leaves(x, e), k + gain(x, e))
  }

  /** What every step keeps of the state, of what was left behind and of a tally holds all along. */
  lemma {:induction false} FollowsInRuns<S(!new), I(!new), X(!new)>(
    step: (S, I) -> S, s: S, inputs: seq<I>, leaves: (S, I) -> seq<X>, gain: (S, I) -> nat,
    inv: (S, seq<X>, nat) -> bool, n: nat)
    requires n <= |inputs| && inv(s, [], 0)
    requires forall x, left, k, e {:trigger FollowsAt(step, leaves, gain, inv, x, left, k, e)} ::
               FollowsAt(step, leaves, gain, inv, x, left, k, e)
    ensures inv(StateAfter(step, s, inputs, n), Gathered(step, s, inputs, leaves, n), Tally(step, s, inputs, gain, n))
  {
    if n > 0 {
      FollowsInRuns(step, s, inputs, leaves, gain, inv, n - 1);
      assert FollowsAt(step, leaves, gain, inv, StateAfter(step, s, inputs, n - 1),
                       Gathered(step, s, inputs, leaves, n - 1), Tally(step, s, inputs, gain, n - 1), inputs[n - 1]);
    }
  }

  // ---------------------------------------------------------------- temporal reasoning

  predicate SinceFrom(p: nat -> bool, q: nat -> bool, m: nat, n: nat) {
    m < n && p(m) && forall k: nat {:trigger q(k)} | m < k < n :: !q(k)
  }

  /** Before step `n`, `p` has happened at some step, and `q` at none after that. */
  predicate Since(p: nat -> bool, q: nat -> bool, n: nat) {
    exists m | 0 <= m < n :: SinceFrom(p, q, m, n)
  }

  /** Where in a run an event of a certain kind happens. */
  function Occurs<S, I>(step: (S, I) -> S, s: S, inputs: seq<I>, kind: (S, I) -> bool): nat -> bool {
    (k: nat) => k < |inputs| && kind(StateAfter(step, s, inputs, k), inputs[k])
  }

  /** The step keeps the invariant, switches `h` on exactly with `on`, and off with `off`. */
  predicate SwitchesAt<S, I>(
    step: (S, I) -> S, inv: S -> bool, h: S -> bool, on: (S, I) -> bool, off: (S, I) -> bool, x: S, e: I)
  {
    inv(x) ==> inv(step(x, e)) && (h(step(x, e)) <==> on(x, e) || (h(x) && !off(x, e)))
  }

  ghost predicate Switches<S(!new), I(!new)>(
    step: (S, I) -> S, inv: S -> bool, h: S -> bool, on: (S, I) -> bool, off: (S, I) -> bool)
  {
    forall x, e {:trigger SwitchesAt(step, inv, h, on, off, x, e)} :: SwitchesAt(step, inv, h, on, off, x, e)
  }

  /** Then along every run `h` holds exactly since `on` and not since `off`. */
  lemma {:induction false} SinceInRuns<S(!new), I(!new)>(
    step: (S, I) -> S, s: S, inputs: seq<I>, inv: S -> bool, h: S -> bool, on: (S, I) -> bool, off: (S, I) -> bool, n: nat)
    requires n <= |inputs| && inv(s) && !h(s) && Switches(step, inv, h, on, off)
    ensures inv(StateAfter(step, s, inputs, n))
    ensures h(StateAfter(step, s, inputs, n)) <==> Since(Occurs(step, s, inputs, on), Occurs(step, s, inputs, off), n)
  {
    if n > 0 {
      SinceInRuns(step, s, inputs, inv, h, on, off, n - 1);
      assert SwitchesAt(step, inv, h, on, off, StateAfter(step, s, inputs, n - 1), inputs[n - 1]);
      SinceStep(Occurs(step, s, inputs, on), Occurs(step, s, inputs, off), n);
    }
  }

  lemma SinceLasts(p: nat -> bool, q: nat -> bool, n: nat, later: nat)
    requires Since(p, q, n) && n <= later && forall k: nat {:trigger q(k)} | n <= k < later :: !q(k)
    ensures Since(p, q, later)
  {
    var m: nat :| m < n && SinceFrom(p, q, m, n);
    assert SinceFrom(p, q, m, later);
  }

  lemma SinceStep(p: nat -> bool, q: nat -> bool, n: nat)
    requires n > 0
    ensures Since(p, q, n) <==> p(n - 1) || (Since(p, q, n - 1) && !q(n - 1))
  {
    if p(n - 1) {
      assert SinceFrom(p, q, n - 1, n);
    } else {
      if Since(p, q, n - 1) && !q(n - 1) {
        var m: nat :| m < n - 1 && SinceFrom(p, q, m, n - 1);
        assert SinceFrom(p, q, m, n);
      }
      if Since(p, q, n) {
        var m: nat :| m < n && SinceFrom(p, q, m, n);
        assert m != n - 1 && !q(n - 1);
        assert SinceFrom(p, q, m, n - 1);
      }
    }
  }

  lemma FinalOfConcat<S, I>(step: (S, I) -> S, s: S, a: seq<I>, b: seq<I>)
    ensures Final(step, s, a + b) == Final(step, Final(step, s, a), b)
  {
    StateInSuffix(step, s, a, b, |b|);
  }

  lemma FinalOfOne<S, I>(step: (S, I) -> S, s: S, input: I)
    ensures Final(step, s, [input]) == step(s, input)
  {
    assert StateAfter(step, s, [input], 0) == s;
  }

  predicate KeepsAt<S, I>(step: (S, I) -> S, inv: S -> bool, x: S, e: I) {
    inv(x) ==> inv(step(x, e))
  }

  /** An invariant that holds at some step holds at every later one. */
  lemma {:induction false} InvariantFrom<S(!new), I(!new)>(
    step: (S, I) -> S, inv: S -> bool, s: S, inputs: seq<I>, i: nat, j: nat)
    requires i <= j <= |inputs| && inv(StateAfter(step, s, inputs, i))
    requires forall x, e {:trigger KeepsAt(step, inv, x, e)} :: KeepsAt(step, inv, x, e)
    ensures inv(StateAfter(step, s, inputs, j))
    decreases j
  {
    if i < j {
      InvariantFrom(step, inv, s, inputs, i, j - 1);
      assert KeepsAt(step, inv, StateAfter(step, s, inputs, j - 1), inputs[j - 1]);
    }
  }

  predicate QuietAt<S, I>(step: (S, I) -> S, inv: S -> bool, gain: (S, I) -> nat, x: S, e: I) {
    inv(x) ==> inv(step(x, e)) && gain(x, e) == 0
  }

  lemma {:induction false} QuietInRuns<S(!new), I(!new)>(
    step: (S, I) -> S, inv: S -> bool, gain: (S, I) -> nat, s: S, inputs: seq<I>, n: nat)
    requires n <= |inputs| && inv(s)
    requires forall x, e {:trigger QuietAt(step, inv, gain, x, e)} :: QuietAt(step, inv, gain, x, e)
    ensures inv(StateAfter(step, s, inputs, n)) && Tally(step, s, inputs, gain, n) == 0
  {
    if n > 0 {
      QuietInRuns(step, inv, gain, s, inputs, n - 1);
      assert QuietAt(step, inv, gain, StateAfter(step, s, inputs, n - 1), inputs[n - 1]);
    }
  }

  /** A relation that every step from the abstract states of a run preserves holds all along it. */
  lemma {:induction false} Simulation<A, B, I>(
    stepA: (A, I) -> A, stepB: (B, I) -> B, related: (A, B) -> bool, a: A, b: B, inputs: seq<I>, n: nat)
    requires n <= |inputs| && related(a, b)
    requires forall k, x {:trigger related(x, StateAfter(stepB, b, inputs, k))} |
               0 <= k < n && related(x, StateAfter(stepB, b, inputs, k)) ::
               related(stepA(x, inputs[k]), StateAfter(stepB, b, inputs, k + 1))
    ensures related(StateAfter(stepA, a, inputs, n), StateAfter(stepB, b, inputs, n))
  {
    if n > 0 {
      Simulation(stepA, stepB, related, a, b, inputs, n - 1);
    }
  }

  function Iterate<S>(f: S -> S, s: S, k: nat): S {
    if k == 0 then s else f(Iterate(f, s, k - 1))
  }

  predicate AddsAt<S>(f: S -> S, ok: S -> bool, m: S -> nat, cap: nat, step: nat, x: S) {
    ok(x) ==> ok(f(x)) && m(f(x)) == Min(cap, m(x) + step)
  }

  /** A measure that every turn raises by `step`, up to a cap. */
  lemma {:induction false} IterateAdds<S(!new)>(f: S -> S, ok: S -> bool, m: S -> nat, cap: nat, step: nat, s: S, k: nat)
    requires ok(s) && m(s) <= cap
    requires forall x {:trigger AddsAt(f, ok, m, cap, step, x)} :: AddsAt(f, ok, m, cap, step, x)
    ensures ok(Iterate(f, s, k)) && m(Iterate(f, s, k)) == Min(cap, m(s) + step * k)
  {
    if k > 0 {
      IterateAdds(f, ok, m, cap, step, s, k - 1);
      assert AddsAt(f, ok, m, cap, step, Iterate(f, s, k - 1));
      assert step * k == step * (k - 1) + step;
    }
  }

  const U64_LIMIT: nat := 0x1_0000_0000_0000_0000

  newtype byte = b: int | 0 <= b < 256

  type Bytes = seq<byte>

  type Uuid = u: Bytes | |u| == 16 witness [0, 0, 0, 0, 0, 0, 0, 0, 0, 0, 0, 0, 0, 0, 0, 0]

  const NIL_UUID: Uuid := [0, 0, 0, 0, 0, 0, 0, 0, 0, 0, 0, 0, 0, 0, 0, 0]

  /** The bytes of an ASCII literal. */
  function Ascii(s: string): (b: Bytes)
    requires forall i | 0 <= i < |s| :: s[i] as int < 128
    ensures |b| == |s| && forall i | 0 <= i < |s| :: b[i] as int == s[i] as int
  {
    seq(|s|, i requires 0 <= i < |s| => s[i] as int as byte)
  }
}
