/** Bounded retries with exponential backoff, within one invocation and across invocations. */
module Retry {

  // ---------- delays ----------

  function Power(base: real, n: nat): real {
    if n == 0 then 1.0 else base * Power(base, n - 1)
  }

  function Min(a: real, b: real): (r: real)
    ensures r <= a && r <= b && (r == a || r == b)
  {
    if a < b then a else b
  }

  datatype Options = Options(maxAttempts: int, initialDelay: real, maxDelay: real, multiplier: real)

  function Uncapped(attempt: nat, o: Options): real
    requires attempt >= 1
  {
    o.initialDelay * Power(o.multiplier, attempt - 1)
  }

  /** The delay after a failed attempt, counted from 1. */
  function ComputeDelay(attempt: nat, o: Options): real
    requires attempt >= 1
  {
    Min(o.maxDelay, Uncapped(attempt, o))
  }

  /** The delays after the first `n` failed attempts. */
  function Delays(n: nat, o: Options): seq<real> {
    if n == 0 then [] else Delays(n - 1, o) + [ComputeDelay(n, o)]
  }

  function Total(delays: seq<real>): real {
    if delays == [] then 0.0 else Total(delays[..|delays| - 1]) + delays[|delays| - 1]
  }

  ghost predicate NeverShrink(o: Options) {
    forall n: nat :: n >= 1 ==> ComputeDelay(n, o) <= ComputeDelay(n + 1, o)
  }

  lemma Product(i: real, m: real, p: real)
    ensures i * (m * p) == (i * p) * m
    ensures i >= 0.0 && p >= 0.0 ==> i * p >= 0.0
  {
  }

  lemma Scaled(x: real, m: real)
    requires x >= 0.0 && m >= 1.0
    ensures x * m >= x
  {
    assert x * m - x == x * (m - 1.0);
  }

  lemma {:induction false} PowerIsNotNegative(base: real, n: nat)
    requires base >= 0.0
    ensures Power(base, n) >= 0.0
  {
    if n == 0 {
    } else {
      PowerIsNotNegative(base, n - 1);
      Product(base, 0.0, Power(base, n - 1));
    }
  }

  /** Each delay before the cap is the previous one times the multiplier. */
  lemma NextDelay(n: nat, o: Options)
    requires n >= 1
    ensures Uncapped(n + 1, o) == Uncapped(n, o) * o.multiplier
  {
    Product(o.initialDelay, o.multiplier, Power(o.multiplier, n - 1));
  }

  lemma FirstDelay(o: Options)
    ensures Uncapped(1, o) == o.initialDelay
  {
  }

  /** Beyond the cap, multiplying what is capped is as good as multiplying first. */
  lemma CappedMultiple(x: real, cap: real, m: real)
    requires x >= 0.0 && cap >= 0.0 && m >= 1.0
    ensures Min(cap, x * m) == Min(cap, Min(cap, x) * m)
  {
    Scaled(x, m);
    Scaled(cap, m);
  }

  lemma UncappedIsNotNegative(n: nat, o: Options)
    requires n >= 1 && o.initialDelay >= 0.0 && o.multiplier >= 0.0
    ensures Uncapped(n, o) >= 0.0
  {
    PowerIsNotNegative(o.multiplier, n - 1);
    Product(o.initialDelay, 0.0, Power(o.multiplier, n - 1));
  }

  /** The first delay is the initial one, and each next one the multiple of the one before, both up to the cap. */
  lemma DelaysMultiply(n: nat, o: Options)
    requires n >= 1 && o.initialDelay >= 0.0 && o.maxDelay >= 0.0 && o.multiplier >= 1.0
    ensures ComputeDelay(1, o) == Min(o.maxDelay, o.initialDelay)
    ensures ComputeDelay(n + 1, o) == Min(o.maxDelay, ComputeDelay(n, o) * o.multiplier)
  {
    FirstDelay(o);
    NextDelay(n, o);
    UncappedIsNotNegative(n, o);
    CappedMultiple(Uncapped(n, o), o.maxDelay, o.multiplier);
  }

  /** Multipliers of at least 1 never shrink a delay, wherever the first one lies. */
  lemma GrowsOrStays(n: nat, o: Options)
    requires n >= 1 && o.initialDelay >= 0.0 && o.multiplier >= 1.0
    ensures ComputeDelay(n, o) <= ComputeDelay(n + 1, o)
  {
    PowerIsNotNegative(o.multiplier, n - 1);
    Product(o.initialDelay, o.multiplier, Power(o.multiplier, n - 1));
    Scaled(Uncapped(n, o), o.multiplier);
    NextDelay(n, o);
  }

  /** A power of a multiplier below 1 is at most 1 / (1 + n (1 - m)). */
  lemma {:induction false} PowerFalls(m: real, n: nat)
    requires 0.0 <= m < 1.0
    ensures Power(m, n) * (1.0 + n as real * (1.0 - m)) <= 1.0 && Power(m, n) >= 0.0
  {
    PowerIsNotNegative(m, n);
    if n == 0 {
    } else {
      PowerFalls(m, n - 1);
      PowerIsNotNegative(m, n - 1);
      FallsOnce(m, Power(m, n - 1), (n - 1) as real);
    }
  }

  lemma NotNegative(x: real, y: real)
    requires x >= 0.0 && y >= 0.0
    ensures x * y >= 0.0
  {
  }

  lemma NotMore(p: real, z: real, a: real)
    requires p >= 0.0 && z <= a
    ensures p * z <= p * a
  {
    NotNegative(p, a - z);
    assert p * (a - z) == p * a - p * z;
  }

  lemma ShrinksBelow(m: real, d: real, a: real)
    requires 0.0 <= m < 1.0 && d == 1.0 - m && a >= 1.0
    ensures m * (a + d) <= a
  {
    assert m * (a + d) == a - d * (a - 1.0 + d);
    NotNegative(d, a - 1.0 + d);
  }

  lemma Regrouped(m: real, p: real, b: real)
    ensures (m * p) * b == p * (m * b)
  {
  }

  lemma FallsOnce(m: real, p: real, x: real)
    requires 0.0 <= m < 1.0 && p >= 0.0 && x >= 0.0 && p * (1.0 + x * (1.0 - m)) <= 1.0
    ensures (m * p) * (1.0 + (x + 1.0) * (1.0 - m)) <= 1.0
  {
    var d := 1.0 - m;
    var a := 1.0 + x * d;
    assert 1.0 + (x + 1.0) * d == a + d;
    NotNegative(x, d);
    ShrinksBelow(m, d, a);
    NotMore(p, m * (a + d), a);
    Regrouped(m, p, a + d);
  }

  /** Delays before the cap fall below any positive bound when the multiplier is below 1. */
  lemma FallsBelow(o: Options, bound: real) returns (n: nat)
    requires o.initialDelay > 0.0 && 0.0 <= o.multiplier < 1.0 && bound > 0.0
    ensures n >= 1 && Uncapped(n, o) < bound
  {
    var i, d := o.initialDelay, 1.0 - o.multiplier;
    var steps := (i / (bound * d)).Floor + 1;
    assert bound * d > 0.0;
    assert i / (bound * d) >= 0.0;
    n := steps + 1;
    PowerFalls(o.multiplier, steps);
    Below(i, Power(o.multiplier, steps), bound, d, steps as real);
  }

  lemma Below(i: real, p: real, bound: real, d: real, x: real)
    requires i > 0.0 && p >= 0.0 && bound > 0.0 && d > 0.0 && x > i / (bound * d) && p * (1.0 + x * d) <= 1.0
    ensures i * p < bound
  {
    Quotients(i, bound, d, x);
    assert bound * (1.0 + x * d) > i by {
      assert bound * (1.0 + x * d) == bound + x * (bound * d);
    }
    var y := 1.0 + x * d;
    if p == 0.0 {
      assert i * p == 0.0;
    } else {
      assert (i * p) * y == i * (p * y);
      NotMore(i, p * y, 1.0);
      Divided(i * p, y, bound);
    }
  }

  lemma Quotients(i: real, bound: real, d: real, x: real)
    requires i > 0.0 && bound > 0.0 && d > 0.0 && x > i / (bound * d)
    ensures x > 0.0 && x * d > 0.0 && x * (bound * d) > i
  {
    var q := bound * d;
    assert q > 0.0 && (i / q) * q == i;
    assert x * q - i == (x - i / q) * q;
  }

  lemma Divided(a: real, y: real, bound: real)
    requires y > 0.0 && a * y < bound * y
    ensures a < bound
  {
    assert (bound - a) * y > 0.0;
  }

  lemma {:induction false} NeverBelowFirst(o: Options, n: nat)
    requires NeverShrink(o) && n >= 1
    ensures ComputeDelay(1, o) <= ComputeDelay(n, o)
  {
    if n == 1 {
    } else {
      NeverBelowFirst(o, n - 1);
      assert ComputeDelay(n - 1, o) <= ComputeDelay(n - 1 + 1, o);
    }
  }

  /** With a multiplier below 1, a positive first delay and a positive cap, some delay is shorter than the first. */
  lemma SomeDelayShrinks(o: Options)
    requires o.initialDelay > 0.0 && 0.0 <= o.multiplier < 1.0 && o.maxDelay > 0.0
    ensures !NeverShrink(o)
  {
    var n := FallsBelow(o, Min(o.maxDelay, o.initialDelay));
    FirstDelay(o);
    if NeverShrink(o) {
      NeverBelowFirst(o, n);
    }
  }

  /**
   For every first delay and multiplier that is not negative: delays never shrink if and only if the multiplier is at
   least 1, or the first delay is 0, or the cap is not positive.
   */
  lemma NeverShrinkIff(o: Options)
    requires o.initialDelay >= 0.0 && o.multiplier >= 0.0
    ensures NeverShrink(o) <==> o.multiplier >= 1.0 || o.initialDelay == 0.0 || o.maxDelay <= 0.0
  {
    if o.multiplier >= 1.0 || o.initialDelay == 0.0 || o.maxDelay <= 0.0 {
      forall n: nat | n >= 1 ensures ComputeDelay(n, o) <= ComputeDelay(n + 1, o) {
        if o.multiplier >= 1.0 {
          GrowsOrStays(n, o);
        } else {
          FlatDelay(n, o);
          FlatDelay(n + 1, o);
        }
      }
    } else {
      SomeDelayShrinks(o);
    }
  }

  lemma FlatDelay(n: nat, o: Options)
    requires n >= 1 && o.initialDelay >= 0.0 && o.multiplier >= 0.0 && (o.initialDelay == 0.0 || o.maxDelay <= 0.0)
    ensures ComputeDelay(n, o) == if o.maxDelay <= 0.0 then o.maxDelay else 0.0
  {
    PowerIsNotNegative(o.multiplier, n - 1);
    Product(o.initialDelay, o.multiplier, Power(o.multiplier, n - 1));
    if o.initialDelay == 0.0 {
      assert 0.0 * Power(o.multiplier, n - 1) == 0.0;
    }
  }

  /** The whole wait of `n` failed attempts is bounded by the cap. */
  lemma {:induction false} TotalIsBounded(n: nat, o: Options)
    ensures |Delays(n, o)| == n && Total(Delays(n, o)) <= n as real * o.maxDelay
  {
    if n == 0 {
    } else {
      TotalIsBounded(n - 1, o);
      assert Delays(n, o)[..n - 1] == Delays(n - 1, o);
      assert n as real * o.maxDelay == (n - 1) as real * o.maxDelay + o.maxDelay;
    }
  }

  // ---------- attempts ----------

  /** How many calls one invocation makes of an operation called `c` times before: until a success, at most `budget`. */
  function Attempts(fails: nat -> bool, c: nat, budget: nat): (n: nat)
    requires budget >= 1
    ensures 1 <= n <= budget
    decreases budget
  {
    if budget == 1 || !fails(c + 1) then 1 else 1 + Attempts(fails, c + 1, budget - 1)
  }

  /** Every call before the last one failed, and only a spent budget ends with a failure. */
  lemma {:induction false} StopsAtFirstSuccess(fails: nat -> bool, c: nat, budget: nat)
    requires budget >= 1
    ensures forall i :: c < i < c + Attempts(fails, c, budget) ==> fails(i)
    ensures fails(c + Attempts(fails, c, budget)) ==> Attempts(fails, c, budget) == budget
    decreases budget
  {
    if budget == 1 || !fails(c + 1) {
    } else {
      StopsAtFirstSuccess(fails, c + 1, budget - 1);
    }
  }

  datatype Outcome = Done | Failed(call: nat) | InvalidOptions

  /** An operation whose n-th call fails when `fails(n)`; the count is shared by all invocations. */
  class Operation {
    const fails: nat -> bool
    var calls: nat

    constructor (fails: nat -> bool)
      ensures this.fails == fails && calls == 0
    {
      this.fails := fails;
      calls := 0;
    }

    method Call() returns (ok: bool)
      modifies this
      ensures calls == old(calls) + 1 && ok == !fails(calls)
    {
      calls := calls + 1;
      ok := !fails(calls);
    }
  }

  /** Retries until the first success or the end of the budget; a failure carries the number of the last call. */
  method RetryWithBackoff(op: Operation, o: Options) returns (outcome: Outcome, slept: seq<real>)
    modifies op
    ensures o.maxAttempts < 1 ==> outcome == InvalidOptions && slept == [] && op.calls == old(op.calls)
    ensures o.maxAttempts >= 1 ==>
              var n := Attempts(op.fails, old(op.calls), o.maxAttempts);
              && op.calls == old(op.calls) + n
              && slept == Delays(n - 1, o)
              && outcome == if op.fails(op.calls) then Failed(op.calls) else Done
  {
    slept := [];
    if o.maxAttempts < 1 {
      return InvalidOptions, slept;
    }
    var attempt := 1;
    while attempt <= o.maxAttempts
      invariant 1 <= attempt <= o.maxAttempts
      invariant op.calls == old(op.calls) + attempt - 1
      invariant Attempts(op.fails, old(op.calls), o.maxAttempts)
                  == attempt - 1 + Attempts(op.fails, op.calls, o.maxAttempts - attempt + 1)
      invariant slept == Delays(attempt - 1, o)
      decreases o.maxAttempts - attempt
    {
      var ok := op.Call();
      if ok {
        return Done, slept;
      }
      if attempt == o.maxAttempts {
        break;
      }
      slept := slept + [ComputeDelay(attempt, o)];
      attempt := attempt + 1;
    }
    outcome := Failed(op.calls);
  }

  // ---------- an operation that fails `f` times ----------

  function FailsFirst(f: nat): nat -> bool {
    n => n <= f
  }

  /** A fresh operation that fails `f` times is called `min(f + 1, k)` times. */
  lemma {:induction false} CallsOfOneInvocation(f: nat, c: nat, k: nat)
    requires k >= 1
    ensures Attempts(FailsFirst(f), c, k) == if f < c then 1 else if f - c + 1 < k then f - c + 1 else k
    decreases k
  {
    if k == 1 || f <= c {
    } else {
      CallsOfOneInvocation(f, c + 1, k - 1);
    }
  }

  /** The calls made by the first `i` invocations. */
  function CallsAfter(f: nat, k: nat, i: nat): nat
    requires k >= 1
  {
    if i == 0 then 0 else CallsAfter(f, k, i - 1) + Attempts(FailsFirst(f), CallsAfter(f, k, i - 1), k)
  }

  /** Whether the `i`-th invocation succeeds, counted from 1. */
  predicate Succeeds(f: nat, k: nat, i: nat)
    requires k >= 1
  {
    !FailsFirst(f)(CallsAfter(f, k, i))
  }

  lemma {:induction false} FailingInvocationsSpendTheirBudget(f: nat, k: nat, i: nat)
    requires k >= 1 && i * k <= f
    ensures CallsAfter(f, k, i) == i * k
  {
    if i == 0 {
    } else {
      assert (i - 1) * k == i * k - k;
      FailingInvocationsSpendTheirBudget(f, k, i - 1);
      CallsOfOneInvocation(f, (i - 1) * k, k);
    }
  }

  lemma Quotient(f: nat, k: nat, i: nat)
    requires k >= 1
    ensures i <= f / k ==> i * k <= f
    ensures f < (f / k + 1) * k
  {
    var q := f / k;
    assert f == q * k + f % k;
    assert (q + 1) * k == q * k + k;
    if i <= q {
      assert q * k - i * k == (q - i) * k;
      assert (q - i) * k >= 0;
    }
  }

  /**
   With a budget of `k` for each invocation, the first success comes with invocation `f / k + 1`, after `f + 1`
   calls.
   */
  lemma FirstSuccess(f: nat, k: nat)
    requires k >= 1
    ensures Succeeds(f, k, f / k + 1) && CallsAfter(f, k, f / k + 1) == f + 1
    ensures forall i :: 1 <= i <= f / k ==> !Succeeds(f, k, i)
  {
    var q := f / k;
    Quotient(f, k, q);
    FailingInvocationsSpendTheirBudget(f, k, q);
    CallsOfOneInvocation(f, q * k, k);
    assert (q + 1) * k == q * k + k;
    forall i | 1 <= i <= q ensures !Succeeds(f, k, i) {
      Quotient(f, k, i);
      FailingInvocationsSpendTheirBudget(f, k, i);
    }
  }
}
