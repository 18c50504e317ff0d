/**
 What every self-animating effect shares: the outcome of one interval callback,
 running `k` callbacks, and the termination argument that a positive quantity
 changed by a fixed negative increment each tick reaches zero or below after
 finitely many ticks (`TicksUntilNonPositive(a, d)` is that tick number).
 */
module Animation {

  /** The result of one interval callback: the effect lives on, or it has removed itself. */
  datatype Tick<T> = Alive(next: T) | Removed(last: T) {
    /** The effect as this callback left it. */
    function State(): T
    {
      if Alive? then next else last
    }
  }

  /**
   `k` interval callbacks. A removed effect has cleared its own interval, so
   nothing steps it again: its last state is kept.
   */
  function Run<T>(step: T -> Tick<T>, e: T, k: nat): Tick<T>
    decreases k
  {
    if k == 0 then Alive(e)
    else match step(e)
      case Alive(n) => Run(step, n, k - 1)
      case Removed(l) => Removed(l)
  }

  /** Running `k + 1` callbacks is running `k` and then one more (if still alive). */
  lemma {:induction false} RunOneMore<T>(step: T -> Tick<T>, e: T, k: nat)
    ensures Run(step, e, k + 1) == match Run(step, e, k)
                                   case Alive(n) => step(n)
                                   case Removed(l) => Removed(l)
    decreases k
  {
    if k > 0 {
      match step(e)
      case Alive(n) => RunOneMore(step, n, k - 1);
      case Removed(l) =>
    }
  }

  /** After `j` ticks the quantity is still positive. */
  predicate StillPositive(a: real, d: real, j: nat)
  {
    a + j as real * d > 0.0
  }

  /** `k` increments plus one more is `k + 1` increments. */
  lemma AddOnce(a: real, k: nat, x: real)
    ensures a + k as real * x + x == a + (k + 1) as real * x
  {
  }

  /** Multiplying by a positive number keeps the sign. */
  lemma SignOfProduct(x: real, d: real)
    requires d > 0.0
    ensures x > 0.0 ==> x * d > 0.0
    ensures x < 0.0 ==> x * d < 0.0
  {
  }

  /**
   The first tick `k >= 1` at which `a + k*d <= 0`; every earlier tick leaves
   the quantity positive.
   */
  function TicksUntilNonPositive(a: real, d: real): (k: nat)
    requires a > 0.0 && d < 0.0
    ensures k >= 1
    ensures !StillPositive(a, d, k)
    ensures forall j: nat :: j < k ==> StillPositive(a, d, j)
    decreases (a / -d).Floor
  {
    if a + d <= 0.0 then 1
    else
      assert (a + d) / -d == a / -d - 1.0 by {
        var q, q' := a / -d, (a + d) / -d;
        assert q * -d == a;
        assert q' * -d == a + d;
        assert (q' - q + 1.0) * -d == 0.0;
        SignOfProduct(q' - q + 1.0, -d);
      }
      var k' := TicksUntilNonPositive(a + d, d);
      assert forall j: nat :: 1 <= j < k' + 1 ==> StillPositive(a, d, j) by {
        forall j: nat | 1 <= j < k' + 1
          ensures StillPositive(a, d, j)
        {
          assert StillPositive(a + d, d, j - 1);
          assert (j - 1) as real * d == j as real * d - d;
        }
      }
      k' + 1
  }

  /** The first non-positive tick is unique: any tick with the defining property is it. */
  lemma TicksUnique(a: real, d: real, k: nat)
    requires a > 0.0 && d < 0.0 && k >= 1
    requires !StillPositive(a, d, k) && StillPositive(a, d, k - 1)
    ensures TicksUntilNonPositive(a, d) == k
  {
    forall j: nat | j <= k - 1
      ensures StillPositive(a, d, j)
    {
      assert (k - 1 - j) as real * d <= 0.0;
    }
  }
}
