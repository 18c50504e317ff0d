/**
 The expanding, fading sensor circle of the modular simulation
 (`createExplosion`). Each interval callback adds the scale and alpha
 increments to two factors; the first callback that takes the alpha factor to
 zero or below removes the circle and returns before redrawing it; every other
 callback redraws radius and fill from the factors.
 */
module Explosion {
  import opened Basics
  import opened Animation

  datatype Explosion = Explosion(
    center: Point,
    color: Color,
    initScale: real,
    initAlpha: real,
    scaleIncrease: real,
    alphaIncrease: real,
    interval: nat,
    scaleFactor: real,
    alphaFactor: real,
    radius: real,
    fillAlpha: real)

  /** Default rates and interval of `createExplosion`. */
  const DefaultScaleIncrease: real := 0.1
  const DefaultAlphaIncrease: real := -0.1
  const DefaultInterval: nat := 70

  /** The circle as it is added to the world: radius `initScale`, fill alpha `initAlpha`, both factors 1. */
  predicate IsFresh(e: Explosion)
  {
    && e.scaleFactor == 1.0 && e.alphaFactor == 1.0
    && e.radius == e.initScale && e.fillAlpha == e.initAlpha
  }

  /** The parameters fixed at creation. */
  predicate SameParams(e: Explosion, f: Explosion)
  {
    && e.center == f.center && e.color == f.color
    && e.initScale == f.initScale && e.initAlpha == f.initAlpha
    && e.scaleIncrease == f.scaleIncrease && e.alphaIncrease == f.alphaIncrease
    && e.interval == f.interval
  }

  function Create(center: Point, color: Color, initScale: real, initAlpha: real,
                  scaleIncrease: real, alphaIncrease: real, interval: nat): (e: Explosion)
    ensures IsFresh(e)
    ensures e.center == center && e.color == color && e.interval == interval
    ensures e.initScale == initScale && e.initAlpha == initAlpha
    ensures e.scaleIncrease == scaleIncrease && e.alphaIncrease == alphaIncrease
  {
    Explosion(center, color, initScale, initAlpha, scaleIncrease, alphaIncrease, interval,
              1.0, 1.0, initScale, initAlpha)
  }

  /** `createExplosion(x, y, color, initScale, initAlpha)` with the default rates and interval. */
  function CreateDefault(center: Point, color: Color, initScale: real, initAlpha: real): (e: Explosion)
    ensures IsFresh(e) && e.center == center && e.color == color
    ensures e.initScale == initScale && e.initAlpha == initAlpha
    ensures e.scaleIncrease == 0.1 && e.alphaIncrease == -0.1 && e.interval == 70
  {
    Create(center, color, initScale, initAlpha, DefaultScaleIncrease, DefaultAlphaIncrease, DefaultInterval)
  }

  /** One interval callback. */
  function Step(e: Explosion): (r: Tick<Explosion>)
    ensures r.Removed? <==> e.alphaFactor + e.alphaIncrease <= 0.0
    ensures r.Alive? ==> SameParams(e, r.next)
    ensures r.Removed? ==> SameParams(e, r.last)
    ensures r.Alive? && e.alphaIncrease < 0.0 ==> r.next.alphaFactor < e.alphaFactor
    ensures r.Alive? && e.initAlpha > 0.0 ==> r.next.fillAlpha > 0.0
    // the removal tick returns before touching the drawn radius and fill
    ensures r.Removed? ==> r.last.radius == e.radius && r.last.fillAlpha == e.fillAlpha
  {
    var scaleFactor := e.scaleFactor + e.scaleIncrease;
    var alphaFactor := e.alphaFactor + e.alphaIncrease;
    var e' := e.(scaleFactor := scaleFactor, alphaFactor := alphaFactor);
    if alphaFactor <= 0.0 then Removed(e')
    else Alive(e'.(radius := e.initScale * scaleFactor, fillAlpha := e.initAlpha * alphaFactor))
  }

  /** `k` interval callbacks of one circle. */
  function Run(e: Explosion, k: nat): Tick<Explosion>
  {
    Animation.Run(Step, e, k)
  }

  /** Reference definition: the circle after `k` live callbacks, in closed form. */
  function AfterTicks(e: Explosion, k: nat): Explosion
  {
    var scaleFactor := 1.0 + k as real * e.scaleIncrease;
    var alphaFactor := 1.0 + k as real * e.alphaIncrease;
    e.(scaleFactor := scaleFactor, alphaFactor := alphaFactor,
       radius := e.initScale * scaleFactor, fillAlpha := e.initAlpha * alphaFactor)
  }

  /** The number of the removal callback: the first `k` with `1 + k*alphaIncrease <= 0`. */
  function Lifetime(e: Explosion): (k: nat)
    requires e.alphaIncrease < 0.0
    ensures k >= 1
    ensures !AlphaPositiveAt(e, k)
    ensures forall j: nat :: j < k ==> AlphaPositiveAt(e, j)
  {
    TicksUntilNonPositive(1.0, e.alphaIncrease)
  }

  /** After `j` callbacks the alpha factor `1 + j*alphaIncrease` is still positive. */
  predicate AlphaPositiveAt(e: Explosion, j: nat)
  {
    StillPositive(1.0, e.alphaIncrease, j)
  }

  lemma AlphaPositiveMeans(e: Explosion, j: nat)
    ensures AlphaPositiveAt(e, j) <==> AfterTicks(e, j).alphaFactor > 0.0
  {
  }

  /** One callback on the closed form of `k` callbacks gives the closed form of `k + 1`, or removal. */
  lemma StepAfterTicks(e: Explosion, k: nat)
    ensures AlphaPositiveAt(e, k + 1) ==> Step(AfterTicks(e, k)) == Alive(AfterTicks(e, k + 1))
    ensures !AlphaPositiveAt(e, k + 1) ==> Step(AfterTicks(e, k)).Removed?
    ensures !AlphaPositiveAt(e, k + 1) ==> Step(AfterTicks(e, k)).last.radius == AfterTicks(e, k).radius
    ensures !AlphaPositiveAt(e, k + 1) ==> Step(AfterTicks(e, k)).last.fillAlpha == AfterTicks(e, k).fillAlpha
  {
    AddOnce(1.0, k, e.alphaIncrease);
    AlphaPositiveMeans(e, k + 1);
    if AlphaPositiveAt(e, k + 1) {
      StepAfterTicksFields(e, k);
    }
  }

  /** Field by field, a live callback on the closed form of `k` callbacks gives that of `k + 1`. */
  lemma StepAfterTicksFields(e: Explosion, k: nat)
    requires AfterTicks(e, k).alphaFactor + e.alphaIncrease > 0.0
    ensures Step(AfterTicks(e, k)).next.radius == AfterTicks(e, k + 1).radius
    ensures Step(AfterTicks(e, k)).next.fillAlpha == AfterTicks(e, k + 1).fillAlpha
    ensures Step(AfterTicks(e, k)).next.scaleFactor == AfterTicks(e, k + 1).scaleFactor
    ensures Step(AfterTicks(e, k)).next.alphaFactor == AfterTicks(e, k + 1).alphaFactor
    ensures SameParams(Step(AfterTicks(e, k)).next, AfterTicks(e, k + 1))
  {
    AddOnce(1.0, k, e.scaleIncrease);
    AddOnce(1.0, k, e.alphaIncrease);
  }

  /**
   The lifecycle of a fresh circle whose alpha increment is negative: it is
   alive, in the closed form of `AfterTicks`, for every `k` before its
   lifetime; it is removed at its lifetime with the radius and fill of the
   previous callback still drawn; and later callbacks change nothing.
   */
  lemma {:induction false} Lifecycle(e: Explosion, k: nat)
    requires IsFresh(e) && e.alphaIncrease < 0.0
    ensures k < Lifetime(e) ==> Run(e, k) == Alive(AfterTicks(e, k))
    ensures k >= Lifetime(e) ==> Run(e, k).Removed?
    ensures k >= Lifetime(e) ==> Run(e, k) == Run(e, Lifetime(e))
    ensures k >= Lifetime(e) ==> Run(e, k).last.radius == AfterTicks(e, Lifetime(e) - 1).radius
    ensures k >= Lifetime(e) ==> Run(e, k).last.fillAlpha == AfterTicks(e, Lifetime(e) - 1).fillAlpha
  {
    var L := Lifetime(e);
    if k == 0 {
      assert AfterTicks(e, 0) == e;
    } else {
      Lifecycle(e, k - 1);
      RunOneMore(Step, e, k - 1);
      if k - 1 < L {
        StepAfterTicks(e, k - 1);
        if k < L {
          assert AlphaPositiveAt(e, k);
        }
      }
    }
  }

  /**
   What is drawn after `k` live callbacks of a fresh circle: radius
   `initScale * (1 + k*scaleIncrease)` and fill alpha `initAlpha * (1 + k*alphaIncrease)`.
   */
  lemma Appearance(e: Explosion, k: nat)
    requires IsFresh(e) && e.alphaIncrease < 0.0
    requires k < Lifetime(e)
    ensures Run(e, k).Alive?
    ensures Run(e, k).next.radius == e.initScale * (1.0 + k as real * e.scaleIncrease)
    ensures Run(e, k).next.fillAlpha == e.initAlpha * (1.0 + k as real * e.alphaIncrease)
  {
    Lifecycle(e, k);
  }

  /**
   While alive after at least one callback, the drawn alpha lies strictly
   between 0 and `initAlpha` and falls with every callback.
   */
  lemma AlphaFades(e: Explosion, k: nat)
    requires e.alphaIncrease < 0.0 && e.initAlpha > 0.0
    requires 1 <= k < Lifetime(e)
    ensures 0.0 < AfterTicks(e, k).fillAlpha < e.initAlpha
    ensures AfterTicks(e, k).fillAlpha < AfterTicks(e, k - 1).fillAlpha
  {
    var a, a' := AfterTicks(e, k - 1).alphaFactor, AfterTicks(e, k).alphaFactor;
    assert AlphaPositiveAt(e, k);
    AlphaPositiveMeans(e, k);
    NegativeTimesPositive(k, e.alphaIncrease);
    AddOnce(1.0, k - 1, e.alphaIncrease);
    FadeArith(e.initAlpha, a, a');
  }

  /** The arithmetic of `AlphaFades`, over plain numbers. */
  lemma FadeArith(c: real, a: real, a': real)
    requires c > 0.0 && 0.0 < a' < 1.0 && a' < a
    ensures 0.0 < c * a' < c
    ensures c * a' < c * a
  {
  }

  lemma NegativeTimesPositive(k: nat, x: real)
    requires k >= 1 && x < 0.0
    ensures k as real * x < 0.0
  {
  }

  /** The collision explosion (`alphaIncrease` -0.1) is removed on its 10th callback. */
  lemma CollisionExplosionLifetime(center: Point, color: Color)
    ensures Lifetime(CreateDefault(center, color, 30.0, 0.5)) == 10
  {
    TicksUnique(1.0, -0.1, 10);
  }

  /** The three click rings (-0.05, -0.07, -0.09) are removed on their 20th, 15th and 12th callbacks. */
  lemma ClickRingLifetimes(center: Point, color: Color)
    ensures Lifetime(Create(center, color, 5.0, 0.7, 1.5, -0.05, 30)) == 20
    ensures Lifetime(Create(center, color, 5.0, 0.7, 2.0, -0.07, 30)) == 15
    ensures Lifetime(Create(center, color, 5.0, 0.7, 3.0, -0.09, 30)) == 12
  {
    TicksUnique(1.0, -0.05, 20);
    TicksUnique(1.0, -0.07, 15);
    TicksUnique(1.0, -0.09, 12);
  }
}
