/**
 The two fading sensor circles of the monolithic copy: the click indicator and
 the collision bloom. Unlike the modular explosion, each interval callback
 adds the increments and redraws radius and fill FIRST, and only then checks
 the opacity, so the removal callback still writes a radius and a fill.
 */
module LegacyEffects {
  import opened Basics
  import opened Animation

  datatype Fader = Fader(
    center: Point,
    tickColor: Color,      // the rgb part of the fill written by every callback
    radiusUnit: real,      // radius = radiusUnit * scale
    scaleStep: real,
    opacityIncrement: real,
    interval: nat,
    initScale: real,
    initOpacity: real,
    scale: real,
    opacity: real,
    fill: Color,
    radius: real,
    fillAlpha: real)

  /** The parameters fixed at creation. */
  predicate SameParams(e: Fader, f: Fader)
  {
    && e.center == f.center && e.tickColor == f.tickColor
    && e.radiusUnit == f.radiusUnit && e.scaleStep == f.scaleStep
    && e.opacityIncrement == f.opacityIncrement && e.interval == f.interval
    && e.initScale == f.initScale && e.initOpacity == f.initOpacity
  }

  /** The circle as added to the world, before any callback. */
  predicate IsFresh(e: Fader)
  {
    e.scale == e.initScale && e.opacity == e.initOpacity && e.fillAlpha == e.initOpacity
  }

  /** `createClickIndicator`: radius 5, fill `rgba(255, 100, 100, 0.7)`; scale 5 (+4), opacity 0.7 (-0.1), every 30 ms. */
  function ClickIndicator(center: Point): (e: Fader)
    ensures IsFresh(e) && e.center == center
    ensures e.radius == 5.0 && e.fill == Rgb(255, 100, 100) && e.fillAlpha == 0.7
    ensures e.scaleStep == 4.0 && e.opacityIncrement == -0.1 && e.interval == 30
    // every callback draws radius 5 * scale, starting from scale 5, in the same rgb
    ensures e.initScale == 5.0 && e.radiusUnit == 5.0 && e.tickColor == Rgb(255, 100, 100)
  {
    Fader(center, Rgb(255, 100, 100), 5.0, 4.0, -0.1, 30, 5.0, 0.7,
          5.0, 0.7, Rgb(255, 100, 100), 5.0, 0.7)
  }

  /** `createBloom`: radius 30, fill `rgba(255, 255, 100, 0.5)`; scale 1 (+0.18), opacity 0.5 (-0.05), every 70 ms; later fills are `rgb(255, 255, 0)`. */
  function Bloom(center: Point): (e: Fader)
    ensures IsFresh(e) && e.center == center
    ensures e.radius == 30.0 && e.fill == Rgb(255, 255, 100) && e.fillAlpha == 0.5
    ensures e.scaleStep == 0.18 && e.opacityIncrement == -0.05 && e.interval == 70
    // every callback draws radius 30 * scale, starting from scale 1, in `rgb(255, 255, 0)`
    ensures e.initScale == 1.0 && e.radiusUnit == 30.0 && e.tickColor == Rgb(255, 255, 0)
  {
    Fader(center, Rgb(255, 255, 0), 30.0, 0.18, -0.05, 70, 1.0, 0.5,
          1.0, 0.5, Rgb(255, 255, 100), 30.0, 0.5)
  }

  /** One interval callback: update scale, opacity, radius and fill, then check. */
  function Step(e: Fader): (r: Tick<Fader>)
    ensures r.Removed? <==> e.opacity + e.opacityIncrement <= 0.0
    ensures r.Alive? ==> SameParams(e, r.next) && r.next.fill == e.tickColor
    ensures r.Removed? ==> SameParams(e, r.last) && r.last.fill == e.tickColor
    ensures r.Alive? && e.opacityIncrement < 0.0 ==> r.next.opacity < e.opacity
    ensures r.Alive? ==> r.next.fillAlpha > 0.0
    // the removal callback has already written a non-positive opacity into the fill
    ensures r.Removed? ==> r.last.fillAlpha <= 0.0
    ensures r.State().scale == e.scale + e.scaleStep && r.State().radius == e.radiusUnit * r.State().scale
    // the new opacity is written into the fill, and it is the one checked
    ensures r.State().opacity == e.opacity + e.opacityIncrement && r.State().fillAlpha == r.State().opacity
  {
    var scale := e.scale + e.scaleStep;
    var opacity := e.opacity + e.opacityIncrement;
    var e' := e.(scale := scale, opacity := opacity, radius := e.radiusUnit * scale,
                 fill := e.tickColor, fillAlpha := opacity);
    if opacity <= 0.0 then Removed(e') else Alive(e')
  }

  function Run(e: Fader, k: nat): Tick<Fader>
  {
    Animation.Run(Step, e, k)
  }

  /** Reference definition: the circle as redrawn by its `k`-th callback (`k >= 1`), in closed form. */
  function AfterTicks(e: Fader, k: nat): Fader
  {
    var scale := e.initScale + k as real * e.scaleStep;
    var opacity := e.initOpacity + k as real * e.opacityIncrement;
    e.(scale := scale, opacity := opacity, radius := e.radiusUnit * scale,
       fill := e.tickColor, fillAlpha := opacity)
  }

  /** After `j` callbacks the opacity `initOpacity + j*opacityIncrement` is still positive. */
  predicate OpacityPositiveAt(e: Fader, j: nat)
  {
    StillPositive(e.initOpacity, e.opacityIncrement, j)
  }

  /** The number of the removal callback: the first `k` with `initOpacity + k*opacityIncrement <= 0`. */
  function Lifetime(e: Fader): (k: nat)
    requires e.initOpacity > 0.0 && e.opacityIncrement < 0.0
    ensures k >= 1
    ensures !OpacityPositiveAt(e, k)
    ensures forall j: nat :: j < k ==> OpacityPositiveAt(e, j)
  {
    TicksUntilNonPositive(e.initOpacity, e.opacityIncrement)
  }

  lemma OpacityPositiveMeans(e: Fader, j: nat)
    ensures OpacityPositiveAt(e, j) <==> AfterTicks(e, j).opacity > 0.0
  {
  }

  /** Field by field, one callback on the closed form of `k` callbacks gives that of `k + 1`. */
  lemma StepAfterTicksFields(e: Fader, k: nat)
    ensures Step(AfterTicks(e, k)).Alive? <==> OpacityPositiveAt(e, k + 1)
    ensures Step(AfterTicks(e, k)).State().scale == AfterTicks(e, k + 1).scale
    ensures Step(AfterTicks(e, k)).State().opacity == AfterTicks(e, k + 1).opacity
    ensures Step(AfterTicks(e, k)).State().radius == AfterTicks(e, k + 1).radius
    ensures Step(AfterTicks(e, k)).State().fillAlpha == AfterTicks(e, k + 1).fillAlpha
    ensures Step(AfterTicks(e, k)).State().fill == AfterTicks(e, k + 1).fill
    ensures SameParams(Step(AfterTicks(e, k)).State(), AfterTicks(e, k + 1))
  {
    AddOnce(e.initScale, k, e.scaleStep);
    AddOnce(e.initOpacity, k, e.opacityIncrement);
    OpacityPositiveMeans(e, k + 1);
  }

  /** One callback on the closed form of `k` callbacks redraws the closed form of `k + 1`, and removes it when its opacity is no longer positive. */
  lemma StepAfterTicks(e: Fader, k: nat)
    ensures OpacityPositiveAt(e, k + 1) ==> Step(AfterTicks(e, k)) == Alive(AfterTicks(e, k + 1))
    ensures !OpacityPositiveAt(e, k + 1) ==> Step(AfterTicks(e, k)) == Removed(AfterTicks(e, k + 1))
  {
    StepAfterTicksFields(e, k);
  }

  /** The first callback overwrites everything the creation drew, so a fresh circle steps like the closed form at 0. */
  lemma FreshStepsLikeClosedForm(e: Fader)
    requires IsFresh(e)
    ensures Step(e) == Step(AfterTicks(e, 0))
  {
    var a := AfterTicks(e, 0);
    assert a.scale == e.scale && a.opacity == e.opacity;
    StepIgnoresDrawn(e, a);
  }

  /** A callback reads only the parameters, the scale and the opacity: what was drawn before is overwritten. */
  lemma StepIgnoresDrawn(e: Fader, f: Fader)
    requires SameParams(e, f) && e.scale == f.scale && e.opacity == f.opacity
    ensures Step(e) == Step(f)
  {
    var s, o := e.scale + e.scaleStep, e.opacity + e.opacityIncrement;
    var drawn := e.(scale := s, opacity := o, radius := e.radiusUnit * s, fill := e.tickColor, fillAlpha := o);
    assert drawn == f.(scale := s, opacity := o, radius := f.radiusUnit * s, fill := f.tickColor, fillAlpha := o);
    assert Step(e).State() == drawn;
    assert Step(f).State() == drawn;
  }

  /**
   The lifecycle of a fresh circle whose opacity falls: alive in the closed
   form of `AfterTicks` after every callback before its lifetime; removed at
   its lifetime AFTER that callback has redrawn radius and fill; and nothing
   changes afterwards.
   */
  lemma {:induction false} Lifecycle(e: Fader, k: nat)
    requires IsFresh(e) && e.initOpacity > 0.0 && e.opacityIncrement < 0.0
    ensures k == 0 ==> Run(e, k) == Alive(e)
    ensures 1 <= k < Lifetime(e) ==> Run(e, k) == Alive(AfterTicks(e, k))
    ensures k >= Lifetime(e) ==> Run(e, k) == Removed(AfterTicks(e, Lifetime(e)))
  {
    var L := Lifetime(e);
    if k > 0 {
      Lifecycle(e, k - 1);
      RunOneMore(Step, e, k - 1);
      if k == 1 {
        FreshStepsLikeClosedForm(e);
        StepAfterTicks(e, 0);
      } else if k - 1 < L {
        StepAfterTicks(e, k - 1);
      }
    }
  }

  /** The indicator is removed on its 7th callback, which draws radius 165 with opacity 0 (in exact arithmetic). */
  lemma ClickIndicatorLifetime(center: Point)
    ensures Lifetime(ClickIndicator(center)) == 7
    ensures AfterTicks(ClickIndicator(center), 7).radius == 165.0
    ensures AfterTicks(ClickIndicator(center), 7).fillAlpha == 0.0
  {
    TicksUnique(0.7, -0.1, 7);
  }

  /** The bloom is removed on its 10th callback, which draws radius 84 with opacity 0 (in exact arithmetic). */
  lemma BloomLifetime(center: Point)
    ensures Lifetime(Bloom(center)) == 10
    ensures AfterTicks(Bloom(center), 10).radius == 84.0
    ensures AfterTicks(Bloom(center), 10).fillAlpha == 0.0
  {
    TicksUnique(0.5, -0.05, 10);
  }
}
