/**
 The magnitude of the outward impulse a click gives each body: the explosion
 strength divided by the body's distance from the click, capped, with a zero
 distance replaced by a small positive one. Both copies use the same constants.
 The direction (a normalised float vector) is not modelled.
 */
module Impulse {

  const ExplosionStrength: real := 3.0
  const MaxForce: real := 0.04
  /** `Vector.magnitude(direction) || 0.001`: a zero length is falsy. */
  const ZeroDistance: real := 0.001

  /** The distance actually divided by. */
  function GuardedDistance(distance: real): (d: real)
    requires distance >= 0.0
    ensures d > 0.0
    ensures distance > 0.0 ==> d == distance
    ensures distance == 0.0 ==> d == ZeroDistance
  {
    if distance == 0.0 then ZeroDistance else distance
  }

  /** `min(explosionStrength / distance, maxForce)` for a body `distance` away from the click. */
  function Magnitude(distance: real): (m: real)
    requires distance >= 0.0
    ensures 0.0 < m <= MaxForce
    // the cap is active exactly within distance strength/cap = 75
    ensures m == MaxForce <==> distance <= 75.0
    ensures distance > 75.0 ==> m == ExplosionStrength / distance
  {
    var d := GuardedDistance(distance);
    var raw := ExplosionStrength / d;
    assert raw * d == ExplosionStrength;
    assert raw >= MaxForce <==> d <= 75.0 by {
      CapThreshold(d, raw);
    }
    if raw <= MaxForce then raw else MaxForce
  }

  lemma CapThreshold(d: real, raw: real)
    requires d > 0.0 && raw * d == ExplosionStrength
    ensures raw >= MaxForce <==> d <= 75.0
  {
    if raw >= MaxForce {
      assert raw * d >= MaxForce * d;
    } else {
      assert raw * d < MaxForce * d;
    }
  }

  /** Farther bodies are pushed no harder. */
  lemma MagnitudeNonIncreasing(d1: real, d2: real)
    requires 0.0 <= d1 <= d2
    ensures Magnitude(d1) >= Magnitude(d2)
  {
    if d1 > 75.0 {
      InverseAntitone(d1, d2);
    }
  }

  lemma InverseAntitone(d1: real, d2: real)
    requires 0.0 < d1 <= d2
    ensures ExplosionStrength / d1 >= ExplosionStrength / d2
  {
    var q1, q2 := ExplosionStrength / d1, ExplosionStrength / d2;
    assert q1 * d1 == q2 * d2;
    assert q2 * d1 <= q2 * d2;
  }

  /**
   For a body exactly on the click the guarded distance is 0.001, so the
   computed magnitude is the cap (3 / 0.001 = 3000 > 0.04).
   */
  lemma ZeroDistanceIsCapped()
    ensures GuardedDistance(0.0) == ZeroDistance
    ensures Magnitude(0.0) == MaxForce
  {
  }

  /**
   `applyOutwardForce`: one magnitude per body, from that body's distance to
   the click; farther bodies never get a larger one.
   */
  function OutwardMagnitudes(distances: seq<real>): (r: seq<real>)
    requires forall i :: 0 <= i < |distances| ==> distances[i] >= 0.0
    ensures |r| == |distances|
    ensures forall i :: 0 <= i < |r| ==> r[i] == Magnitude(distances[i])
    ensures forall i :: 0 <= i < |r| ==> 0.0 < r[i] <= MaxForce
    ensures forall i :: 0 <= i < |r| ==> (r[i] == MaxForce <==> distances[i] <= 75.0)
    ensures forall i, j :: 0 <= i < |r| && 0 <= j < |r| && distances[i] <= distances[j] ==> r[i] >= r[j]
  {
    var r := seq(|distances|, i requires 0 <= i < |distances| => Magnitude(distances[i]));
    assert forall i, j :: 0 <= i < |r| && 0 <= j < |r| && distances[i] <= distances[j] ==> r[i] >= r[j] by {
      forall i, j | 0 <= i < |r| && 0 <= j < |r| && distances[i] <= distances[j]
        ensures r[i] >= r[j]
      {
        MagnitudeNonIncreasing(distances[i], distances[j]);
      }
    }
    r
  }
}
