/**
 The event handlers of the modular copy: the mouse-down reaction, the
 collision reaction, and the per-callback bookkeeping of the effect circles
 and glow reverts. Timers become explicit operations; random draws become
 inputs with their ranges as preconditions.
 */
module Simulation {
  import opened Basics
  import opened Animation
  import Explosion
  import opened Audio
  import opened Scale
  import Glow
  import Impulse

  /** The module-level state of the modular copy. */
  datatype Sim = Sim(
    bodies: seq<Body>,
    effects: seq<Explosion.Explosion>,
    audio: AudioState,
    hue: real,            // `curHue`
    background: Color)    // `render.options.background`

  /** The guard of the collision handler: both bodies tracked and audio started. */
  predicate Reacts(s: Sim, p: Pair)
  {
    Includes(s.bodies, p.a) && Includes(s.bodies, p.b) && s.audio.started
  }

  function GlowColor(hue: real): Color
  {
    Derived(GlowShade, hue)
  }

  /** The handlers' effects besides the new state: what was played, and which bodies got a glow revert scheduled. */
  datatype Reaction = Reaction(sim: Sim, sounds: seq<AudioAction>, reverts: seq<nat>)

  /** The collision handler's body for one pair; `pick` is the bell's random index into the frequency list. */
  function OnCollisionPair(s: Sim, p: Pair, pick: nat): (r: Reaction)
    requires pick < |s.audio.frequencies|
    ensures !Reacts(s, p) ==> r == Reaction(s, [], [])
    ensures |r.sim.bodies| == |s.bodies| && r.sim.audio == s.audio
    ensures r.sim.hue == s.hue && r.sim.background == s.background
    ensures forall k :: 0 <= k < |s.bodies| ==>
              r.sim.bodies[k].pos == s.bodies[k].pos && r.sim.bodies[k].vel == s.bodies[k].vel
    ensures Reacts(s, p) ==>
              && |r.sounds| == 1 && r.sounds[0].Bell? && r.sounds[0].note in s.audio.frequencies
              && r.reverts == [p.a.index, p.b.index]
              && r.sim.bodies[p.a.index].render.fill == GlowColor(s.hue)
              && r.sim.bodies[p.b.index].render.fill == GlowColor(s.hue)
              && r.sim.bodies[p.a.index].render.lineWidth == Glow.GlowLineWidth
              && r.sim.bodies[p.b.index].render.lineWidth == Glow.GlowLineWidth
              && r.sim.bodies[p.a.index].render.stroke == s.bodies[p.a.index].render.stroke
              && r.sim.bodies[p.b.index].render.stroke == s.bodies[p.b.index].render.stroke
              && (forall k :: 0 <= k < |s.bodies| && k != p.a.index && k != p.b.index ==>
                    r.sim.bodies[k] == s.bodies[k])
              && |r.sim.effects| == |s.effects| + 1 && r.sim.effects[..|s.effects|] == s.effects
              && r.sim.effects[|s.effects|] == PairExplosion(s, p)
  {
    if !Reacts(s, p) then Reaction(s, [], [])
    else
      var ia, ib := p.a.index, p.b.index;
      var sounds := TriggerBell(s.audio, pick);
      var glow := GlowColor(s.hue);
      var bodies1 := s.bodies[ia := Glow.TriggerGlow(s.bodies[ia], glow)];
      var bodies2 := bodies1[ib := Glow.TriggerGlow(bodies1[ib], glow)];
      var mid := Midpoint(s.bodies[ia].pos, s.bodies[ib].pos);
      var explosion := Explosion.CreateDefault(mid, glow, 30.0, 0.5);
      Reaction(s.(bodies := bodies2, effects := s.effects + [explosion]), sounds, [ia, ib])
  }

  /** The explosion a pair that passes the guard spawns: default rates, size 30, alpha 0.5, at the midpoint. */
  function PairExplosion(s: Sim, p: Pair): Explosion.Explosion
    requires Includes(s.bodies, p.a) && Includes(s.bodies, p.b)
  {
    Explosion.CreateDefault(Midpoint(s.bodies[p.a.index].pos, s.bodies[p.b.index].pos), GlowColor(s.hue), 30.0, 0.5)
  }

  /** How many of `pairs` pass the guard. */
  function CountReacting(s: Sim, pairs: seq<Pair>): nat
  {
    if pairs == [] then 0
    else CountReacting(s, pairs[..|pairs| - 1]) + (if Reacts(s, pairs[|pairs| - 1]) then 1 else 0)
  }

  /** Reference: the bells of `pairs`, in order, one per pair that passes the guard, each the drawn note. */
  function NewBells(s: Sim, pairs: seq<Pair>, picks: seq<nat>): (r: seq<AudioAction>)
    requires |picks| == |pairs|
    requires forall i :: 0 <= i < |picks| ==> picks[i] < |s.audio.frequencies|
    ensures |r| == CountReacting(s, pairs)
    ensures forall a :: a in r ==> a.Bell? && a.note in s.audio.frequencies
  {
    if pairs == [] then []
    else
      var n := |pairs| - 1;
      NewBells(s, pairs[..n], picks[..n])
        + (if Reacts(s, pairs[n]) then [Bell(s.audio.frequencies[picks[n]])] else [])
  }

  /** Reference: the explosions spawned for `pairs`, in order, one per pair that passes the guard. */
  function NewExplosions(s: Sim, pairs: seq<Pair>): (r: seq<Explosion.Explosion>)
    ensures |r| == CountReacting(s, pairs)
  {
    if pairs == [] then []
    else
      var n := |pairs| - 1;
      NewExplosions(s, pairs[..n]) + (if Reacts(s, pairs[n]) then [PairExplosion(s, pairs[n])] else [])
  }

  /** Reference: the bodies whose glow revert is scheduled, two per pair that passes the guard. */
  function NewReverts(s: Sim, pairs: seq<Pair>): (r: seq<nat>)
    ensures |r| == 2 * CountReacting(s, pairs)
    ensures forall k :: k in r ==> k < |s.bodies|
  {
    if pairs == [] then []
    else
      var n := |pairs| - 1;
      NewReverts(s, pairs[..n]) + (if Reacts(s, pairs[n]) then [pairs[n].a.index, pairs[n].b.index] else [])
  }

  /** Bodies after the handler: none moved, and a body glows exactly when some reacting pair names it. */
  predicate BodiesAfter(s: Sim, bodies: seq<Body>, reverts: seq<nat>)
  {
    && |bodies| == |s.bodies|
    && (forall k :: 0 <= k < |s.bodies| ==> bodies[k].pos == s.bodies[k].pos && bodies[k].vel == s.bodies[k].vel)
    && (forall k :: 0 <= k < |s.bodies| && k in reverts ==>
          && bodies[k].render.fill == GlowColor(s.hue)
          && bodies[k].render.lineWidth == Glow.GlowLineWidth
          && bodies[k].render.stroke == s.bodies[k].render.stroke)
    && (forall k :: 0 <= k < |s.bodies| && k !in reverts ==> bodies[k] == s.bodies[k])
  }

  /** `r` is what handling `pairs` from `s` produces, against the reference definitions. */
  predicate Handled(s: Sim, pairs: seq<Pair>, picks: seq<nat>, r: Reaction)
    requires |picks| == |pairs|
    requires forall i :: 0 <= i < |picks| ==> picks[i] < |s.audio.frequencies|
  {
    && r.sim.audio == s.audio && r.sim.hue == s.hue && r.sim.background == s.background
    && r.sounds == NewBells(s, pairs, picks)
    && r.sim.effects == s.effects + NewExplosions(s, pairs)
    && r.reverts == NewReverts(s, pairs)
    && BodiesAfter(s, r.sim.bodies, r.reverts)
  }

  /** Handling one more pair on top of the first `n` extends the reference definitions by that pair. */
  lemma HandleOneMore(s: Sim, pairs: seq<Pair>, picks: seq<nat>, r: Reaction)
    requires |picks| == |pairs| && |pairs| > 0
    requires forall i :: 0 <= i < |picks| ==> picks[i] < |s.audio.frequencies|
    requires Handled(s, pairs[..|pairs| - 1], picks[..|pairs| - 1], r)
    ensures var step := OnCollisionPair(r.sim, pairs[|pairs| - 1], picks[|pairs| - 1]);
            Handled(s, pairs, picks, Reaction(step.sim, r.sounds + step.sounds, r.reverts + step.reverts))
  {
    var n := |pairs| - 1;
    var p := pairs[n];
    assert Reacts(r.sim, p) == Reacts(s, p);
    var step := OnCollisionPair(r.sim, p, picks[n]);
    if Reacts(s, p) {
      assert PairExplosion(r.sim, p) == PairExplosion(s, p);
      BodiesAfterGlow(s, r.sim.bodies, r.reverts, step.sim.bodies, p.a.index, p.b.index);
    }
  }

  /** Glowing the two bodies of one more reacting pair keeps `BodiesAfter`. */
  lemma BodiesAfterGlow(s: Sim, bodies: seq<Body>, reverts: seq<nat>, bodies': seq<Body>, ia: nat, ib: nat)
    requires BodiesAfter(s, bodies, reverts)
    requires ia < |s.bodies| && ib < |s.bodies| && |bodies'| == |bodies|
    requires forall k :: 0 <= k < |s.bodies| ==> bodies'[k].pos == bodies[k].pos && bodies'[k].vel == bodies[k].vel
    requires forall k :: k == ia || k == ib ==>
               && bodies'[k].render.fill == GlowColor(s.hue)
               && bodies'[k].render.lineWidth == Glow.GlowLineWidth
               && bodies'[k].render.stroke == bodies[k].render.stroke
    requires forall k :: 0 <= k < |s.bodies| && k != ia && k != ib ==> bodies'[k] == bodies[k]
    ensures BodiesAfter(s, bodies', reverts + [ia, ib])
  {
    forall k | 0 <= k < |s.bodies| && k !in reverts + [ia, ib]
      ensures bodies'[k] == s.bodies[k]
    {
      assert k !in reverts && k != ia && k != ib;
    }
  }

  /**
   The `collisionStart` handler: every reported pair in turn. Each pair that
   passes the guard rings its drawn bell, glows both its bodies and spawns one
   explosion at their midpoint; the others change nothing. Bodies never move,
   so every explosion is placed by the positions at entry.
   */
  method OnCollisionStart(s: Sim, pairs: seq<Pair>, picks: seq<nat>) returns (r: Reaction)
    requires |picks| == |pairs|
    requires forall i :: 0 <= i < |picks| ==> picks[i] < |s.audio.frequencies|
    ensures r.sounds == NewBells(s, pairs, picks)
    ensures r.sim.effects == s.effects + NewExplosions(s, pairs)
    ensures r.reverts == NewReverts(s, pairs)
    ensures |r.sounds| == CountReacting(s, pairs) && |r.sim.effects| == |s.effects| + CountReacting(s, pairs)
    ensures |r.sim.bodies| == |s.bodies| && r.sim.audio == s.audio && r.sim.hue == s.hue
    ensures r.sim.background == s.background
    ensures forall k :: 0 <= k < |s.bodies| ==>
              r.sim.bodies[k].pos == s.bodies[k].pos && r.sim.bodies[k].vel == s.bodies[k].vel
    // a body glows exactly when some reacting pair names it; every other body is untouched
    ensures forall k :: 0 <= k < |s.bodies| && k in r.reverts ==>
              && r.sim.bodies[k].render.fill == GlowColor(s.hue)
              && r.sim.bodies[k].render.lineWidth == Glow.GlowLineWidth
              && r.sim.bodies[k].render.stroke == s.bodies[k].render.stroke
    ensures forall k :: 0 <= k < |s.bodies| && k !in r.reverts ==> r.sim.bodies[k] == s.bodies[k]
  {
    r := Reaction(s, [], []);
    var i := 0;
    while i < |pairs|
      invariant 0 <= i <= |pairs|
      invariant Handled(s, pairs[..i], picks[..i], r)
    {
      assert pairs[..i + 1][..i] == pairs[..i] && picks[..i + 1][..i] == picks[..i];
      HandleOneMore(s, pairs[..i + 1], picks[..i + 1], r);
      var step := OnCollisionPair(r.sim, pairs[i], picks[i]);
      r := Reaction(step.sim, r.sounds + step.sounds, r.reverts + step.reverts);
      i := i + 1;
    }
    assert pairs[..|pairs|] == pairs && picks[..|picks|] == picks;
  }

  /** A glow revert firing: body `i` back to the default fill and a normal outline. */
  function FireGlowRevert(s: Sim, i: nat): (r: Sim)
    requires i < |s.bodies|
    ensures |r.bodies| == |s.bodies|
    ensures r.bodies[i].render.fill == DefaultBodyColor && r.bodies[i].render.lineWidth == Glow.NormalLineWidth
    ensures r.bodies[i].pos == s.bodies[i].pos && r.bodies[i].vel == s.bodies[i].vel
    ensures r.bodies[i].render.stroke == s.bodies[i].render.stroke
    ensures forall k :: 0 <= k < |s.bodies| && k != i ==> r.bodies[k] == s.bodies[k]
    ensures r.effects == s.effects && r.audio == s.audio && r.hue == s.hue && r.background == s.background
  {
    s.(bodies := s.bodies[i := Glow.RevertGlow(s.bodies[i], DefaultBodyColor)])
  }

  /** One interval callback of effect `i`: it is redrawn in place, or removed from the world. */
  function FireEffectTick(s: Sim, i: nat): (r: Sim)
    requires i < |s.effects|
    ensures Explosion.Step(s.effects[i]).Removed? ==>
              |r.effects| == |s.effects| - 1 && r.effects == s.effects[..i] + s.effects[i + 1..]
    ensures Explosion.Step(s.effects[i]).Alive? ==>
              |r.effects| == |s.effects| && r.effects[i] == Explosion.Step(s.effects[i]).next
              && forall k :: 0 <= k < |s.effects| && k != i ==> r.effects[k] == s.effects[k]
    ensures r.bodies == s.bodies && r.audio == s.audio && r.hue == s.hue && r.background == s.background
  {
    match Explosion.Step(s.effects[i])
    case Alive(n) => s.(effects := s.effects[i := n])
    case Removed(_) => s.(effects := s.effects[..i] + s.effects[i + 1..])
  }

  /** The three rings a click spawns: initial radius 5, alpha 0.7, rates (1.5, -0.05), (2, -0.07), (3, -0.09), every 30 ms. */
  function ClickRings(click: Point, color: Color): (rings: seq<Explosion.Explosion>)
    ensures |rings| == 3
    ensures forall e :: e in rings ==>
              && Explosion.IsFresh(e) && e.center == click && e.color == color
              && e.initScale == 5.0 && e.initAlpha == 0.7 && e.interval == 30
    ensures rings[0].scaleIncrease == 1.5 && rings[0].alphaIncrease == -0.05
    ensures rings[1].scaleIncrease == 2.0 && rings[1].alphaIncrease == -0.07
    ensures rings[2].scaleIncrease == 3.0 && rings[2].alphaIncrease == -0.09
  {
    [ Explosion.Create(click, color, 5.0, 0.7, 1.5, -0.05, 30),
      Explosion.Create(click, color, 5.0, 0.7, 2.0, -0.07, 30),
      Explosion.Create(click, color, 5.0, 0.7, 3.0, -0.09, 30) ]
  }

  datatype ClickOutcome = ClickOutcome(sim: Sim, sounds: seq<AudioAction>, impulses: seq<real>)

  /**
   The `mousedown` handler. `transpose` and `hue` are the random draws,
   `click` is the pointer position read after the `await` and `distances[i]` the
   distance of body `i` from it.
   */
  function OnClick(s: Sim, click: Point, transpose: int, hue: real, distances: seq<real>): (r: ClickOutcome)
    requires 0 <= transpose <= 11 && 0.0 <= hue <= 360.0
    requires |distances| == |s.bodies|
    requires forall i :: 0 <= i < |distances| ==> distances[i] >= 0.0
    // audio is started before anything else happens
    ensures r.sim.audio.started && r.sim.audio.pendingStarts == s.audio.pendingStarts
    // the frequency list is the modular table shifted by `transpose`, whatever it was before
    ensures Untranspose(r.sim.audio.frequencies, transpose) == ModularScale()
    ensures |r.sim.audio.frequencies| == 16
    // the low drone: release, then three voices on the lowest entry of the new list
    ensures |r.sounds| == 4 && r.sounds[0] == ReleaseLow
    ensures forall i :: 1 <= i < 4 ==> r.sounds[i].Low? && r.sounds[i].root == transpose + 12
    ensures r.sounds[1].factor == 0.4975 && r.sounds[2].factor == 0.75 && r.sounds[3].factor == 0.5025
    ensures forall f :: f in r.sim.audio.frequencies ==> transpose + 12 <= f
    ensures r.sim.hue == hue && r.sim.background == Derived(Background, hue)
    ensures r.sim.effects == s.effects + ClickRings(click, Derived(ExplosionShade, hue))
    ensures r.sim.bodies == s.bodies
    // each body's magnitude is min(3 / distance, 0.04), never larger for a farther body
    ensures |r.impulses| == |s.bodies|
    ensures forall i :: 0 <= i < |r.impulses| ==> r.impulses[i] == Impulse.Magnitude(distances[i])
    ensures forall i :: 0 <= i < |r.impulses| ==> 0.0 < r.impulses[i] <= Impulse.MaxForce
    ensures forall i :: 0 <= i < |r.impulses| ==> (r.impulses[i] == Impulse.MaxForce <==> distances[i] <= 75.0)
    ensures forall i, j :: 0 <= i < |r.impulses| && 0 <= j < |r.impulses| && distances[i] <= distances[j] ==>
              r.impulses[i] >= r.impulses[j]
  {
    var audio := SetTranspose(EnsureToneAwaited(s.audio), ModularScale(), transpose);
    ModularScaleFacts();
    TransposeKeepsOrder(ModularScale(), transpose);
    var sounds := TriggerSaw(audio);
    var rings := ClickRings(click, Derived(ExplosionShade, hue));
    var impulses := Impulse.OutwardMagnitudes(distances);
    ClickOutcome(Sim(s.bodies, s.effects + rings, audio, hue, Derived(Background, hue)), sounds, impulses)
  }

  /**
   Because the click handler awaits the start, the first click already opens
   the collision guard: a collision of two tracked bodies right after it rings
   a bell, glows both and spawns one explosion.
   */
  lemma ClickOpensCollisions(s: Sim, click: Point, transpose: int, hue: real, distances: seq<real>,
                             p: Pair, pick: nat)
    requires 0 <= transpose <= 11 && 0.0 <= hue <= 360.0
    requires |distances| == |s.bodies|
    requires forall i :: 0 <= i < |distances| ==> distances[i] >= 0.0
    requires Includes(s.bodies, p.a) && Includes(s.bodies, p.b) && pick < 16
    ensures pick < |OnClick(s, click, transpose, hue, distances).sim.audio.frequencies|
    ensures |OnCollisionPair(OnClick(s, click, transpose, hue, distances).sim, p, pick).sounds| == 1
    ensures |OnCollisionPair(OnClick(s, click, transpose, hue, distances).sim, p, pick).sim.effects|
            == |s.effects| + 4
  {
  }
}
