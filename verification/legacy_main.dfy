/**
 The event handlers of the monolithic copy. Compared with the modular copy:
 the click handler does not wait for audio to start and plays nothing, spawns
 one click indicator and uses a five-note scale; the collision handler asks
 for a bell on every pair (it sounds only once audio has started) and blooms
 and glows only tracked pairs.
 */
module LegacyMain {
  import opened Basics
  import opened Animation
  import LegacyEffects
  import opened Audio
  import opened Scale
  import Glow
  import Impulse

  datatype LegacySim = LegacySim(bodies: seq<Body>, effects: seq<LegacyEffects.Fader>, audio: AudioState)

  /** The guard on glow and bloom: both bodies tracked and audio started. */
  predicate Reacts(s: LegacySim, p: Pair)
  {
    Includes(s.bodies, p.a) && Includes(s.bodies, p.b) && s.audio.started
  }

  datatype Reaction = Reaction(sim: LegacySim, sounds: seq<AudioAction>, reverts: seq<nat>)

  /** The collision handler's body for one pair; `pick` is the bell's random index. */
  function OnCollisionPair(s: LegacySim, p: Pair, pick: nat): (r: Reaction)
    requires pick < |s.audio.frequencies|
    // the bell is requested for every pair, and sounds exactly when audio has started
    ensures |r.sounds| <= 1 && (r.sounds != [] <==> s.audio.started)
    ensures forall a :: a in r.sounds ==> a.Bell? && a.note in s.audio.frequencies
    ensures !Reacts(s, p) ==> r.sim == s && r.reverts == []
    ensures |r.sim.bodies| == |s.bodies| && r.sim.audio == s.audio
    ensures forall k :: 0 <= k < |s.bodies| ==>
              r.sim.bodies[k].pos == s.bodies[k].pos && r.sim.bodies[k].vel == s.bodies[k].vel
    ensures Reacts(s, p) ==>
              && r.reverts == [p.a.index, p.b.index]
              && r.sim.bodies[p.a.index].render.fill == Glow.BallGlowColor
              && r.sim.bodies[p.b.index].render.fill == Glow.BallGlowColor
              && r.sim.bodies[p.a.index].render.lineWidth == s.bodies[p.a.index].render.lineWidth
              && r.sim.bodies[p.b.index].render.lineWidth == s.bodies[p.b.index].render.lineWidth
              && r.sim.bodies[p.a.index].render.stroke == s.bodies[p.a.index].render.stroke
              && r.sim.bodies[p.b.index].render.stroke == s.bodies[p.b.index].render.stroke
              && (forall k :: 0 <= k < |s.bodies| && k != p.a.index && k != p.b.index ==>
                    r.sim.bodies[k] == s.bodies[k])
              && |r.sim.effects| == |s.effects| + 1 && r.sim.effects[..|s.effects|] == s.effects
              && r.sim.effects[|s.effects|] == LegacyEffects.Bloom(
                   Midpoint(s.bodies[p.a.index].pos, s.bodies[p.b.index].pos))
  {
    var sounds := TriggerBell(s.audio, pick);
    if !Reacts(s, p) then Reaction(s, sounds, [])
    else
      var ia, ib := p.a.index, p.b.index;
      var bodies1 := s.bodies[ia := Glow.MakeBallGlow(s.bodies[ia])];
      var bodies2 := bodies1[ib := Glow.MakeBallGlow(bodies1[ib])];
      var bloom := LegacyEffects.Bloom(Midpoint(s.bodies[ia].pos, s.bodies[ib].pos));
      Reaction(s.(bodies := bodies2, effects := s.effects + [bloom]), sounds, [ia, ib])
  }

  /** A `makeBallGlow` revert firing: body `i` back to `rgb(80, 80, 80)`. */
  function FireGlowRevert(s: LegacySim, i: nat): (r: LegacySim)
    requires i < |s.bodies|
    ensures |r.bodies| == |s.bodies| && r.bodies[i].render.fill == DefaultBodyColor
    ensures r.bodies[i].render.lineWidth == s.bodies[i].render.lineWidth
    ensures r.bodies[i].render.stroke == s.bodies[i].render.stroke
    ensures r.bodies[i].pos == s.bodies[i].pos && r.bodies[i].vel == s.bodies[i].vel
    ensures forall k :: 0 <= k < |s.bodies| && k != i ==> r.bodies[k] == s.bodies[k]
    ensures r.effects == s.effects && r.audio == s.audio
  {
    s.(bodies := s.bodies[i := Glow.RevertBallGlow(s.bodies[i])])
  }

  /** One interval callback of effect `i`: redrawn in place, or removed right after its last redraw. */
  function FireEffectTick(s: LegacySim, i: nat): (r: LegacySim)
    requires i < |s.effects|
    ensures LegacyEffects.Step(s.effects[i]).Removed? ==> r.effects == s.effects[..i] + s.effects[i + 1..]
    ensures LegacyEffects.Step(s.effects[i]).Alive? ==>
              |r.effects| == |s.effects| && r.effects[i] == LegacyEffects.Step(s.effects[i]).next
              && forall k :: 0 <= k < |s.effects| && k != i ==> r.effects[k] == s.effects[k]
    ensures r.bodies == s.bodies && r.audio == s.audio
  {
    match LegacyEffects.Step(s.effects[i])
    case Alive(n) => s.(effects := s.effects[i := n])
    case Removed(_) => s.(effects := s.effects[..i] + s.effects[i + 1..])
  }

  /** The `Tone.start()` promise of an earlier click resolving. */
  function FireStartResolved(s: LegacySim): (r: LegacySim)
    requires s.audio.pendingStarts > 0
    ensures r.audio.started && r.bodies == s.bodies && r.effects == s.effects
    ensures r.audio.frequencies == s.audio.frequencies && r.audio.pendingStarts == s.audio.pendingStarts - 1
  {
    s.(audio := StartResolved(s.audio))
  }

  datatype ClickOutcome = ClickOutcome(sim: LegacySim, impulses: seq<real>)

  /**
   The `mousedown` handler. `ensureTone()` is called without `await`, so the
   flag is the same when the handler returns; a start is merely pending.
   */
  function OnClick(s: LegacySim, click: Point, transpose: int, distances: seq<real>): (r: ClickOutcome)
    requires 0 <= transpose <= 11
    requires |distances| == |s.bodies|
    requires forall i :: 0 <= i < |distances| ==> distances[i] >= 0.0
    ensures r.sim.audio.started == s.audio.started
    ensures !s.audio.started ==> r.sim.audio.pendingStarts == s.audio.pendingStarts + 1
    ensures s.audio.started ==> r.sim.audio.pendingStarts == s.audio.pendingStarts
    ensures Untranspose(r.sim.audio.frequencies, transpose) == LegacyScale()
    ensures |r.sim.audio.frequencies| == 25
    ensures r.sim.effects == s.effects + [LegacyEffects.ClickIndicator(click)]
    ensures r.sim.bodies == s.bodies
    // each body's magnitude is min(3 / distance, 0.04), never larger for a farther body
    ensures |r.impulses| == |s.bodies|
    ensures forall i :: 0 <= i < |r.impulses| ==> r.impulses[i] == Impulse.Magnitude(distances[i])
    ensures forall i :: 0 <= i < |r.impulses| ==> 0.0 < r.impulses[i] <= Impulse.MaxForce
    ensures forall i :: 0 <= i < |r.impulses| ==> (r.impulses[i] == Impulse.MaxForce <==> distances[i] <= 75.0)
    ensures forall i, j :: 0 <= i < |r.impulses| && 0 <= j < |r.impulses| && distances[i] <= distances[j] ==>
              r.impulses[i] >= r.impulses[j]
  {
    LegacyScaleFacts();
    var audio := SetTranspose(EnsureTone(s.audio), LegacyScale(), transpose);
    var impulses := Impulse.OutwardMagnitudes(distances);
    ClickOutcome(LegacySim(s.bodies, s.effects + [LegacyEffects.ClickIndicator(click)], audio), impulses)
  }

  /**
   Until the start resolves, a click followed by any collision plays nothing,
   even for a tracked pair: the un-awaited start does not gate the first click's
   collisions open.
   */
  lemma FirstClickCollisionsSilent(s: LegacySim, click: Point, transpose: int, distances: seq<real>, p: Pair, pick: nat)
    requires !s.audio.started
    requires 0 <= transpose <= 11 && |distances| == |s.bodies|
    requires forall i :: 0 <= i < |distances| ==> distances[i] >= 0.0
    requires pick < 25
    ensures pick < |OnClick(s, click, transpose, distances).sim.audio.frequencies|
    ensures OnCollisionPair(OnClick(s, click, transpose, distances).sim, p, pick).sounds == []
    ensures OnCollisionPair(OnClick(s, click, transpose, distances).sim, p, pick).reverts == []
  {
  }
}
