/**
 The temporary highlight of a colliding body, and its timed revert, in both
 copies. Only the render style changes, never position or velocity.
 */
module Glow {
  import opened Basics

  /** The modular copy's line widths while glowing and after the revert. */
  const GlowLineWidth: int := 2
  const NormalLineWidth: int := 1

  /** `triggerGlow`, immediate part: glow fill and a thicker outline. */
  function TriggerGlow(b: Body, glowColor: Color): (r: Body)
    ensures r.render.fill == glowColor && r.render.lineWidth == GlowLineWidth
    ensures r.pos == b.pos && r.vel == b.vel && r.render.stroke == b.render.stroke
  {
    b.(render := b.render.(fill := glowColor, lineWidth := GlowLineWidth))
  }

  /** `triggerGlow`, the callback 200 ms later: the given original fill and a normal outline. */
  function RevertGlow(b: Body, originalColor: Color): (r: Body)
    ensures r.render.fill == originalColor && r.render.lineWidth == NormalLineWidth
    ensures r.pos == b.pos && r.vel == b.vel && r.render.stroke == b.render.stroke
  {
    b.(render := b.render.(fill := originalColor, lineWidth := NormalLineWidth))
  }

  /**
   A body drawn in its default style is restored exactly by the revert, even
   after several overlapping glows (the revert does not read what the glow wrote).
   */
  lemma GlowThenRevert(b: Body, g1: Color, g2: Color)
    requires b.render.fill == DefaultBodyColor && b.render.lineWidth == NormalLineWidth
    ensures RevertGlow(TriggerGlow(b, g1), DefaultBodyColor) == b
    ensures RevertGlow(TriggerGlow(TriggerGlow(b, g1), g2), DefaultBodyColor) == b
  {
  }

  /** The monolithic copy's glow colour. */
  const BallGlowColor: Color := Rgb(255, 255, 0)

  /** `makeBallGlow`, immediate part: yellow fill; the outline is left alone. */
  function MakeBallGlow(b: Body): (r: Body)
    ensures r.render.fill == BallGlowColor
    ensures r.render.lineWidth == b.render.lineWidth && r.render.stroke == b.render.stroke
    ensures r.pos == b.pos && r.vel == b.vel
  {
    b.(render := b.render.(fill := BallGlowColor))
  }

  /** `makeBallGlow`, its single callback 200 ms later: back to `rgb(80, 80, 80)`. */
  function RevertBallGlow(b: Body): (r: Body)
    ensures r.render.fill == DefaultBodyColor
    ensures r.render.lineWidth == b.render.lineWidth && r.render.stroke == b.render.stroke
    ensures r.pos == b.pos && r.vel == b.vel
  {
    b.(render := b.render.(fill := DefaultBodyColor))
  }

  lemma BallGlowThenRevert(b: Body)
    requires b.render.fill == DefaultBodyColor
    ensures RevertBallGlow(MakeBallGlow(b)) == b
  {
  }
}
