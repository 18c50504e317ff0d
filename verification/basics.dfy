/**
 Shared vocabulary of the model: points, opaque colours, the render style of a
 body and the bodies themselves.
 */
module Basics {

  /** A position or velocity in world coordinates (exact arithmetic). */
  datatype Point = Point(x: real, y: real)

  /** Which chroma derivation of the base background colour a token stands for. */
  datatype Shade = Background | GlowShade | ExplosionShade

  /**
   Colours are opaque tokens: either a literal `rgb(r, g, b)` string of the
   source, or a colour derived from the base background colour by setting its
   hue (and then saturating/brightening/darkening, which is not modelled).
   */
  datatype Color = Rgb(r: int, g: int, b: int) | Derived(shade: Shade, hue: real)

  /** The default fill of a simulation body, `rgb(80, 80, 80)`. */
  const DefaultBodyColor: Color := Rgb(80, 80, 80)

  /** The per-body render options the code touches. */
  datatype Render = Render(fill: Color, stroke: Color, lineWidth: int)

  /** A simulation body: only what the code reads or writes. */
  datatype Body = Body(pos: Point, vel: Point, render: Render)

  /** Moving a body: Matter shifts the previous position too, so the velocity is kept. */
  function SetPosition(b: Body, p: Point): (r: Body)
    ensures r.pos == p && r.vel == b.vel && r.render == b.render
  {
    b.(pos := p)
  }

  /** One side of a collision pair: a tracked body (an index into the body list) or anything else. */
  datatype Participant = Tracked(index: nat) | Untracked

  datatype Pair = Pair(a: Participant, b: Participant)

  /** `bodies.includes(x)`. */
  predicate Includes(bodies: seq<Body>, p: Participant)
  {
    p.Tracked? && p.index < |bodies|
  }

  /** The midpoint of two points, as computed for a collision pair. */
  function Midpoint(a: Point, b: Point): (m: Point)
    ensures m.x - a.x == b.x - m.x && m.y - a.y == b.y - m.y
  {
    Point((a.x + b.x) / 2.0, (a.y + b.y) / 2.0)
  }
}
