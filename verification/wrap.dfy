/**
 The toroidal boundary wrap run before every physics update: a body that has
 left the viewport on one side is teleported to the opposite edge, each axis on
 its own, and only its position changes.
 */
module Wrap {
  import opened Basics

  predicate InBounds(p: Point, width: real, height: real)
  {
    0.0 <= p.x <= width && 0.0 <= p.y <= height
  }

  /** The horizontal check: `x < 0` moves to the right edge, `x > width` to the left edge. */
  function WrapX(b: Body, width: real): (r: Body)
    requires width >= 0.0
    ensures b.pos.x < 0.0 ==> r.pos.x == width
    ensures b.pos.x > width ==> r.pos.x == 0.0
    ensures 0.0 <= b.pos.x <= width ==> r == b
    ensures r.pos.y == b.pos.y && r.vel == b.vel && r.render == b.render
  {
    if b.pos.x < 0.0 then SetPosition(b, Point(width, b.pos.y))
    else if b.pos.x > width then SetPosition(b, Point(0.0, b.pos.y))
    else b
  }

  /** The vertical check, which reads the position after the horizontal one. */
  function WrapY(b: Body, height: real): (r: Body)
    requires height >= 0.0
    ensures b.pos.y < 0.0 ==> r.pos.y == height
    ensures b.pos.y > height ==> r.pos.y == 0.0
    ensures 0.0 <= b.pos.y <= height ==> r == b
    ensures r.pos.x == b.pos.x && r.vel == b.vel && r.render == b.render
  {
    if b.pos.y < 0.0 then SetPosition(b, Point(b.pos.x, height))
    else if b.pos.y > height then SetPosition(b, Point(b.pos.x, 0.0))
    else b
  }

  /** One body's wrap step: the horizontal check, then the vertical one. */
  function WrapBody(b: Body, width: real, height: real): (r: Body)
    requires width >= 0.0 && height >= 0.0
    ensures InBounds(r.pos, width, height)
    ensures InBounds(b.pos, width, height) ==> r == b
    ensures b.pos.x < 0.0 ==> r.pos.x == width
    ensures b.pos.x > width ==> r.pos.x == 0.0
    ensures 0.0 <= b.pos.x <= width ==> r.pos.x == b.pos.x
    ensures b.pos.y < 0.0 ==> r.pos.y == height
    ensures b.pos.y > height ==> r.pos.y == 0.0
    ensures 0.0 <= b.pos.y <= height ==> r.pos.y == b.pos.y
    ensures r.vel == b.vel && r.render == b.render
  {
    WrapY(WrapX(b, width), height)
  }

  /** The axes are independent: each coordinate of the result depends on that coordinate alone. */
  lemma AxesIndependent(b1: Body, b2: Body, width: real, height: real)
    requires width >= 0.0 && height >= 0.0
    ensures b1.pos.x == b2.pos.x ==> WrapBody(b1, width, height).pos.x == WrapBody(b2, width, height).pos.x
    ensures b1.pos.y == b2.pos.y ==> WrapBody(b1, width, height).pos.y == WrapBody(b2, width, height).pos.y
  {
  }

  /** Wrapping twice is wrapping once: a wrapped body is already in bounds. */
  lemma WrapIdempotent(b: Body, width: real, height: real)
    requires width >= 0.0 && height >= 0.0
    ensures WrapBody(WrapBody(b, width, height), width, height) == WrapBody(b, width, height)
  {
  }

  /** The `beforeUpdate` handler: every tracked body is wrapped, in order. */
  method BeforeUpdate(bodies: seq<Body>, width: real, height: real) returns (r: seq<Body>)
    requires width >= 0.0 && height >= 0.0
    ensures |r| == |bodies|
    ensures forall i :: 0 <= i < |r| ==> InBounds(r[i].pos, width, height)
    ensures forall i :: 0 <= i < |r| ==> r[i] == WrapBody(bodies[i], width, height)
    ensures forall i :: 0 <= i < |r| && InBounds(bodies[i].pos, width, height) ==> r[i] == bodies[i]
  {
    r := [];
    var i := 0;
    while i < |bodies|
      invariant 0 <= i <= |bodies|
      invariant |r| == i
      invariant forall j :: 0 <= j < i ==> r[j] == WrapBody(bodies[j], width, height)
    {
      r := r + [WrapBody(bodies[i], width, height)];
      i := i + 1;
    }
  }
}
