/**
 * The host toolkit's value types (two-dimensional vectors, colours and rectangles),
 * with single-precision floats modelled as reals.
 */
module Godot {

  datatype Vector2 = Vector2(x: real, y: real)

  /** A colour with red, green, blue and alpha channels. */
  datatype Color = Color(r: real, g: real, b: real, a: real)

  /** An axis-aligned rectangle given by its origin and its extent. */
  datatype Rect2 = Rect2(position: Vector2, size: Vector2)

  /** `Color(r, g, b)`: the three-channel constructor, which makes the colour opaque. */
  function Rgb(r: real, g: real, b: real): (c: Color)
    ensures c.a == 1.0
  {
    Color(r, g, b, 1.0)
  }

  function Add(u: Vector2, v: Vector2): Vector2
  {
    Vector2(u.x + v.x, u.y + v.y)
  }

  function Sub(u: Vector2, v: Vector2): (w: Vector2)
    ensures Add(w, v) == u
  {
    Vector2(u.x - v.x, u.y - v.y)
  }

  /** `v / 2`: component-wise halving. */
  function Half(v: Vector2): (h: Vector2)
    ensures Add(h, h) == v
  {
    Vector2(v.x / 2.0, v.y / 2.0)
  }

  /** The corner of a rectangle opposite its origin. */
  function FarCorner(rect: Rect2): Vector2
  {
    Add(rect.position, rect.size)
  }

  /** `inner` is a proper rectangle lying within `outer`, with at least `margin` to spare on every side. */
  predicate InsideWithMargin(inner: Rect2, outer: Rect2, margin: real)
  {
    && 0.0 <= inner.size.x && 0.0 <= inner.size.y
    && outer.position.x + margin <= inner.position.x
    && outer.position.y + margin <= inner.position.y
    && FarCorner(inner).x + margin <= FarCorner(outer).x
    && FarCorner(inner).y + margin <= FarCorner(outer).y
  }
}
