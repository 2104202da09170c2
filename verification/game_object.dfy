/**
 The record every game entity is built from: a brick, or the body of the ball.
 Positions, sizes and velocities are pairs of reals (the game stores them as
 32-bit floats; rounding is not part of this model). Textures are named by the
 key under which the resource manager stores them.
 */
module GameObjects {

  /** A 2D vector in level pixel space: origin top-left, y grows downward. */
  datatype Vec2 = Vec2(x: real, y: real)
  {
    function Plus(other: Vec2): Vec2 {
      Vec2(x + other.x, y + other.y)
    }

    function Scale(k: real): Vec2 {
      Vec2(k * x, k * y)
    }
  }

  /** An RGB tint, each channel a multiplier in [0, 1]. */
  datatype Color = Color(r: real, g: real, b: real)

  const White := Color(1.0, 1.0, 1.0)

  /** A positioned, sized, moving, textured and tinted rectangle. */
  datatype GameObject = GameObject(
    position: Vec2,
    size: Vec2,
    velocity: Vec2,
    texture: string,
    color: Color)

  function Abs(r: real): real {
    if r < 0.0 then -r else r
  }
}
