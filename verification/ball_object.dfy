/**
 The ball: a game object with a radius and a "stuck" flag. While stuck it
 rests on the paddle and does not move; once free it advances by its
 velocity each frame and bounces off the left, right and top edges of the
 window. There is no bottom wall: a ball that falls past the bottom keeps
 falling.
 */
module BallObjects {
  import opened GameObjects

  /** Where a free ball is after one frame of `dt` seconds, before any wall check. */
  function Advanced(o: GameObject, dt: real): (r: GameObject)
    ensures r.position.x == o.position.x + dt * o.velocity.x
    ensures r.position.y == o.position.y + dt * o.velocity.y
    ensures r.(position := o.position) == o
  {
    o.(position := o.position.Plus(o.velocity.Scale(dt)))
  }

  /**
   The horizontal wall check of a free ball in a window `width` pixels wide.
   The left and right walls exclude each other: the left one is tried first.
   */
  function BounceX(o: GameObject, width: nat): (r: GameObject)
    ensures r.(position := o.position, velocity := o.velocity) == o
    ensures r.position.y == o.position.y && r.velocity.y == o.velocity.y
    // left wall
    ensures o.position.x <= 0.0 ==> r.position.x == 0.0 && r.velocity.x == -o.velocity.x
    // right wall, only when the left one did not fire
    ensures 0.0 < o.position.x && o.position.x + o.size.x >= width as real ==>
      r.position.x == width as real - o.size.x && r.velocity.x == -o.velocity.x
    // strictly between the walls: untouched
    ensures 0.0 < o.position.x && o.position.x + o.size.x < width as real ==> r == o
    ensures o.size.x <= width as real ==> 0.0 <= r.position.x <= width as real - o.size.x
    ensures Abs(r.velocity.x) == Abs(o.velocity.x)
  {
    if o.position.x <= 0.0 then
      o.(velocity := o.velocity.(x := -o.velocity.x), position := o.position.(x := 0.0))
    else if o.position.x + o.size.x >= width as real then
      o.(velocity := o.velocity.(x := -o.velocity.x), position := o.position.(x := width as real - o.size.x))
    else
      o
  }

  /** The top wall check. No bottom wall exists: a large y is left as it is. */
  function BounceTop(o: GameObject): (r: GameObject)
    ensures r.(position := o.position, velocity := o.velocity) == o
    ensures r.position.x == o.position.x && r.velocity.x == o.velocity.x
    ensures o.position.y <= 0.0 ==> r.position.y == 0.0 && r.velocity.y == -o.velocity.y
    ensures 0.0 < o.position.y ==> r == o
    ensures r.position.y >= 0.0
    ensures Abs(r.velocity.y) == Abs(o.velocity.y)
  {
    if o.position.y <= 0.0 then
      o.(velocity := o.velocity.(y := -o.velocity.y), position := o.position.(y := 0.0))
    else
      o
  }

  /** One frame of a free ball: advance, then the side walls, then the top wall. */
  function FreeStep(o: GameObject, dt: real, width: nat): GameObject {
    BounceTop(BounceX(Advanced(o, dt), width))
  }

  /**
   What a frame does to a free ball: it lands inside the window horizontally
   (when it fits), never above the top edge, its size, texture and tint are
   kept, and each velocity component keeps its magnitude (only signs flip).
   */
  lemma FreeStepStaysInside(o: GameObject, dt: real, width: nat)
    ensures var r := FreeStep(o, dt, width);
      && r.size == o.size && r.texture == o.texture && r.color == o.color
      && (o.size.x <= width as real ==> 0.0 <= r.position.x <= width as real - o.size.x)
      && r.position.y >= 0.0
      && Abs(r.velocity.x) == Abs(o.velocity.x)
      && Abs(r.velocity.y) == Abs(o.velocity.y)
  {
    var a := Advanced(o, dt);
    var b := BounceX(a, width);
    assert b.size == o.size && b.velocity.y == o.velocity.y;
  }

  /**
   A ball that moves inward as it crosses a wall comes out moving away from
   it: crossing the left wall heading left leaves it heading right, crossing
   the right wall heading right leaves it heading left, crossing the top
   heading up leaves it heading down.
   */
  lemma FreeStepTurnsInward(o: GameObject, dt: real, width: nat)
    ensures var a := Advanced(o, dt); var r := FreeStep(o, dt, width);
      && (a.position.x <= 0.0 && o.velocity.x < 0.0 ==> r.velocity.x > 0.0)
      && (0.0 < a.position.x && a.position.x + o.size.x >= width as real && o.velocity.x > 0.0
          ==> r.velocity.x < 0.0)
      && (a.position.y <= 0.0 && o.velocity.y < 0.0 ==> r.velocity.y > 0.0)
  {
    var a := Advanced(o, dt);
    var b := BounceX(a, width);
    assert b.velocity.y == o.velocity.y;
  }

  /** A frame that reaches no wall moves the ball by exactly `velocity * dt`. */
  lemma FreeStepInOpenSpace(o: GameObject, dt: real, width: nat)
    requires var a := Advanced(o, dt);
      0.0 < a.position.x && a.position.x + o.size.x < width as real && 0.0 < a.position.y
    ensures FreeStep(o, dt, width) == Advanced(o, dt)
  {
    var a := Advanced(o, dt);
    assert BounceX(a, width) == a;
  }

  /** The ball of several frames of `dts`, free throughout. */
  function FreeFrames(o: GameObject, dts: seq<real>, width: nat): GameObject
    decreases |dts|
  {
    if dts == [] then o else FreeFrames(FreeStep(o, dts[0], width), dts[1..], width)
  }

  /**
   However many frames pass, a free ball that fits in the window stays
   between the side walls and below the top one, and its speed on each axis
   never changes.
   */
  lemma {:induction false} FreeFramesStayInside(o: GameObject, dts: seq<real>, width: nat)
    requires o.size.x <= width as real
    requires dts != []
    ensures var r := FreeFrames(o, dts, width);
      && r.size == o.size
      && 0.0 <= r.position.x <= width as real - o.size.x
      && r.position.y >= 0.0
      && Abs(r.velocity.x) == Abs(o.velocity.x)
      && Abs(r.velocity.y) == Abs(o.velocity.y)
    decreases |dts|
  {
    var s := FreeStep(o, dts[0], width);
    FreeStepStaysInside(o, dts[0], width);
    if |dts| > 1 {
      FreeFramesStayInside(s, dts[1..], width);
    }
  }

  class BallObject {
    var gameObj: GameObject
    var radius: real
    var stuck: bool

    /** A new ball rests on the paddle: white, not moving, as wide and tall as its diameter. */
    constructor (position: Vec2, sprite: string, radius: real)
      ensures gameObj == GameObject(position, Vec2(2.0 * radius, 2.0 * radius), Vec2(0.0, 0.0), sprite, White)
      ensures this.radius == radius
      ensures stuck
    {
      gameObj := GameObject(position, Vec2(radius * 2.0, radius * 2.0), Vec2(0.0, 0.0), sprite, Color(1.0, 1.0, 1.0));
      this.radius := radius;
      stuck := true;
    }

    /**
     One frame of motion. A stuck ball does not move at all; a free one
     advances by `velocity * dt` and is then pushed back inside the left,
     right and top walls with the matching velocity component negated.
     */
    method MoveBall(dt: real, windowWidth: nat)
      modifies this
      ensures radius == old(radius) && stuck == old(stuck)
      ensures old(stuck) ==> gameObj == old(gameObj)
      ensures !old(stuck) ==> gameObj == FreeStep(old(gameObj), dt, windowWidth)
      ensures gameObj.size == old(gameObj.size)
      ensures !old(stuck) && gameObj.size.x <= windowWidth as real ==>
        0.0 <= gameObj.position.x <= windowWidth as real - gameObj.size.x && gameObj.position.y >= 0.0
      ensures Abs(gameObj.velocity.x) == Abs(old(gameObj.velocity.x))
      ensures Abs(gameObj.velocity.y) == Abs(old(gameObj.velocity.y))
    {
      if !stuck {
        gameObj := gameObj.(position := gameObj.position.Plus(gameObj.velocity.Scale(dt)));
        if gameObj.position.x <= 0.0 {
          gameObj := gameObj.(velocity := gameObj.velocity.(x := -gameObj.velocity.x));
          gameObj := gameObj.(position := gameObj.position.(x := 0.0));
        } else if gameObj.position.x + gameObj.size.x >= windowWidth as real {
          gameObj := gameObj.(velocity := gameObj.velocity.(x := -gameObj.velocity.x));
          gameObj := gameObj.(position := gameObj.position.(x := windowWidth as real - gameObj.size.x));
        }
        if gameObj.position.y <= 0.0 {
          gameObj := gameObj.(velocity := gameObj.velocity.(y := -gameObj.velocity.y));
          gameObj := gameObj.(position := gameObj.position.(y := 0.0));
        }
        FreeStepStaysInside(old(gameObj), dt, windowWidth);
      }
    }

    /** Puts the ball back on the paddle: new position and launch velocity, stuck again. */
    method Reset(position: Vec2, velocity: Vec2)
      modifies this
      ensures gameObj == old(gameObj).(position := position, velocity := velocity)
      ensures stuck
      ensures radius == old(radius)
    {
      gameObj := gameObj.(position := position);
      gameObj := gameObj.(velocity := velocity);
      stuck := true;
    }
  }
}
