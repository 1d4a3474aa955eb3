// The animated wheel widget: it holds the segments being spun, the pointer's
// position and velocity, whether it is still bouncing, and the friction that
// slows it. Drawing, the theme, the timer that schedules the next frame and the
// random draws are outside the model: the draws arrive as parameters.

module ModernWheelComponent {
  import opened Wrappers
  import opened ProbabilityEngine
  import opened Lottery

  /** How a frame of the animation ends: nothing to animate, still moving, or
      stopped with the player the completion callback receives. */
  datatype Frame = Idle | Moving | Finished(selected: Option<string>)

  class ModernWheel {
    var segments: seq<Segment>
    var pointerX: real
    var pointerVel: real
    var bouncing: bool
    var friction: real

    /** The pointer is on the scale and no faster than a spin starts it. */
    predicate OnScale()
      reads this
    {
      0.0 <= pointerX <= 100.0 && Abs(pointerVel) <= 5.0
    }

    /** The friction is kept as given, without the clamp `set_friction` applies. */
    constructor(friction: real)
      ensures segments == [] && pointerX == 0.0 && pointerVel == 0.0 && !bouncing
      ensures this.friction == friction
      ensures OnScale()
    {
      segments := [];
      pointerX := 0.0;
      pointerVel := 0.0;
      bouncing := false;
      this.friction := friction;
    }

    method Clear()
      modifies this
      ensures segments == [] && !bouncing
      ensures pointerX == old(pointerX) && pointerVel == old(pointerVel) && friction == old(friction)
    {
      segments := [];
      bouncing := false;
    }

    method SetFriction(f: real)
      modifies this
      ensures friction == ClampFriction(f) && 0.0 <= friction <= 0.999
      ensures segments == old(segments) && pointerX == old(pointerX)
      ensures pointerVel == old(pointerVel) && bouncing == old(bouncing)
    {
      var capped := if 0.999 < f then 0.999 else f;
      friction := if 0.0 < capped then capped else 0.0;
    }

    /** One frame: move and reflect the pointer, apply the friction, and stop
        with the selected player once the speed drops below 0.2. */
    method UpdateAnimation() returns (frame: Frame)
      modifies this
      ensures !old(bouncing) ==> frame == Idle && unchanged(this)
      ensures old(bouncing) ==>
        var m := Step(old(pointerX), old(pointerVel), friction);
        && pointerX == m.x && pointerVel == m.vel && bouncing == !Settled(m.vel)
        && frame == (if Settled(m.vel) then Finished(Winner(segments, m.x)) else Moving)
      ensures segments == old(segments) && friction == old(friction)
      ensures old(OnScale()) && 0.0 <= friction <= 1.0 ==> OnScale()
    {
      if !bouncing {
        return Idle;
      }
      if OnScale() && 0.0 <= friction <= 1.0 {
        StepOnScale(pointerX, pointerVel, friction, 5.0);
      }
      var m := Step(pointerX, pointerVel, friction);
      pointerX, pointerVel := m.x, m.vel;
      if Abs(pointerVel) < 0.2 {
        bouncing := false;
        var selected := SelectWinner(segments, pointerX);
        return Finished(selected);
      }
      return Moving;
    }

    /** Start a spin from the drawn position `startX` and velocity `startVel`
        (the source draws them from [0, 100] and [-5, 5]); a draw slower than 1
        is replaced by 5 with its sign, and the first frame runs at once. */
    method Spin(segs: seq<Segment>, startX: real, startVel: real) returns (frame: Frame)
      modifies this
      ensures segs == [] ==> frame == Idle && unchanged(this)
      ensures segs != [] ==>
        var m := Step(startX, InitialVelocity(startVel), friction);
        && segments == segs && friction == old(friction)
        && pointerX == m.x && pointerVel == m.vel && bouncing == !Settled(m.vel)
        && frame == (if Settled(m.vel) then Finished(Winner(segs, m.x)) else Moving)
      ensures segs != [] && 0.0 <= startX <= 100.0 && -5.0 <= startVel <= 5.0 && 0.0 <= friction <= 1.0
        ==> OnScale()
    {
      if segs == [] {
        return Idle;
      }
      segments := segs;
      pointerX := startX;
      pointerVel := startVel;
      if Abs(pointerVel) < 1.0 {
        pointerVel := if pointerVel >= 0.0 then 5.0 else -5.0;
      }
      bouncing := true;
      frame := UpdateAnimation();
    }
  }
}
