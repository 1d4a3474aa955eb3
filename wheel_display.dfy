// The scale widget: it stores the segments it last built, bounces a pointer
// along them and hands the final pointer position to the completion callback.
// Drawing, the colour cache's filling while drawing, the resize handler and
// the frame timer are outside the model; the random draws arrive as parameters
// and the callback's argument is returned.

module WheelDisplayComponent {
  import opened Wrappers
  import opened ProbabilityEngine
  import opened Lottery

  class WheelDisplay {
    var scaleSegments: seq<Segment>
    var pointerX: real
    var pointerVel: real
    var bouncing: bool
    /** The value of the friction slider's variable. */
    var friction: real
    /** Player name to drawing colour. */
    var playerColors: map<string, string>

    predicate OnScale()
      reads this
    {
      0.0 <= pointerX <= 100.0 && Abs(pointerVel) <= 5.0
    }

    constructor()
      ensures scaleSegments == [] && pointerX == 0.0 && pointerVel == 0.0 && !bouncing
      ensures friction == 0.99 && playerColors == map[]
      ensures OnScale()
    {
      scaleSegments := [];
      pointerX := 0.0;
      pointerVel := 0.0;
      bouncing := false;
      friction := 0.99;
      playerColors := map[];
    }

    /** Forgets the segments and the colours; a running bounce is not stopped. */
    method Clear()
      modifies this
      ensures scaleSegments == [] && playerColors == map[]
      ensures pointerX == old(pointerX) && pointerVel == old(pointerVel)
      ensures bouncing == old(bouncing) && friction == old(friction)
    {
      scaleSegments := [];
      playerColors := map[];
    }

    /** Lays out `probs` on the scale and keeps the result as the current segments. */
    method BuildSegments(probs: Distribution) returns (segs: seq<Segment>)
      modifies this
      ensures segs == SegmentsOf(probs) && scaleSegments == segs
      ensures pointerX == old(pointerX) && pointerVel == old(pointerVel)
      ensures bouncing == old(bouncing) && friction == old(friction)
      ensures playerColors == old(playerColors)
    {
      segs := Lottery.BuildSegments(probs);
      scaleSegments := segs;
    }

    /** One frame: move and reflect the pointer, apply the friction, and once the
        speed drops below 0.2 stop and return the position for the callback. */
    method UpdateBounce() returns (landed: Option<real>)
      modifies this
      ensures !old(bouncing) ==> landed == None && unchanged(this)
      ensures old(bouncing) ==>
        var m := Step(old(pointerX), old(pointerVel), friction);
        && pointerX == m.x && pointerVel == m.vel && bouncing == !Settled(m.vel)
        && landed == (if Settled(m.vel) then Some(m.x) else None)
      ensures scaleSegments == old(scaleSegments) && friction == old(friction)
      ensures playerColors == old(playerColors)
      ensures old(OnScale()) && 0.0 <= friction <= 1.0 ==> OnScale()
    {
      if !bouncing {
        return None;
      }
      if OnScale() && 0.0 <= friction <= 1.0 {
        StepOnScale(pointerX, pointerVel, friction, 5.0);
      }
      var m := Step(pointerX, pointerVel, friction);
      pointerX, pointerVel := m.x, m.vel;
      if Abs(pointerVel) < 0.2 {
        bouncing := false;
        return Some(pointerX);
      }
      return None;
    }

    /** Without segments nothing starts. Otherwise the pointer starts from the
        drawn position `startX` and velocity `startVel` (the source draws them
        from [0, 100] and [-5, 5]), a draw slower than 1 is replaced by 5 with
        its sign, and the first frame runs at once. */
    method Spin(startX: real, startVel: real) returns (started: bool, landed: Option<real>)
      modifies this
      ensures started <==> old(scaleSegments) != []
      ensures !started ==> landed == None && unchanged(this)
      ensures started ==>
        var m := Step(startX, InitialVelocity(startVel), friction);
        && pointerX == m.x && pointerVel == m.vel && bouncing == !Settled(m.vel)
        && landed == (if Settled(m.vel) then Some(m.x) else None)
        && scaleSegments == old(scaleSegments) && friction == old(friction)
        && playerColors == old(playerColors)
      ensures started && 0.0 <= startX <= 100.0 && -5.0 <= startVel <= 5.0 && 0.0 <= friction <= 1.0
        ==> OnScale()
    {
      if scaleSegments == [] {
        return false, None;
      }
      pointerX := startX;
      pointerVel := startVel;
      if Abs(pointerVel) < 1.0 {
        pointerVel := if pointerVel >= 0.0 then 5.0 else -5.0;
      }
      bouncing := true;
      landed := UpdateBounce();
      started := true;
    }
  }
}
