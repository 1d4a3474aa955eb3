// The lottery both wheel widgets run: a probability dict is laid out as
// contiguous half-open segments of a 0..100 scale, a pointer bounces along the
// scale until friction stops it, and the segment under the pointer wins.

module Lottery {
  import opened Wrappers
  import opened DraftTypes
  import opened ProbabilityEngine

  /** `(player, start_pct, end_pct)`: the player owns the positions start <= x < end. */
  datatype Segment = Segment(player: string, start: real, end: real)

  predicate Contains(s: Segment, x: real)
  {
    s.start <= x < s.end
  }

  predicate NonNegative(probs: Distribution)
  {
    forall i :: 0 <= i < |probs| ==> probs[i].1 >= 0.0
  }

  // ---- build_segments --------------------------------------------------------

  /** The segments for `probs`, in the dict's order: each entry's segment starts
      where the entries before it end and is `prob * 100` wide. */
  function SegmentsOf(probs: Distribution): (segs: seq<Segment>)
    ensures |segs| == |probs|
  {
    if |probs| == 0 then []
    else
      var prefix := probs[..|probs| - 1];
      var start := 100.0 * Total(prefix);
      SegmentsOf(prefix) + [Segment(probs[|probs| - 1].0, start, start + probs[|probs| - 1].1 * 100.0)]
  }

  /** The accumulator loop: `current` runs through the cumulative widths. */
  method BuildSegments(probs: Distribution) returns (segs: seq<Segment>)
    ensures segs == SegmentsOf(probs)
  {
    segs := [];
    var current := 0.0;
    for i := 0 to |probs|
      invariant segs == SegmentsOf(probs[..i])
      invariant current == 100.0 * Total(probs[..i])
    {
      assert probs[..i + 1][..i] == probs[..i];
      var width := probs[i].1 * 100.0;
      segs := segs + [Segment(probs[i].0, current, current + width)];
      current := current + width;
    }
    assert probs[..|probs|] == probs;
  }

  /** One segment per entry, named after it and `prob * 100` wide; the first
      starts at 0, each starts where the previous one ends, and the last ends at
      100 times the sum of the probabilities. */
  lemma {:induction false} SegmentsShape(probs: Distribution)
    ensures var segs := SegmentsOf(probs);
      && (forall i :: 0 <= i < |probs| ==>
            segs[i].player == probs[i].0 && segs[i].end - segs[i].start == probs[i].1 * 100.0)
      && (|probs| > 0 ==> segs[0].start == 0.0 && segs[|probs| - 1].end == 100.0 * Total(probs))
      && (forall i :: 0 < i < |probs| ==> segs[i].start == segs[i - 1].end)
  {
    if |probs| > 0 {
      var prefix := probs[..|probs| - 1];
      SegmentsShape(prefix);
      assert forall i :: 0 <= i < |prefix| ==> SegmentsOf(probs)[i] == SegmentsOf(prefix)[i];
    }
  }

  /** With no negative entry every segment lies inside [0, 100 * sum]. */
  lemma {:induction false} SegmentsWithinScale(probs: Distribution)
    requires NonNegative(probs)
    ensures Total(probs) >= 0.0
    ensures forall i :: 0 <= i < |probs| ==>
      0.0 <= SegmentsOf(probs)[i].start <= SegmentsOf(probs)[i].end <= 100.0 * Total(probs)
  {
    if |probs| > 0 {
      var prefix := probs[..|probs| - 1];
      SegmentsWithinScale(prefix);
      assert forall i :: 0 <= i < |prefix| ==> SegmentsOf(probs)[i] == SegmentsOf(prefix)[i];
    }
  }

  /** With no negative entry the segments follow each other without overlap. */
  lemma {:induction false} SegmentsOrdered(probs: Distribution)
    requires NonNegative(probs)
    ensures forall i, j :: 0 <= i < j < |probs| ==> SegmentsOf(probs)[i].end <= SegmentsOf(probs)[j].start
  {
    if |probs| > 0 {
      var prefix := probs[..|probs| - 1];
      SegmentsOrdered(prefix);
      SegmentsWithinScale(prefix);
      assert forall i :: 0 <= i < |prefix| ==> SegmentsOf(probs)[i] == SegmentsOf(prefix)[i];
    }
  }

  /** With no negative entry every position in [0, 100 * sum) lies in some segment. */
  lemma {:induction false} SegmentsCoverScale(probs: Distribution, x: real)
    requires NonNegative(probs)
    requires 0.0 <= x < 100.0 * Total(probs)
    ensures exists i :: 0 <= i < |probs| && Contains(SegmentsOf(probs)[i], x)
  {
    var prefix := probs[..|probs| - 1];
    var n := |probs| - 1;
    if x < 100.0 * Total(prefix) {
      SegmentsCoverScale(prefix, x);
      var i :| 0 <= i < |prefix| && Contains(SegmentsOf(prefix)[i], x);
      assert SegmentsOf(probs)[i] == SegmentsOf(prefix)[i];
    } else {
      assert Contains(SegmentsOf(probs)[n], x);
    }
  }

  // ---- segment selection -----------------------------------------------------

  /** The index of the first segment holding `x`, or |segs| when none does. */
  function FirstContaining(segs: seq<Segment>, x: real): (k: nat)
    ensures k <= |segs|
    ensures forall j :: 0 <= j < k ==> !Contains(segs[j], x)
    ensures k < |segs| ==> Contains(segs[k], x)
  {
    if |segs| == 0 then 0
    else if Contains(segs[0], x) then 0
    else 1 + FirstContaining(segs[1..], x)
  }

  /** The player `_finish_spin` selects: the first segment with start <= x < end. */
  function Winner(segs: seq<Segment>, x: real): Option<string>
  {
    var k := FirstContaining(segs, x);
    if k < |segs| then Some(segs[k].player) else None
  }

  /** The selection loop of `_finish_spin`. */
  method SelectWinner(segs: seq<Segment>, x: real) returns (selected: Option<string>)
    ensures selected == Winner(segs, x)
  {
    selected := None;
    var i := 0;
    while i < |segs|
      invariant 0 <= i <= |segs|
      invariant forall j :: 0 <= j < i ==> !Contains(segs[j], x)
    {
      if segs[i].start <= x < segs[i].end {
        selected := Some(segs[i].player);
        return;
      }
      i := i + 1;
    }
  }

  /** The winner is a player whose segment holds `x`, and no earlier segment
      holds it; there is no winner exactly when no segment holds `x`. */
  lemma WinnerHoldsPointer(segs: seq<Segment>, x: real)
    ensures Winner(segs, x).None? <==> forall i :: 0 <= i < |segs| ==> !Contains(segs[i], x)
    ensures Winner(segs, x).Some? ==>
      exists i :: 0 <= i < |segs| && Contains(segs[i], x) && segs[i].player == Winner(segs, x).value
                  && forall j :: 0 <= j < i ==> !Contains(segs[j], x)
  {
    var k := FirstContaining(segs, x);
    if k < |segs| {
      assert Contains(segs[k], x);
    }
  }

  /** On the segments of a distribution with no negative entry, every position
      in [0, 100 * sum) selects the one player whose segment holds it, and every
      position outside, the end of the last segment included, selects no one. */
  lemma WinnerOnScale(probs: Distribution, x: real)
    requires NonNegative(probs)
    ensures var segs := SegmentsOf(probs);
      0.0 <= x < 100.0 * Total(probs) <==> Winner(segs, x).Some?
    ensures var segs := SegmentsOf(probs);
      forall i :: 0 <= i < |segs| && Contains(segs[i], x) ==> Winner(segs, x) == Some(probs[i].0)
  {
    var segs := SegmentsOf(probs);
    SegmentsShape(probs);
    SegmentsWithinScale(probs);
    SegmentsOrdered(probs);
    WinnerHoldsPointer(segs, x);
    if 0.0 <= x < 100.0 * Total(probs) {
      SegmentsCoverScale(probs, x);
    }
  }

  lemma FloorNonNegative(b: real, n: nat)
    requires b >= 0.0 && n > 0
    ensures Floor(b, n) >= 0.0
  {
  }

  /** The wheel built from compute_probabilities' result fills the scale exactly:
      its last segment ends at 100, every pointer position in [0, 100) selects a
      player, and a pointer resting exactly on 100 selects no one. */
  lemma ProbabilityWheelFillsScale(team: Team, role: string, allPlayers: map<string, Player>,
                                   playersInRole: seq<string>, g: real, b: real, x: real)
    requires AllKnown(playersInRole, allPlayers)
    requires 0.0 <= b <= 1.0
    requires Probabilities(team, role, allPlayers, playersInRole, g, b) != []
    ensures var segs := SegmentsOf(Probabilities(team, role, allPlayers, playersInRole, g, b));
      && segs[|segs| - 1].end == 100.0
      && (0.0 <= x < 100.0 <==> Winner(segs, x).Some?)
      && Winner(segs, 100.0) == None
  {
    var raw := RawWeights(playersInRole, allPlayers, role, IdealMmr(team, g));
    var probs := Probabilities(team, role, allPlayers, playersInRole, g, b);
    ProbabilitiesSumToOne(team, role, allPlayers, playersInRole, g, b);
    FloorNonNegative(b, |raw|);
    forall i | 0 <= i < |probs|
      ensures probs[i].1 >= 0.0
    {
      ProbabilityFloor(team, role, allPlayers, playersInRole, g, b, i);
    }
    SegmentsShape(probs);
    WinnerOnScale(probs, x);
    WinnerOnScale(probs, 100.0);
  }

  // ---- the pointer -----------------------------------------------------------

  /** The pointer's position on the 0..100 scale and its velocity per frame. */
  datatype Motion = Motion(x: real, vel: real)

  /** Move by the velocity; a pointer that left the scale is mirrored back
      across the edge it crossed and its velocity is reversed. */
  function Reflect(x: real, vel: real): Motion
  {
    var moved := x + vel;
    if moved < 0.0 then Motion(Abs(moved), -vel)
    else if moved > 100.0 then Motion(100.0 - (moved - 100.0), -vel)
    else Motion(moved, vel)
  }

  /** One animation frame: reflect, then multiply the velocity by the friction. */
  function Step(x: real, vel: real, friction: real): Motion
  {
    var m := Reflect(x, vel);
    Motion(m.x, m.vel * friction)
  }

  /** The animation stops once the speed drops below 0.2. */
  predicate Settled(vel: real)
  {
    Abs(vel) < 0.2
  }

  /** From a position on the scale and a speed of at most 100, the reflected
      pointer is back on the scale, its speed unchanged; it keeps its direction
      exactly when the move stayed on the scale, where it lands at x + vel. */
  lemma ReflectOnScale(x: real, vel: real)
    requires 0.0 <= x <= 100.0 && Abs(vel) <= 100.0
    ensures 0.0 <= Reflect(x, vel).x <= 100.0
    ensures Abs(Reflect(x, vel).vel) == Abs(vel)
    ensures 0.0 <= x + vel <= 100.0 ==> Reflect(x, vel) == Motion(x + vel, vel)
    ensures !(0.0 <= x + vel <= 100.0) ==> Reflect(x, vel).vel == -vel
  {
  }

  lemma ScaledSpeed(v: real, f: real, bound: real)
    requires Abs(v) <= bound && 0.0 <= f <= 1.0
    ensures Abs(v * f) <= bound && Abs(v * f) == Abs(v) * f
  {
    if v < 0.0 {
      assert v * f <= 0.0;
    }
  }

  /** With friction in [0, 1] a frame keeps the pointer on the scale and never
      speeds it up past any bound its speed already respected. */
  lemma StepOnScale(x: real, vel: real, friction: real, bound: real)
    requires 0.0 <= x <= 100.0 && Abs(vel) <= bound <= 100.0 && 0.0 <= friction <= 1.0
    ensures 0.0 <= Step(x, vel, friction).x <= 100.0
    ensures Abs(Step(x, vel, friction).vel) <= bound
  {
    ReflectOnScale(x, vel);
    ScaledSpeed(Reflect(x, vel).vel, friction, bound);
  }

  /** Each frame multiplies the speed by the friction. */
  lemma StepSpeed(x: real, vel: real, friction: real)
    requires 0.0 <= x <= 100.0 && Abs(vel) <= 100.0 && 0.0 <= friction <= 1.0
    ensures Abs(Step(x, vel, friction).vel) == Abs(vel) * friction
  {
    ReflectOnScale(x, vel);
    ScaledSpeed(Reflect(x, vel).vel, friction, Abs(vel));
  }

  /** A draw of |vel| below 1 is replaced by 5 with the draw's sign. */
  function InitialVelocity(vel: real): (r: real)
    ensures -5.0 <= vel <= 5.0 ==> 1.0 <= Abs(r) <= 5.0
    ensures (r >= 0.0) == (vel >= 0.0)
    ensures Abs(vel) >= 1.0 ==> r == vel
  {
    if Abs(vel) < 1.0 then (if vel >= 0.0 then 5.0 else -5.0) else vel
  }

  /** `max(0, min(0.999, friction))`. */
  function ClampFriction(friction: real): (r: real)
    ensures 0.0 <= r <= 0.999
    ensures 0.0 <= friction <= 0.999 ==> r == friction
    ensures friction > 0.999 ==> r == 0.999
    ensures friction < 0.0 ==> r == 0.0
  {
    var capped := if 0.999 < friction then 0.999 else friction;
    if 0.0 < capped then capped else 0.0
  }
}
