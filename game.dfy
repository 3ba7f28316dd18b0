/**
 * The pose record, linear interpolation and the timeline interpolator of
 * `src/game.rs`. Times, coordinates and angles are `f32` in the program and
 * exact reals here.
 */
module Game {
  import opened Wrappers

  /** raylib's `Vector2` with the two operators the program uses. */
  datatype Vec2 = Vec2(x: real, y: real) {
    function Plus(other: Vec2): (sum: Vec2) { Vec2(x + other.x, y + other.y) }
    function Scale(k: real): (scaled: Vec2) { Vec2(x * k, y * k) }
  }

  /** One keyframe of the motion timeline: the turtle's pose at `time`. */
  datatype TurtleState = TurtleState(time: real, pos: Vec2, rot: real, isDrawing: bool)

  /** `interp` on `f32`: `a * (1 - c) + b * c`. */
  function InterpReal(a: real, b: real, c: real): (r: real)
    ensures c == 0.0 ==> r == a
    ensures c == 1.0 ==> r == b
  {
    a * (1.0 - c) + b * c
  }

  /** For a coefficient in [0, 1] the blend lies between its two ends. */
  lemma InterpBetween(a: real, b: real, c: real)
    requires 0.0 <= c <= 1.0
    ensures a <= b ==> a <= InterpReal(a, b, c) <= b
    ensures b <= a ==> b <= InterpReal(a, b, c) <= a
  {
    var r := InterpReal(a, b, c);
    assert r - a == (b - a) * c;
    assert b - r == (b - a) * (1.0 - c);
    if a <= b {
      ProductNonNegative(b - a, c);
      ProductNonNegative(b - a, 1.0 - c);
    } else {
      ProductNonNegative(a - b, c);
      ProductNonNegative(a - b, 1.0 - c);
    }
  }

  lemma ProductNonNegative(x: real, y: real)
    requires x >= 0.0 && y >= 0.0
    ensures x * y >= 0.0
  {
  }

  /** `interp` on `Vector2`: the same blend, component by component. */
  function InterpVec(a: Vec2, b: Vec2, c: real): (r: Vec2)
    ensures r.x == InterpReal(a.x, b.x, c) && r.y == InterpReal(a.y, b.y, c)
    ensures c == 0.0 ==> r == a
    ensures c == 1.0 ==> r == b
  {
    a.Scale(1.0 - c).Plus(b.Scale(c))
  }

  /**
   * Index of the first keyframe whose time is strictly later than `time`, or
   * `|states|` when there is none: where the interpolator's scan stops.
   */
  function FirstLater(states: seq<TurtleState>, time: real): (i: nat)
    ensures i <= |states|
    ensures forall k :: 0 <= k < i ==> states[k].time <= time
    ensures i < |states| ==> states[i].time > time
  {
    if states == [] || states[0].time > time then 0
    else 1 + FirstLater(states[1..], time)
  }

  /**
   * `interpolate_state`: the pose at `time`, blended between the keyframe just
   * before the first later keyframe and that later keyframe; `None` when no
   * keyframe is later, or when the very first one already is.
   */
  function Interpolate(states: seq<TurtleState>, time: real): (r: Option<TurtleState>)
    ensures r.Some? ==> |states| >= 2 && r.value.time == time
  {
    var i := FirstLater(states, time);
    if i == |states| || i == 0 then None
    else
      var before, after := states[i - 1], states[i];
      var c := (time - before.time) / (after.time - before.time);
      Some(TurtleState(time, InterpVec(before.pos, after.pos, c),
                       InterpReal(before.rot, after.rot, c), before.isDrawing))
  }

  /** The scan of `interpolate_state`, a `while` loop over `i` with early returns. */
  method InterpolateState(states: seq<TurtleState>, time: real) returns (r: Option<TurtleState>)
    ensures r == Interpolate(states, time)
  {
    var i := 0;
    while i < |states|
      invariant 0 <= i <= |states|
      invariant forall k :: 0 <= k < i ==> states[k].time <= time
    {
      var after := states[i];
      if after.time > time {
        FirstLaterIs(states, time, i);
        if i == 0 {
          return None;
        }
        var before := states[i - 1];
        var c := (time - before.time) / (after.time - before.time);
        return Some(TurtleState(time, InterpVec(before.pos, after.pos, c),
                                InterpReal(before.rot, after.rot, c), before.isDrawing));
      }
      i := i + 1;
    }
    FirstLaterIs(states, time, |states|);
    return None;
  }

  /** The scan's stopping index is determined by its two defining facts. */
  lemma {:induction false} FirstLaterIs(states: seq<TurtleState>, time: real, i: nat)
    requires i <= |states|
    requires forall k :: 0 <= k < i ==> states[k].time <= time
    requires i < |states| ==> states[i].time > time
    ensures FirstLater(states, time) == i
  {
    if i > 0 {
      FirstLaterIs(states[1..], time, i - 1);
    }
  }

  /**
   * `draw_turtle`'s result: it draws and answers `true` exactly when there is a
   * pose at `time` (the drawing itself is raylib's).
   */
  method DrawTurtle(states: seq<TurtleState>, time: real) returns (drawn: bool)
    ensures drawn <==> Interpolate(states, time).Some?
  {
    var current := InterpolateState(states, time);
    drawn := current.Some?;
  }

  /** The latest keyframe time (0 for an empty timeline). */
  function MaxTime(states: seq<TurtleState>): (m: real)
    ensures forall k :: 0 <= k < |states| ==> states[k].time <= m
    ensures |states| > 0 ==> exists k :: 0 <= k < |states| && states[k].time == m
  {
    if states == [] then 0.0
    else
      var rest := MaxTime(states[1..]);
      if |states| == 1 || states[0].time >= rest then states[0].time else rest
  }

  /** Keyframe times never decrease along the timeline. */
  ghost predicate Sorted(states: seq<TurtleState>)
  {
    forall j, k :: 0 <= j <= k < |states| ==> states[j].time <= states[k].time
  }

  /** Every timeline the loader builds: starts at time 0, never goes back in time. */
  ghost predicate ValidTimeline(states: seq<TurtleState>)
  {
    |states| > 0 && states[0].time == 0.0 && Sorted(states)
  }

  /**
   * There is a pose at `time` exactly when the first keyframe is not later than
   * `time` and some keyframe is.
   */
  lemma PoseExists(states: seq<TurtleState>, time: real)
    ensures Interpolate(states, time).Some? <==>
              |states| > 0 && states[0].time <= time &&
              exists k :: 0 <= k < |states| && states[k].time > time
  {
    var i := FirstLater(states, time);
    if i < |states| {
      assert states[i].time > time;
    }
  }

  /**
   * A returned pose is bracketed by the keyframes `i - 1` and `i` around the
   * first later one, carries the query time, and takes the pen state of the
   * earlier keyframe, never of the later one.
   */
  lemma PoseBracketed(states: seq<TurtleState>, time: real)
    requires Interpolate(states, time).Some?
    ensures var i := FirstLater(states, time);
            0 < i < |states| &&
            states[i - 1].time <= time < states[i].time &&
            Interpolate(states, time).value.time == time &&
            Interpolate(states, time).value.isDrawing == states[i - 1].isDrawing
  {
  }

  /** With no keyframe later than `time` there is no pose. */
  lemma NoneWhenNothingLater(states: seq<TurtleState>, time: real)
    requires forall k :: 0 <= k < |states| ==> states[k].time <= time
    ensures Interpolate(states, time) == None
  {
    FirstLaterIs(states, time, |states|);
  }

  /** A query earlier than the first keyframe has no pose either. */
  lemma NoneBeforeStart(states: seq<TurtleState>, time: real)
    requires |states| > 0 && states[0].time > time
    ensures Interpolate(states, time) == None
  {
  }

  /** On a sorted timeline every query at or after the last keyframe is `None`. */
  lemma NoneAfterEnd(states: seq<TurtleState>, time: real)
    requires Sorted(states) && |states| > 0
    requires time >= states[|states| - 1].time
    ensures Interpolate(states, time) == None
  {
    assert forall k :: 0 <= k < |states| ==> states[k].time <= states[|states| - 1].time;
    NoneWhenNothingLater(states, time);
  }

  /** A one-keyframe timeline has no pose at any time, including its own. */
  lemma SingleKeyframeNeverPlays(s: TurtleState, time: real)
    ensures Interpolate([s], time) == None
  {
    if s.time <= time {
      NoneWhenNothingLater([s], time);
    }
  }

  /** Negative queries on a timeline starting at 0 are `None`. */
  lemma NoneForNegativeTime(states: seq<TurtleState>, time: real)
    requires ValidTimeline(states) && time < 0.0
    ensures Interpolate(states, time) == None
  {
    NoneBeforeStart(states, time);
  }

  /** Every query that has a pose lies before the latest keyframe. */
  lemma PoseBeforeEnd(states: seq<TurtleState>, time: real)
    requires Interpolate(states, time).Some?
    ensures time < MaxTime(states)
  {
    var i := FirstLater(states, time);
    assert states[i].time <= MaxTime(states);
  }

  /**
   * A returned pose sits on the segment between the two bracketing keyframes:
   * the divisor is positive, the coefficient is in [0, 1), and position and
   * heading are that blend of the two keyframes, whether or not the timeline is
   * sorted.
   */
  lemma PoseOnSegment(states: seq<TurtleState>, time: real, i: nat, c: real)
    requires 0 < i < |states|
    requires forall k :: 0 <= k < i ==> states[k].time <= time
    requires states[i].time > time
    requires c == (time - states[i - 1].time) / (states[i].time - states[i - 1].time)
    ensures states[i].time - states[i - 1].time > 0.0 && 0.0 <= c < 1.0
    ensures Interpolate(states, time) ==
              Some(TurtleState(time, InterpVec(states[i - 1].pos, states[i].pos, c),
                               InterpReal(states[i - 1].rot, states[i].rot, c), states[i - 1].isDrawing))
  {
    FirstLaterIs(states, time, i);
    QuotientBelowOne(time - states[i - 1].time, states[i].time - states[i - 1].time);
  }

  /** A non-negative quantity below a positive divisor has a quotient in [0, 1). */
  lemma QuotientBelowOne(n: real, d: real)
    requires 0.0 <= n < d
    ensures 0.0 <= n / d < 1.0
  {
    assert n / d * d == n;
  }

  /**
   * A query exactly at a keyframe's time, where the next keyframe is strictly
   * later, gives back that keyframe's own pose: no drift at sample points. On a
   * sorted timeline this is the last keyframe carrying that time.
   */
  lemma {:induction false} PoseAtKeyframe(states: seq<TurtleState>, j: nat)
    requires Sorted(states)
    requires j + 1 < |states| && states[j].time < states[j + 1].time
    ensures Interpolate(states, states[j].time) == Some(states[j])
  {
    var t := states[j].time;
    forall k | 0 <= k < j + 1 ensures states[k].time <= t {
    }
    var d := states[j + 1].time - states[j].time;
    assert (t - states[j].time) / d == 0.0 / d == 0.0;
    PoseOnSegment(states, t, j + 1, 0.0);
  }

  /**
   * `GameState`: the three speeds fixed at start-up and the keyframe list that
   * the loader fills. `running` is never changed by the program and is left out.
   */
  class GameState {
    const spawnInterval: real
    const moveSpeed: real
    const rotateSpeed: real
    var turtles: seq<TurtleState>

    constructor (spawnInterval: real, moveSpeed: real, rotateSpeed: real)
      ensures this.spawnInterval == spawnInterval
      ensures this.moveSpeed == moveSpeed && this.rotateSpeed == rotateSpeed
      ensures turtles == []
    {
      this.spawnInterval := spawnInterval;
      this.moveSpeed := moveSpeed;
      this.rotateSpeed := rotateSpeed;
      turtles := [];
    }
  }
}
