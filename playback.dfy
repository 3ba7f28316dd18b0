/**
 * The playback scheduler inside `run_game` (`src/game.rs`): a list of
 * per-instance elapsed times ("time offsets") and a spawn countdown. A pre-pass
 * primes the list; then every frame spawns at most one instance, keeps the
 * instances that still have a pose, and advances all of them by the frame time.
 */
module Playback {
  import opened Wrappers
  import opened Game

  /** The filter of one frame: the offsets at which the timeline still has a pose, in order. */
  function Retain(states: seq<TurtleState>, offsets: seq<real>): (kept: seq<real>)
    ensures |kept| <= |offsets|
  {
    if offsets == [] then []
    else (if Interpolate(states, offsets[0]).Some? then [offsets[0]] else []) + Retain(states, offsets[1..])
  }

  /** The filter keeps exactly the offsets that have a pose. */
  lemma {:induction false} RetainMembers(states: seq<TurtleState>, offsets: seq<real>)
    ensures forall x :: x in Retain(states, offsets) <==> x in offsets && Interpolate(states, x).Some?
    decreases |offsets|
  {
    if offsets != [] {
      RetainMembers(states, offsets[1..]);
      assert forall x :: x in offsets <==> x == offsets[0] || x in offsets[1..];
    }
  }

  /**
   * Filtering commutes with concatenation, so it keeps the survivors' original
   * order: the survivors of a front part all come before those of a back part.
   */
  lemma {:induction false} RetainAppend(states: seq<TurtleState>, front: seq<real>, back: seq<real>)
    ensures Retain(states, front + back) == Retain(states, front) + Retain(states, back)
    decreases |front|
  {
    if front == [] {
      assert front + back == back;
    } else {
      var head := if Interpolate(states, front[0]).Some? then [front[0]] else [];
      assert (front + back)[0] == front[0];
      assert (front + back)[1..] == front[1..] + back;
      RetainAppend(states, front[1..], back);
      assert Retain(states, front + back) == head + Retain(states, front[1..] + back);
      assert Retain(states, front) == head + Retain(states, front[1..]);
    }
  }

  /** An instance that still has a pose is never dropped: live lists pass the filter unchanged. */
  lemma {:induction false} RetainAllLive(states: seq<TurtleState>, offsets: seq<real>)
    requires forall k :: 0 <= k < |offsets| ==> Interpolate(states, offsets[k]).Some?
    ensures Retain(states, offsets) == offsets
    decreases |offsets|
  {
    if offsets != [] {
      RetainAllLive(states, offsets[1..]);
    }
  }

  /** Every surviving elapsed time moves forward by the frame time `dt`. */
  function Advance(offsets: seq<real>, dt: real): (moved: seq<real>)
    ensures |moved| == |offsets|
    ensures forall k :: 0 <= k < |offsets| ==> moved[k] == offsets[k] + dt
  {
    if offsets == [] then [] else [offsets[0] + dt] + Advance(offsets[1..], dt)
  }

  /**
   * The outcome of the priming pre-pass: `s, 2s, ..., ks`, each of which has a
   * pose, and `(k+1)s` has none.
   */
  ghost predicate Primed(offsets: seq<real>, states: seq<TurtleState>, s: real)
  {
    (forall k :: 0 <= k < |offsets| ==> offsets[k] == SpawnTime(s, k + 1)) &&
    (forall k :: 0 <= k < |offsets| ==> Interpolate(states, offsets[k]).Some?) &&
    Interpolate(states, SpawnTime(s, |offsets| + 1)).None?
  }

  /** The `i`-th multiple of the spawn interval, `spawn_interval * i`. */
  function SpawnTime(s: real, i: nat): (t: real)
  {
    s * i as real
  }

  /** With a positive interval the primed offsets strictly increase. */
  lemma PrimedIncreasing(offsets: seq<real>, states: seq<TurtleState>, s: real)
    requires s > 0.0 && Primed(offsets, states, s)
    ensures forall j, k :: 0 <= j < k < |offsets| ==> offsets[j] < offsets[k]
  {
    forall j, k | 0 <= j < k < |offsets| ensures offsets[j] < offsets[k] {
      assert offsets[j] == SpawnTime(s, j + 1) && offsets[k] == SpawnTime(s, k + 1);
      SpawnTimeIncreasing(s, j + 1, k + 1);
    }
  }

  /** The pre-pass has exactly one possible outcome. */
  lemma PrimedUnique(a: seq<real>, b: seq<real>, states: seq<TurtleState>, s: real)
    requires Primed(a, states, s) && Primed(b, states, s)
    ensures a == b
  {
    forall k | 1 <= k <= |a| ensures Interpolate(states, SpawnTime(s, k)).Some? {
      assert a[k - 1] == SpawnTime(s, k);
    }
    forall k | 1 <= k <= |b| ensures Interpolate(states, SpawnTime(s, k)).Some? {
      assert b[k - 1] == SpawnTime(s, k);
    }
    assert |a| == |b|;
    assert forall k :: 0 <= k < |a| ==> a[k] == b[k];
  }

  /**
   * The pre-pass stays inside the timeline: `k * s` lies before the latest
   * keyframe, so it primes fewer than `duration / s` instances.
   */
  lemma PrimedWithinTimeline(offsets: seq<real>, states: seq<TurtleState>, s: real)
    requires Primed(offsets, states, s) && |offsets| > 0
    ensures s * |offsets| as real < MaxTime(states)
  {
    PoseBeforeEnd(states, offsets[|offsets| - 1]);
  }

  lemma SpawnTimeIncreasing(s: real, i: nat, j: nat)
    requires s > 0.0 && i < j
    ensures SpawnTime(s, i) < SpawnTime(s, j)
  {
    assert (i as real) < (j as real);
    ScaleIncreasing(s, i as real, j as real);
  }

  lemma ScaleIncreasing(s: real, a: real, b: real)
    requires s > 0.0 && a < b
    ensures s * a < s * b
  {
    assert s * b - s * a == s * (b - a);
  }

  lemma ScaleCancel(s: real, a: real, b: real)
    requires s > 0.0 && s * a < s * b
    ensures a < b
  {
    assert b - a == (s * b - s * a) / s;
  }

  /** A spawn count past which `SpawnTime(s, n)` is beyond every keyframe. */
  function SpawnBound(states: seq<TurtleState>, s: real): (n: nat)
    requires s > 0.0
    ensures n >= 1 && SpawnTime(s, n) > MaxTime(states)
  {
    var m := MaxTime(states);
    if m <= 0.0 then
      assert SpawnTime(s, 1) == s;
      1
    else
      FloorStep(m, s);
      ((m / s).Floor + 1) as nat
  }

  /** One more than the whole number of intervals in `m` reaches past `m`. */
  lemma FloorStep(m: real, s: real)
    requires m > 0.0 && s > 0.0
    ensures (m / s).Floor >= 0
    ensures SpawnTime(s, ((m / s).Floor + 1) as nat) > m
  {
    var q := m / s;
    assert q > 0.0;
    var f := q.Floor;
    var n := (f + 1) as nat;
    assert q < n as real;
    ScaleIncreasing(s, q, n as real);
    assert s * q == m;
  }

  /** The bookkeeping of one frame, as values: the offsets and the spawn countdown. */
  datatype Frame = Frame(offsets: seq<real>, countdown: real)

  /**
   * One frame of the main loop: spawn (append offset 0 and add `s` to the
   * countdown) when the countdown is at most 0; keep the instances that have a
   * pose; advance every survivor by `dt`; take `dt` off the countdown.
   */
  function NextFrame(states: seq<TurtleState>, s: real, f: Frame, dt: real): (g: Frame)
    ensures |g.offsets| <= |f.offsets| + 1
  {
    var countdown := if f.countdown <= 0.0 then f.countdown + s else f.countdown;
    Frame(Advance(Retain(states, Pending(f)), dt), countdown - dt)
  }

  /** The list a frame filters: the old offsets, plus a fresh 0 at the end when a spawn is due. */
  function Pending(f: Frame): (pending: seq<real>)
    ensures f.countdown <= 0.0 ==> |pending| == |f.offsets| + 1 && pending[|f.offsets|] == 0.0
    ensures f.countdown > 0.0 ==> pending == f.offsets
    ensures pending[..|f.offsets|] == f.offsets
  {
    if f.countdown <= 0.0 then f.offsets + [0.0] else f.offsets
  }

  /**
   * A frame spawns at most one instance, and only when the countdown has run
   * out; the countdown then goes up by one interval before the frame time is
   * taken off.
   */
  lemma TickSpawnsAtMostOne(states: seq<TurtleState>, s: real, f: Frame, dt: real)
    ensures var g := NextFrame(states, s, f, dt);
            |g.offsets| <= |f.offsets| + 1 &&
            (f.countdown > 0.0 ==> |g.offsets| <= |f.offsets| && g.countdown == f.countdown - dt) &&
            (f.countdown <= 0.0 ==> g.countdown == f.countdown + s - dt)
  {
  }

  /**
   * After a frame the offsets are exactly the pending ones that had a pose,
   * moved on by `dt`: `x` is present iff `x - dt` was pending and had a pose.
   */
  lemma TickSurvivors(states: seq<TurtleState>, s: real, f: Frame, dt: real, x: real)
    ensures x in NextFrame(states, s, f, dt).offsets <==>
              x - dt in Pending(f) && Interpolate(states, x - dt).Some?
  {
    var kept := Retain(states, Pending(f));
    AdvanceMembers(kept, dt, x);
    RetainMembers(states, Pending(f));
  }

  /** An elapsed time is present after advancing by `dt` iff it was `dt` less before. */
  lemma AdvanceMembers(offsets: seq<real>, dt: real, x: real)
    ensures x in Advance(offsets, dt) <==> x - dt in offsets
  {
    var moved := Advance(offsets, dt);
    if x in moved {
      var k :| 0 <= k < |moved| && moved[k] == x;
      assert offsets[k] == x - dt;
    }
    if x - dt in offsets {
      var k :| 0 <= k < |offsets| && offsets[k] == x - dt;
      assert moved[k] == x;
    }
  }

  /**
   * The freshly spawned instance is the last one: when a spawn is due and the
   * timeline has a pose at 0, the list ends with that instance, now at `dt`.
   */
  lemma TickFreshInstanceLast(states: seq<TurtleState>, s: real, f: Frame, dt: real)
    requires f.countdown <= 0.0 && Interpolate(states, 0.0).Some?
    ensures var g := NextFrame(states, s, f, dt);
            |g.offsets| > 0 && g.offsets[|g.offsets| - 1] == dt
  {
    RetainAppend(states, f.offsets, [0.0]);
    assert Retain(states, [0.0]) == [0.0];
  }

  /**
   * An instance is retired by the time its elapsed time reaches the end of the
   * timeline: after a frame every offset minus `dt` is before the latest keyframe.
   */
  lemma TickRetiresFinished(states: seq<TurtleState>, s: real, f: Frame, dt: real)
    ensures forall x :: x in NextFrame(states, s, f, dt).offsets ==> x - dt < MaxTime(states)
  {
    forall x | x in NextFrame(states, s, f, dt).offsets ensures x - dt < MaxTime(states) {
      TickSurvivors(states, s, f, dt, x);
      PoseBeforeEnd(states, x - dt);
    }
  }

  /** The scheduler's invariant: elapsed times are never negative, the countdown never exceeds one interval. */
  ghost predicate Healthy(s: real, f: Frame)
  {
    s > 0.0 && (forall k :: 0 <= k < |f.offsets| ==> f.offsets[k] >= 0.0) && f.countdown <= s
  }

  /** Frames with a non-negative frame time keep the scheduler healthy. */
  lemma TickKeepsHealthy(states: seq<TurtleState>, s: real, f: Frame, dt: real)
    requires Healthy(s, f) && dt >= 0.0
    ensures Healthy(s, NextFrame(states, s, f, dt))
  {
    var pending := Pending(f);
    var g := NextFrame(states, s, f, dt);
    RetainMembers(states, pending);
    forall k | 0 <= k < |g.offsets| ensures g.offsets[k] >= 0.0 {
      var kept := Retain(states, pending);
      assert kept[k] in kept;
      assert kept[k] in pending;
    }
  }

  /** `SpawnTime` is strictly increasing in its count, so it can be cancelled. */
  lemma SpawnTimeCancel(s: real, i: nat, j: nat)
    requires s > 0.0 && SpawnTime(s, i) < SpawnTime(s, j)
    ensures i < j
  {
    ScaleCancel(s, i as real, j as real);
  }

  /**
   * The priming pre-pass: push `s * i` for `i = 1, 2, ...` while the timeline
   * has a pose at that time. It stops because every time with a pose lies
   * before the latest keyframe.
   */
  method PrimeOffsets(states: seq<TurtleState>, s: real) returns (offsets: seq<real>)
    requires s > 0.0
    ensures Primed(offsets, states, s)
  {
    offsets := [];
    var i: nat := 1;
    ghost var bound := SpawnBound(states, s);
    var pose := InterpolateState(states, SpawnTime(s, i));
    while pose.Some?
      invariant 1 <= i <= bound
      invariant |offsets| == i - 1
      invariant forall k :: 0 <= k < |offsets| ==> offsets[k] == SpawnTime(s, k + 1)
      invariant forall k :: 0 <= k < |offsets| ==> Interpolate(states, offsets[k]).Some?
      invariant pose == Interpolate(states, SpawnTime(s, i))
      decreases bound - i
    {
      PoseBeforeEnd(states, SpawnTime(s, i));
      SpawnTimeCancel(s, i, bound);
      offsets := offsets + [SpawnTime(s, i)];
      i := i + 1;
      pose := InterpolateState(states, SpawnTime(s, i));
    }
  }

  /** The primed offsets are all positive. */
  lemma PrimedPositive(offsets: seq<real>, states: seq<TurtleState>, s: real)
    requires s > 0.0 && Primed(offsets, states, s)
    ensures forall k :: 0 <= k < |offsets| ==> offsets[k] > 0.0
  {
    forall k | 0 <= k < |offsets| ensures offsets[k] > 0.0 {
      assert offsets[k] == SpawnTime(s, k + 1);
      SpawnTimeIncreasing(s, 0, k + 1);
      assert SpawnTime(s, 0) == 0.0;
    }
  }

  /**
   * `time_offsets = time_offsets.into_iter().filter(draw_turtle).collect()`: a
   * new list of the offsets at which `draw_turtle` draws a pose, in order.
   */
  method FilterLive(states: seq<TurtleState>, offsets: seq<real>) returns (kept: seq<real>)
    ensures kept == Retain(states, offsets)
  {
    kept := [];
    var i := 0;
    while i < |offsets|
      invariant 0 <= i <= |offsets|
      invariant kept + Retain(states, offsets[i..]) == Retain(states, offsets)
    {
      var drawn := DrawTurtle(states, offsets[i]);
      assert offsets[i..][1..] == offsets[i + 1..];
      if drawn {
        kept := kept + [offsets[i]];
      }
      i := i + 1;
    }
  }

  /**
   * The scheduler state of `run_game`: the shared timeline, the spawn interval,
   * the list of elapsed times and the countdown to the next spawn.
   */
  class Scheduler {
    const states: seq<TurtleState>
    const spawnInterval: real
    var timeOffsets: seq<real>
    var nextSpawnTime: real

    function Current(): (f: Frame)
      reads this
    {
      Frame(timeOffsets, nextSpawnTime)
    }

    /** Set-up before the main loop: the primed offsets and a countdown of 0. */
    constructor (states: seq<TurtleState>, spawnInterval: real)
      requires spawnInterval > 0.0
      ensures this.states == states && this.spawnInterval == spawnInterval
      ensures Primed(timeOffsets, states, spawnInterval)
      ensures nextSpawnTime == 0.0
      ensures Healthy(spawnInterval, Current())
    {
      var offsets := PrimeOffsets(states, spawnInterval);
      PrimedPositive(offsets, states, spawnInterval);
      this.states := states;
      this.spawnInterval := spawnInterval;
      timeOffsets := offsets;
      nextSpawnTime := 0.0;
    }

    /** One frame of the main loop, with the frame time `dt` supplied by the window. */
    method Tick(dt: real)
      modifies this
      ensures Current() == NextFrame(states, spawnInterval, old(Current()), dt)
      ensures old(Healthy(spawnInterval, Current())) && dt >= 0.0 ==> Healthy(spawnInterval, Current())
    {
      ghost var before := Current();
      if nextSpawnTime <= 0.0 {
        nextSpawnTime := nextSpawnTime + spawnInterval;
        timeOffsets := timeOffsets + [0.0];
      }
      ghost var countdown := nextSpawnTime;
      assert countdown == if before.countdown <= 0.0 then before.countdown + spawnInterval else before.countdown;
      assert timeOffsets == Pending(before);

      timeOffsets := FilterLive(states, timeOffsets);

      ghost var kept := timeOffsets;
      var i := 0;
      while i < |timeOffsets|
        invariant 0 <= i <= |timeOffsets| == |kept|
        invariant forall k :: 0 <= k < i ==> timeOffsets[k] == kept[k] + dt
        invariant forall k :: i <= k < |kept| ==> timeOffsets[k] == kept[k]
        invariant nextSpawnTime == countdown
      {
        timeOffsets := timeOffsets[i := timeOffsets[i] + dt];
        i := i + 1;
      }
      ghost var moved := Advance(kept, dt);
      assert forall k :: 0 <= k < |kept| ==> timeOffsets[k] == moved[k];
      assert timeOffsets == moved;
      nextSpawnTime := nextSpawnTime - dt;
      assert Current() == Frame(Advance(Retain(states, Pending(before)), dt), countdown - dt);
      if Healthy(spawnInterval, before) && dt >= 0.0 {
        TickKeepsHealthy(states, spawnInterval, before, dt);
      }
    }
  }
}
