# turtle-playback: the motion-timeline pipeline in Dafny

turtle-playback replays a turtle-graphics script as an animation. A script is a
text file with one instruction per line (`pu`, `pd`, `fd <distance>`,
`rt <degrees>`). The loader (`load_states`) compiles it into a timeline of
keyframes. Each keyframe is a pose: a time, a position, a heading in radians and
a pen flag. The player (`run_game`) then draws many copies of the turtle at
once. Each copy is an elapsed time (a "time offset") on the shared timeline. The
interpolator (`interpolate_state`) turns an elapsed time into a pose by blending
linearly between the two keyframes around it. A copy whose time has no pose is
retired. A new copy is spawned every `spawn_interval` seconds.

The project models these three parts:

- `text.dfy` (module `Text`): Rust's `str::split` and `str::split_terminator`
  on one separator character. The loader uses them to cut the file into lines
  and a line into tokens.
- `game.dfy` (module `Game`): the pose record, `interp`, `interpolate_state` and
  the Boolean result of `draw_turtle`. `Interpolate` is the specification: the
  pose for the first keyframe strictly later than the query.
  `InterpolateState` is the source's `while` loop with early returns, proved
  equal to it. `GameState` is the loader's target record.
- `script.dfy` (module `Script`): instruction decoding, the per-instruction
  keyframe update and `load_states`. `CompileLines` is the specification over
  the list of lines. `LoadStates` is the source's loop that pushes onto
  `GameState.turtles`, proved to leave exactly `old + [Initial] + CompileLines(..)`.
- `playback.dfy` (module `Playback`): the bookkeeping of `run_game`. The
  pre-pass (`PrimeOffsets`) fills the list of elapsed times. A `Scheduler`
  object holds that list and the spawn countdown, and `Scheduler.Tick` does one
  frame: spawn, filter, advance, count down. `NextFrame` states one frame as a
  function on values, and `Tick` is proved to follow it.
- `wrappers.dfy` (module `Wrappers`): `Option` and `Result`.

`f32` values are modelled as `real`. `cos`/`sin` (`rotate_vec2`) and `f32`
text parsing are function-typed parameters, bundled in `Script.Numerics`. The
frame time `dt` is a parameter of `Tick`. Every `panic!`/`unwrap` that decoding
a line can hit becomes an error value, and the states pushed before the bad line
stay in the list. The file read and its `unwrap` are left out with the rest of
the file I/O.

## Model

| member | source | states |
|---|---|---|
| Text.Split | src/main.rs:23-24 | `split(" ")` always yields at least one piece (the assertion at line 24 cannot fail), and no piece contains the separator |
| Text.SplitTerminator | src/main.rs:22 | `split_terminator` gives the pieces of `split`, without the last piece when that piece is empty |
| Text.JoinSplit | src/main.rs:22-23 | joining the pieces of a split with the separator gives back the original text |
| Text.SplitJoin | src/main.rs:23 | splitting pieces that contain no separator, after joining them, gives back the same pieces |
| Text.SplitNoSep | src/main.rs:22-23 | text without the separator splits into exactly itself |
| Text.TrailingTerminator | src/main.rs:22 | a trailing newline adds no extra (empty) line, and non-empty text not ending in a newline gives the same lines as `split` |
| Game.InterpReal | src/game.rs:38-42 | `interp(a, b, 0) == a` and `interp(a, b, 1) == b` |
| Game.InterpBetween | src/game.rs:38-42 | for a coefficient in [0, 1] the blend lies between its two ends |
| Game.InterpVec | src/game.rs:38-42 | `interp` on a position blends each coordinate, and gives the ends at coefficients 0 and 1 |
| Game.FirstLater | src/game.rs:45-63 | the scan stops at the first keyframe strictly later than the query; every earlier keyframe is at or before it |
| Game.Interpolate | src/game.rs:44-66 | `interpolate_state` as a function: a returned pose needs at least two keyframes and carries the query time; its full behaviour is in `PoseExists`, `PoseBracketed` and `PoseOnSegment` |
| Game.InterpolateState | src/game.rs:44-66 | the `while` loop with its early returns gives exactly `Interpolate` |
| Game.DrawTurtle | src/game.rs:70-86 | `draw_turtle` returns true exactly when `interpolate_state` gives a pose |
| Game.MaxTime | src/game.rs:46-65 | a helper, not code of the source: the end time of a timeline (the latest keyframe time), which bounds every keyframe time and is reached by one of them; the lemmas about when the scan finds nothing later are stated with it |
| Game.PoseExists | src/game.rs:46-65 | a pose exists iff the timeline is non-empty, its first keyframe is not later than the query, and some keyframe is strictly later |
| Game.PoseBracketed | src/game.rs:46-60 | a returned pose comes from a scan index `0 < i < len` with `states[i-1].time <= time < states[i].time`; its time is the query and its pen flag is the earlier keyframe's |
| Game.PoseOnSegment | src/game.rs:52-60 | between two bracketing keyframes the divisor is positive and the coefficient is in [0, 1), without assuming a sorted timeline; the pose blends position and heading and keeps the earlier pen flag |
| Game.NoneWhenNothingLater | src/game.rs:46-65 | no keyframe strictly later than the query gives `None` |
| Game.NoneBeforeStart | src/game.rs:48-51 | a first keyframe later than the query gives `None` |
| Game.NoneAfterEnd | src/game.rs:46-65 | on a sorted timeline a query at or after the last keyframe's time gives `None` |
| Game.SingleKeyframeNeverPlays | src/game.rs:46-65 | a one-keyframe timeline gives `None` at every time, 0 included |
| Game.NoneForNegativeTime | src/game.rs:48-51 | on a timeline starting at time 0 a negative query gives `None` |
| Game.PoseBeforeEnd | src/game.rs:46-65 | a pose exists only for a query before the latest keyframe time |
| Game.PoseAtKeyframe | src/game.rs:38-59 | on a sorted timeline a query exactly at a keyframe followed by a strictly later one returns that keyframe's own pose |
| Game.GameState.constructor | src/main.rs:65-71 | the speeds and spawn interval are those given, and the keyframe list starts empty |
| Script.Abs | src/main.rs:40-48 | `abs` is non-negative and is the value or its negation |
| Script.ParseInstruction | src/main.rs:23-53 | the first token decides: `pu` gives `PenUp`, `pd` gives `PenDown`; `fd`/`rt` give `Forward`/`Right` carrying the parsed second token; `fd`/`rt` without a second token is a missing argument, with one that does not parse a malformed argument; any other first token, the empty line included, is an invalid instruction |
| Script.ToRadians | src/main.rs:49 | degrees to radians keeps the sign and maps 180 degrees to pi |
| Script.Step | src/main.rs:28-54 | the new keyframe of one instruction: pen changes keep time, position and heading; `fd` keeps heading and pen; `rt` keeps position and pen (the full effect is in `StepEffect`) |
| Script.StepEffect | src/main.rs:29-52 | `pu`/`pd` change only the pen flag; `fd d` moves by `heading(rot) * d`, keeps heading and pen, and takes `abs(d)/move_speed`; `rt a` adds `a` in radians to the heading without wrapping, keeps position and pen, and takes `abs(a)/rotate_speed` |
| Script.StepTime | src/main.rs:29-52 | with positive speeds a step never goes back in time, and it moves forward exactly for a non-zero `fd` or `rt` |
| Script.CompileLines | src/main.rs:22-56 | at most one keyframe per line, and one per line exactly when no line fails |
| Script.LoadStates | src/main.rs:9-57 | the list becomes its old contents, then the initial pose (time 0, origin, heading 0, pen down), then the compiled keyframes; the reported failure is the compiler's |
| Script.CompileStopsAtFirstBadLine | src/main.rs:28-55 | every line before the stop decodes; the stop is at a line whose decoding error is the one reported; loading completes iff every line decodes |
| Script.CompileStepAt | src/main.rs:26-55 | keyframe `k` is line `k`'s instruction applied to keyframe `k-1` (to the starting pose for `k == 0`) |
| Script.CompileSorted | src/main.rs:26-55 | with positive speeds the compiled timeline, starting pose included, is sorted by time |
| Script.LoadedTimelineValid | src/main.rs:12-55 | with positive speeds a loaded timeline is non-empty, starts at time 0 and is sorted |
| Script.LoadedTimelineFinishes | src/game.rs:46-65 | with positive speeds a loaded timeline has no pose at or after its last keyframe time |
| Script.EmptyScriptNeverPlays | src/main.rs:12-22 | an empty script gives no keyframe beyond the initial one, and that timeline has no pose at any time |
| Script.Format | turtle.py:3-30 | the line the Python emitter prints: `pu` and `pd` alone for the pen instructions, and `fd`/`rt` followed by a space and the printed number for `Forward`/`Right` |
| Script.ParseFormat | turtle.py:3-30 | every line the Python emitter prints decodes back to the instruction it was printed from, provided the printed number contains no space and parses back to itself |
| Script.ForwardScript | src/main.rs:22-55 | the one-line script `fd d` compiles to a single keyframe `abs(d)/move_speed` later, `d` along the x axis, with heading and pen unchanged |
| Script.ForwardPlayback | src/game.rs:44-66 | on that two-keyframe timeline, a query before the end gives the position at that fraction of the segment |
| Playback.Retain | src/game.rs:128 | the filter keeps at most as many elapsed times as it is given |
| Playback.RetainMembers | src/game.rs:70-128 | an elapsed time survives the filter iff it was in the list and `interpolate_state` gives a pose for it |
| Playback.RetainAppend | src/game.rs:128 | filtering a concatenation is the concatenation of the filtered parts, so the filter keeps order |
| Playback.RetainAllLive | src/game.rs:128 | a list whose elapsed times all have a pose is kept unchanged |
| Playback.Advance | src/game.rs:133-135 | every elapsed time grows by `dt` and the length is kept; it is the value the in-place loop of `Scheduler.Tick` is proved to produce |
| Playback.AdvanceMembers | src/game.rs:133-135 | after advancing, `x` is an elapsed time iff `x - dt` was one before |
| Playback.FilterLive | src/game.rs:128 | the loop calling `draw_turtle` on each elapsed time keeps exactly `Retain` |
| Playback.PrimeOffsets | src/game.rs:103-111 | the pre-pass yields `[s, 2s, ..., ks]` where each has a pose and `(k+1)s` has none; with `s > 0` the loop terminates |
| Playback.PrimedIncreasing | src/game.rs:106-110 | the primed elapsed times are strictly increasing |
| Playback.PrimedUnique | src/game.rs:106-110 | the pre-pass result is determined by the timeline and the interval |
| Playback.PrimedWithinTimeline | src/game.rs:106-110 | the last primed time is before the end of the timeline |
| Playback.PrimedPositive | src/game.rs:106-110 | every primed elapsed time is positive |
| Playback.SpawnBound | src/game.rs:106-110 | some multiple of a positive interval lies beyond the latest keyframe, which bounds the pre-pass loop |
| Playback.Pending | src/game.rs:118-121 | a spawn appends one 0 at the end when the countdown is at most 0; otherwise the list is unchanged |
| Playback.NextFrame | src/game.rs:118-137 | one frame as a function on values (spawn, filter, advance, count down); it adds at most one elapsed time |
| Playback.TickSpawnsAtMostOne | src/game.rs:118-137 | a frame adds at most one instance, and only when the countdown is at most 0; the countdown then gains one interval; either way it loses `dt` |
| Playback.TickSurvivors | src/game.rs:118-135 | after a frame, `x` is an elapsed time iff `x - dt` was pending and had a pose |
| Playback.TickFreshInstanceLast | src/game.rs:118-135 | a spawned instance that has a pose at 0 ends the list, at elapsed time `dt` |
| Playback.TickRetiresFinished | src/game.rs:128-135 | after a frame no elapsed time minus `dt` reaches the latest keyframe time |
| Playback.TickKeepsHealthy | src/game.rs:113-137 | with `dt >= 0` a frame keeps every elapsed time non-negative and the countdown at most one interval |
| Playback.Scheduler.constructor | src/game.rs:103-113 | the scheduler starts with the primed elapsed times and a countdown of 0, in a healthy state |
| Playback.Scheduler.Tick | src/game.rs:115-137 | one frame changes the list and the countdown exactly as `NextFrame` says (spawn, filter, advance, count down); when the old state was healthy and `dt >= 0`, the new one is healthy too |

## Left out

- Rendering and windowing through raylib (window, camera, drawing calls, colours, glyph geometry, `FPS`) are foreign calls. Only `draw_turtle`'s Boolean result is modelled.
- The frame clock (`get_frame_time`) becomes the `dt` parameter of `Scheduler.Tick`. The loop's stop condition (`window_should_close`, the never-changed `running` flag) is not modelled: the model is one frame at a time.
- File reading (with the `unwrap` on `read_to_string`), command-line arguments, the usage message and `dbg!` are process I/O. `LoadStates` takes the file contents as a string.
- `f32` arithmetic is modelled exactly on `real`: no rounding, NaN, infinities, or accumulated `dt` drift. The same holds for `spawn_interval * i as f32` in the pre-pass.
- `rotate_vec2` (cos and sin) and `f32::from_str` are parameters in `Script.Numerics`. No property of cos, sin or the parser is assumed beyond what a lemma's `requires` states.
- Script.ToRadians: uses a rational approximation of pi (20 decimal places), not the `f32` constant.
- Script.LoadStates: requires non-zero speeds. With a zero speed the program divides by zero in `f32` and gets an infinity or NaN, which the model does not represent. The ordering lemmas (`StepTime`, `CompileSorted`) require positive speeds, which are the configured ones.
- Script.LoadStates: a bad line is an error value, not a process abort. The states pushed before it stay in the list, as they do before the program panics.
- Playback.PrimeOffsets and Playback.Scheduler.constructor: require `spawn_interval > 0`. With an interval of 0 every query of the pre-pass is time 0, so on a timeline with a pose at 0 the source's pre-pass never ends. With a negative interval the pre-pass ends on a loaded timeline (its first query is negative, before the keyframe at time 0), but `next_spawn_time` never rises above 0, so the main loop spawns an instance every frame. The model does not cover either configuration.
- turtle.py is an emitter of script lines. Only its output format is modelled (`Script.Format`, with the number formatting as a parameter). Its aliases (`backward`, `left`) print an ordinary `fd`/`rt` line.
- Where one might expect otherwise, the model follows the code:
  - a timeline with a single keyframe has no pose even at time 0;
  - `draw_turtle` is documented as returning whether the turtle is at the end of the script, but it returns true while a pose exists, that is, while the turtle is not yet at the end; `DrawTurtle` follows the code;
  - the interpolator has no special case for a coefficient of 0, because the scan already keeps the divisor positive;
  - a bad line does not undo the states loaded before it.
