/**
 * The keyframe compiler of `src/main.rs` (`load_states`): each line of the
 * script becomes one instruction, and each instruction one new keyframe derived
 * from the previous one.
 */
module Script {
  import opened Wrappers
  import opened Game
  import Text

  /** The four instructions a script line can hold. */
  datatype Instruction = PenUp | PenDown | Forward(distance: real) | Right(degrees: real)

  /** Why a line aborts loading (in the program each is a panic). */
  datatype ScriptError =
    | InvalidInstruction(token: string)                // `panic!("Invalid instruction")`
    | MissingArgument(token: string)                   // `tokens[1]` out of bounds
    | MalformedArgument(token: string, text: string)   // `parse().unwrap()` on bad text

  /**
   * The floating-point library the loader calls: `rotate_vec2` (cos and sin of
   * an angle) and `f32::from_str`. Both are taken as given.
   */
  datatype Numerics = Numerics(rotateVec2: real -> Vec2, parseF32: string -> Option<real>)

  /** A rational approximation of pi, standing in for `f32::consts::PI`. */
  const Pi: real := 3.14159265358979323846

  /** `f32::to_radians`: keeps the sign, and half a turn is pi. */
  function ToRadians(degrees: real): (r: real)
    ensures r > 0.0 <==> degrees > 0.0
    ensures r == 0.0 <==> degrees == 0.0
    ensures degrees == 180.0 ==> r == Pi
  {
    degrees * (Pi / 180.0)
  }

  /** `f32::abs`. */
  function Abs(x: real): (r: real)
    ensures r >= 0.0 && (r == x || r == -x)
  {
    if x < 0.0 then -x else x
  }

  /** The pose every script starts from. */
  const Initial := TurtleState(0.0, Vec2(0.0, 0.0), 0.0, true)

  /**
   * Decodes one line: its first space-separated token picks the instruction, and
   * `fd`/`rt` read their argument from the second token.
   */
  function ParseInstruction(line: string, parseF32: string -> Option<real>): (r: Result<Instruction, ScriptError>)
    ensures var t := Text.Split(line, ' ');
            (t[0] == "pu" ==> r == Ok(PenUp)) &&
            (t[0] == "pd" ==> r == Ok(PenDown)) &&
            (t[0] !in {"pu", "pd", "fd", "rt"} ==> r == Err(InvalidInstruction(t[0])))
    ensures var t := Text.Split(line, ' ');
            t[0] in {"fd", "rt"} ==>
              (|t| < 2 ==> r == Err(MissingArgument(t[0]))) &&
              (|t| >= 2 && parseF32(t[1]).None? ==> r == Err(MalformedArgument(t[0], t[1]))) &&
              (|t| >= 2 && parseF32(t[1]).Some? && t[0] == "fd" ==> r == Ok(Forward(parseF32(t[1]).value))) &&
              (|t| >= 2 && parseF32(t[1]).Some? && t[0] == "rt" ==> r == Ok(Right(parseF32(t[1]).value)))
  {
    var tokens := Text.Split(line, ' ');
    var token := tokens[0];
    if token == "pu" then Ok(PenUp)
    else if token == "pd" then Ok(PenDown)
    else if token == "fd" || token == "rt" then
      if |tokens| < 2 then Err(MissingArgument(token))
      else match parseF32(tokens[1])
        case None => Err(MalformedArgument(token, tokens[1]))
        case Some(v) => Ok(if token == "fd" then Forward(v) else Right(v))
    else Err(InvalidInstruction(token))
  }

  /** The keyframe an instruction produces from the previous one (`..last_state` record updates). */
  function Step(last: TurtleState, ins: Instruction, moveSpeed: real, rotateSpeed: real,
                rotateVec2: real -> Vec2): (next: TurtleState)
    requires moveSpeed != 0.0 && rotateSpeed != 0.0
    ensures ins.PenUp? || ins.PenDown? ==> next.time == last.time && next.pos == last.pos && next.rot == last.rot
    ensures ins.Forward? ==> next.rot == last.rot && next.isDrawing == last.isDrawing
    ensures ins.Right? ==> next.pos == last.pos && next.isDrawing == last.isDrawing
  {
    match ins
    case PenUp => last.(isDrawing := false)
    case PenDown => last.(isDrawing := true)
    case Forward(d) =>
      last.(time := last.time + Abs(d) / moveSpeed,
            pos := last.pos.Plus(rotateVec2(last.rot).Scale(d)))
    case Right(a) =>
      last.(time := last.time + Abs(a) / rotateSpeed,
            rot := last.rot + ToRadians(a))
  }

  /**
   * What each instruction does to the pose: pen changes only flip the pen; `fd`
   * moves along the heading and `rt` turns (the angle is never wrapped), each
   * keeping the other fields and taking time proportional to the amount at its
   * speed.
   */
  lemma StepEffect(last: TurtleState, ins: Instruction, moveSpeed: real, rotateSpeed: real,
                   rotateVec2: real -> Vec2)
    requires moveSpeed != 0.0 && rotateSpeed != 0.0
    ensures var next := Step(last, ins, moveSpeed, rotateSpeed, rotateVec2);
            (ins.PenUp? ==> next == last.(isDrawing := false)) &&
            (ins.PenDown? ==> next == last.(isDrawing := true)) &&
            (ins.Forward? ==>
               next.rot == last.rot && next.isDrawing == last.isDrawing &&
               next.pos == last.pos.Plus(rotateVec2(last.rot).Scale(ins.distance)) &&
               (next.time - last.time) * moveSpeed == Abs(ins.distance)) &&
            (ins.Right? ==>
               next.pos == last.pos && next.isDrawing == last.isDrawing &&
               next.rot - last.rot == ToRadians(ins.degrees) &&
               (next.time - last.time) * rotateSpeed == Abs(ins.degrees))
  {
    var next := Step(last, ins, moveSpeed, rotateSpeed, rotateVec2);
    match ins
    case Forward(d) =>
      assert next.time - last.time == Abs(d) / moveSpeed;
    case Right(a) =>
      assert next.time - last.time == Abs(a) / rotateSpeed;
    case _ =>
  }

  /**
   * With positive speeds time never runs backwards, and only a non-zero `fd` or
   * `rt` moves it forward.
   */
  lemma StepTime(last: TurtleState, ins: Instruction, moveSpeed: real, rotateSpeed: real,
                 rotateVec2: real -> Vec2)
    requires moveSpeed > 0.0 && rotateSpeed > 0.0
    ensures var next := Step(last, ins, moveSpeed, rotateSpeed, rotateVec2);
            next.time >= last.time &&
            (next.time > last.time <==>
               (ins.Forward? && ins.distance != 0.0) || (ins.Right? && ins.degrees != 0.0))
  {
    match ins
    case Forward(d) =>
      assert Abs(d) / moveSpeed >= 0.0;
      assert d != 0.0 ==> Abs(d) / moveSpeed > 0.0;
    case Right(a) =>
      assert Abs(a) / rotateSpeed >= 0.0;
      assert a != 0.0 ==> Abs(a) / rotateSpeed > 0.0;
    case _ =>
  }

  /** What loading produced: the keyframes appended, and the abort reason if any. */
  datatype Compiled = Compiled(states: seq<TurtleState>, error: Option<ScriptError>)

  /**
   * Runs the lines in order from the pose `last`, one keyframe per line, stopping
   * at the first line that does not decode.
   */
  function CompileLines(last: TurtleState, lines: seq<string>, moveSpeed: real, rotateSpeed: real,
                        num: Numerics): (c: Compiled)
    requires moveSpeed != 0.0 && rotateSpeed != 0.0
    ensures |c.states| <= |lines|
    ensures c.error.None? <==> |c.states| == |lines|
    decreases |lines|
  {
    if lines == [] then Compiled([], None)
    else match ParseInstruction(lines[0], num.parseF32)
      case Err(e) => Compiled([], Some(e))
      case Ok(ins) =>
        var next := Step(last, ins, moveSpeed, rotateSpeed, num.rotateVec2);
        var rest := CompileLines(next, lines[1..], moveSpeed, rotateSpeed, num);
        Compiled([next] + rest.states, rest.error)
  }

  /** How the first of the remaining lines is compiled. */
  lemma CompileFirstLine(last: TurtleState, lines: seq<string>, moveSpeed: real, rotateSpeed: real,
                         num: Numerics)
    requires moveSpeed != 0.0 && rotateSpeed != 0.0
    requires |lines| > 0
    ensures var c := CompileLines(last, lines, moveSpeed, rotateSpeed, num);
            var parsed := ParseInstruction(lines[0], num.parseF32);
            (parsed.Err? ==> c == Compiled([], Some(parsed.error))) &&
            (parsed.Ok? ==>
               var next := Step(last, parsed.value, moveSpeed, rotateSpeed, num.rotateVec2);
               var rest := CompileLines(next, lines[1..], moveSpeed, rotateSpeed, num);
               c == Compiled([next] + rest.states, rest.error))
  {
  }

  /**
   * `load_states` on the file's contents `data`: pushes the initial pose after
   * whatever the list already held, then one keyframe per line; on a bad line it
   * stops there (the program panics) and reports why.
   */
  method LoadStates(data: string, game: GameState, num: Numerics) returns (failure: Option<ScriptError>)
    requires game.moveSpeed != 0.0 && game.rotateSpeed != 0.0
    modifies game`turtles
    ensures var c := CompileLines(Initial, Text.SplitTerminator(data, '\n'),
                                  game.moveSpeed, game.rotateSpeed, num);
            game.turtles == old(game.turtles) + [Initial] + c.states && failure == c.error
  {
    var lines := Text.SplitTerminator(data, '\n');
    ghost var whole := CompileLines(Initial, lines, game.moveSpeed, game.rotateSpeed, num);
    ghost var done: seq<TurtleState> := [];
    game.turtles := game.turtles + [Initial];
    var i := 0;
    while i < |lines|
      invariant 0 <= i <= |lines|
      invariant game.turtles == old(game.turtles) + [Initial] + done
      invariant var rest := CompileLines(game.turtles[|game.turtles| - 1], lines[i..],
                                         game.moveSpeed, game.rotateSpeed, num);
                done + rest.states == whole.states && rest.error == whole.error
    {
      var last := game.turtles[|game.turtles| - 1];
      var parsed := ParseInstruction(lines[i], num.parseF32);
      ghost var rest := CompileLines(last, lines[i..], game.moveSpeed, game.rotateSpeed, num);
      assert done + rest.states == whole.states && rest.error == whole.error;
      CompileFirstLine(last, lines[i..], game.moveSpeed, game.rotateSpeed, num);
      assert lines[i..][0] == lines[i] && lines[i..][1..] == lines[i + 1..];
      if parsed.Err? {
        assert rest == Compiled([], Some(parsed.error));
        assert done == whole.states;
        return Some(parsed.error);
      }
      var next := Step(last, parsed.value, game.moveSpeed, game.rotateSpeed, num.rotateVec2);
      ghost var later := CompileLines(next, lines[i + 1..], game.moveSpeed, game.rotateSpeed, num);
      assert rest == Compiled([next] + later.states, later.error);
      game.turtles := game.turtles + [next];
      done := done + [next];
      assert done + later.states == whole.states;
      i := i + 1;
    }
    assert lines[i..] == [];
    failure := None;
  }

  /**
   * Loading stops exactly at the first line that does not decode: every line
   * before it decodes, that line's error is the one reported, and loading runs
   * to the end exactly when every line decodes.
   */
  lemma {:induction false} CompileStopsAtFirstBadLine(last: TurtleState, lines: seq<string>,
                                                      moveSpeed: real, rotateSpeed: real, num: Numerics)
    requires moveSpeed != 0.0 && rotateSpeed != 0.0
    ensures var c := CompileLines(last, lines, moveSpeed, rotateSpeed, num);
            (forall k :: 0 <= k < |c.states| ==> ParseInstruction(lines[k], num.parseF32).Ok?) &&
            (c.error.Some? ==> ParseInstruction(lines[|c.states|], num.parseF32) == Err(c.error.value)) &&
            (c.error.None? <==> forall k :: 0 <= k < |lines| ==> ParseInstruction(lines[k], num.parseF32).Ok?)
    decreases |lines|
  {
    var c := CompileLines(last, lines, moveSpeed, rotateSpeed, num);
    if lines != [] {
      var parsed := ParseInstruction(lines[0], num.parseF32);
      if parsed.Ok? {
        var next := Step(last, parsed.value, moveSpeed, rotateSpeed, num.rotateVec2);
        var rest := CompileLines(next, lines[1..], moveSpeed, rotateSpeed, num);
        CompileStopsAtFirstBadLine(next, lines[1..], moveSpeed, rotateSpeed, num);
        CompileFirstLine(last, lines, moveSpeed, rotateSpeed, num);
        assert c == Compiled([next] + rest.states, rest.error);
        forall k | 0 <= k < |c.states| ensures ParseInstruction(lines[k], num.parseF32).Ok? {
          if k > 0 {
            assert lines[k] == lines[1..][k - 1];
          }
        }
        if c.error.Some? {
          assert lines[|c.states|] == lines[1..][|rest.states|];
        } else {
          forall k | 0 <= k < |lines| ensures ParseInstruction(lines[k], num.parseF32).Ok? {
            if k > 0 {
              assert lines[k] == lines[1..][k - 1];
            }
          }
        }
      }
    }
  }

  /**
   * Each line appends exactly one keyframe: the k-th keyframe is the k-th line's
   * instruction applied to the keyframe before it.
   */
  lemma {:induction false} CompileStepAt(last: TurtleState, lines: seq<string>, moveSpeed: real,
                                         rotateSpeed: real, num: Numerics, k: nat)
    requires moveSpeed != 0.0 && rotateSpeed != 0.0
    requires k < |CompileLines(last, lines, moveSpeed, rotateSpeed, num).states|
    ensures var c := CompileLines(last, lines, moveSpeed, rotateSpeed, num);
            var parsed := ParseInstruction(lines[k], num.parseF32);
            parsed.Ok? &&
            c.states[k] == Step(if k == 0 then last else c.states[k - 1], parsed.value,
                                moveSpeed, rotateSpeed, num.rotateVec2)
    decreases k
  {
    var c := CompileLines(last, lines, moveSpeed, rotateSpeed, num);
    var parsed := ParseInstruction(lines[0], num.parseF32);
    var next := Step(last, parsed.value, moveSpeed, rotateSpeed, num.rotateVec2);
    var rest := CompileLines(next, lines[1..], moveSpeed, rotateSpeed, num);
    assert c.states == [next] + rest.states;
    if k > 0 {
      CompileStepAt(next, lines[1..], moveSpeed, rotateSpeed, num, k - 1);
      assert lines[k] == lines[1..][k - 1];
    }
  }

  /** With positive speeds, keyframe times never decrease from `last` onwards. */
  lemma {:induction false} CompileSorted(last: TurtleState, lines: seq<string>, moveSpeed: real,
                                         rotateSpeed: real, num: Numerics)
    requires moveSpeed > 0.0 && rotateSpeed > 0.0
    ensures Sorted([last] + CompileLines(last, lines, moveSpeed, rotateSpeed, num).states)
    decreases |lines|
  {
    var c := CompileLines(last, lines, moveSpeed, rotateSpeed, num);
    if lines != [] && ParseInstruction(lines[0], num.parseF32).Ok? {
      var next := Step(last, ParseInstruction(lines[0], num.parseF32).value, moveSpeed, rotateSpeed,
                       num.rotateVec2);
      var rest := CompileLines(next, lines[1..], moveSpeed, rotateSpeed, num);
      StepTime(last, ParseInstruction(lines[0], num.parseF32).value, moveSpeed, rotateSpeed, num.rotateVec2);
      CompileSorted(next, lines[1..], moveSpeed, rotateSpeed, num);
      var all := [last] + c.states;
      assert all == [last] + ([next] + rest.states);
      assert all[1..] == [next] + rest.states;
      forall j, k | 0 <= j <= k < |all| ensures all[j].time <= all[k].time {
        if j == 0 && k > 0 {
          assert all[1].time <= all[k].time;
        }
      }
    }
  }

  /**
   * What `load_states` leaves behind, with positive speeds, is a timeline: it
   * starts at time 0 and never goes back in time.
   */
  lemma LoadedTimelineValid(lines: seq<string>, moveSpeed: real, rotateSpeed: real, num: Numerics)
    requires moveSpeed > 0.0 && rotateSpeed > 0.0
    ensures ValidTimeline([Initial] + CompileLines(Initial, lines, moveSpeed, rotateSpeed, num).states)
  {
    CompileSorted(Initial, lines, moveSpeed, rotateSpeed, num);
  }

  /**
   * Once loaded, a timeline plays out: with positive speeds every query at or
   * after the last keyframe's time has no pose.
   */
  lemma LoadedTimelineFinishes(lines: seq<string>, moveSpeed: real, rotateSpeed: real, num: Numerics,
                               time: real)
    requires moveSpeed > 0.0 && rotateSpeed > 0.0
    requires var states := [Initial] + CompileLines(Initial, lines, moveSpeed, rotateSpeed, num).states;
             time >= states[|states| - 1].time
    ensures Interpolate([Initial] + CompileLines(Initial, lines, moveSpeed, rotateSpeed, num).states, time) == None
  {
    LoadedTimelineValid(lines, moveSpeed, rotateSpeed, num);
    NoneAfterEnd([Initial] + CompileLines(Initial, lines, moveSpeed, rotateSpeed, num).states, time);
  }

  /**
   * An empty script loads to the initial pose alone, and that timeline has no
   * pose at any time, not even at time 0.
   */
  lemma EmptyScriptNeverPlays(moveSpeed: real, rotateSpeed: real, num: Numerics, time: real)
    requires moveSpeed != 0.0 && rotateSpeed != 0.0
    ensures CompileLines(Initial, Text.SplitTerminator("", '\n'), moveSpeed, rotateSpeed, num) == Compiled([], None)
    ensures Interpolate([Initial], time) == None
  {
    assert Text.SplitTerminator("", '\n') == [];
    SingleKeyframeNeverPlays(Initial, time);
  }

  /** One line as `turtle.py` prints it: the tokens joined by single spaces. */
  function Format(ins: Instruction, show: real -> string): (line: string)
    ensures |line| >= 2 && line[..2] in {"pu", "pd", "fd", "rt"}
    ensures ins.PenUp? || ins.PenDown? ==> |line| == 2
    ensures ins.Forward? || ins.Right? ==> |line| >= 3 && line[2] == ' '
    ensures ins.PenUp? ==> line == "pu"
    ensures ins.PenDown? ==> line == "pd"
    ensures ins.Forward? ==> line[..2] == "fd" && line[3..] == show(ins.distance)
    ensures ins.Right? ==> line[..2] == "rt" && line[3..] == show(ins.degrees)
  {
    match ins
    case PenUp => assert "pu"[..2] == "pu"; "pu"
    case PenDown => assert "pd"[..2] == "pd"; "pd"
    case Forward(d) => assert ("fd " + show(d))[..2] == "fd"; "fd " + show(d)
    case Right(a) => assert ("rt " + show(a))[..2] == "rt"; "rt " + show(a)
  }

  /**
   * Every line `turtle.py` prints decodes back to the instruction it was printed
   * from, given a number format that `parse` reads back and that has no space.
   */
  lemma ParseFormat(ins: Instruction, show: real -> string, parseF32: string -> Option<real>)
    requires ins.Forward? ==> ' ' !in show(ins.distance) && parseF32(show(ins.distance)) == Some(ins.distance)
    requires ins.Right? ==> ' ' !in show(ins.degrees) && parseF32(show(ins.degrees)) == Some(ins.degrees)
    ensures ParseInstruction(Format(ins, show), parseF32) == Ok(ins)
  {
    match ins
    case PenUp => Text.SplitNoSep("pu", ' ');
    case PenDown => Text.SplitNoSep("pd", ' ');
    case Forward(d) =>
      assert Text.Join(["fd", show(d)], ' ') == "fd " + show(d);
      Text.SplitJoin(["fd", show(d)], ' ');
    case Right(a) =>
      assert Text.Join(["rt", show(a)], ' ') == "rt " + show(a);
      Text.SplitJoin(["rt", show(a)], ' ');
  }

  /**
   * A one-line script `fd <d>` whose argument parses to `v` compiles, from the
   * initial pose, to a single keyframe: `|v| / moveSpeed` seconds later, `v`
   * units along the x axis, heading and pen unchanged, and no error.
   */
  lemma ForwardScript(d: string, v: real, moveSpeed: real, rotateSpeed: real, num: Numerics)
    requires ' ' !in d && '\n' !in d && num.parseF32(d) == Some(v)
    requires moveSpeed != 0.0 && rotateSpeed != 0.0 && num.rotateVec2(0.0) == Vec2(1.0, 0.0)
    ensures CompileLines(Initial, Text.SplitTerminator("fd " + d, '\n'), moveSpeed, rotateSpeed, num) ==
            Compiled([TurtleState(Abs(v) / moveSpeed, Vec2(v, 0.0), 0.0, true)], None)
  {
    var line := "fd " + d;
    assert forall k :: 0 <= k < |line| ==> line[k] != '\n' by {
      forall k | 0 <= k < |line| ensures line[k] != '\n' {
        if k >= 3 {
          assert line[k] == d[k - 3];
        }
      }
    }
    OneLineScript(line);
    ParseForward(d, v, num.parseF32);
    var next := Step(Initial, Forward(v), moveSpeed, rotateSpeed, num.rotateVec2);
    assert next.pos == Vec2(0.0 + 1.0 * v, 0.0 + 0.0 * v);
    assert next == TurtleState(Abs(v) / moveSpeed, Vec2(v, 0.0), 0.0, true);
    CompileFirstLine(Initial, [line], moveSpeed, rotateSpeed, num);
    assert [line][1..] == [];
    assert CompileLines(next, [], moveSpeed, rotateSpeed, num) == Compiled([], None);
  }

  /** A script of one line without a newline is that one line. */
  lemma OneLineScript(line: string)
    requires '\n' !in line && line != []
    ensures Text.SplitTerminator(line, '\n') == [line]
  {
    Text.SplitNoSep(line, '\n');
  }

  /** A line `fd <d>` whose argument parses to `v` decodes to `Forward(v)`. */
  lemma ParseForward(d: string, v: real, parseF32: string -> Option<real>)
    requires ' ' !in d && parseF32(d) == Some(v)
    ensures ParseInstruction("fd " + d, parseF32) == Ok(Forward(v))
  {
    assert Text.Join(["fd", d], ' ') == "fd " + d;
    Text.SplitJoin(["fd", d], ' ');
  }

  /** A pose is determined by its fields. */
  lemma PoseFields(r: Option<TurtleState>, t: real, x: real)
    requires r.Some? && r.value.time == t && r.value.pos == Vec2(x, 0.0)
    requires r.value.rot == 0.0 && r.value.isDrawing
    ensures r == Some(TurtleState(t, Vec2(x, 0.0), 0.0, true))
  {
  }

  /**
   * Playing back the timeline of `ForwardScript` at a time `t` before it ends
   * puts the turtle the fraction `t / end` of the way along the segment.
   */
  lemma ForwardPlayback(v: real, end: real, t: real)
    requires 0.0 <= t < end
    ensures Interpolate([Initial, TurtleState(end, Vec2(v, 0.0), 0.0, true)], t) ==
            Some(TurtleState(t, Vec2(v * (t / end), 0.0), 0.0, true))
  {
    var states := [Initial, TurtleState(end, Vec2(v, 0.0), 0.0, true)];
    var c := t / end;
    assert c == (t - states[0].time) / (states[1].time - states[0].time);
    PoseOnSegment(states, t, 1, c);
    assert InterpVec(Vec2(0.0, 0.0), Vec2(v, 0.0), c) == Vec2(v * c, 0.0);
    PoseFields(Interpolate(states, t), t, v * (t / end));
    assert states == [Initial, TurtleState(end, Vec2(v, 0.0), 0.0, true)];
  }

}
