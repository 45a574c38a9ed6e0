/** The timed effects advanced by `render` (tritris3d.js:1095-1097,
    1100-1111, 1173-1244), with time in integer milliseconds and a fixed
    16 ms frame. Only each effect's lifecycle is modelled: when it starts,
    how its clock moves, and when its scene objects are dropped. */
module Effects {

  /** The fixed step of one frame: `render` advances every clock by
      0.016 s (tritris3d.js:1103, 1139). */
  const FrameMs := 16
  /** `bounceDuration` (tritris3d.js:141). */
  const BounceMs := 150
  /** `lightshowTime` set by `triggerLightshow` (tritris3d.js:1010). */
  const LightshowMs := 400
  /** `lineClearTime` set by `triggerLineClear` (tritris3d.js:1031). */
  const LineClearMs := 150
  /** `starSpeedTime` set by `triggerLineClear` (tritris3d.js:1033). */
  const StarPulseMs := 2000

  /** `f` applied `n` times. */
  function Iterate<T>(f: T -> T, x: T, n: nat): T
    decreases n
  {
    if n == 0 then x else Iterate(f, f(x), n - 1)
  }

  /** The states after each step of feeding `inputs` to `f`, from `x`. */
  function Trace<S, G>(f: (S, G) -> S, x: S, inputs: seq<G>): (xs: seq<S>)
    ensures |xs| == |inputs|
    decreases |inputs|
  {
    if inputs == [] then []
    else
      var y := f(x, inputs[0]);
      [y] + Trace(f, y, inputs[1..])
  }

  /** Step `i` of a trace starts from the state step `i - 1` left. */
  lemma {:induction false} TraceAt<S, G>(f: (S, G) -> S, x: S, inputs: seq<G>, i: nat)
    requires i < |inputs|
    ensures Trace(f, x, inputs)[i] == f(if i == 0 then x else Trace(f, x, inputs)[i - 1], inputs[i])
    decreases i
  {
    var y := f(x, inputs[0]);
    var rest := Trace(f, y, inputs[1..]);
    assert Trace(f, x, inputs) == [y] + rest;
    if i > 0 {
      TraceAt(f, y, inputs[1..], i - 1);
      assert inputs[1..][i - 1] == inputs[i];
    }
  }

  // ---------------------------------------------------------------------------
  // Board bounce

  /** The vertical offset of the board, grid and active groups: at rest, or
      displaced along the arc `sin(pi * progressMs / 150) * -0.70`. For the
      progress values of frames 1 to 9 that is a dip below rest; only the
      tenth frame, whose progress passes 150 ms, overshoots upwards. */
  datatype Offset = Resting | Displaced(progressMs: int)

  datatype Bounce = Bounce(time: int, offset: Offset)

  /** One frame of the bounce: a positive countdown drops by a frame and
      moves the groups along the arc; otherwise they sit at offset 0. */
  function AdvanceBounce(b: Bounce): (r: Bounce)
    ensures b.time <= 0 ==> r == Bounce(b.time, Resting)
    ensures b.time > 0 ==> r.time == b.time - FrameMs && r.offset == Displaced(BounceMs - r.time)
  {
    if b.time > 0 then
      var t := b.time - FrameMs;
      Bounce(t, Displaced(BounceMs - t))
    else Bounce(b.time, Resting)
  }

  /** A countdown of `t` keeps the groups moving for exactly the frames
      it takes to reach zero: it is still positive after `n` frames iff
      `16*n < t`, and it stops moving once it has gone non-positive. */
  lemma {:induction false} BounceCountdown(b: Bounce, n: nat)
    requires b.time > 0
    ensures var r := Iterate(AdvanceBounce, b, n);
      && (FrameMs * n < b.time ==> r.time == b.time - FrameMs * n)
      && (r.time > 0 <==> FrameMs * n < b.time)
    decreases n
  {
    if n > 0 {
      var b1 := AdvanceBounce(b);
      if b1.time > 0 {
        BounceCountdown(b1, n - 1);
      } else {
        BounceRests(b1, n - 1);
      }
    }
  }

  /** Once the countdown is non-positive the groups stay at rest. */
  lemma {:induction false} BounceRests(b: Bounce, n: nat)
    requires b.time <= 0
    ensures Iterate(AdvanceBounce, b, n).time == b.time
    ensures n > 0 ==> Iterate(AdvanceBounce, b, n).offset == Resting
    decreases n
  {
    if n > 0 {
      BounceRests(AdvanceBounce(b), n - 1);
      if n > 1 {
        assert Iterate(AdvanceBounce, b, n) == Iterate(AdvanceBounce, AdvanceBounce(b), n - 1);
      }
    }
  }

  /** `startBoardBounce` restarts the countdown from the full duration,
      whatever was left: re-triggering never stacks, and a bounce started
      at any moment, even in the middle of another, moves the board for
      exactly ten frames. */
  lemma BounceLastsTenFrames(b: Bounce)
    ensures Iterate(AdvanceBounce, b.(time := BounceMs), 9).time > 0
    ensures Iterate(AdvanceBounce, b.(time := BounceMs), 10).time <= 0
  {
    BounceCountdown(b.(time := BounceMs), 9);
    BounceCountdown(b.(time := BounceMs), 10);
  }

  // ---------------------------------------------------------------------------
  // Lightshow

  /** `rainbowPlane` present, `lightshowTime`, `lightshowElapsed`. */
  datatype Lightshow = Lightshow(plane: bool, time: int, elapsed: int)

  const NoLightshow := Lightshow(false, 0, 0)

  /** `triggerLightshow`: a fresh plane with a full clock, whatever was
      showing before. */
  const FreshLightshow := Lightshow(true, LightshowMs, 0)

  /** One frame: a running sweep gains a frame of elapsed time; once
      elapsed/duration reaches 1 the plane is removed and the clock reset. */
  function AdvanceLightshow(l: Lightshow): (r: Lightshow)
    ensures !(l.plane && l.time > 0) ==> r == l
    ensures l.plane && l.time > 0 ==> r.elapsed == l.elapsed + FrameMs
    ensures l.plane && l.time > 0 ==> (r.plane <==> l.elapsed + FrameMs < l.time)
    ensures !r.plane && l.plane && l.time > 0 ==> r.time == 0
    ensures r.plane ==> r.time == l.time
  {
    if l.plane && l.time > 0 then
      var e := l.elapsed + FrameMs;
      if e >= l.time then Lightshow(false, 0, e) else Lightshow(true, l.time, e)
    else l
  }

  /** A running sweep keeps its plane exactly while `elapsed + 16*n` stays
      below its duration; once removed it stays removed with a zero clock. */
  lemma {:induction false} LightshowRuns(l: Lightshow, n: nat)
    requires l.plane && 0 <= l.elapsed < l.time
    ensures var r := Iterate(AdvanceLightshow, l, n);
      && (r.plane <==> l.elapsed + FrameMs * n < l.time)
      && (!r.plane ==> r.time == 0)
    decreases n
  {
    if n > 0 {
      var l1 := AdvanceLightshow(l);
      if l1.plane {
        LightshowRuns(l1, n - 1);
      } else {
        LightshowIdle(l1, n - 1);
      }
    }
  }

  lemma {:induction false} LightshowIdle(l: Lightshow, n: nat)
    requires !l.plane
    ensures Iterate(AdvanceLightshow, l, n) == l
    decreases n
  {
    if n > 0 {
      LightshowIdle(AdvanceLightshow(l), n - 1);
    }
  }

  /** A triggered lightshow is drawn for 24 frames and removed on the 25th. */
  lemma LightshowLasts25Frames()
    ensures Iterate(AdvanceLightshow, FreshLightshow, 24).plane
    ensures !Iterate(AdvanceLightshow, FreshLightshow, 25).plane
    ensures Iterate(AdvanceLightshow, FreshLightshow, 25).time == 0
  {
    LightshowRuns(FreshLightshow, 24);
    LightshowRuns(FreshLightshow, 25);
  }

  // ---------------------------------------------------------------------------
  // Line-clear beams

  /** `lineClearRows`, `lineClearEffects` (one beam per cleared row, kept
      as that row), `lineClearTime`, `lineClearElapsed`. */
  datatype LineClear = LineClear(rows: seq<int>, beams: seq<int>, time: int, elapsed: int)

  const NoLineClear := LineClear([], [], 0, 0)

  /** The beam part of `triggerLineClear`: one beam per row, fresh clock. */
  function StartLineClear(rows: seq<int>): LineClear
  {
    LineClear(rows, rows, LineClearMs, 0)
  }

  /** One frame: while beams exist their clock moves; once elapsed/duration
      reaches 1 they are all removed together. */
  function AdvanceLineClear(c: LineClear): (r: LineClear)
    ensures |c.beams| == 0 ==> r == c
    ensures |c.beams| > 0 ==> r.elapsed == c.elapsed + FrameMs && r.time == c.time
    ensures |c.beams| > 0 ==> (r.beams == c.beams <==> c.elapsed + FrameMs < c.time)
    ensures r.beams == c.beams || r.beams == []
  {
    if |c.beams| > 0 then
      var e := c.elapsed + FrameMs;
      if e >= c.time then c.(elapsed := e, beams := []) else c.(elapsed := e)
    else c
  }

  /** Beams started with a non-empty row list survive exactly while
      `elapsed + 16*n` stays below the duration, then the list is empty. */
  lemma {:induction false} LineClearRuns(c: LineClear, n: nat)
    requires |c.beams| > 0 && 0 <= c.elapsed < c.time
    ensures var r := Iterate(AdvanceLineClear, c, n);
      && (r.beams == c.beams <==> c.elapsed + FrameMs * n < c.time)
      && (r.beams != c.beams ==> r.beams == [])
    decreases n
  {
    if n > 0 {
      var c1 := AdvanceLineClear(c);
      if c1.beams == c.beams {
        LineClearRuns(c1, n - 1);
      } else {
        LineClearIdle(c1, n - 1);
      }
    }
  }

  lemma {:induction false} LineClearIdle(c: LineClear, n: nat)
    requires |c.beams| == 0
    ensures Iterate(AdvanceLineClear, c, n) == c
    decreases n
  {
    if n > 0 {
      LineClearIdle(AdvanceLineClear(c), n - 1);
    }
  }

  /** The beams of a line clear are drawn for 9 frames and removed on the 10th. */
  lemma LineClearLasts10Frames(rows: seq<int>)
    requires |rows| > 0
    ensures Iterate(AdvanceLineClear, StartLineClear(rows), 9).beams == rows
    ensures Iterate(AdvanceLineClear, StartLineClear(rows), 10).beams == []
  {
    LineClearRuns(StartLineClear(rows), 9);
    LineClearRuns(StartLineClear(rows), 10);
  }

  // ---------------------------------------------------------------------------
  // Starfield speed pulse and spin direction

  /** `starSpeedTime`, `starSpeedElapsed`, `starRotDir`. */
  datatype Star = Star(speedTime: int, speedElapsed: int, rotDir: int)

  const InitialStar := Star(0, 0, 1)

  /** The star part of `triggerLineClear`: a fresh pulse, and the spin
      direction reversed. */
  function PulseStars(s: Star): Star
  {
    Star(StarPulseMs, 0, -s.rotDir)
  }

  /** One frame: a running pulse gains a frame of elapsed time and ends
      (speed time back to 0) once elapsed/duration reaches 1. */
  function AdvanceStars(s: Star): (r: Star)
    ensures r.rotDir == s.rotDir
    ensures s.speedTime <= 0 ==> r == s
    ensures s.speedTime > 0 ==> r.speedElapsed == s.speedElapsed + FrameMs
    ensures s.speedTime > 0 ==> (r.speedTime > 0 <==> s.speedElapsed + FrameMs < s.speedTime)
    ensures r.speedTime > 0 ==> r.speedTime == s.speedTime
  {
    if s.speedTime > 0 then
      var e := s.speedElapsed + FrameMs;
      if e >= s.speedTime then Star(0, e, s.rotDir) else Star(s.speedTime, e, s.rotDir)
    else s
  }

  /** A running pulse stays boosted exactly while `elapsed + 16*n` stays
      below its duration. */
  lemma {:induction false} StarPulseRuns(s: Star, n: nat)
    requires 0 <= s.speedElapsed < s.speedTime
    ensures var r := Iterate(AdvanceStars, s, n);
      && (r.speedTime > 0 <==> s.speedElapsed + FrameMs * n < s.speedTime)
      && (r.speedTime == s.speedTime || r.speedTime == 0)
      && r.rotDir == s.rotDir
    decreases n
  {
    if n > 0 {
      var s1 := AdvanceStars(s);
      if s1.speedTime > 0 {
        StarPulseRuns(s1, n - 1);
      } else {
        StarIdle(s1, n - 1);
      }
    }
  }

  lemma {:induction false} StarIdle(s: Star, n: nat)
    requires s.speedTime <= 0
    ensures Iterate(AdvanceStars, s, n) == s
    decreases n
  {
    if n > 0 {
      StarIdle(AdvanceStars(s), n - 1);
    }
  }

  /** The star speed pulse of a line clear lasts 125 frames. */
  lemma StarPulseLasts125Frames(s: Star)
    ensures Iterate(AdvanceStars, PulseStars(s), 124).speedTime > 0
    ensures Iterate(AdvanceStars, PulseStars(s), 125).speedTime == 0
  {
    StarPulseRuns(PulseStars(s), 124);
    StarPulseRuns(PulseStars(s), 125);
  }
}
