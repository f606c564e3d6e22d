/** The closed loop over whole runs: the frames the plugin puts on the bus for a claimed joint,
    and the emulated motor that receives them.
 */
module ClosedLoop {
  import opened Numbers
  import opened ServoCodec
  import opened SafeSpec
  import opened SafeRuns
  import opened SlewRuns
  import opened Plant
  import F = FakeMotor
  import G = GuardRuns
  import J = Joints

  // One write ----------------------------------------------------------------------------

  /** A controller drives the joint by position, and by nothing else. */
  ghost predicate PositionOnly(s: Sys, i: int) {
    && 0 <= i < |s.joints|
    && J.InterfaceName(s.joints[i], J.Velocity) !in s.claims
    && J.InterfaceName(s.joints[i], J.Effort) !in s.claims
  }

  function CycleOf(r: Run, i: int, k: int, ticks: seq<F.Tick>): Cycle
    requires 0 <= k < |r.ops| && k < |r.states| && r.ops[k].Write? && 0 <= i < |r.states[k].joints|
  {
    Cycle(r.ops[k].period, r.states[k].joints[i].commandPosition, ticks)
  }

  /** A write sends a claimed joint's motor one frame, the slew-limited target. */
  lemma WriteSendsTarget(r: Run, k: nat, i: nat, ticks: seq<F.Tick>)
    requires IsRun(r) && k < |r.ops| && SendsTarget(r, k, i) && PositionOnly(r.states[k], i)
    ensures TargetAfter(r, k, i).Some? && TargetAfter(r, k + 1, i).Some?
    ensures var cfg := r.states[k].joints[i].cfg;
            var next := NewTarget(cfg, TargetAfter(r, k, i).value, CycleOf(r, i, k, ticks));
            && TargetAfter(r, k + 1, i) == Some(next)
            && G.For(r.outs[k], cfg.canId) == [J.Motion(cfg.canId, J.Position, Times(cfg.direction, next))]
  {
    RunKeepsInv(r, k);
    G.FramesOfJoint(r, k, i);
    var s, j, u := r.states[k], r.states[k].joints[i], r.states[k + 1].joints[i];
    assert JointInv(s, j);
    assert J.InterfaceName(u, J.Position) == J.InterfaceName(j, J.Position);
    assert J.InterfaceName(u, J.Velocity) == J.InterfaceName(j, J.Velocity);
    assert J.InterfaceName(u, J.Effort) == J.InterfaceName(j, J.Effort);
    hide IsRun;
    hide Inv;
    hide G.For;
  }

  // The motor on the bus ------------------------------------------------------------------

  /** A position frame as the drive gets it: in degrees, with the encoder offset, as the bytes
      of servo mode 4. */
  function Hears(cfg: J.JointConfig, m: F.Motor, f: J.Frame): F.Motor {
    if !(f.Motion? && f.interface == J.Position) then m
    else
      var frame := EncodeCommand(cfg.canId % 256, MODE_POSITION, Times(f.value + cfg.encOff, DegPerRad()), 0.0, 0.0);
      if frame.None? then m else Receive(m, frame.value)
  }

  function HearsAll(cfg: J.JointConfig, m: F.Motor, frames: seq<J.Frame>): F.Motor {
    if frames == [] then m
    else Hears(cfg, HearsAll(cfg, m, frames[..|frames| - 1]), frames[|frames| - 1])
  }

  /** The motor of joint i at state k, having started as m at state a. It hears its frames on
      the bus; ticks[n] is the motion after write n and before the next one. */
  ghost function MotorAt(r: Run, i: int, m: F.Motor, a: nat, k: nat, ticks: seq<seq<F.Tick>>): F.Motor
    requires IsRun(r) && a <= k <= |r.ops| && |ticks| == |r.ops|
    requires 0 <= i < |r.states[0].joints|
    decreases k
  {
    if k == a then m
    else
      var cfg := r.states[0].joints[i].cfg;
      var before := MotorAt(r, i, m, a, k - 1, ticks);
      var heard := HearsAll(cfg, before, G.For(r.outs[k - 1], cfg.canId));
      if r.ops[k - 1].Write? then F.SteppedAll(heard, ticks[k - 1]) else heard
  }

  /** From state a to state k the component is active, and a controller keeps joint i by its
      position interface alone. */
  ghost predicate Driven(r: Run, i: int, a: int, k: int)
    requires IsRun(r) && 0 <= a <= k <= |r.ops|
  {
    forall n :: a <= n < k ==> DrivenAt(r, i, n)
  }

  ghost predicate DrivenAt(r: Run, i: int, n: int)
    requires IsRun(r) && 0 <= n < |r.ops|
  {
    && r.states[n].active && r.states[n + 1].active && !Reseeds(r, n, i)
    && 0 <= i < |r.states[n].joints|
    && r.states[n].joints[i].cfg.positionCommanded && r.states[n].joints[i].positionClaimed
    && PositionOnly(r.states[n], i)
  }

  /** The target of every write from state a to state k fits a position frame. */
  ghost predicate Expressible(r: Run, i: int, a: int, k: int)
    requires IsRun(r) && 0 <= a <= k <= |r.ops|
  {
    forall n :: a <= n < k && r.ops[n].Write? ==> ExpressibleAt(r, i, n)
  }

  ghost predicate ExpressibleAt(r: Run, i: int, n: int)
    requires IsRun(r) && 0 <= n < |r.ops|
  {
    && 0 <= i < |r.states[0].joints|
    && (TargetAfter(r, n + 1, i).Some? ==>
          Encodable(MotorDegrees(r.states[0].joints[i].cfg, TargetAfter(r, n + 1, i).value)))
  }

  ghost function CyclesOf(r: Run, i: int, a: nat, k: nat, ticks: seq<seq<F.Tick>>): seq<Cycle>
    requires IsRun(r) && a <= k <= |r.ops| && |ticks| == |r.ops| && Driven(r, i, a, k)
    decreases k
  {
    if k == a then []
    else
      assert DrivenAt(r, i, k - 1);
      var before := CyclesOf(r, i, a, k - 1, ticks);
      if r.ops[k - 1].Write? then before + [CycleOf(r, i, k - 1, ticks[k - 1])] else before
  }

  /** The run, seen by one joint and its motor, is the closed loop of Plant. */
  lemma {:induction false} RunIsClosedLoop(r: Run, i: nat, m: F.Motor, a: nat, k: nat, ticks: seq<seq<F.Tick>>)
    requires IsRun(r) && a <= k <= |r.ops| && |ticks| == |r.ops| && i < |r.states[0].joints|
    requires Driven(r, i, a, k) && Expressible(r, i, a, k) && TargetAfter(r, a, i).Some?
    ensures TargetAfter(r, k, i).Some?
    ensures Loop(TargetAfter(r, k, i).value, MotorAt(r, i, m, a, k, ticks))
            == RunCycles(r.states[0].joints[i].cfg, Loop(TargetAfter(r, a, i).value, m),
                         CyclesOf(r, i, a, k, ticks))
    decreases k
  {
    if a < k {
      assert DrivenAt(r, i, k - 1);
      RunIsClosedLoop(r, i, m, a, k - 1, ticks);
      RunKeepsInv(r, k - 1);
      var cfg := r.states[0].joints[i].cfg;
      assert r.states[k - 1].joints[i].cfg == cfg;
      hide IsRun;
      if r.ops[k - 1].Write? {
        assert ExpressibleAt(r, i, k - 1);
        WriteSendsTarget(r, k - 1, i, ticks[k - 1]);
        var next := TargetAfter(r, k, i).value;
        var before := MotorAt(r, i, m, a, k - 1, ticks);
        HearsTarget(cfg, before, next);
        var cycles := CyclesOf(r, i, a, k - 1, ticks);
        var c := CycleOf(r, i, k - 1, ticks[k - 1]);
        OneMoreCycle(cfg, Loop(TargetAfter(r, a, i).value, m), cycles, c);
      } else {
        G.OtherStepsAreSilent(r, k - 1);
        TargetMovesOnlyAtAnchors(r, k - 1, i);
      }
    }
  }

  lemma HearsTarget(cfg: J.JointConfig, m: F.Motor, target: real)
    requires Encodable(MotorDegrees(cfg, target))
    ensures HearsAll(cfg, m, [J.Motion(cfg.canId, J.Position, Times(cfg.direction, target))])
            == F.Aimed(m, Wired(MotorDegrees(cfg, target)))
  {
    PositionFrameAims(m, cfg.canId % 256, MotorDegrees(cfg, target));
    hide EncodeCommand;
    hide Receive;
    hide Wired;
    var frames := [J.Motion(cfg.canId, J.Position, Times(cfg.direction, target))];
    assert frames[..0] == [];
    assert HearsAll(cfg, m, frames) == Hears(cfg, HearsAll(cfg, m, frames[..0]), frames[0]);
  }

  lemma OneMoreCycle(cfg: J.JointConfig, l: Loop, cycles: seq<Cycle>, c: Cycle)
    ensures RunCycles(cfg, l, cycles + [c]) == RunCycle(cfg, RunCycles(cfg, l, cycles), c)
  {
    assert (cycles + [c])[..|cycles|] == cycles;
  }

  lemma {:induction false} CyclesAreSustained(r: Run, i: nat, a: nat, k: nat, ticks: seq<seq<F.Tick>>)
    requires IsRun(r) && a <= k <= |r.ops| && |ticks| == |r.ops| && Driven(r, i, a, k)
    requires forall n :: a <= n < k && r.ops[n].Write? ==> SustainedAt(r, ticks, n)
    ensures forall c :: c in CyclesOf(r, i, a, k, ticks) ==> Sustained(c)
    decreases k
  {
    if a < k {
      CyclesAreSustained(r, i, a, k - 1, ticks);
      assert DrivenAt(r, i, k - 1);
      assert r.ops[k - 1].Write? ==> SustainedAt(r, ticks, k - 1);
    }
  }

  /** Motion after write n goes on for at least its (capped) period. */
  ghost predicate SustainedAt(r: Run, ticks: seq<seq<F.Tick>>, n: int)
    requires 0 <= n < |r.ops| == |ticks| && r.ops[n].Write?
  {
    && (forall t :: 0 <= t < |ticks[n]| ==> ticks[n][t].dt > 0.0)
    && TotalTime(ticks[n]) >= J.SlewPeriod(r.ops[n].period)
  }

  /** Whole runs track: while a controller keeps the joint, a healthy motor whose position loop
      is at least as fast as the slew limit never passes the target of a write, as whole counts
      of its frame tell it, and is at every later moment before the next write within one slew
      step of the target itself, plus the lag it began with (at most 0.05 degrees after a seed,
      by SeedLag; one count at least). */
  lemma RunTracks(r: Run, i: nat, m: F.Motor, a: nat, k: nat, ticks: seq<seq<F.Tick>>, n: nat, delta: real)
    requires IsRun(r) && a <= k < |r.ops| && |ticks| == |r.ops| && i < |r.states[0].joints|
    requires Driven(r, i, a, k + 1) && Expressible(r, i, a, k + 1)
    requires TargetAfter(r, a, i).Some? && r.ops[k].Write? && n <= |ticks[k]|
    requires forall h :: a <= h <= k && r.ops[h].Write? ==> SustainedAt(r, ticks, h)
    requires Capable(r.states[0].joints[i].cfg, m)
    requires Lag(r.states[0].joints[i].cfg, Loop(TargetAfter(r, a, i).value, m)) <= delta && COUNT <= delta
    ensures TargetAfter(r, k + 1, i).Some?
    ensures var cfg := r.states[0].joints[i].cfg;
            var before := MotorAt(r, i, m, a, k, ticks);
            var goal := MotorDegrees(cfg, TargetAfter(r, k + 1, i).value);
            var z := F.SteppedAll(HearsAll(cfg, before, G.For(r.outs[k], cfg.canId)), ticks[k][..n]);
            && Between(z.PositionDeg(), before.PositionDeg(), Wired(goal)) && Abs(goal - Wired(goal)) < COUNT
            && Abs(goal - z.PositionDeg()) <= Times(MaxDps(cfg), J.SlewPeriod(r.ops[k].period)) + delta
  {
    hide F.SteppedAll;
    hide RunCycles;
    hide MotorAt;
    hide MotorDegrees;
    hide Wired;
    hide HearsAll;
    var cfg, l := r.states[0].joints[i].cfg, Loop(TargetAfter(r, a, i).value, m);
    RunIsClosedLoop(r, i, m, a, k, ticks);
    RunIsClosedLoop(r, i, m, a, k + 1, ticks);
    CyclesAreSustained(r, i, a, k + 1, ticks);
    assert DrivenAt(r, i, k) && ExpressibleAt(r, i, k);
    RunKeepsInv(r, k);
    WiredIsClose(MotorDegrees(cfg, TargetAfter(r, k + 1, i).value));
    WriteSendsTarget(r, k, i, ticks[k]);
    HearsTarget(cfg, MotorAt(r, i, m, a, k, ticks), TargetAfter(r, k + 1, i).value);
    var cycles := CyclesOf(r, i, a, k + 1, ticks);
    assert cycles == CyclesOf(r, i, a, k, ticks) + [CycleOf(r, i, k, ticks[k])];
    assert cycles[..|cycles| - 1] == CyclesOf(r, i, a, k, ticks);
    hide IsRun;
    hide CyclesOf;
    ClosedLoopTracks(cfg, l, cycles, n, delta);
  }
}
