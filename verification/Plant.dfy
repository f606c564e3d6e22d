/** The plugin's frames applied to the emulated motor: zeroing does not move a joint, and
    slew-limited targets are tracked without overshoot.
 */
module Plant {
  import opened Numbers
  import opened ServoCodec
  import opened FakeMotor
  import J = Joints
  import SafeSpec
  import SafeRuns
  import GuardRuns
  import SlewRuns

  function Receive(m: Motor, f: Frame): Motor {
    Commanded(m, f.id / 256, f.data)
  }

  function ReceiveAll(m: Motor, frames: seq<J.Frame>): Motor
    requires forall f :: f in frames ==> f.canId < 256 && !f.Motion?
  {
    if frames == [] then m
    else Receive(ReceiveAll(m, frames[..|frames| - 1]), Wire(frames[|frames| - 1]))
  }

  // Zeroing -------------------------------------------------------------------------

  ghost predicate ValidTicks(ticks: seq<Tick>) {
    forall i :: 0 <= i < |ticks| ==> ticks[i].Valid()
  }

  /** No later motion moves the joint. */
  ghost predicate StaysPut(m: Motor) {
    forall ticks: seq<Tick> :: ValidTicks(ticks) ==> SteppedAll(m, ticks).encoderDeg == m.encoderDeg
  }

  /** A motor that has nothing to do: held by a fault, a block or its brake, or released at
      standstill. */
  predicate Resting(m: Motor) {
    || m.error != 0 || m.stuck || m.mode == Brake
    || (m.mode.Idle? && m.speedErpm == 0.0)
  }

  lemma {:induction false} RestingStaysPut(m: Motor, ticks: seq<Tick>)
    requires Resting(m)
    ensures SteppedAll(m, ticks) == m.(speedErpm := SteppedAll(m, ticks).speedErpm)
    ensures Resting(SteppedAll(m, ticks))
  {
    if ticks != [] {
      RestingStaysPut(m, ticks[..|ticks| - 1]);
    }
  }

  /** The two frames zero_joints() sends one motor. */
  function ZeroedMotor(m: Motor, id: Byte): Motor {
    Receive(Receive(m, Wire(J.Release(id))), Wire(J.SetOrigin(id)))
  }

  lemma ZeroedMotorIs(m: Motor, id: Byte)
    ensures ZeroedMotor(m, id) ==
            var r := if m.error == 0 then Released(m) else m;
            if m.ignoreOrigin then r else r.(originDeg := m.encoderDeg)
  {
    StopFramesAgree(id);
  }

  lemma OneTick(m: Motor, t: Tick)
    ensures SteppedAll(m, [t]) == Stepped(m, t)
  {
    assert [t][..0] == [];
    assert SteppedAll(m, [t]) == Stepped(SteppedAll(m, []), t);
  }

  /** Zeroing (release, then set-origin) leaves the joint where it is under every later
      motion exactly when the motor was held by a fault or a block, or stood still; in
      whatever mode it was. */
  lemma ZeroingIsMotionless(m: Motor, id: Byte)
    ensures StaysPut(ZeroedMotor(m, id)) <==> m.error != 0 || m.stuck || m.speedErpm == 0.0
  {
    ZeroedMotorIs(m, id);
    var z := ZeroedMotor(m, id);
    if m.error != 0 || m.stuck || m.speedErpm == 0.0 {
      forall ticks: seq<Tick> | ValidTicks(ticks)
        ensures SteppedAll(z, ticks).encoderDeg == z.encoderDeg
      {
        RestingStaysPut(z, ticks);
      }
    } else {
      var t := Tick(1.0, 1.0);
      OneTick(z, t);
      assert ValidTicks([t]);
      assert SteppedAll(z, [t]).encoderDeg == z.encoderDeg + OutputDps(m.speedErpm);
    }
  }

  /** ... and a motor that accepts the origin then reads 0 for ever, in its status frames too. */
  lemma ZeroedMotorReadsZero(m: Motor, id: Byte, ticks: seq<Tick>)
    requires m.speedErpm == 0.0 && !m.ignoreOrigin
    ensures var z := SteppedAll(ZeroedMotor(m, id), ticks);
            && z.encoderDeg == m.encoderDeg && z.PositionDeg() == 0.0
            && Unpack(z.StatusFrame(id).data[0..2]) == 0
  {
    ZeroedMotorIs(m, id);
    RestingStaysPut(ZeroedMotor(m, id), ticks);
    AtZeroReportsZero(SteppedAll(ZeroedMotor(m, id), ticks), id);
  }

  lemma AtZeroReportsZero(m: Motor, id: Byte)
    requires m.PositionDeg() == 0.0
    ensures Unpack(m.StatusFrame(id).data[0..2]) == 0
  {
    hide Unpack;
    StatusFields(id, m.PositionDeg(), m.speedErpm, m.CurrentA(), m.temperatureC, m.error);
    RoundOfInteger(0);
  }

  /** Set-origin alone, without the release, moves a fault-free motor in position mode unless
      its target number happens to be 0: the kept target is now relative to the new origin. */
  lemma SetOriginAloneJumps(m: Motor, id: Byte)
    requires m.mode == Position && m.error == 0 && !m.stuck && !m.ignoreOrigin
    requires m.moveDps >= 0.0
    ensures StaysPut(Receive(m, Wire(J.SetOrigin(id)))) <==> m.targetDeg == 0.0
  {
    StopFramesAgree(id);
    var z := Receive(m, Wire(J.SetOrigin(id)));
    assert z == m.(originDeg := m.encoderDeg);
    if m.targetDeg == 0.0 {
      forall ticks: seq<Tick> | ValidTicks(ticks)
        ensures SteppedAll(z, ticks).encoderDeg == z.encoderDeg
      {
        AtTargetStaysPut(z, ticks);
      }
    } else {
      var t := Tick(0.0, 1.0);
      OneTick(z, t);
      assert ValidTicks([t]);
      assert SteppedAll(z, [t]).encoderDeg == m.targetDeg + z.originDeg;
    }
  }

  lemma {:induction false} AtTargetStaysPut(m: Motor, ticks: seq<Tick>)
    requires m.mode == Position && m.error == 0 && !m.stuck && m.PositionDeg() == m.targetDeg
    requires m.moveDps >= 0.0
    ensures SteppedAll(m, ticks) == m.(speedErpm := SteppedAll(m, ticks).speedErpm)
  {
    if ticks != [] {
      AtTargetStaysPut(m, ticks[..|ticks| - 1]);
    }
  }

  // The origins of an activation ------------------------------------------------------

  lemma {:induction false} OriginFramesFor(joints: seq<J.Joint>, i: nat)
    requires i < |joints|
    requires forall a, b :: 0 <= a < b < |joints| ==> joints[a].cfg.canId != joints[b].cfg.canId
    ensures var id := joints[i].cfg.canId;
            GuardRuns.For(SafeSpec.ZeroFrames(joints), id) ==
            if joints[i].cfg.zeroOnActivate then [J.Release(id), J.SetOrigin(id)] else []
    decreases |joints|
  {
    var n, id := |joints| - 1, joints[i].cfg.canId;
    var c := joints[n].cfg.canId;
    var own := if joints[n].cfg.zeroOnActivate then [J.Release(c), J.SetOrigin(c)] else [];
    GuardRuns.ForConcat(SafeSpec.ZeroFrames(joints[..n]), own, id);
    if i < n {
      OriginFramesFor(joints[..n], i);
      GuardRuns.ForeignFrames(own, id);
    } else {
      NoOriginFramesFor(joints[..n], id);
      if joints[n].cfg.zeroOnActivate {
        assert own[..1] == [J.Release(c)] && own[..1][..0] == [];
        assert GuardRuns.For(own[..1], id) == own[..1];
        assert GuardRuns.For(own, id) == own;
      }
    }
  }

  lemma {:induction false} NoOriginFramesFor(joints: seq<J.Joint>, id: nat)
    requires forall a :: 0 <= a < |joints| ==> joints[a].cfg.canId != id
    ensures GuardRuns.For(SafeSpec.ZeroFrames(joints), id) == []
  {
    if joints != [] {
      var n := |joints| - 1;
      var c := joints[n].cfg.canId;
      var own := if joints[n].cfg.zeroOnActivate then [J.Release(c), J.SetOrigin(c)] else [];
      GuardRuns.ForConcat(SafeSpec.ZeroFrames(joints[..n]), own, id);
      NoOriginFramesFor(joints[..n], id);
      GuardRuns.ForeignFrames(own, id);
    }
  }

  /** In every run, a successful activation leaves each joint it zeroes in place, if its motor
      stood still and accepts origins, and the motor then reads 0: what zero_joints() waits
      for is what the motor reports. */
  lemma ActivationZeroesInPlace(r: SafeRuns.Run, k: nat, i: nat, m: Motor, ticks: seq<Tick>)
    requires SafeRuns.IsRun(r) && k < |r.ops| && !r.states[k].active && r.states[k + 1].active
    requires i < |r.states[0].joints| && r.states[0].joints[i].cfg.zeroOnActivate
    requires r.states[0].joints[i].cfg.canId < 256
    requires m.speedErpm == 0.0 && !m.ignoreOrigin
    ensures var id := r.states[0].joints[i].cfg.canId;
            var mine := GuardRuns.For(r.outs[k], id);
            && mine == [J.Release(id), J.SetOrigin(id)]
            && var z := SteppedAll(ReceiveAll(m, mine), ticks);
               && z.encoderDeg == m.encoderDeg && z.PositionDeg() == 0.0
               && Unpack(z.StatusFrame(id).data[0..2]) == 0
    ensures i < |r.states[k + 1].joints| && SafeSpec.ReadsZero(r.states[k + 1].joints[i])
  {
    ActivationSendsOrigins(r, k, i);
    var id: Byte := r.states[0].joints[i].cfg.canId;
    BothFramesArrive(m, id);
    ZeroedMotorReadsZero(m, id, ticks);
  }

  lemma ActivationSendsOrigins(r: SafeRuns.Run, k: nat, i: nat)
    requires SafeRuns.IsRun(r) && k < |r.ops| && !r.states[k].active && r.states[k + 1].active
    requires i < |r.states[0].joints| && r.states[0].joints[i].cfg.zeroOnActivate
    ensures var id := r.states[0].joints[i].cfg.canId;
            GuardRuns.For(r.outs[k], id) == [J.Release(id), J.SetOrigin(id)]
    ensures i < |r.states[k + 1].joints| && SafeSpec.ReadsZero(r.states[k + 1].joints[i])
  {
    SafeRuns.RunKeepsInv(r, k);
    assert SafeRuns.StepAt(r, k);
    var s, t := r.states[k], r.states[k + 1];
    SafeSpec.ActivationShape(s, r.ops[k], t, r.outs[k]);
    assert SafeSpec.Started(s.joints[i], t.joints[i]);
    hide SafeSpec.Step;
    OriginFramesFor(s.joints, i);
  }

  lemma BothFramesArrive(m: Motor, id: Byte)
    ensures ReceiveAll(m, [J.Release(id), J.SetOrigin(id)]) == ZeroedMotor(m, id)
  {
    var two := [J.Release(id), J.SetOrigin(id)];
    assert two[..1] == [J.Release(id)] && two[..1][..0] == [];
    assert ReceiveAll(m, two[..1]) == Receive(m, Wire(J.Release(id)));
  }

  // Tracking ------------------------------------------------------------------------

  function TotalTime(ticks: seq<Tick>): real {
    if ticks == [] then 0.0 else TotalTime(ticks[..|ticks| - 1]) + ticks[|ticks| - 1].dt
  }

  /** A motor its position loop can move. */
  predicate Follows(m: Motor) {
    m.mode == Position && m.error == 0 && !m.stuck && m.moveDps > 0.0
  }

  /** One tick takes a motor toward its target, never past it. */
  lemma TowardTarget(m: Motor, t: Tick)
    requires Follows(m) && t.dt > 0.0
    ensures Stepped(m, t) == m.(encoderDeg := Stepped(m, t).encoderDeg, speedErpm := Stepped(m, t).speedErpm)
    ensures SlewRuns.Between(Stepped(m, t).PositionDeg(), m.PositionDeg(), m.targetDeg)
    ensures Abs(m.targetDeg - Stepped(m, t).PositionDeg())
            == Max(Abs(m.targetDeg - m.PositionDeg()) - Times(m.moveDps, t.dt), 0.0)
    ensures Times(m.moveDps, t.dt) >= 0.0
  {
    hide Times;
    TimesSign(m.moveDps, t.dt);
    TimesSign(0.0, t.dt);
  }

  /** ... and some ticks close the gap by the speed times their total time, or to nothing. */
  lemma {:induction false} TowardTargetAll(m: Motor, ticks: seq<Tick>)
    requires Follows(m) && forall i :: 0 <= i < |ticks| ==> ticks[i].dt > 0.0
    ensures var z := SteppedAll(m, ticks);
            && z == m.(encoderDeg := z.encoderDeg, speedErpm := z.speedErpm)
            && SlewRuns.Between(z.PositionDeg(), m.PositionDeg(), m.targetDeg)
            && Abs(m.targetDeg - z.PositionDeg())
               == Max(Abs(m.targetDeg - m.PositionDeg()) - Times(m.moveDps, TotalTime(ticks)), 0.0)
    ensures TotalTime(ticks) >= 0.0 && Times(m.moveDps, TotalTime(ticks)) >= 0.0
  {
    hide Times;
    TimesSign(m.moveDps, TotalTime(ticks));
    if ticks == [] {
    } else {
      hide Stepped;
      var before, last := ticks[..|ticks| - 1], ticks[|ticks| - 1];
      TowardTargetAll(m, before);
      TowardTarget(SteppedAll(m, before), last);
      TimesDistributes(m.moveDps, TotalTime(before), last.dt);
    }
  }

  /** The plugin's side of the loop for one joint, and the motor's. */
  datatype Loop = Loop(target: real, motor: Motor)

  /** One write period: the controller's command, and the motion until the next write. */
  datatype Cycle = Cycle(period: real, command: Option<real>, ticks: seq<Tick>)

  function DegPerRad(): real {
    180.0 / J.PI
  }

  /** The motor position that corresponds to a joint target: the inverse of the conversion of
      measured positions. */
  function MotorDegrees(cfg: J.JointConfig, target: real): real {
    Times(Times(cfg.direction, target) + cfg.encOff, DegPerRad())
  }

  function NewTarget(cfg: J.JointConfig, target: real, c: Cycle): real {
    match c.command
    case None => target
    case Some(wanted) => J.Slewed(target, wanted, cfg.limits, J.SlewStep(cfg.maxVelocity, c.period))
  }

  // One count of a position frame, in degrees
  const COUNT := 0.0001

  /** What a position frame carries of a position: whole counts, truncated toward zero. */
  function Wired(deg: real): real {
    Truncated(deg * Scale(MODE_POSITION)) as real / Scale(MODE_POSITION)
  }

  lemma WiredIsClose(deg: real)
    ensures Abs(deg - Wired(deg)) < COUNT
  {
    TruncatedBelowOne(deg * 10000.0);
  }

  /** The positions an int32 of counts can hold. */
  predicate Encodable(deg: real) {
    -0x8000_0000 <= Truncated(deg * Scale(MODE_POSITION)) < 0x8000_0000
  }

  /** Encoding a position, and handing the motor the bytes. */
  lemma PositionFrameAims(m: Motor, id: Byte, deg: real)
    requires Encodable(deg)
    ensures var f := EncodeCommand(id, MODE_POSITION, deg, 0.0, 0.0);
            f.Some? && Receive(m, f.value) == Aimed(m, Wired(deg))
  {
    var n := Truncated(deg * Scale(MODE_POSITION));
    var p := Pack(n, 4);
    assert p.Some? by {
      PowersUpTo4();
    }
    PackRoundTrip(n, 4);
    hide Pack;
    hide Unpack;
    hide Truncated;
    var f := EncodeCommand(id, MODE_POSITION, deg, 0.0, 0.0);
    assert f == Some(Frame(MODE_POSITION * 256 + id, p.value));
    assert p.value[..4] == p.value;
    assert DecodeCommand(MODE_POSITION, f.value.data) == Some(Wired(deg));
    hide EncodeCommand;
    hide DecodeCommand;
    hide Wired;
    assert f.value.id / 256 == MODE_POSITION;
  }

  /** The motor when the position frame of a write has arrived. */
  function Commanding(cfg: J.JointConfig, l: Loop, c: Cycle): Motor {
    Aimed(l.motor, Wired(MotorDegrees(cfg, NewTarget(cfg, l.target, c))))
  }

  function RunCycle(cfg: J.JointConfig, l: Loop, c: Cycle): Loop {
    Loop(NewTarget(cfg, l.target, c), SteppedAll(Commanding(cfg, l, c), c.ticks))
  }

  function RunCycles(cfg: J.JointConfig, l: Loop, cycles: seq<Cycle>): Loop {
    if cycles == [] then l
    else RunCycle(cfg, RunCycles(cfg, l, cycles[..|cycles| - 1]), cycles[|cycles| - 1])
  }

  function Lag(cfg: J.JointConfig, l: Loop): real {
    Abs(MotorDegrees(cfg, l.target) - l.motor.PositionDeg())
  }

  /** The slew limit in motor degrees per second. */
  function MaxDps(cfg: J.JointConfig): real {
    Times(cfg.maxVelocity, DegPerRad())
  }

  /** One slew step of a cycle, in motor degrees. */
  function StepDegrees(cfg: J.JointConfig, c: Cycle): real {
    Times(MaxDps(cfg), J.SlewPeriod(c.period))
  }

  /** A healthy motor whose position loop is at least as fast as the slew limit. */
  ghost predicate Capable(cfg: J.JointConfig, m: Motor) {
    && cfg.Valid() && cfg.positionCommanded
    && m.error == 0 && !m.stuck
    && m.positionSpeedDps >= MaxDps(cfg)
  }

  /** Motion goes on for at least the (capped) write period between two writes. */
  ghost predicate Sustained(c: Cycle) {
    && (forall i :: 0 <= i < |c.ticks| ==> c.ticks[i].dt > 0.0)
    && TotalTime(c.ticks) >= J.SlewPeriod(c.period)
  }

  lemma StepInDegrees(cfg: J.JointConfig, l: Loop, c: Cycle)
    requires cfg.Valid() && cfg.positionCommanded
    ensures Abs(MotorDegrees(cfg, NewTarget(cfg, l.target, c)) - MotorDegrees(cfg, l.target))
            <= StepDegrees(cfg, c)
    ensures StepDegrees(cfg, c) >= 0.0
  {
    var k, next := DegPerRad(), NewTarget(cfg, l.target, c);
    var step := J.SlewStep(cfg.maxVelocity, c.period);
    assert k > 0.0 && step >= 0.0 by {
      SlewRuns.StepIsPositive(cfg, c.period);
    }
    assert StepDegrees(cfg, c) == Times(step, k);
    hide Times;
    if c.command.Some? {
      SlewRuns.SlewedStep(l.target, c.command.value, cfg.limits, step);
    }
    assert Abs(next - l.target) <= step;
    SlewRuns.DirectionIsometry(cfg.direction, next, l.target);
    var a, b := Times(cfg.direction, next) + cfg.encOff, Times(cfg.direction, l.target) + cfg.encOff;
    TimesDistributes(k, a, b);
    TimesSign(a - b, k);
    TimesMonotone(step, Abs(a - b), k, k);
  }

  /** The arithmetic of one cycle. The target moves by at most `step`, the motor heads for the
      nearby number it received, and covers at least a step. */
  lemma Catching(pos: real, target: real, next: real, received: real, step: real, delta: real, z: real)
    requires Abs(target - pos) <= delta && Abs(next - target) <= step && Abs(next - received) <= delta
    requires SlewRuns.Between(z, pos, received)
    ensures Abs(next - z) <= step + delta
    ensures Abs(received - z) <= Max(Abs(received - pos) - step, 0.0) ==> Abs(next - z) <= delta
  {
  }

  /** A moment of the motion after a frame, with the numbers of Catching. */
  lemma Moment(m: Motor, ticks: seq<Tick>, target: real, next: real, step: real, delta: real)
    requires Follows(m) && forall i :: 0 <= i < |ticks| ==> ticks[i].dt > 0.0
    requires Abs(target - m.PositionDeg()) <= delta && Abs(next - target) <= step
    requires Abs(next - m.targetDeg) <= delta
    ensures var z := SteppedAll(m, ticks);
            && SlewRuns.Between(z.PositionDeg(), m.PositionDeg(), m.targetDeg)
            && Abs(next - z.PositionDeg()) <= step + delta
            && z.error == m.error && z.stuck == m.stuck && z.positionSpeedDps == m.positionSpeedDps
            && (Times(m.moveDps, TotalTime(ticks)) >= step ==> Abs(next - z.PositionDeg()) <= delta)
  {
    TowardTargetAll(m, ticks);
    hide SteppedAll;
    hide TotalTime;
    hide Times;
    Catching(m.PositionDeg(), target, next, m.targetDeg, step, delta, SteppedAll(m, ticks).PositionDeg());
  }

  /** One write period: the motor never passes the target it was just given, as far as the frame
      can express it. With a lag of at most `delta` (one count or more) before, it is within
      one slew step plus `delta` of the target all the time, and within `delta` at the end. */
  lemma CycleTracks(cfg: J.JointConfig, l: Loop, c: Cycle, n: nat, delta: real)
    requires Capable(cfg, l.motor) && Sustained(c) && n <= |c.ticks|
    requires Lag(cfg, l) <= delta && COUNT <= delta
    ensures Capable(cfg, RunCycle(cfg, l, c).motor)
    ensures var goal := MotorDegrees(cfg, NewTarget(cfg, l.target, c));
            var z := SteppedAll(Commanding(cfg, l, c), c.ticks[..n]);
            && SlewRuns.Between(z.PositionDeg(), l.motor.PositionDeg(), Wired(goal))
            && Abs(goal - z.PositionDeg()) <= StepDegrees(cfg, c) + delta
    ensures Lag(cfg, RunCycle(cfg, l, c)) <= delta
  {
    CycleBegins(cfg, l, c, delta);
    var m, goal := Commanding(cfg, l, c), MotorDegrees(cfg, NewTarget(cfg, l.target, c));
    var target, step := MotorDegrees(cfg, l.target), StepDegrees(cfg, c);
    hide Times;
    hide MotorDegrees;
    hide NewTarget;
    hide MaxDps;
    hide SteppedAll;
    hide TotalTime;
    hide Commanding;
    hide StepDegrees;
    hide Wired;
    hide Follows;
    hide SlewRuns.Between;
    Moment(m, c.ticks[..n], target, goal, step, delta);
    Moment(m, c.ticks, target, goal, step, delta);
  }

  /** What Moment asks for, when the frame has arrived. */
  lemma CycleBegins(cfg: J.JointConfig, l: Loop, c: Cycle, delta: real)
    requires Capable(cfg, l.motor) && Sustained(c) && Lag(cfg, l) <= delta && COUNT <= delta
    ensures var m, goal := Commanding(cfg, l, c), MotorDegrees(cfg, NewTarget(cfg, l.target, c));
            var target, step := MotorDegrees(cfg, l.target), StepDegrees(cfg, c);
            && Follows(m) && Capable(cfg, m) && m.targetDeg == Wired(goal)
            && m.PositionDeg() == l.motor.PositionDeg()
            && Abs(target - m.PositionDeg()) <= delta && Abs(goal - target) <= step
            && Abs(goal - m.targetDeg) <= delta
            && Times(m.moveDps, TotalTime(c.ticks)) >= step
  {
    StepInDegrees(cfg, l, c);
    AimedFollows(cfg, l, c);
    WiredIsClose(MotorDegrees(cfg, NewTarget(cfg, l.target, c)));
    StepWithinReach(cfg, Commanding(cfg, l, c), c);
    hide Times;
    hide MotorDegrees;
    hide NewTarget;
    hide MaxDps;
    hide TotalTime;
    hide Commanding;
    hide StepDegrees;
    hide Wired;
    hide Follows;
    hide Capable;
  }

  lemma AimedFollows(cfg: J.JointConfig, l: Loop, c: Cycle)
    requires Capable(cfg, l.motor)
    ensures var m := Commanding(cfg, l, c);
            && Follows(m) && m.targetDeg == Wired(MotorDegrees(cfg, NewTarget(cfg, l.target, c)))
            && m.PositionDeg() == l.motor.PositionDeg() && m.moveDps >= MaxDps(cfg)
            && Capable(cfg, m)
  {
    assert MaxDps(cfg) > 0.0 by {
      assert DegPerRad() > 0.0;
    }
    hide Times;
    hide NewTarget;
    hide Wired;
  }

  lemma StepWithinReach(cfg: J.JointConfig, m: Motor, c: Cycle)
    requires Sustained(c) && m.moveDps >= MaxDps(cfg) && Capable(cfg, m)
    ensures Times(m.moveDps, TotalTime(c.ticks)) >= StepDegrees(cfg, c)
  {
    assert MaxDps(cfg) > 0.0 by {
      assert DegPerRad() > 0.0;
    }
    TimesMonotone(m.moveDps, MaxDps(cfg), TotalTime(c.ticks), J.SlewPeriod(c.period));
  }

  /** Closed loop over any sequence of commands: with an initial lag of at most `delta` (one
      count or more), at every moment of every cycle the motor is within one slew step plus
      `delta` of the current target, has not passed the number it received for it, and ends
      each cycle within `delta` of it. */
  lemma {:induction false} ClosedLoopTracks(cfg: J.JointConfig, l: Loop, cycles: seq<Cycle>, n: nat, delta: real)
    requires Capable(cfg, l.motor) && Lag(cfg, l) <= delta && COUNT <= delta
    requires cycles != [] && (forall i :: 0 <= i < |cycles| ==> Sustained(cycles[i]))
    requires n <= |cycles[|cycles| - 1].ticks|
    ensures var before, c := RunCycles(cfg, l, cycles[..|cycles| - 1]), cycles[|cycles| - 1];
            var goal := MotorDegrees(cfg, RunCycles(cfg, l, cycles).target);
            var z := SteppedAll(Commanding(cfg, before, c), c.ticks[..n]);
            && SlewRuns.Between(z.PositionDeg(), before.motor.PositionDeg(), Wired(goal))
            && Abs(goal - z.PositionDeg()) <= StepDegrees(cfg, c) + delta
    ensures Lag(cfg, RunCycles(cfg, l, cycles)) <= delta
  {
    var before, c := RunCycles(cfg, l, cycles[..|cycles| - 1]), cycles[|cycles| - 1];
    StaysCapable(cfg, l, cycles[..|cycles| - 1], delta);
    CycleTracks(cfg, before, c, n, delta);
  }

  lemma {:induction false} StaysCapable(cfg: J.JointConfig, l: Loop, cycles: seq<Cycle>, delta: real)
    requires Capable(cfg, l.motor) && Lag(cfg, l) <= delta && COUNT <= delta
    requires forall i :: 0 <= i < |cycles| ==> Sustained(cycles[i])
    ensures Capable(cfg, RunCycles(cfg, l, cycles).motor)
    ensures Lag(cfg, RunCycles(cfg, l, cycles)) <= delta
  {
    if cycles != [] {
      StaysCapable(cfg, l, cycles[..|cycles| - 1], delta);
      CycleTracks(cfg, RunCycles(cfg, l, cycles[..|cycles| - 1]), cycles[|cycles| - 1], 0, delta);
    }
  }

  /** A target seeded from a status frame is within half a count (0.05 degrees) of a motor at
      rest, so that is the initial lag of the closed loop. */
  lemma SeedLag(j: J.Joint, m: Motor, id: Byte)
    requires j.cfg.Valid() && j.hasStatus
    requires j.rawPosition == Unpack(m.StatusFrame(id).data[0..2])
    requires -3200.0 <= m.PositionDeg() <= 3200.0
    ensures J.Measured(j).Some?
    ensures Lag(j.cfg, Loop(J.Measured(j).value, m)) == Abs(j.rawPosition as real * 0.1 - m.PositionDeg())
    ensures Lag(j.cfg, Loop(J.Measured(j).value, m)) <= 0.05
  {
    assert Abs(j.rawPosition as real * 0.1 - m.PositionDeg()) <= 0.05 by {
      StatusFields(id, m.PositionDeg(), m.speedErpm, m.CurrentA(), m.temperatureC, m.error);
      SaturateWithinHalf(m.PositionDeg() * 10.0, -32768, 32767);
    }
    MeasuredInDegrees(j);
  }

  lemma MeasuredInDegrees(j: J.Joint)
    requires j.cfg.Valid() && j.hasStatus
    ensures MotorDegrees(j.cfg, J.Measured(j).value) == j.rawPosition as real * 0.1
  {
    var raw, d := j.rawPosition as real, j.cfg.direction;
    var x := raw * J.RAD_PER_COUNT - j.cfg.encOff;
    assert J.Measured(j).value == d * x;
    assert d * (d * x) == x;
    assert Times(d, J.Measured(j).value) + j.cfg.encOff == raw * J.RAD_PER_COUNT;
  }
}
