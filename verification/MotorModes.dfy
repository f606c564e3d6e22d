/** The emulated motor from outside: what its status frames tell the plugin, and what each command
    mode makes it do.
 */
module MotorModes {
  import opened Numbers
  import opened ServoCodec
  import opened FakeMotor
  import P = Plant
  import J = Joints

  // From the motor's status to the plugin's joint -------------------------------------------

  /** The frame as the plugin's socket receives it. */
  function Received(f: Frame): J.Received
    requires |f.data| == 8
  {
    J.Received(f.id, true, 8, f.data)
  }

  /** A joint that drains one status frame of its motor knows its position, current, temperature
      and fault, all within half a count of the values the frame can hold; and the torque it
      compares with the stall effort is that of the reported current. */
  lemma StatusReachesJoint(j: J.Joint, m: Motor, id: Byte, now: int)
    requires j.cfg.canId == id && 0 <= m.error < 256
    ensures |m.StatusFrame(id).data| == 8
    ensures var k := J.Drained(j, [Received(m.StatusFrame(id))], now);
            && k.cfg == j.cfg && k.hasStatus && k.lastStatus == now && k.fault == m.error
            && Abs(k.rawPosition as real * 0.1 - Clamp(m.PositionDeg(), -3200.0, 3200.0)) <= 0.05
            && Abs(k.rawCurrent as real * 0.01 - Clamp(m.CurrentA(), -327.68, 327.67)) <= 0.005
            && k.temperature == ClampInt(m.temperatureC, -128, 127)
            && J.EffortMagnitude(k) == Abs(k.rawCurrent as real * 0.01 * j.cfg.kt * j.cfg.gearRatio)
  {
    StatusCounts(j, m, id, now);
    PositionsClose(m.PositionDeg());
    CurrentsClose(m.CurrentA());
    hide EncodeStatus;
    hide Positions;
    hide Saturate;
    hide J.Drained;
  }

  lemma StatusCounts(j: J.Joint, m: Motor, id: Byte, now: int)
    requires j.cfg.canId == id && 0 <= m.error < 256
    ensures |m.StatusFrame(id).data| == 8
    ensures var k := J.Drained(j, [Received(m.StatusFrame(id))], now);
            k == j.(hasStatus := true, lastStatus := now, rawPosition := Positions(m.PositionDeg()),
                    rawCurrent := Saturate(m.CurrentA() * 100.0, -32768, 32767),
                    temperature := ClampInt(m.temperatureC, -128, 127), fault := m.error)
  {
    var f := m.StatusFrame(id);
    StatusFields(id, m.PositionDeg(), m.speedErpm, m.CurrentA(), m.temperatureC, m.error);
    hide EncodeStatus;
    hide Unpack;
    hide Positions;
    hide Saturate;
    hide J.Drained;
    hide J.Int16;
    hide J.Int8;
    var d := f.data;
    CppUnpacksLikePython(d[0], d[1]);
    CppUnpacksLikePython(d[4], d[5]);
    CppUnpacksLikePython(d[5], d[6]);
    assert d[0..2] == [d[0], d[1]] && d[4..6] == [d[4], d[5]] && d[6..7] == [d[6]];
    OneFrame(j, Received(f), now);
  }

  lemma PositionsClose(deg: real)
    ensures Abs(Positions(deg) as real * 0.1 - Clamp(deg, -3200.0, 3200.0)) <= 0.05
  {
    SaturateWithinHalf(Clamp(deg, -MAX_STATUS_POSITION, MAX_STATUS_POSITION) * 10.0, -32768, 32767);
    hide Saturate;
  }

  lemma CurrentsClose(a: real)
    ensures Abs(Saturate(a * 100.0, -32768, 32767) as real * 0.01 - Clamp(a, -327.68, 327.67)) <= 0.005
  {
    SaturateWithinHalf(a * 100.0, -32768, 32767);
    hide Saturate;
  }

  lemma OneFrame(j: J.Joint, f: J.Received, now: int)
    requires f.complete && f.dlc >= 8
    ensures J.Drained(j, [f], now) ==
            if f.id % 256 != j.cfg.canId then j
            else j.(hasStatus := true, lastStatus := now, rawPosition := J.Int16(f.data[0], f.data[1]),
                    rawCurrent := J.Int16(f.data[4], f.data[5]), temperature := J.Int8(f.data[6]),
                    fault := f.data[7])
  {
    assert [f][..|[f]| - 1] == [];
    assert J.LastNonzeroFault([f]) == f.data[7];
    assert J.From([f], j.cfg.canId) == if f.id % 256 == j.cfg.canId then [f] else [];
  }

  /** Other joints, short reads and short frames are not touched by it. */
  lemma ForeignStatusIsIgnored(j: J.Joint, f: J.Received, now: int)
    requires f.id % 256 != j.cfg.canId || !f.complete || f.dlc < 8
    ensures J.Drained(j, [f], now) == j
  {
    assert [f][..0] == [];
    assert J.From([f], j.cfg.canId) == [];
  }

  // Command modes ---------------------------------------------------------------------------

  predicate Responsive(m: Motor) {
    m.error == 0 && !m.stuck
  }

  /** A speed frame turns the motor at that speed: n electrical revolutions a minute are 6 n
      degrees a second over the pole pairs and the gear. Zero stops a motor however fast it
      turned, and holds it there. */
  lemma {:induction false} SpeedFrameTurns(m: Motor, id: Byte, erpm: real, ticks: seq<Tick>)
    requires Responsive(m) && ticks != [] && EncodeCommand(id, MODE_SPEED, erpm, 0.0, 0.0).Some?
    ensures var n := Truncated(erpm) as real;
            var told := P.Receive(m, EncodeCommand(id, MODE_SPEED, erpm, 0.0, 0.0).value);
            var z := SteppedAll(told, ticks);
            && z.speedErpm == n && z.originDeg == m.originDeg
            && z.encoderDeg == m.encoderDeg + Times(6.0 * n / 140.0, P.TotalTime(ticks))
            && (n == 0.0 ==> z.encoderDeg == m.encoderDeg)
  {
    var n := Truncated(erpm) as real;
    var told := P.Receive(m, EncodeCommand(id, MODE_SPEED, erpm, 0.0, 0.0).value);
    assert told == m.(mode := Speed, targetErpm := n) by {
      SpeedIsHeard(m, id, erpm);
    }
    Turning(told, ticks);
    TimesSign(0.0, P.TotalTime(ticks));
    hide SteppedAll;
    hide Times;
  }

  lemma SpeedIsHeard(m: Motor, id: Byte, erpm: real)
    requires Responsive(m) && EncodeCommand(id, MODE_SPEED, erpm, 0.0, 0.0).Some?
    ensures P.Receive(m, EncodeCommand(id, MODE_SPEED, erpm, 0.0, 0.0).value)
            == m.(mode := Speed, targetErpm := Truncated(erpm) as real)
  {
    var n := Truncated(erpm * Scale(MODE_SPEED));
    assert erpm * Scale(MODE_SPEED) == erpm;
    PackRoundTrip(n, 4);
    hide Pack;
    hide Unpack;
    hide Truncated;
    var f := EncodeCommand(id, MODE_SPEED, erpm, 0.0, 0.0).value;
    assert f.data[..4] == f.data;
    assert f.id / 256 == MODE_SPEED;
    assert DecodeCommand(MODE_SPEED, f.data) == Some(n as real);
    hide DecodeCommand;
    hide EncodeCommand;
  }

  lemma {:induction false} Turning(m: Motor, ticks: seq<Tick>)
    requires Responsive(m) && m.mode == Speed && ticks != []
    ensures SteppedAll(m, ticks) ==
            m.(encoderDeg := m.encoderDeg + Times(6.0 * m.targetErpm / 140.0, P.TotalTime(ticks)),
               speedErpm := m.targetErpm)
  {
    var before, t := ticks[..|ticks| - 1], ticks[|ticks| - 1];
    var dps := 6.0 * m.targetErpm / 140.0;
    assert OutputDps(m.targetErpm) == dps && ErpmFromDps(dps) == m.targetErpm;
    TimesDistributes(dps, P.TotalTime(before), t.dt);
    TimesSign(dps, t.dt);
    if before == [] {
      assert SteppedAll(m, ticks) == Stepped(m, t);
    } else {
      Turning(m, before);
    }
    hide Times;
    hide OutputDps;
    hide ErpmFromDps;
  }

  /** A duty cycle is that part of the full speed of 75 rpm per volt at 24 V, over 14 pole pairs. */
  lemma DutyIsSpeed(m: Motor, data: seq<Byte>)
    requires Responsive(m) && |data| >= 4
    ensures Commanded(m, MODE_DUTY, data)
            == m.(mode := Speed, targetErpm := Unpack(data[..4]) as real / 100000.0 * 25200.0)
  {
  }

  /** The brake holds the motor, and reports the braking current. */
  lemma BrakeHolds(m: Motor, data: seq<Byte>, t: Tick)
    requires Responsive(m) && |data| >= 4
    ensures var z := Stepped(Commanded(m, MODE_BRAKE, data), t);
            && z.encoderDeg == m.encoderDeg && z.speedErpm == 0.0
            && z.CurrentA() == Unpack(data[..4]) as real / 1000.0
  {
    hide Unpack;
  }

  /** A current does not hold the motor, which coasts at a falling speed; no current releases it. */
  lemma CurrentCoasts(m: Motor, data: seq<Byte>, t: Tick)
    requires Responsive(m) && |data| >= 4 && t.dt > 0.0
    ensures var amps := Unpack(data[..4]) as real / 1000.0;
            var z := Stepped(Commanded(m, MODE_CURRENT, data), t);
            && z.CurrentA() == amps && z.mode == (if amps == 0.0 then Idle else Current)
            && z.speedErpm == m.speedErpm * t.coast
            && z.encoderDeg == m.encoderDeg + 6.0 * m.speedErpm * t.coast / 140.0 * t.dt
  {
    hide Unpack;
    Coasting(m.speedErpm, t.coast, t.dt);
  }

  /** Without time passing nothing turns. */
  lemma NoTimeNoMotion(m: Motor, t: Tick)
    requires Responsive(m) && (m.mode == Idle || m.mode == Current) && t.dt <= 0.0
    ensures Stepped(m, t) == m.(speedErpm := 0.0)
  {
  }

  lemma Coasting(erpm: real, coast: real, dt: real)
    ensures ErpmFromDps(OutputDps(erpm) * coast) == erpm * coast
    ensures Times(OutputDps(erpm) * coast, dt) == 6.0 * erpm * coast / 140.0 * dt
  {
    var x := erpm * coast;
    assert OutputDps(erpm) * coast == 6.0 * x / 140.0;
  }

  /** A position-speed frame aims at its position, to be reached at the speed of the frame, if that
      is not zero and not beyond the position loop's own. */
  lemma PositionSpeedAims(m: Motor, data: seq<Byte>)
    requires Responsive(m) && |data| >= 6 && m.positionSpeedDps >= 0.0
    ensures var dps := 6.0 * Abs(Unpack(data[4..6]) as real * 10.0) / 140.0;
            Commanded(m, MODE_POSITION_SPEED, data)
            == m.(mode := Position, targetDeg := Unpack(data[..4]) as real / 10000.0,
                  moveDps := if 0.0 < dps <= m.positionSpeedDps then dps else m.positionSpeedDps)
  {
    hide Unpack;
  }

  /** A motor that turns or moves reports its load; a faulty one reports no current. */
  lemma ReportedCurrent(m: Motor)
    ensures m.error != 0 ==> m.CurrentA() == 0.0
    ensures m.error == 0 && (m.mode == Speed || m.mode == Position) ==> m.CurrentA() == m.loadCurrentA
    ensures m.error == 0 && m.mode == Idle ==> m.CurrentA() == 0.0
  {
  }

  /** Nothing but a new origin gets through to a faulty motor. */
  lemma FaultRefusesCommands(m: Motor, mode: nat, data: seq<Byte>)
    requires m.error != 0 && mode != MODE_SET_ORIGIN
    ensures Commanded(m, mode, data) == m
  {
  }

  /** The origins: 0 sets one that a power cycle forgets, 1 one that it keeps, and 2 takes both
      back. */
  lemma OriginsOverPowerCycles(m: Motor, kind: Byte, deg: real)
    requires !m.ignoreOrigin
    ensures var z := Commanded(m, MODE_SET_ORIGIN, [kind]);
            var on := PoweredOn(z, deg);
            && z.encoderDeg == m.encoderDeg && z.PositionDeg() == (if kind == 2 then m.encoderDeg else 0.0)
            && on.originDeg == (if kind == 1 then m.encoderDeg else if kind == 2 then 0.0
                                else m.permanentOriginDeg)
            && on.PositionDeg() == deg && on.speedErpm == 0.0 && on.error == 0 && on.mode == Idle
  {
  }
}
