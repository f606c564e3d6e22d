/** The emulated servo-mode motor: how command frames and time change its state. */
module FakeMotor {
  import opened Numbers
  import opened ServoCodec

  const POLE_PAIRS := 14.0
  const GEAR_RATIO := 10.0
  // KV 75 rpm/V at 24 V, times the pole pairs
  const FULL_DUTY_ERPM := 75.0 * 24.0 * POLE_PAIRS

  datatype Mode = Idle | Current | Brake | Speed | Position

  datatype Motor = Motor(
    encoderDeg: real,
    originDeg: real,
    permanentOriginDeg: real,
    speedErpm: real,
    error: int,
    mode: Mode,
    commandCurrentA: real,
    targetErpm: real,
    targetDeg: real,
    moveDps: real,
    positionSpeedDps: real,
    ignoreOrigin: bool,
    stuck: bool,
    loadCurrentA: real,
    temperatureC: int)
  {
    /** Position relative to the origin, as the status frame reports it. */
    function PositionDeg(): real {
      encoderDeg - originDeg
    }

    function CurrentA(): real {
      if error != 0 then 0.0
      else if mode == Current || mode == Brake then commandCurrentA
      else if mode == Speed || mode == Position then loadCurrentA
      else 0.0
    }

    function StatusFrame(canId: Byte): Frame {
      EncodeStatus(canId, PositionDeg(), speedErpm, CurrentA(), temperatureC, error)
    }
  }

  function OutputDps(erpm: real): real {
    erpm * 6.0 / (POLE_PAIRS * GEAR_RATIO)
  }

  function ErpmFromDps(dps: real): real {
    dps * POLE_PAIRS * GEAR_RATIO / 6.0
  }

  // Commands ------------------------------------------------------------------------

  function Released(m: Motor): Motor {
    m.(mode := Idle, commandCurrentA := 0.0)
  }

  /** The speed of a mode 6 move: at most the position loop's own speed. */
  function MoveSpeed(m: Motor, data: seq<Byte>): real {
    var erpm := if |data| >= 6 then Abs(Unpack(data[4..6]) as real * 10.0) else 0.0;
    if erpm == 0.0 then m.positionSpeedDps else Min(m.positionSpeedDps, OutputDps(erpm))
  }

  /** What a servo command frame does to the motor. */
  function Commanded(m: Motor, mode: nat, data: seq<Byte>): Motor {
    var d := DecodeCommand(mode, data);
    if d.None? then m
    else
      var value := d.value;
      if mode == MODE_SET_ORIGIN then
        if m.ignoreOrigin then m
        else if value == 2.0 then m.(originDeg := 0.0, permanentOriginDeg := 0.0)
        else if value == 1.0 then m.(originDeg := m.encoderDeg, permanentOriginDeg := m.encoderDeg)
        else m.(originDeg := m.encoderDeg)
      else if m.error != 0 then m
      else if mode == MODE_DUTY then m.(mode := Speed, targetErpm := value * FULL_DUTY_ERPM)
      else if mode == MODE_CURRENT then
        m.(mode := if value != 0.0 then Current else Idle, commandCurrentA := value)
      else if mode == MODE_BRAKE then m.(mode := Brake, commandCurrentA := value)
      else if mode == MODE_SPEED then m.(mode := Speed, targetErpm := value)
      else if mode == MODE_POSITION then Aimed(m, value)
      else m.(mode := Position, targetDeg := value, moveDps := MoveSpeed(m, data))
  }

  /** A mode 4 command for a position. */
  function Aimed(m: Motor, deg: real): Motor {
    if m.error != 0 then m
    else m.(mode := Position, targetDeg := deg, moveDps := m.positionSpeedDps)
  }

  /** The motor after a power cycle that it comes out of reading `deg`: idle, without its fault,
      and with the permanent origin only. */
  function PoweredOn(m: Motor, deg: real): Motor {
    Released(m).(speedErpm := 0.0, error := 0, originDeg := m.permanentOriginDeg,
                 encoderDeg := deg + m.permanentOriginDeg)
  }

  // Motion --------------------------------------------------------------------------

  /** A moment of motion: `dt` seconds, and the factor by which a coasting motor slows down
      in that time (the exponential of the original, a number in (0, 1]). */
  datatype Tick = Tick(dt: real, coast: real)
  {
    ghost predicate Valid() {
      0.0 < coast <= 1.0
    }
  }

  function Travelled(m: Motor, dps: real, dt: real): Motor {
    m.(encoderDeg := m.encoderDeg + Times(dps, dt), speedErpm := ErpmFromDps(dps))
  }

  function Stepped(m: Motor, t: Tick): Motor {
    if m.error != 0 || m.stuck || m.mode == Brake then Travelled(m, 0.0, t.dt)
    else if m.mode == Speed then Travelled(m, OutputDps(m.targetErpm), t.dt)
    else if m.mode == Position then
      var remaining := m.targetDeg - m.PositionDeg();
      if Abs(remaining) <= Times(m.moveDps, t.dt) || t.dt <= 0.0
      then Travelled(m.(encoderDeg := m.targetDeg + m.originDeg), 0.0, t.dt)
      else Travelled(m, if remaining < 0.0 then -Abs(m.moveDps) else Abs(m.moveDps), t.dt)
    else Travelled(m, if t.dt > 0.0 then OutputDps(m.speedErpm) * t.coast else 0.0, t.dt)
  }

  function SteppedAll(m: Motor, ticks: seq<Tick>): Motor {
    if ticks == [] then m
    else Stepped(SteppedAll(m, ticks[..|ticks| - 1]), ticks[|ticks| - 1])
  }

  // The object ----------------------------------------------------------------------

  class FakeCubeMarsMotor {
    var encoderDeg: real
    var originDeg: real
    var permanentOriginDeg: real
    var speedErpm: real
    var error: int
    var mode: Mode
    var commandCurrentA: real
    var targetErpm: real
    var targetDeg: real
    var moveDps: real
    var positionSpeedDps: real
    var ignoreOrigin: bool
    var stuck: bool
    var loadCurrentA: real
    var temperatureC: int

    function Value(): Motor
      reads this
    {
      Motor(encoderDeg, originDeg, permanentOriginDeg, speedErpm, error, mode, commandCurrentA,
            targetErpm, targetDeg, moveDps, positionSpeedDps, ignoreOrigin, stuck, loadCurrentA,
            temperatureC)
    }

    constructor (m: Motor)
      ensures Value() == m
    {
      encoderDeg, originDeg, permanentOriginDeg := m.encoderDeg, m.originDeg, m.permanentOriginDeg;
      speedErpm, error, mode, commandCurrentA := m.speedErpm, m.error, m.mode, m.commandCurrentA;
      targetErpm, targetDeg, moveDps := m.targetErpm, m.targetDeg, m.moveDps;
      positionSpeedDps, ignoreOrigin, stuck := m.positionSpeedDps, m.ignoreOrigin, m.stuck;
      loadCurrentA, temperatureC := m.loadCurrentA, m.temperatureC;
    }

    method Release()
      modifies this
      ensures Value() == Released(old(Value()))
    {
      mode := Idle;
      commandCurrentA := 0.0;
    }

    method SetPosition(deg: real)
      modifies this
      ensures Value() == old(Value()).(encoderDeg := encoderDeg) && Value().PositionDeg() == deg
    {
      encoderDeg := deg + originDeg;
    }

    /** Power off and on. */
    method PowerCycle(deg: real)
      modifies this
      ensures Value() == PoweredOn(old(Value()), deg)
      ensures Value().PositionDeg() == deg && originDeg == permanentOriginDeg == old(permanentOriginDeg)
    {
      Release();
      speedErpm := 0.0;
      error := 0;
      originDeg := permanentOriginDeg;
      encoderDeg := deg + originDeg;
    }

    /** False if the frame was ignored. */
    method Command(kind: nat, data: seq<Byte>) returns (applied: bool)
      modifies this
      ensures Value() == Commanded(old(Value()), kind, data)
      ensures !applied ==> Value() == old(Value())
      ensures applied <==> DecodeCommand(kind, data).Some?
                           && (if kind == MODE_SET_ORIGIN then !ignoreOrigin else error == 0)
    {
      hide DecodeCommand;
      var decoded := DecodeCommand(kind, data);
      if decoded.None? {
        return false;
      }
      var value := decoded.value;
      if kind == MODE_SET_ORIGIN {
        if ignoreOrigin {
          return false;
        }
        if value == 2.0 {
          originDeg, permanentOriginDeg := 0.0, 0.0;
        } else {
          originDeg := encoderDeg;
          if value == 1.0 {
            permanentOriginDeg := originDeg;
          }
        }
        return true;
      }
      if error != 0 {
        return false;
      }
      if kind == MODE_DUTY {
        mode, targetErpm := Speed, value * FULL_DUTY_ERPM;
      } else if kind == MODE_CURRENT {
        commandCurrentA := value;
        mode := if value != 0.0 then Current else Idle;
      } else if kind == MODE_BRAKE {
        mode, commandCurrentA := Brake, value;
      } else if kind == MODE_SPEED {
        mode, targetErpm := Speed, value;
      } else if kind == MODE_POSITION {
        mode, targetDeg := Position, value;
        moveDps := positionSpeedDps;
      } else {
        var speed := if |data| >= 6 then Abs(Unpack(data[4..6]) as real * 10.0) else 0.0;
        mode, targetDeg := Position, value;
        moveDps := if speed != 0.0 then Min(positionSpeedDps, OutputDps(speed)) else positionSpeedDps;
      }
      applied := true;
    }

    method Step(t: Tick)
      modifies this
      ensures Value() == Stepped(old(Value()), t)
    {
      var dps := 0.0;
      if error != 0 || stuck || mode == Brake {
        dps := 0.0;
      } else if mode == Speed {
        dps := OutputDps(targetErpm);
      } else if mode == Position {
        var remaining := targetDeg - (encoderDeg - originDeg);
        var step := Times(moveDps, t.dt);
        if Abs(remaining) <= step || t.dt <= 0.0 {
          encoderDeg := targetDeg + originDeg;
        } else {
          dps := if remaining < 0.0 then -Abs(moveDps) else Abs(moveDps);
        }
      } else if t.dt > 0.0 {
        dps := OutputDps(speedErpm) * t.coast;
      }
      encoderDeg := encoderDeg + Times(dps, t.dt);
      speedErpm := ErpmFromDps(dps);
    }
  }
}
