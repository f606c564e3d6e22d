/** The methods of RobotBridge, updating the object's fields in place. */
module RobotBridge {
  import opened Numbers
  import opened ObstacleGuard
  import L = DriverLock
  import E = EchoFilter
  import opened BridgeSpec

  datatype DriveAnswer = Ok | EStopped | Busy

  class RobotBridgeNode {
    const cfg: Config
    const driverLock: L.DriverLockObject
    const estopEcho: E.EchoFilterObject
    var command: Option<Command>
    var published: Option<(real, real)>
    var guard: Option<Blocking>
    var estop: bool
    var estopKnown: bool
    var driveMode: bool
    var gizmo: (real, real)
    var left: Ranged
    var right: Ranged
    // Everything published so far
    ghost var log: seq<Message>

    ghost predicate Valid()
      reads this
    {
      estopEcho.timeout == ECHO_TIMEOUT && driverLock.timeout == cfg.driverTimeout
    }

    function Value(): Bridge
      reads this, driverLock, estopEcho
    {
      Bridge(cfg, driverLock.Value(), command, published, guard, estop, estopEcho.outstanding,
             estopKnown, driveMode, gizmo, left, right)
    }

    constructor (cfg: Config, startEStopped: bool, now: real)
      ensures Valid() && fresh(driverLock) && fresh(estopEcho)
      ensures Value() == Initial(cfg, startEStopped, now).bridge
      ensures log == Initial(cfg, startEStopped, now).sent
    {
      this.cfg := cfg;
      driverLock := new L.DriverLockObject(cfg.driverTimeout);
      estopEcho := new E.EchoFilterObject(ECHO_TIMEOUT);
      command, published, guard := None, None, None;
      estop, estopKnown, driveMode, gizmo := startEStopped, false, true, (0.0, 0.0);
      left, right, log := Ranged(Stale, None), Ranged(Stale, None), [];
      new;
      if startEStopped {
        PublishEStop(now);
      }
    }

    // Called with the lock held -------------------------------------------------------

    method PublishTwist(linear: real, angular: real)
      modifies this`log
      ensures log == old(log) + [Twist(linear, angular)]
    {
      log := log + [Twist(linear, angular)];
    }

    method PublishEStop(now: real)
      requires Valid()
      modifies this`estopKnown, this`log, estopEcho
      ensures Valid()
      ensures Value() == BridgeSpec.PublishEStop(old(Value()), now).bridge
      ensures log == old(log) + BridgeSpec.PublishEStop(old(Value()), now).sent
    {
      estopKnown := true;
      estopEcho.Record(estop, now);
      log := log + [EStop(estop)];
    }

    method ApplyEStop(engaged: bool)
      requires Valid()
      modifies this`command, this`guard, this`published, this`estop
      ensures Valid() && Value() == BridgeSpec.ApplyEStop(old(Value()), engaged)
    {
      if engaged {
        command, guard, published := None, None, None;
      }
      estop := engaged;
    }

    method PublishGizmo(yaw: real, pitch: real)
      modifies this`gizmo, this`log
      ensures gizmo == (yaw, pitch) && log == old(log) + [Gizmo(yaw, pitch)]
    {
      gizmo := (yaw, pitch);
      log := log + [Gizmo(yaw, pitch)];
    }

    // Topic callbacks and timers --------------------------------------------------------

    method OnRange(side: Side, range: RangeValue, now: real)
      requires Valid()
      modifies this`left, this`right
      ensures Valid() && Value() == Apply(old(Value()), Op.OnRange(side, range, now)).bridge
    {
      var distance := ReadingOf(range);
      match side
      case Left => left := Ranged(distance, Some(now));
      case Right => right := Ranged(distance, Some(now));
    }

    method OnEStop(engaged: bool, now: real)
      requires Valid()
      modifies this, estopEcho
      ensures Valid() && Value() == Apply(old(Value()), Op.OnEStop(engaged, now)).bridge
      ensures log == old(log)
    {
      var echo := estopEcho.CheckEcho(engaged, now);
      if echo {
        return;
      }
      estopKnown := true;
      if engaged == estop {
        return;
      }
      ApplyEStop(engaged);
    }

    method OnDriveTimer(now: real)
      requires Valid()
      modifies this`command, this`published, this`guard, this`log
      ensures Valid() && Value() == Apply(old(Value()), Op.DriveTimer(now)).bridge
      ensures log == old(log) + Apply(old(Value()), Op.DriveTimer(now)).sent
    {
      if command.Some? && now - command.value.at >= cfg.commandTimeout {
        command := None;
      }
      if command.None? {
        guard := None;
        if published.Some? {
          PublishTwist(0.0, 0.0);
          published := None;
        }
        return;
      }
      var linear, angular := command.value.linear, command.value.angular;
      var stopDistance := cfg.stopDistance;
      if stopDistance > 0.0 {
        stopDistance := stopDistance + BrakingDistance(linear, cfg.reactionTime, cfg.deceleration);
      }
      stopDistance := Min(stopDistance, STOP_DISTANCE_CAP);
      var ranges := Readings(Fresh(left, now, cfg.sensorTimeout), Fresh(right, now, cfg.sensorTimeout));
      var (guarded, blocking) := GuardCommand(linear, ranges, stopDistance, cfg.requireUltrasonic);
      guard := if guarded != linear then blocking else None;
      PublishTwist(guarded, angular);
      published := Some((guarded, angular));
    }

    method OnEStopTimer(now: real)
      requires Valid()
      modifies this`estopKnown, this`log, estopEcho
      ensures Valid() && Value() == Apply(old(Value()), EStopTimer(now)).bridge
      ensures log == old(log) + Apply(old(Value()), EStopTimer(now)).sent
    {
      if estop {
        PublishEStop(now);
      }
    }

    method OnEStopStartup(now: real)
      requires Valid()
      modifies this`estopKnown, this`log, estopEcho
      ensures Valid() && Value() == Apply(old(Value()), EStopStartup(now)).bridge
      ensures log == old(log) + Apply(old(Value()), EStopStartup(now)).sent
    {
      if !estopKnown {
        PublishEStop(now);
      }
    }

    // Called by the web server ----------------------------------------------------------

    method MayControl(client: L.Client, now: real) returns (allowed: bool)
      requires Valid()
      modifies driverLock
      ensures Valid() && Value() == Apply(old(Value()), Op.MayControl(client, now)).bridge
      ensures allowed == old(driverLock.Value()).Grants(client, now)
    {
      var holder := driverLock.Holder(now);
      allowed := holder.None? || holder.value == client;
    }

    method Drive(client: L.Client, linearAxis: Number, angularAxis: Number, speed: Number, now: real)
      returns (answer: DriveAnswer)
      requires Valid()
      modifies this`command, driverLock
      ensures Valid()
      ensures Value() == Apply(old(Value()), Op.Drive(client, linearAxis, angularAxis, speed, now)).bridge
      ensures answer == if old(estop) then EStopped
                        else if old(driverLock.Value()).Grants(client, now) then Ok else Busy
    {
      hide ScaleCommand;
      assert Apply(Value(), Op.Drive(client, linearAxis, angularAxis, speed, now)).bridge
             == AfterDrive(Value(), client, linearAxis, angularAxis, speed, now);
      hide Apply;
      if estop {
        return EStopped;
      }
      var previous := driverLock.Holder(now);
      var granted := driverLock.Request(client, now);
      if !granted {
        return Busy;
      }
      var (linear, angular) := ScaleCommand(linearAxis, angularAxis, speed, cfg.maxLinear,
                                            cfg.maxAngular, cfg.turboSpeed);
      command := Some(Command(linear, angular, now));
      answer := Ok;
    }

    method Release(client: L.Client, disconnected: bool, now: real)
      requires Valid()
      modifies this`command, this`guard, this`published, this`log, driverLock
      ensures Valid() && Value() == Apply(old(Value()), Op.Release(client, disconnected, now)).bridge
      ensures log == old(log) + Apply(old(Value()), Op.Release(client, disconnected, now)).sent
    {
      var holder := driverLock.Holder(now);
      if holder != Some(client) {
        return;
      }
      if disconnected {
        var released := driverLock.Release(client);
      }
      command, guard := None, None;
      if published.Some? {
        PublishTwist(0.0, 0.0);
        published := None;
      }
    }

    method SetEStop(engaged: bool, now: real) returns (changed: bool)
      requires Valid()
      modifies this, estopEcho
      ensures Valid() && Value() == Apply(old(Value()), Op.SetEStop(engaged, now)).bridge
      ensures log == old(log) + Apply(old(Value()), Op.SetEStop(engaged, now)).sent
      ensures changed == (engaged != old(estop))
    {
      changed := engaged != estop;
      if engaged {
        PublishTwist(0.0, 0.0);
      }
      ApplyEStop(engaged);
      PublishEStop(now);
    }

    method AimGizmo(client: L.Client, yaw: Number, pitch: Number, now: real) returns (aimed: bool)
      requires Valid()
      modifies this`gizmo, this`log, driverLock
      ensures Valid() && Value() == Apply(old(Value()), Op.AimGizmo(client, yaw, pitch, now)).bridge
      ensures log == old(log) + Apply(old(Value()), Op.AimGizmo(client, yaw, pitch, now)).sent
      ensures aimed == (old(driveMode) && !old(estop) && old(driverLock.Value()).Grants(client, now))
    {
      if !driveMode {
        return false;
      }
      if estop {
        return false;
      }
      var granted := driverLock.Request(client, now);
      if !granted {
        return false;
      }
      PublishGizmo(PyClamp(FiniteOrZero(yaw), -cfg.yawLimit, cfg.yawLimit),
                   PyClamp(FiniteOrZero(pitch), cfg.pitchMin, cfg.pitchMax));
      aimed := true;
    }

    method SetMode(drive: bool)
      requires Valid()
      modifies this`driveMode, this`gizmo, this`log
      ensures Valid() && Value() == Apply(old(Value()), Op.SetMode(drive)).bridge
      ensures log == old(log) + Apply(old(Value()), Op.SetMode(drive)).sent
    {
      driveMode := drive;
      if drive {
        PublishGizmo(0.0, 0.0);
      }
    }
  }
}
