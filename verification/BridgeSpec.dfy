/** The drive bridge of the web controller as a state machine.

    Every method of the bridge runs under one lock, so clients, timers and topic callbacks
    interleave as the whole operations below. Some read the clock before they take the lock;
    the times of successive operations may therefore be out of order.
 */
module BridgeSpec {
  import opened Numbers
  import opened DriverLock
  import opened ObstacleGuard
  import E = EchoFilter

  const ECHO_TIMEOUT := 1.0

  datatype Config = Config(
    maxLinear: real,
    maxAngular: real,
    // At least 1, by construction
    turboSpeed: real,
    commandTimeout: real,
    driverTimeout: real,
    stopDistance: real,
    reactionTime: real,
    deceleration: real,
    sensorTimeout: real,
    requireUltrasonic: bool,
    yawLimit: real,
    pitchMin: real,
    pitchMax: real)

  datatype Command = Command(linear: real, angular: real, at: real)

  /** The latest range of a side, and when it came; None is never. */
  datatype Ranged = Ranged(reading: Reading, at: Option<real>)

  datatype Bridge = Bridge(
    cfg: Config,
    lock: Lock,
    command: Option<Command>,
    published: Option<(real, real)>,
    guard: Option<Blocking>,
    estop: bool,
    outstanding: seq<E.Sent>,
    estopKnown: bool,
    driveMode: bool,
    gizmo: (real, real),
    left: Ranged,
    right: Ranged)

  datatype Message =
    | Twist(linear: real, angular: real)
    | EStop(engaged: bool)
    | Gizmo(yaw: real, pitch: real)

  /** A number as a client sends it. */
  datatype Number = Malformed | NonFinite | Finite(x: real)

  /** The range field of a message, before on_range maps -inf to 0. */
  datatype RangeValue = NaN | NegativeInfinity | PositiveInfinity | Value(m: real)

  datatype Op =
    | OnRange(side: Side, range: RangeValue, now: real)
    | OnEStop(engaged: bool, now: real)
    | DriveTimer(now: real)
    | EStopTimer(now: real)
    | EStopStartup(now: real)
    | MayControl(client: Client, now: real)
    | Drive(client: Client, linearAxis: Number, angularAxis: Number, speed: Number, now: real)
    | Release(client: Client, disconnected: bool, now: real)
    | SetEStop(engaged: bool, now: real)
    | AimGizmo(client: Client, yaw: Number, pitch: Number, now: real)
    | SetMode(drive: bool)

  datatype Result = Result(bridge: Bridge, sent: seq<Message>)

  // Helpers -------------------------------------------------------------------------

  /** Python's clamp: max(low, min(high, value)). */
  function PyClamp(value: real, low: real, high: real): real {
    Max(low, Min(high, value))
  }

  function FiniteOrZero(n: Number): real {
    if n.Finite? then n.x else 0.0
  }

  function ScaleCommand(linearAxis: Number, angularAxis: Number, speed: Number, maxLinear: real,
                        maxAngular: real, maxSpeed: real): (real, real)
  {
    var s := PyClamp(FiniteOrZero(speed), 0.0, Max(maxSpeed, 0.0));
    (AxisSpeed(linearAxis, s, maxLinear), AxisSpeed(angularAxis, s, maxAngular))
  }

  function AxisSpeed(axis: Number, factor: real, limit: real): real {
    PyClamp(FiniteOrZero(axis), -1.0, 1.0) * factor * limit
  }

  function ReadingOf(r: RangeValue): Reading {
    match r
    case NaN => Faulty
    case NegativeInfinity => Metres(0.0)
    case PositiveInfinity => NoEcho
    case Value(m) => Metres(m)
  }

  function Fresh(r: Ranged, now: real, timeout: real): Reading {
    if r.at.Some? && now - r.at.value < timeout then r.reading else Stale
  }

  function FreshRanges(b: Bridge, now: real): Readings {
    Readings(Fresh(b.left, now, b.cfg.sensorTimeout), Fresh(b.right, now, b.cfg.sensorTimeout))
  }

  function ApplyEStop(b: Bridge, engaged: bool): Bridge {
    if engaged then b.(command := None, guard := None, published := None, estop := true)
    else b.(estop := false)
  }

  function PublishEStop(b: Bridge, now: real): Result {
    Result(b.(estopKnown := true, outstanding := b.outstanding + [E.Sent(b.estop, now)]),
           [EStop(b.estop)])
  }

  // Operations ----------------------------------------------------------------------

  function AfterRange(b: Bridge, side: Side, range: RangeValue, now: real): Bridge {
    var r := Ranged(ReadingOf(range), Some(now));
    match side
    case Left => b.(left := r)
    case Right => b.(right := r)
  }

  function AfterEStopMessage(b: Bridge, engaged: bool, now: real): Bridge {
    var c := b.(outstanding := E.AfterReceipt(b.outstanding, ECHO_TIMEOUT, engaged, now));
    if E.IsEcho(b.outstanding, ECHO_TIMEOUT, engaged, now) then c
    else if engaged == b.estop then c.(estopKnown := true)
    else ApplyEStop(c.(estopKnown := true), engaged)
  }

  function Expired(b: Bridge, now: real): Bridge {
    if b.command.Some? && now - b.command.value.at >= b.cfg.commandTimeout
    then b.(command := None) else b
  }

  function EffectiveStop(cfg: Config, linear: real): real {
    StopDistanceFor(linear, cfg.stopDistance, cfg.reactionTime, cfg.deceleration)
  }

  function AfterDriveTimer(b: Bridge, now: real): Result {
    var c := Expired(b, now);
    if c.command.None? then
      var d := c.(guard := None, published := None);
      Result(d, if c.published.Some? then [Twist(0.0, 0.0)] else [])
    else
      var linear := c.command.value.linear;
      var (guarded, blocking) := GuardCommand(linear, FreshRanges(c, now),
                                              EffectiveStop(c.cfg, linear), c.cfg.requireUltrasonic);
      var d := c.(guard := if guarded != linear then blocking else None,
                  published := Some((guarded, c.command.value.angular)));
      Result(d, [Twist(guarded, c.command.value.angular)])
  }

  function ScaledCommand(cfg: Config, linearAxis: Number, angularAxis: Number, speed: Number,
                         now: real): Command
  {
    var (linear, angular) := ScaleCommand(linearAxis, angularAxis, speed, cfg.maxLinear,
                                          cfg.maxAngular, cfg.turboSpeed);
    Command(linear, angular, now)
  }

  function AfterDrive(b: Bridge, client: Client, linearAxis: Number, angularAxis: Number,
                      speed: Number, now: real): Bridge
  {
    if b.estop then b
    else
      var c := b.(lock := b.lock.Requested(client, now));
      if !b.lock.Grants(client, now) then c
      else c.(command := Some(ScaledCommand(b.cfg, linearAxis, angularAxis, speed, now)))
  }

  function AfterRelease(b: Bridge, client: Client, disconnected: bool, now: real): Result {
    var c := b.(lock := b.lock.Asked(now));
    if b.lock.Holder(now) != Some(client) then Result(c, [])
    else
      var d := c.(lock := if disconnected then c.lock.Released(client) else c.lock,
                  command := None, guard := None, published := None);
      Result(d, if b.published.Some? then [Twist(0.0, 0.0)] else [])
  }

  function AfterSetEStop(b: Bridge, engaged: bool, now: real): Result {
    var r := PublishEStop(ApplyEStop(b, engaged), now);
    r.(sent := (if engaged then [Twist(0.0, 0.0)] else []) + r.sent)
  }

  function AfterAim(b: Bridge, client: Client, yaw: Number, pitch: Number, now: real): Result {
    if !b.driveMode || b.estop then Result(b, [])
    else
      var c := b.(lock := b.lock.Requested(client, now));
      if !b.lock.Grants(client, now) then Result(c, [])
      else
        var y := PyClamp(FiniteOrZero(yaw), -b.cfg.yawLimit, b.cfg.yawLimit);
        var p := PyClamp(FiniteOrZero(pitch), b.cfg.pitchMin, b.cfg.pitchMax);
        Result(c.(gizmo := (y, p)), [Gizmo(y, p)])
  }

  function Apply(b: Bridge, op: Op): Result {
    match op
    case OnRange(side, range, now) => Result(AfterRange(b, side, range, now), [])
    case OnEStop(engaged, now) => Result(AfterEStopMessage(b, engaged, now), [])
    case DriveTimer(now) => AfterDriveTimer(b, now)
    case EStopTimer(now) => if b.estop then PublishEStop(b, now) else Result(b, [])
    case EStopStartup(now) => if !b.estopKnown then PublishEStop(b, now) else Result(b, [])
    case MayControl(client, now) => Result(b.(lock := b.lock.Asked(now)), [])
    case Drive(client, linearAxis, angularAxis, speed, now) =>
      Result(AfterDrive(b, client, linearAxis, angularAxis, speed, now), [])
    case Release(client, disconnected, now) => AfterRelease(b, client, disconnected, now)
    case SetEStop(engaged, now) => AfterSetEStop(b, engaged, now)
    case AimGizmo(client, yaw, pitch, now) => AfterAim(b, client, yaw, pitch, now)
    case SetMode(drive) =>
      if drive then Result(b.(driveMode := true, gizmo := (0.0, 0.0)), [Gizmo(0.0, 0.0)])
      else Result(b.(driveMode := false), [])
  }

  /** The bridge as __init__ leaves it, before a start with the e-stop engaged announces it. */
  function Fresh0(cfg: Config, startEStopped: bool): Bridge {
    Bridge(cfg, NewLock(cfg.driverTimeout), None, None, None, startEStopped, [], false, true,
           (0.0, 0.0), Ranged(Stale, None), Ranged(Stale, None))
  }

  function Initial(cfg: Config, startEStopped: bool, now: real): Result {
    var b := Fresh0(cfg, startEStopped);
    if startEStopped then PublishEStop(b, now) else Result(b, [])
  }
}
