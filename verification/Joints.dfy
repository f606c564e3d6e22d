/** One joint of the motor safety plugin and the per-joint rules of every callback.

    Times are integer nanoseconds of the steady clock. Durations named `...Ms` are the whole
    milliseconds the plugin's parameters hold.
 */
module Joints {
  import opened Numbers

  const NS_PER_MS := 1_000_000
  // The double literal behind M_PI
  const PI := 3.141592653589793
  const DEG_PER_COUNT := 0.1
  const RAD_PER_COUNT := DEG_PER_COUNT * PI / 180.0
  const ZERO_TOLERANCE_DEG := 1.0
  const MAX_SLEW_PERIOD := 0.05

  datatype Interface = Position | Velocity | Effort

  datatype Limits = Limits(low: real, high: real)

  /** What on_init reads from the robot description; never changed afterwards. */
  datatype JointConfig = JointConfig(
    name: string,
    canId: nat,
    direction: real,
    encOff: real,
    kt: real,
    gearRatio: real,
    zeroOnActivate: bool,
    positionCommanded: bool,
    limits: Option<Limits>,
    maxVelocity: real,
    stallEffort: real,
    stallTimeMs: nat)
  {
    /** The checks of parse_joint and position_command_limits. */
    ghost predicate Valid() {
      && (direction == 1.0 || direction == -1.0)
      && gearRatio > 0.0
      && stallEffort >= 0.0
      && (positionCommanded ==>
            && maxVelocity > 0.0
            && (limits.Some? ==> limits.value.low <= limits.value.high))
    }
  }

  /** The mutable part of the plugin's Joint record. */
  datatype Joint = Joint(
    cfg: JointConfig,
    positionClaimed: bool,
    target: Option<real>,
    releasing: bool,
    releaseAt: int,
    overEffort: bool,
    overEffortSince: int,
    hasStatus: bool,
    lastStatus: int,
    rawPosition: int,
    rawCurrent: int,
    temperature: int,
    fault: int,
    commandPosition: Option<real>,
    commandVelocity: Option<real>,
    commandEffort: Option<real>)

  /** Frames on the bus. Motion frames are the upstream plugin's; their value is the base
      command, in the motor's own sign. */
  datatype Frame =
    | ZeroSpeed(canId: nat)
    | Release(canId: nat)
    | SetOrigin(canId: nat)
    | Motion(canId: nat, interface: Interface, value: real)

  type Payload = d: seq<Byte> | |d| == 8 witness [0, 0, 0, 0, 0, 0, 0, 0]

  /** A frame received on the status socket. `complete` is false for a short read. */
  datatype Received = Received(id: nat, complete: bool, dlc: nat, data: Payload)

  // Units ---------------------------------------------------------------------------

  function JointAngle(raw: int, direction: real, encOff: real): real {
    direction * (raw as real * RAD_PER_COUNT - encOff)
  }

  /** Measured position in the joint frame; NaN before the first status frame. */
  function Measured(j: Joint): Option<real> {
    if !j.hasStatus then None
    else Some(JointAngle(j.rawPosition, j.cfg.direction, j.cfg.encOff))
  }

  function Torque(raw: int, kt: real, gearRatio: real): real {
    raw as real * 0.01 * kt * gearRatio
  }

  function EffortMagnitude(j: Joint): real {
    Abs(Torque(j.rawCurrent, j.cfg.kt, j.cfg.gearRatio))
  }

  /** duration_cast<milliseconds>. */
  function Millis(ns: int): int {
    Quotient(ns, NS_PER_MS)
  }

  function Int16(high: Byte, low: Byte): int {
    var raw := high * 256 + low;
    if raw >= 0x8000 then raw - 0x1_0000 else raw
  }

  function Int8(raw: Byte): int {
    if raw >= 0x80 then raw - 0x100 else raw
  }

  // Status frames -------------------------------------------------------------------

  predicate IsFrom(f: Received, canId: nat) {
    f.complete && f.dlc >= 8 && f.id % 256 == canId
  }

  /** The usable frames of a batch that come from one motor, in order. */
  function From(batch: seq<Received>, canId: nat): seq<Received> {
    if batch == [] then []
    else
      var rest := From(batch[..|batch| - 1], canId);
      var f := batch[|batch| - 1];
      if IsFrom(f, canId) then rest + [f] else rest
  }

  /** The last nonzero fault code of some frames, or 0 if every code is 0. */
  function LastNonzeroFault(frames: seq<Received>): int
  {
    if frames == [] then 0
    else
      var f := frames[|frames| - 1];
      if f.data[7] != 0 then f.data[7] else LastNonzeroFault(frames[..|frames| - 1])
  }

  /** A joint after a whole batch drained at `now`: the newest frame of its motor wins, but
      a fault anywhere in the batch is kept. */
  function Drained(j: Joint, batch: seq<Received>, now: int): Joint
  {
    var mine := From(batch, j.cfg.canId);
    if mine == [] then j
    else
      var last := mine[|mine| - 1].data;
      j.(hasStatus := true, lastStatus := now,
         rawPosition := Int16(last[0], last[1]), rawCurrent := Int16(last[4], last[5]),
         temperature := Int8(last[6]), fault := LastNonzeroFault(mine))
  }

  /** Two joints that differ in their status fields only. */
  ghost predicate SameButStatus(j: Joint, k: Joint) {
    && (j.hasStatus ==> k.hasStatus)
    && k == j.(hasStatus := k.hasStatus, lastStatus := k.lastStatus,
               rawPosition := k.rawPosition, rawCurrent := k.rawCurrent,
               temperature := k.temperature, fault := k.fault)
  }

  /** A motor that reports neither a fault nor too long a silence at `now`. */
  predicate Healthy(j: Joint, now: int, timeoutMs: nat) {
    j.fault == 0 && Millis(now - j.lastStatus) <= timeoutMs
  }

  // Stall guard ---------------------------------------------------------------------

  predicate Guarded(j: Joint) {
    j.cfg.stallEffort > 0.0 && j.hasStatus
  }

  predicate Pushing(j: Joint) {
    EffortMagnitude(j) > j.cfg.stallEffort
  }

  /** The joint that makes efforts_ok() fail. */
  predicate Stalled(j: Joint, now: int) {
    && Guarded(j) && Pushing(j) && j.overEffort
    && Millis(now - j.overEffortSince) >= j.cfg.stallTimeMs
  }

  function StallStep(j: Joint, now: int): Joint {
    if !Guarded(j) then j
    else if !Pushing(j) then j.(overEffort := false)
    else if !j.overEffort then j.(overEffort := true, overEffortSince := now)
    else j
  }

  // Writing -------------------------------------------------------------------------

  function SlewPeriod(period: real): real {
    Clamp(period, 0.0, MAX_SLEW_PERIOD)
  }

  function SlewStep(maxVelocity: real, period: real): real {
    Times(maxVelocity, SlewPeriod(period))
  }

  function Limited(wanted: real, limits: Option<Limits>): real {
    match limits
    case None => wanted
    case Some(l) => Clamp(wanted, l.low, l.high)
  }

  /** One slew step of a target toward a wanted position. */
  function Slewed(target: real, wanted: real, limits: Option<Limits>, step: real): real {
    target + Clamp(Limited(wanted, limits) - target, -step, step)
  }

  function NextTarget(j: Joint, period: real): Option<real> {
    var target := if j.target.None? then Measured(j) else j.target;
    if target.None? || j.commandPosition.None? then target
    else Some(Slewed(target.value, j.commandPosition.value, j.cfg.limits,
                     SlewStep(j.cfg.maxVelocity, period)))
  }

  /** The release frame of this cycle, if the joint is being released. */
  function ReleaseFrames(j: Joint, now: int): seq<Frame> {
    if !j.releasing then []
    else if now < j.releaseAt then [ZeroSpeed(j.cfg.canId)]
    else [Release(j.cfg.canId)]
  }

  function Written(j: Joint, period: real, now: int): Joint {
    var r := if j.releasing && now >= j.releaseAt then j.(releasing := false) else j;
    if j.cfg.positionCommanded && j.positionClaimed then r.(target := NextTarget(j, period))
    else r
  }

  function Scaled(direction: real, command: Option<real>): Option<real> {
    if command.None? then None else Some(Times(direction, command.value))
  }

  /** The command handed to the upstream plugin for one interface of a written joint. */
  function BaseCommand(j: Joint, i: Interface): Option<real> {
    match i
    case Velocity => Scaled(j.cfg.direction, j.commandVelocity)
    case Effort => Scaled(j.cfg.direction, j.commandEffort)
    case Position =>
      if j.cfg.positionCommanded && j.positionClaimed then Scaled(j.cfg.direction, j.target)
      else None
  }

  function InterfaceName(j: Joint, i: Interface): string {
    j.cfg.name +
    match i
    case Position => "/position"
    case Velocity => "/velocity"
    case Effort => "/effort"
  }

  // Contract of the upstream plugin: one frame per claimed base command that is not NaN
  function UpstreamFrame(j: Joint, i: Interface, claims: set<string>): seq<Frame> {
    if InterfaceName(j, i) in claims && BaseCommand(j, i).Some?
    then [Motion(j.cfg.canId, i, BaseCommand(j, i).value)]
    else []
  }

  function UpstreamFrames(j: Joint, claims: set<string>): seq<Frame> {
    UpstreamFrame(j, Position, claims) + UpstreamFrame(j, Velocity, claims)
    + UpstreamFrame(j, Effort, claims)
  }

  // Controller switches -------------------------------------------------------------

  /** has_prefix: some interface of the joint is among the names. */
  predicate Names(names: seq<string>, j: Joint) {
    exists k :: 0 <= k < |names| && j.cfg.name + "/" <= names[k]
  }

  function Switched(j: Joint, start: seq<string>, stop: seq<string>, active: bool,
                    now: int, brakeMs: nat): Joint {
    var stopped := Names(stop, j);
    var started := Names(start, j);
    var a := if stopped then j.(commandPosition := None, commandVelocity := None,
                                commandEffort := None, positionClaimed := false) else j;
    var b := if stopped && !started && active
             then a.(releasing := true, releaseAt := now + brakeMs * NS_PER_MS) else a;
    if !started then b
    else
      var claimed := InterfaceName(j, Position) in start;
      var c := b.(releasing := false, positionClaimed := claimed);
      if claimed then c.(target := Measured(j)) else c
  }
}
