/** Who drives the robot, and when: the safety of the drive bridge over every interleaving of
    clients, timers and e-stop messages.
 */
module DriveSafety {
  import opened Numbers
  import opened DriverLock
  import opened ObstacleGuard
  import opened BridgeSpec

  datatype Run = Run(states: seq<Bridge>, ops: seq<Op>, outs: seq<seq<Message>>)

  /** A bridge that has just been created. */
  ghost predicate Started(b: Bridge) {
    && b.cfg.turboSpeed >= 1.0
    && exists e, now :: b == BridgeSpec.Initial(b.cfg, e, now).bridge
  }

  ghost predicate StepAt(r: Run, i: int)
    requires |r.states| == |r.ops| + 1 == |r.outs| + 1 && 0 <= i < |r.ops|
  {
    Apply(r.states[i], r.ops[i]) == Result(r.states[i + 1], r.outs[i])
  }

  ghost predicate IsRun(r: Run) {
    && |r.states| == |r.ops| + 1 == |r.outs| + 1
    && Started(r.states[0])
    && forall i :: 0 <= i < |r.ops| ==> StepAt(r, i)
  }

  // The inductive invariant ---------------------------------------------------------

  ghost predicate Bounded(cfg: Config, linear: real, angular: real) {
    && Abs(linear) <= Turbo(cfg, cfg.maxLinear)
    && Abs(angular) <= Turbo(cfg, cfg.maxAngular)
  }

  function Turbo(cfg: Config, limit: real): real {
    cfg.turboSpeed * Abs(limit)
  }

  ghost predicate Inv(b: Bridge) {
    && b.cfg.turboSpeed >= 1.0 && b.lock.timeout == b.cfg.driverTimeout
    && (b.estop ==> b.command.None? && b.published.None?)
    && (b.command.Some? ==> Bounded(b.cfg, b.command.value.linear, b.command.value.angular))
    && (b.published.Some? ==> Bounded(b.cfg, b.published.value.0, b.published.value.1))
  }

  lemma ProductBound(x: real, s: real, limit: real, most: real)
    requires -1.0 <= x <= 1.0 && 0.0 <= s <= most
    ensures Abs(x * s * limit) <= most * Abs(limit)
  {
    AbsOfProduct(x, s);
    AbsOfProduct(x * s, limit);
    TimesMonotone(1.0, Abs(x), s, s);
    TimesMonotone(most, Abs(x * s), Abs(limit), Abs(limit));
  }

  lemma AbsOfProduct(x: real, y: real)
    ensures Abs(x * y) == Abs(x) * Abs(y)
  {
  }

  /** No client input, however malformed or large, exceeds the turbo factor times the limits. */
  lemma ScaledWithinLimits(cfg: Config, linearAxis: Number, angularAxis: Number, speed: Number, now: real)
    requires cfg.turboSpeed >= 1.0
    ensures var c := ScaledCommand(cfg, linearAxis, angularAxis, speed, now);
            Bounded(cfg, c.linear, c.angular)
  {
    hide AxisSpeed;
    hide Turbo;
    var s := PyClamp(FiniteOrZero(speed), 0.0, Max(cfg.turboSpeed, 0.0));
    AxisBound(linearAxis, s, cfg.maxLinear, cfg);
    AxisBound(angularAxis, s, cfg.maxAngular, cfg);
  }

  lemma AxisBound(axis: Number, factor: real, limit: real, cfg: Config)
    requires 0.0 <= factor <= cfg.turboSpeed
    ensures Abs(AxisSpeed(axis, factor, limit)) <= Turbo(cfg, limit)
  {
    ProductBound(PyClamp(FiniteOrZero(axis), -1.0, 1.0), factor, limit, cfg.turboSpeed);
  }

  lemma StandstillWithinLimits(cfg: Config)
    requires cfg.turboSpeed >= 1.0
    ensures Bounded(cfg, 0.0, 0.0)
  {
    ProductBound(0.0, 0.0, cfg.maxLinear, cfg.turboSpeed);
    ProductBound(0.0, 0.0, cfg.maxAngular, cfg.turboSpeed);
  }

  /** The result of an operation keeps the invariant, and its twists respect the limits. */
  ghost predicate KeepsSafe(b: Bridge, r: Result) {
    && Inv(r.bridge) && r.bridge.cfg == b.cfg
    && forall m :: m in r.sent && m.Twist? ==> Bounded(b.cfg, m.linear, m.angular)
  }

  lemma ApplyKeepsInv(b: Bridge, op: Op)
    requires Inv(b)
    ensures KeepsSafe(b, Apply(b, op))
  {
    hide AfterDriveTimer;
    hide AfterDrive;
    hide AfterRelease;
    hide AfterEStopMessage;
    hide AfterSetEStop;
    hide PyClamp;
    hide Bounded;
    match op
    case Drive(client, linearAxis, angularAxis, speed, now) =>
      DriveKeepsInv(b, client, linearAxis, angularAxis, speed, now);
    case DriveTimer(now) =>
      TimerKeepsInv(b, now);
    case OnEStop(engaged, now) =>
      EStopsKeepInv(b, engaged, now);
    case SetEStop(engaged, now) =>
      EStopsKeepInv(b, engaged, now);
    case Release(client, disconnected, now) =>
      ReleaseKeepsInv(b, client, disconnected, now);
    case _ =>
  }

  lemma DriveKeepsInv(b: Bridge, client: Client, linearAxis: Number, angularAxis: Number,
                      speed: Number, now: real)
    requires Inv(b)
    ensures KeepsSafe(b, Result(AfterDrive(b, client, linearAxis, angularAxis, speed, now), []))
  {
    ScaledWithinLimits(b.cfg, linearAxis, angularAxis, speed, now);
    hide Bounded;
    hide ScaledCommand;
  }

  lemma EStopsKeepInv(b: Bridge, engaged: bool, now: real)
    requires Inv(b)
    ensures KeepsSafe(b, Result(AfterEStopMessage(b, engaged, now), []))
    ensures KeepsSafe(b, AfterSetEStop(b, engaged, now))
  {
    StandstillWithinLimits(b.cfg);
    hide Bounded;
    hide E.AfterReceipt;
    hide E.IsEcho;
  }

  lemma ReleaseKeepsInv(b: Bridge, client: Client, disconnected: bool, now: real)
    requires Inv(b)
    ensures KeepsSafe(b, AfterRelease(b, client, disconnected, now))
  {
    StandstillWithinLimits(b.cfg);
    hide Bounded;
  }

  lemma TimerKeepsInv(b: Bridge, now: real)
    requires Inv(b)
    ensures KeepsSafe(b, AfterDriveTimer(b, now))
  {
    var c := Expired(b, now);
    StandstillWithinLimits(b.cfg);
    hide Turbo;
    hide EffectiveStop;
    if c.command.Some? {
      GuardMeaning(c.command.value.linear, FreshRanges(c, now),
                   EffectiveStop(c.cfg, c.command.value.linear), c.cfg.requireUltrasonic);
      hide GuardCommand;
    }
  }

  lemma {:induction false} RunKeepsInv(r: Run, k: nat)
    requires IsRun(r) && k <= |r.ops|
    ensures Inv(r.states[k]) && r.states[k].cfg == r.states[0].cfg
  {
    if k == 0 {
      var e, now :| r.states[0] == BridgeSpec.Initial(r.states[0].cfg, e, now).bridge;
    } else {
      RunKeepsInv(r, k - 1);
      assert StepAt(r, k - 1);
      ApplyKeepsInv(r.states[k - 1], r.ops[k - 1]);
    }
  }

  /** Every twist ever published respects the speed limits times the turbo factor. */
  lemma TwistsRespectLimits(r: Run, k: nat, m: Message)
    requires IsRun(r) && k < |r.ops| && m in r.outs[k] && m.Twist?
    ensures Bounded(r.states[0].cfg, m.linear, m.angular)
  {
    RunKeepsInv(r, k);
    assert StepAt(r, k);
    ApplyKeepsInv(r.states[k], r.ops[k]);
  }

  // Where commands come from ----------------------------------------------------------

  /** Step i is a drive request that was granted. */
  ghost predicate AcceptedDrive(r: Run, i: int)
    requires IsRun(r) && 0 <= i < |r.ops|
  {
    r.ops[i].Drive? && !r.states[i].estop && r.states[i].lock.Grants(r.ops[i].client, r.ops[i].now)
  }

  ghost function CommandOf(r: Run, i: int): Command
    requires IsRun(r) && 0 <= i < |r.ops| && r.ops[i].Drive?
  {
    ScaledCommand(r.states[0].cfg, r.ops[i].linearAxis, r.ops[i].angularAxis, r.ops[i].speed, r.ops[i].now)
  }

  /** The command of step i is in force, and the e-stop released, from there up to state k. */
  ghost predicate InForce(r: Run, i: int, k: int)
    requires IsRun(r) && 0 <= i < k <= |r.ops| && r.ops[i].Drive?
  {
    forall j :: i < j <= k ==> r.states[j].command == Some(CommandOf(r, i)) && !r.states[j].estop
  }

  /** What an operation makes of the command. */
  lemma CommandAfter(b: Bridge, op: Op)
    ensures var c := Apply(b, op).bridge;
            c.command.Some? ==>
              if op.Drive? && !b.estop && b.lock.Grants(op.client, op.now)
              then c.command == Some(ScaledCommand(b.cfg, op.linearAxis, op.angularAxis, op.speed, op.now))
              else c.command == b.command
  {
    hide ScaledCommand;
    hide GuardCommand;
    hide PyClamp;
    hide FreshRanges;
    hide EffectiveStop;
  }

  /** A step either grants a drive request or keeps or drops the command. */
  lemma CommandsChangeByDriving(r: Run, k: nat)
    requires IsRun(r) && k < |r.ops| && r.states[k + 1].command.Some?
    ensures !r.states[k + 1].estop
    ensures if AcceptedDrive(r, k) then r.states[k + 1].command == Some(CommandOf(r, k))
            else r.states[k].command == r.states[k + 1].command
  {
    hide ScaledCommand;
    hide Apply;
    hide Bounded;
    RunKeepsInv(r, k);
    RunKeepsInv(r, k + 1);
    assert StepAt(r, k);
    CommandAfter(r.states[k], r.ops[k]);
  }

  lemma {:induction false} CommandSource(r: Run, k: nat) returns (i: nat)
    requires IsRun(r) && k <= |r.ops| && r.states[k].command.Some?
    ensures i < k && AcceptedDrive(r, i) && InForce(r, i, k)
    decreases k
  {
    if k == 0 {
      var e, now :| r.states[0] == BridgeSpec.Initial(r.states[0].cfg, e, now).bridge;
      assert false;
    } else {
      CommandsChangeByDriving(r, k - 1);
      if AcceptedDrive(r, k - 1) {
        i := k - 1;
      } else {
        i := CommandSource(r, k - 1);
      }
    }
  }

  // The driver still holds the lock ---------------------------------------------------

  predicate Timed(op: Op) {
    !op.SetMode?
  }

  /** The web server makes its calls one after the other on the asyncio thread; everything else
      runs on the executor thread of the node. */
  predicate OnWebThread(op: Op) {
    op.MayControl? || op.Drive? || op.Release? || op.SetEStop? || op.AimGizmo? || op.SetMode?
  }

  /** It reads the clock before it takes the lock; the others do so while they hold it. */
  predicate ReadsEarly(op: Op) {
    op.Drive? || op.AimGizmo? || op.DriveTimer?
  }

  /** How far the clock reading of an operation can be behind that of an earlier one: not at all
      on one thread or under the lock, and else by the wait for the lock. */
  function Slack(earlier: Op, later: Op, skew: real): real {
    if ReadsEarly(later) && OnWebThread(earlier) != OnWebThread(later) then skew else 0.0
  }

  /** Operations in the order in which they held the lock, none of which waited for it longer
      than `skew`. */
  ghost predicate WithinSkew(r: Run, skew: real) {
    forall a, b :: 0 <= a < b < |r.ops| && Timed(r.ops[a]) && Timed(r.ops[b]) ==>
      r.ops[b].now >= r.ops[a].now - Slack(r.ops[a], r.ops[b], skew)
  }

  function LockAfter(b: Bridge, op: Op): Lock {
    match op
    case MayControl(_, now) => b.lock.Asked(now)
    case Drive(client, _, _, _, now) => if b.estop then b.lock else b.lock.Requested(client, now)
    case AimGizmo(client, _, _, now) =>
      if !b.driveMode || b.estop then b.lock else b.lock.Requested(client, now)
    case Release(client, disconnected, now) =>
      var asked := b.lock.Asked(now);
      if disconnected && asked.driver == Some(client) then asked.Released(client) else asked
    case _ => b.lock
  }

  lemma LockAfterApply(b: Bridge, op: Op)
    ensures Apply(b, op).bridge.lock == LockAfter(b, op)
  {
    hide ScaledCommand;
    hide GuardCommand;
    hide PyClamp;
    hide FreshRanges;
    hide EffectiveStop;
  }

  lemma LockStep(b: Bridge, op: Op, client: Client, from: real, until: real)
    requires b.lock.driver == Some(client) && b.lock.lastCommand.Some? && b.lock.lastCommand.value >= from
    requires until - from <= b.lock.timeout
    requires Timed(op) && OnWebThread(op) ==> from <= op.now < until
    requires op.Release? ==> op.client != client
    ensures var c := Apply(b, op).bridge;
            c.lock.driver == Some(client) && c.lock.lastCommand.Some? && c.lock.lastCommand.value >= from
  {
    hide Apply;
    LockAfterApply(b, op);
  }

  /** A release by the driver drops the command. */
  lemma NotReleasedByItsClient(b: Bridge, op: Op, client: Client)
    requires op.Release? && b.lock.Holder(op.now) == Some(client)
    requires Apply(b, op).bridge.command.Some?
    ensures op.client != client
  {
  }

  /** Only web calls touch the driver lock, and these are in order; so the one reading that can
      be late is that of step k. */
  lemma {:induction false} DriverKeepsLock(r: Run, i: nat, j: nat, k: nat, skew: real)
    requires IsRun(r) && WithinSkew(r, skew) && skew >= 0.0
    requires i < j <= k < |r.ops| && AcceptedDrive(r, i) && InForce(r, i, k)
    requires Timed(r.ops[k]) && r.ops[k].now - r.ops[i].now < r.states[0].cfg.commandTimeout
    requires r.states[0].cfg.commandTimeout + skew <= r.states[0].cfg.driverTimeout
    ensures r.states[j].lock.driver == Some(r.ops[i].client)
    ensures r.states[j].lock.lastCommand.Some?
    ensures r.states[j].lock.lastCommand.value >= r.ops[i].now
    decreases j
  {
    if j == i + 1 {
      assert StepAt(r, i);
    } else {
      DriverKeepsLock(r, i, j - 1, k, skew);
      RunKeepsInv(r, j - 1);
      assert StepAt(r, j - 1);
      var op, client := r.ops[j - 1], r.ops[i].client;
      if op.Release? {
        NotReleasedByItsClient(r.states[j - 1], op, client);
      }
      LockStep(r.states[j - 1], op, client, r.ops[i].now,
               r.ops[i].now + r.states[0].cfg.commandTimeout + skew);
    }
  }

  /** A nonzero twist m of step k has a live driver: some accepted drive request i, younger
      than the command timeout, whose client holds the lock now, and since which no other
      command was accepted and the e-stop was never engaged. */
  ghost predicate HasLiveDriver(r: Run, k: int, m: Message, i: int)
    requires IsRun(r) && 0 <= k < |r.ops|
  {
    && r.ops[k].DriveTimer? && m.Twist?
    && 0 <= i < k && AcceptedDrive(r, i) && InForce(r, i, k)
    && r.ops[k].now - r.ops[i].now < r.states[0].cfg.commandTimeout
    && m.angular == CommandOf(r, i).angular
    && (m.linear == CommandOf(r, i).linear || m.linear == Min(CommandOf(r, i).linear, 0.0))
    && r.states[k].lock.Holder(r.ops[k].now) == Some(r.ops[i].client)
  }

  ghost predicate NonzeroTwist(r: Run, k: int, m: Message) {
    IsRun(r) && 0 <= k < |r.ops| && m in r.outs[k] && m.Twist? && m != Twist(0.0, 0.0)
  }

  lemma NonzeroTwistsComeFromTheTimer(b: Bridge, op: Op, m: Message)
    requires m in Apply(b, op).sent && m.Twist? && m != Twist(0.0, 0.0)
    ensures op.DriveTimer? && b.command.Some? && op.now - b.command.value.at < b.cfg.commandTimeout
    ensures m.angular == b.command.value.angular
    ensures m.linear == b.command.value.linear || m.linear == Min(b.command.value.linear, 0.0)
  {
    hide ScaledCommand;
    hide BrakingDistance;
    if op.DriveTimer? && Expired(b, op.now).command.Some? {
      var linear := b.command.value.linear;
      GuardMeaning(linear, FreshRanges(b, op.now), EffectiveStop(b.cfg, linear), b.cfg.requireUltrasonic);
    }
  }

  /** The dead-man and the driver lock, over every interleaving. */
  lemma NonzeroTwistHasLiveDriver(r: Run, k: nat, m: Message, skew: real) returns (i: nat)
    requires IsRun(r) && WithinSkew(r, skew) && skew >= 0.0
    requires r.states[0].cfg.commandTimeout + skew <= r.states[0].cfg.driverTimeout
    requires NonzeroTwist(r, k, m)
    ensures HasLiveDriver(r, k, m, i)
  {
    RunKeepsInv(r, k);
    assert StepAt(r, k);
    NonzeroTwistsComeFromTheTimer(r.states[k], r.ops[k], m);
    i := CommandSource(r, k);
    DriverKeepsLock(r, i, k, k, skew);
  }

  // How much skew is harmless ---------------------------------------------------------

  /** A client drives; the timer reads the clock and waits for the lock; another client takes
      over meanwhile; and the timer publishes the first client's command. */
  function OvertakenOps(cfg: Config, skew: real): seq<Op> {
    var zero, one := Finite(0.0), Finite(1.0);
    [Drive("a", zero, one, one, 0.0), AimGizmo("b", zero, zero, cfg.driverTimeout),
     DriveTimer(cfg.driverTimeout - skew)]
  }

  function Overtaken(cfg: Config, skew: real): Run {
    var ops := OvertakenOps(cfg, skew);
    var r1 := Apply(Fresh0(cfg, false), ops[0]);
    var r2 := Apply(r1.bridge, ops[1]);
    var r3 := Apply(r2.bridge, ops[2]);
    Run([Fresh0(cfg, false), r1.bridge, r2.bridge, r3.bridge], ops, [r1.sent, r2.sent, r3.sent])
  }

  lemma OvertakenIsARun(cfg: Config, skew: real)
    requires cfg.turboSpeed >= 1.0
    ensures var r := Overtaken(cfg, skew); IsRun(r) && r.states[0].cfg == cfg && |r.ops| == 3
  {
    hide Apply;
    var r := Overtaken(cfg, skew);
    assert r.states[0] == BridgeSpec.Initial(cfg, false, 0.0).bridge;
    forall i | 0 <= i < 3 ensures StepAt(r, i) {
    }
  }

  /** The lock's side of the story: "a" gets it, and "b" once "a" has been silent long enough. */
  lemma OvertakenLocks(cfg: Config, skew: real)
    requires cfg.turboSpeed >= 1.0 && 0.0 <= cfg.driverTimeout
    ensures var r := Overtaken(cfg, skew);
            && r.states[1].command == r.states[2].command == Some(FullTurn(cfg))
            && r.states[0].lock.Grants("a", 0.0)
            && r.states[1].lock == Lock(cfg.driverTimeout, Some("a"), Some(0.0))
            && r.states[2].lock == Lock(cfg.driverTimeout, Some("b"), Some(cfg.driverTimeout))
            && r.states[2].cfg == cfg
  {
    hide PyClamp;
    hide ScaledCommand;
    hide AfterDriveTimer;
    hide AfterSetEStop;
    hide AfterRelease;
    hide AfterEStopMessage;
  }

  lemma OvertakenTurns(cfg: Config, skew: real)
    requires cfg.turboSpeed >= 1.0 && 0.0 <= cfg.driverTimeout < cfg.commandTimeout + skew
    ensures Overtaken(cfg, skew).outs[2] == [Twist(0.0, cfg.maxAngular)]
  {
    OvertakenLocks(cfg, skew);
    var r := Overtaken(cfg, skew);
    FullTurnIs(cfg);
    var b, now := r.states[2], cfg.driverTimeout - skew;
    assert r.outs[2] == AfterDriveTimer(b, now).sent;
    hide Overtaken;
    hide FullTurn;
    hide BrakingDistance;
    assert Expired(b, now) == b;
    GuardMeaning(0.0, FreshRanges(b, now), EffectiveStop(cfg, 0.0), cfg.requireUltrasonic);
  }

  /** Full turn, no forward motion. */
  function FullTurn(cfg: Config): Command {
    ScaledCommand(cfg, Finite(0.0), Finite(1.0), Finite(1.0), 0.0)
  }

  lemma FullTurnIs(cfg: Config)
    requires cfg.turboSpeed >= 1.0
    ensures FullTurn(cfg) == Command(0.0, cfg.maxAngular, 0.0)
  {
  }

  lemma OvertakenHasNoLiveDriver(cfg: Config, skew: real, m: Message, i: int)
    requires cfg.turboSpeed >= 1.0 && 0.0 <= cfg.driverTimeout
    requires IsRun(Overtaken(cfg, skew))
    ensures !HasLiveDriver(Overtaken(cfg, skew), 2, m, i)
  {
    OvertakenLocks(cfg, skew);
    hide Apply;
  }

  /** Reading the clock before taking the lock is harmless exactly when the command timeout
      plus the longest wait for the lock is within the driver timeout. */
  lemma SkewBoundIsExact(cfg: Config, skew: real)
    requires cfg.turboSpeed >= 1.0 && cfg.maxAngular != 0.0
    requires cfg.commandTimeout > 0.0 && cfg.driverTimeout >= 0.0 && skew >= 0.0
    ensures cfg.commandTimeout + skew <= cfg.driverTimeout <==>
            forall r, k, m ::
              NonzeroTwist(r, k, m) && r.states[0].cfg == cfg && WithinSkew(r, skew) ==>
              exists i :: HasLiveDriver(r, k, m, i)
  {
    if cfg.commandTimeout + skew <= cfg.driverTimeout {
      forall r, k, m | NonzeroTwist(r, k, m) && r.states[0].cfg == cfg && WithinSkew(r, skew)
        ensures exists i :: HasLiveDriver(r, k, m, i)
      {
        var i := NonzeroTwistHasLiveDriver(r, k, m, skew);
      }
    } else {
      var r := Overtaken(cfg, skew);
      OvertakenIsARun(cfg, skew);
      OvertakenTurns(cfg, skew);
      var m := Twist(0.0, cfg.maxAngular);
      hide Apply;
      assert WithinSkew(r, skew);
      forall i: int ensures !HasLiveDriver(r, 2, m, i) {
        OvertakenHasNoLiveDriver(cfg, skew, m, i);
      }
      assert NonzeroTwist(r, 2, m);
    }
  }

  // Silence -----------------------------------------------------------------------------

  lemma StaysSilent(b: Bridge, op: Op)
    requires b.command.None? && b.published.None?
    requires !(op.Drive? && !b.estop && b.lock.Grants(op.client, op.now))
    ensures var r := Apply(b, op);
            && r.bridge.command.None? && r.bridge.published.None?
            && (forall m :: m in r.sent && m.Twist? ==> m == Twist(0.0, 0.0))
            && (op.DriveTimer? ==> r.sent == [])
  {
    CommandAfter(b, op);
    forall m | m in Apply(b, op).sent && m.Twist? ensures m == Twist(0.0, 0.0) {
      if m != Twist(0.0, 0.0) {
        NonzeroTwistsComeFromTheTimer(b, op, m);
      }
    }
    hide ScaledCommand;
    hide PyClamp;
  }

  /** Without a command and without anything published, only a new accepted drive request can
      make the bridge send anything but a zero twist: releasing the e-stop, in particular,
      resumes nothing. */
  lemma {:induction false} NothingResumes(r: Run, k: nat, n: nat)
    requires IsRun(r) && k <= n <= |r.ops|
    requires r.states[k].command.None? && r.states[k].published.None?
    requires forall j :: k <= j < n ==> !AcceptedDrive(r, j)
    ensures r.states[n].command.None? && r.states[n].published.None?
    ensures forall j, m :: k <= j < n && m in r.outs[j] && m.Twist? ==> m == Twist(0.0, 0.0)
    ensures forall j :: k <= j < n && r.ops[j].DriveTimer? ==> r.outs[j] == []
    decreases n
  {
    if k < n {
      NothingResumes(r, k, n - 1);
      assert StepAt(r, n - 1);
      assert !AcceptedDrive(r, n - 1);
      StaysSilent(r.states[n - 1], r.ops[n - 1]);
    }
  }

  /** An engaged e-stop leaves the bridge in that silent state. */
  lemma EStopSilences(r: Run, k: nat, n: nat)
    requires IsRun(r) && k <= n <= |r.ops| && r.states[k].estop
    requires forall j :: k <= j < n ==> !AcceptedDrive(r, j)
    ensures forall j, m :: k <= j < n && m in r.outs[j] && m.Twist? ==> m == Twist(0.0, 0.0)
    ensures forall j :: k <= j < n && r.ops[j].DriveTimer? ==> r.outs[j] == []
  {
    RunKeepsInv(r, k);
    NothingResumes(r, k, n);
  }

  // Obstacles ---------------------------------------------------------------------------

  ghost function RangedAt(b: Bridge, side: Side): Ranged {
    match side
    case Left => b.left
    case Right => b.right
  }

  /** The latest range of a side came with the last range message of that side. */
  lemma {:induction false} RangeSource(r: Run, k: nat, side: Side) returns (p: nat)
    requires IsRun(r) && k <= |r.ops| && RangedAt(r.states[k], side).at.Some?
    ensures p < k && r.ops[p].OnRange? && r.ops[p].side == side
    ensures forall j :: p < j < k ==> !(r.ops[j].OnRange? && r.ops[j].side == side)
    ensures RangedAt(r.states[k], side).at == Some(r.ops[p].now)
    ensures RangedAt(r.states[k], side).reading ==
            match r.ops[p].range
            case NaN => Faulty
            case PositiveInfinity => NoEcho
            case NegativeInfinity => Metres(0.0)
            case Value(m) => Metres(m)
    decreases k
  {
    if k == 0 {
      var e, now :| r.states[0] == BridgeSpec.Initial(r.states[0].cfg, e, now).bridge;
      assert false;
    } else {
      assert StepAt(r, k - 1);
      RangesChangeByRanging(r.states[k - 1], r.ops[k - 1], side);
      if r.ops[k - 1].OnRange? && r.ops[k - 1].side == side {
        p := k - 1;
      } else {
        p := RangeSource(r, k - 1, side);
      }
    }
  }

  lemma RangesChangeByRanging(b: Bridge, op: Op, side: Side)
    ensures RangedAt(Apply(b, op).bridge, side) ==
            if op.OnRange? && op.side == side then Ranged(ReadingOf(op.range), Some(op.now))
            else RangedAt(b, side)
  {
    hide ScaledCommand;
    hide GuardCommand;
    hide BrakingDistance;
  }

  /** With the guard on and data required, a forward twist means that every side's last range
      message is younger than the sensor timeout, is not a fault, and is at least the stop
      distance plus the braking distance away, capped at 0.3 m. */
  lemma ForwardTwistIsClear(r: Run, k: nat, m: Message, side: Side) returns (p: nat)
    requires IsRun(r) && k < |r.ops| && m in r.outs[k] && m.Twist? && m.linear > 0.0
    requires r.states[0].cfg.stopDistance > 0.0 && r.states[0].cfg.requireUltrasonic
    ensures p < k && r.ops[k].DriveTimer? && r.ops[p].OnRange? && r.ops[p].side == side
    ensures forall j :: p < j < k ==> !(r.ops[j].OnRange? && r.ops[j].side == side)
    ensures r.ops[k].now - r.ops[p].now < r.states[0].cfg.sensorTimeout
    ensures var cfg := r.states[0].cfg;
            var far := Min(cfg.stopDistance + BrakingDistance(m.linear, cfg.reactionTime, cfg.deceleration), 0.3);
            r.ops[p].range == PositiveInfinity || (r.ops[p].range.Value? && r.ops[p].range.m >= far)
  {
    RunKeepsInv(r, k);
    assert StepAt(r, k);
    var b, now := r.states[k], r.ops[k].now;
    NonzeroTwistsComeFromTheTimer(b, r.ops[k], m);
    var linear := b.command.value.linear;
    assert linear == m.linear;
    BrakingIsNonnegative(linear, b.cfg.reactionTime, b.cfg.deceleration);
    GuardMeaning(linear, FreshRanges(b, now), EffectiveStop(b.cfg, linear), true);
    var reading := FreshRanges(b, now).At(side);
    assert !reading.Missing() && !reading.Below(EffectiveStop(b.cfg, linear));
    p := RangeSource(r, k, side);
  }

  lemma BrakingIsNonnegative(v: real, reactionTime: real, deceleration: real)
    ensures BrakingDistance(v, reactionTime, deceleration) >= 0.0
  {
    if v > 0.0 {
      assert v * Max(reactionTime, 0.0) >= 0.0;
      if deceleration > 0.0 {
        BrakingIsPositive(v, deceleration);
      }
    }
  }
}
