/** What must be published: the last twist anybody heard from the web bridge, over whole runs. */
module TwistRuns {
  import opened Numbers
  import opened DriverLock
  import opened ObstacleGuard
  import opened BridgeSpec
  import opened DriveSafety

  /** The last twist among some messages, or else `before`. */
  function LastOf(sent: seq<Message>, before: Option<(real, real)>): Option<(real, real)> {
    if sent == [] then before
    else
      var m := sent[|sent| - 1];
      if m.Twist? then Some((m.linear, m.angular)) else LastOf(sent[..|sent| - 1], before)
  }

  /** The last twist of the first k steps. */
  ghost function LastTwist(r: Run, k: nat): Option<(real, real)>
    requires IsRun(r) && k <= |r.ops|
  {
    if k == 0 then None else LastOf(r.outs[k - 1], LastTwist(r, k - 1))
  }

  const ZERO := (0.0, 0.0)

  /** The last twist is zero, or there was none. */
  ghost predicate Still(r: Run, k: nat)
    requires IsRun(r) && k <= |r.ops|
  {
    LastTwist(r, k).None? || LastTwist(r, k) == Some(ZERO)
  }

  ghost predicate SendsTwist(r: Run, n: int)
    requires IsRun(r) && 0 <= n < |r.ops|
  {
    exists m :: m in r.outs[n] && m.Twist?
  }

  /** Step n applies an e-stop that another publisher engaged. */
  ghost predicate ForeignStop(r: Run, n: int)
    requires IsRun(r) && 0 <= n < |r.ops|
  {
    r.ops[n].OnEStop? && !r.states[n].estop && r.states[n + 1].estop
  }

  /** No twist was sent since another publisher engaged the e-stop: the multiplexer is locked by
      that message, so the bridge adds no zero of its own. */
  ghost predicate StoppedByOthers(r: Run, k: int)
    requires IsRun(r) && 0 <= k <= |r.ops|
  {
    exists n :: 0 <= n < k && ForeignStop(r, n) && forall h :: n < h < k ==> !SendsTwist(r, h)
  }

  lemma {:induction false} NoTwistNoChange(sent: seq<Message>, before: Option<(real, real)>)
    requires forall m :: m in sent ==> !m.Twist?
    ensures LastOf(sent, before) == before
  {
    if sent != [] {
      NoTwistNoChange(sent[..|sent| - 1], before);
    }
  }

  lemma ShortLists(linear: real, angular: real, engaged: bool, before: Option<(real, real)>)
    ensures LastOf([Twist(linear, angular)], before) == Some((linear, angular))
    ensures LastOf([Twist(linear, angular), EStop(engaged)], before) == Some((linear, angular))
  {
    var two := [Twist(linear, angular), EStop(engaged)];
    assert two[..1] == [Twist(linear, angular)];
  }

  predicate HasTwist(sent: seq<Message>) {
    exists m :: m in sent && m.Twist?
  }

  /** What one operation does to the last twist. */
  ghost predicate TwistLaw(b: Bridge, op: Op, r: Result, before: Option<(real, real)>) {
    var after := LastOf(r.sent, before);
    && (r.bridge.published.Some? ==> after == r.bridge.published)
    && (r.bridge.published.None? ==>
          || after == Some(ZERO)
          || (!HasTwist(r.sent) && after == before
              && (b.published.None? || (op.OnEStop? && !b.estop && r.bridge.estop))))
  }

  lemma TwistStep(b: Bridge, op: Op, before: Option<(real, real)>)
    requires b.published.Some? ==> before == b.published
    requires b.estop ==> b.published.None?
    ensures TwistLaw(b, op, Apply(b, op), before)
  {
    hide LastOf;
    match op
    case DriveTimer(now) => TimerTwist(b, now, before);
    case Release(client, disconnected, now) =>
      ShortLists(0.0, 0.0, true, before);
      NoTwistNoChange([], before);
    case SetEStop(engaged, now) =>
      ShortLists(0.0, 0.0, true, before);
      NoTwistNoChange([EStop(engaged)], before);
      assert [Twist(0.0, 0.0)] + [EStop(true)] == [Twist(0.0, 0.0), EStop(true)];
      assert [] + [EStop(false)] == [EStop(false)];
    case _ =>
      QuietOps(b, op);
      NoTwistNoChange(Apply(b, op).sent, before);
      hide Apply;
  }

  lemma TimerTwist(b: Bridge, now: real, before: Option<(real, real)>)
    requires b.published.Some? ==> before == b.published
    ensures TwistLaw(b, Op.DriveTimer(now), AfterDriveTimer(b, now), before)
  {
    hide LastOf;
    hide GuardCommand;
    hide FreshRanges;
    hide EffectiveStop;
    var sent := AfterDriveTimer(b, now).sent;
    if sent == [] {
      NoTwistNoChange(sent, before);
    } else {
      ShortLists(sent[0].linear, sent[0].angular, true, before);
    }
  }

  lemma QuietOps(b: Bridge, op: Op)
    requires !op.DriveTimer? && !op.Release? && !op.SetEStop?
    ensures var r := Apply(b, op);
            && (forall m :: m in r.sent ==> !m.Twist?)
            && (r.bridge.published == b.published
                || (op.OnEStop? && r.bridge.published.None? && !b.estop && r.bridge.estop)
                || (op.OnEStop? && r.bridge.published.None? && b.estop))
  {
    hide ScaledCommand;
    hide PyClamp;
    hide E.IsEcho;
    hide E.AfterReceipt;
  }

  /** The law of the last twist. While something counts as published, it is the last twist that
      was sent. When nothing does, the last twist was zero or there was none; unless another
      publisher engaged the e-stop after it. */
  lemma {:induction false} LastTwistLaw(r: Run, k: nat)
    requires IsRun(r) && k <= |r.ops|
    ensures r.states[k].published.Some? ==> LastTwist(r, k) == r.states[k].published
    ensures r.states[k].published.None? ==> Still(r, k) || StoppedByOthers(r, k)
  {
    if k == 0 {
      var e, now :| r.states[0] == BridgeSpec.Initial(r.states[0].cfg, e, now).bridge;
    } else {
      LastTwistLaw(r, k - 1);
      RunKeepsInv(r, k - 1);
      assert StepAt(r, k - 1);
      TwistStep(r.states[k - 1], r.ops[k - 1], LastTwist(r, k - 1));
      LawGrows(r, k - 1, k);
    }
  }

  lemma LawGrows(r: Run, k: nat, next: nat)
    requires IsRun(r) && k < |r.ops| && next == k + 1
    requires r.states[k].published.None? ==> Still(r, k) || StoppedByOthers(r, k)
    requires TwistLaw(r.states[k], r.ops[k], Result(r.states[next], r.outs[k]), LastTwist(r, k))
    ensures r.states[next].published.None? ==> Still(r, next) || StoppedByOthers(r, next)
  {
    assert |r.outs| == |r.ops|;
    hide IsRun;
    hide LastOf;
    assert LastTwist(r, next) == LastOf(r.outs[k], LastTwist(r, k));
    if !HasTwist(r.outs[k]) {
      assert !SendsTwist(r, k);
      if ForeignStop(r, k) {
        assert StoppedByOthers(r, next);
      } else if StoppedByOthers(r, k) {
        var n :| 0 <= n < k && ForeignStop(r, n) && forall h :: n < h < k ==> !SendsTwist(r, h);
        assert forall h :: n < h < next ==> !SendsTwist(r, h);
        assert StoppedByOthers(r, next);
      }
    }
  }

  /** The dead-man stops the robot: at a timer tick at which every accepted drive request is at
      least as old as the command timeout, the last twist is zero afterwards. */
  lemma SilentDriverStops(r: Run, k: nat)
    requires IsRun(r) && k < |r.ops| && r.ops[k].DriveTimer?
    requires forall i :: 0 <= i < k && AcceptedDrive(r, i) ==>
               r.ops[k].now - r.ops[i].now >= r.states[0].cfg.commandTimeout
    ensures Still(r, k + 1) || StoppedByOthers(r, k + 1)
    ensures r.states[k + 1].command.None?
  {
    RunKeepsInv(r, k);
    assert StepAt(r, k);
    if r.states[k].command.Some? {
      var i := CommandSource(r, k);
      assert AcceptedDrive(r, i) && r.states[k].command == Some(CommandOf(r, i));
    }
    LastTwistLaw(r, k + 1);
    hide GuardCommand;
    hide ScaleCommand;
  }

  /** Something keeps a forward command back: a side that is too close, or without data. */
  ghost predicate Blocked(b: Bridge, linear: real, now: real) {
    Room(b.cfg, linear) > 0.0
    && exists side: Side :: BlockedAt(b, side, linear, now)
  }

  /** The room a command needs: the stop distance, if the guard is on, with the braking distance
      on top, but never more than 0.3 m. */
  function Room(cfg: Config, linear: real): real {
    var room := if cfg.stopDistance > 0.0
                then cfg.stopDistance + BrakingDistance(linear, cfg.reactionTime, cfg.deceleration)
                else cfg.stopDistance;
    if room <= 0.3 then room else 0.3
  }

  ghost predicate BlockedAt(b: Bridge, side: Side, linear: real, now: real) {
    var ranged := RangedAt(b, side);
    var inTime := ranged.at.Some? && now - ranged.at.value < b.cfg.sensorTimeout;
    if inTime && ranged.reading.Metres? then ranged.reading.m < Room(b.cfg, linear)
    else b.cfg.requireUltrasonic && !(inTime && ranged.reading.NoEcho?)
  }

  /** And a young command is passed on: at a timer tick the last accepted drive request in force
      is published, whole unless an obstacle is in its way, and without its forward part then. */
  lemma YoungCommandIsPublished(r: Run, i: nat, k: nat)
    requires IsRun(r) && i < k < |r.ops| && r.ops[k].DriveTimer? && AcceptedDrive(r, i) && InForce(r, i, k)
    requires r.ops[k].now - r.ops[i].now < r.states[0].cfg.commandTimeout
    ensures var c := CommandOf(r, i);
            var blocked := Blocked(r.states[k], c.linear, r.ops[k].now);
            && r.outs[k] == [Twist(if blocked then Min(c.linear, 0.0) else c.linear, c.angular)]
            && (r.states[k + 1].guard.Some? <==> blocked && c.linear > 0.0)
  {
    RunKeepsInv(r, k);
    assert StepAt(r, k);
    var b, now, c := r.states[k], r.ops[k].now, CommandOf(r, i);
    assert b.command == Some(c) && c.at == r.ops[i].now by {
      hide ScaleCommand;
    }
    hide IsRun;
    hide CommandOf;
    assert EffectiveStop(b.cfg, c.linear) == Room(b.cfg, c.linear);
    GuardMeaning(c.linear, FreshRanges(b, now), EffectiveStop(b.cfg, c.linear), b.cfg.requireUltrasonic);
    forall side: Side
      ensures BlockedAt(b, side, c.linear, now) <==>
              var reading := FreshRanges(b, now).At(side);
              reading.Below(EffectiveStop(b.cfg, c.linear)) || (b.cfg.requireUltrasonic && reading.Missing())
    {
    }
    hide GuardCommand;
    hide EffectiveStop;
    hide Room;
    hide BlockedAt;
    hide FreshRanges;
  }

  /** Letting go: a release by the holder of the lock drops the command, and the last twist is
      zero; a disconnect frees the lock as well. Anybody else's release does nothing. */
  lemma ReleaseStops(r: Run, k: nat)
    requires IsRun(r) && k < |r.ops| && r.ops[k].Release?
    ensures var b, c, op := r.states[k], r.states[k + 1], r.ops[k];
            if b.lock.Holder(op.now) == Some(op.client)
            then && c.command.None? && c.published.None? && (Still(r, k + 1) || StoppedByOthers(r, k + 1))
                 && c.lock.Holder(op.now) == (if op.disconnected then None else Some(op.client))
            else c.command == b.command && c.published == b.published && r.outs[k] == []
  {
    assert StepAt(r, k);
    LastTwistLaw(r, k + 1);
  }

  /** An e-stop from the page sends its zero while the multiplexer still listens: before the
      message that locks it. */
  lemma EngagingStopsFirst(r: Run, k: nat)
    requires IsRun(r) && k < |r.ops| && r.ops[k].SetEStop?
    ensures r.outs[k] == if r.ops[k].engaged then [Twist(0.0, 0.0), EStop(true)] else [EStop(false)]
    ensures r.states[k + 1].estop == r.ops[k].engaged
    ensures r.ops[k].engaged ==> LastTwist(r, k + 1) == Some(ZERO)
  {
    assert StepAt(r, k);
    ShortLists(0.0, 0.0, true, LastTwist(r, k));
    assert [Twist(0.0, 0.0)] + [EStop(true)] == [Twist(0.0, 0.0), EStop(true)];
    assert [] + [EStop(false)] == [EStop(false)];
    hide LastOf;
  }

  /** Nobody but its driver and the e-stop takes a command away: it stays as it is until a drive
      request is accepted, its driver lets go, an e-stop is engaged, or the timer finds it too
      old. Requests of other clients, refused ones above all, change nothing. */
  lemma CommandsAreKept(r: Run, k: nat)
    requires IsRun(r) && k < |r.ops|
    ensures var b, c, op := r.states[k], r.states[k + 1], r.ops[k];
            || c.command == b.command
            || AcceptedDrive(r, k)
            || (op.Release? && b.lock.Holder(op.now) == Some(op.client))
            || ((op.SetEStop? || op.OnEStop?) && op.engaged && c.estop)
            || (op.DriveTimer? && c.command.None?
                && op.now - b.command.value.at >= r.states[0].cfg.commandTimeout)
  {
    RunKeepsInv(r, k);
    assert StepAt(r, k);
    hide IsRun;
    hide Apply;
    CommandStep(r.states[k], r.ops[k]);
  }

  lemma CommandStep(b: Bridge, op: Op)
    ensures var c := Apply(b, op).bridge;
            || c.command == b.command
            || (op.Drive? && !b.estop && b.lock.Grants(op.client, op.now))
            || (op.Release? && b.lock.Holder(op.now) == Some(op.client))
            || ((op.SetEStop? || op.OnEStop?) && op.engaged && c.estop)
            || (op.DriveTimer? && c.command.None? && op.now - b.command.value.at >= b.cfg.commandTimeout)
  {
    hide ScaledCommand;
    hide GuardCommand;
    hide FreshRanges;
    hide EffectiveStop;
    hide PyClamp;
    hide E.IsEcho;
    hide E.AfterReceipt;
  }

  lemma GuardStep(b: Bridge, op: Op)
    requires b.guard.Some? ==> b.command.Some?
    ensures var c := Apply(b, op).bridge; c.guard.Some? ==> c.command.Some?
  {
    hide ScaledCommand;
    hide GuardCommand;
    hide FreshRanges;
    hide EffectiveStop;
    hide PyClamp;
    hide E.IsEcho;
    hide E.AfterReceipt;
  }

  /** The guard is only reported to hold back a command that is in force. */
  lemma {:induction false} GuardNeedsCommand(r: Run, k: nat)
    requires IsRun(r) && k <= |r.ops|
    ensures r.states[k].guard.Some? ==> r.states[k].command.Some?
  {
    if k == 0 {
      var e, now :| r.states[0] == BridgeSpec.Initial(r.states[0].cfg, e, now).bridge;
    } else {
      GuardNeedsCommand(r, k - 1);
      assert StepAt(r, k - 1);
      GuardStep(r.states[k - 1], r.ops[k - 1]);
    }
  }

  // The camera ------------------------------------------------------------------------------

  /** Every aim that is sent points within the limits; and an aim within the limits that is
      accepted is sent as it is. */
  lemma AimsRespectLimits(r: Run, k: nat)
    requires IsRun(r) && k < |r.ops| && r.ops[k].AimGizmo?
    requires var cfg := r.states[0].cfg; cfg.yawLimit >= 0.0 && cfg.pitchMin <= cfg.pitchMax
    ensures var b, op, cfg := r.states[k], r.ops[k], r.states[0].cfg;
            if b.driveMode && !b.estop && b.lock.Grants(op.client, op.now)
            then && |r.outs[k]| == 1 && r.outs[k][0].Gizmo?
                 && var m := r.outs[k][0];
                    && -cfg.yawLimit <= m.yaw <= cfg.yawLimit && cfg.pitchMin <= m.pitch <= cfg.pitchMax
                    && r.states[k + 1].gizmo == (m.yaw, m.pitch)
                    && (op.yaw.Finite? && -cfg.yawLimit <= op.yaw.x <= cfg.yawLimit ==> m.yaw == op.yaw.x)
                    && (op.pitch.Finite? && cfg.pitchMin <= op.pitch.x <= cfg.pitchMax ==> m.pitch == op.pitch.x)
            else r.outs[k] == [] && r.states[k + 1].gizmo == b.gizmo
  {
    RunKeepsInv(r, k);
    assert StepAt(r, k);
  }

  // Joystick axes -----------------------------------------------------------------------------

  /** What a drive request asks for: the axes times the speed factor times the limits, where an
      axis beyond +-1 and a factor beyond the turbo factor count as these, and anything but a
      finite number as 0. */
  lemma CommandOfAxes(r: Run, i: nat)
    requires IsRun(r) && i < |r.ops| && r.ops[i].Drive?
    ensures var cfg, op, c := r.states[0].cfg, r.ops[i], CommandOf(r, i);
            var s := Within(op.speed, 0.0, cfg.turboSpeed);
            && c.linear == Within(op.linearAxis, -1.0, 1.0) * s * cfg.maxLinear
            && c.angular == Within(op.angularAxis, -1.0, 1.0) * s * cfg.maxAngular
            && c.at == op.now
  {
    var cfg, op := r.states[0].cfg, r.ops[i];
    RunKeepsInv(r, 0);
    HeldToRange(op.speed, 0.0, cfg.turboSpeed);
    var s := Within(op.speed, 0.0, cfg.turboSpeed);
    AxisMeaning(op.linearAxis, s, cfg.maxLinear);
    AxisMeaning(op.angularAxis, s, cfg.maxAngular);
    hide IsRun;
    hide AxisSpeed;
    hide PyClamp;
    hide Within;
    hide FiniteOrZero;
  }

  lemma HeldToRange(n: Number, low: real, high: real)
    requires low <= 0.0 <= high
    ensures PyClamp(FiniteOrZero(n), low, high) == Within(n, low, high)
  {
  }

  lemma AxisMeaning(axis: Number, factor: real, limit: real)
    ensures AxisSpeed(axis, factor, limit) == Within(axis, -1.0, 1.0) * factor * limit
  {
    HeldToRange(axis, -1.0, 1.0);
    hide PyClamp;
    hide Within;
  }

  /** A finite number held to a range, or 0. */
  function Within(n: Number, low: real, high: real): real {
    match n
    case Finite(x) => if x < low then low else if high < x then high else x
    case _ => 0.0
  }

  // The e-stop on the topic ---------------------------------------------------------------------

  ghost predicate Speaks(r: Run, n: int)
    requires IsRun(r) && 0 <= n < |r.ops|
  {
    EStop(true) in r.outs[n] || EStop(false) in r.outs[n]
  }

  /** Step n hears a message of another publisher. */
  ghost predicate Hears(r: Run, n: int)
    requires IsRun(r) && 0 <= n < |r.ops|
  {
    r.ops[n].OnEStop? && !E.IsEcho(r.states[n].outstanding, 1.0, r.ops[n].engaged, r.ops[n].now)
  }

  /** Something has been said about the e-stop: by __init__, if it starts engaged, or since. */
  ghost predicate Announced(r: Run, k: int)
    requires IsRun(r) && 0 <= k <= |r.ops|
  {
    r.states[0].estop || exists n :: 0 <= n < k && (Speaks(r, n) || Hears(r, n))
  }

  /** A start with the e-stop engaged is announced at once, and no other. */
  lemma StartIsAnnounced(cfg: Config, engaged: bool, now: real)
    ensures Initial(cfg, engaged, now).sent == if engaged then [EStop(true)] else []
    ensures Initial(cfg, engaged, now).bridge.estop == engaged
  {
  }

  lemma KnownStep(b: Bridge, op: Op)
    ensures var r := Apply(b, op);
            r.bridge.estopKnown <==>
              || b.estopKnown || EStop(true) in r.sent || EStop(false) in r.sent
              || (op.OnEStop? && !E.IsEcho(b.outstanding, 1.0, op.engaged, op.now))
  {
    hide ScaledCommand;
    hide GuardCommand;
    hide FreshRanges;
    hide EffectiveStop;
    hide PyClamp;
    hide E.IsEcho;
    hide E.AfterReceipt;
  }

  /** The bridge counts the e-stop as known exactly if something has been said about it, and
      takes it for released until then. */
  lemma {:induction false} KnownLaw(r: Run, k: nat)
    requires IsRun(r) && k <= |r.ops|
    ensures r.states[k].estopKnown <==> Announced(r, k)
    ensures r.states[k].estop ==> r.states[k].estopKnown
  {
    if k == 0 {
      var e, now :| r.states[0] == BridgeSpec.Initial(r.states[0].cfg, e, now).bridge;
    } else {
      KnownLaw(r, k - 1);
      assert StepAt(r, k - 1);
      KnownStep(r.states[k - 1], r.ops[k - 1]);
      EStopNeedsWord(r.states[k - 1], r.ops[k - 1]);
      hide Apply;
      if Speaks(r, k - 1) || Hears(r, k - 1) {
        assert Announced(r, k);
      }
    }
  }

  lemma EStopNeedsWord(b: Bridge, op: Op)
    requires b.estop ==> b.estopKnown
    ensures var c := Apply(b, op).bridge; c.estop ==> c.estopKnown
  {
    hide ScaledCommand;
    hide GuardCommand;
    hide PyClamp;
    hide E.IsEcho;
    hide E.AfterReceipt;
  }

  /** The heartbeat repeats an engaged e-stop and nothing else; the start-up timer says released,
      and only if nothing has been said before. */
  lemma TimersSpeak(r: Run, k: nat)
    requires IsRun(r) && k < |r.ops|
    ensures r.ops[k].EStopTimer? ==> r.outs[k] == if r.states[k].estop then [EStop(true)] else []
    ensures r.ops[k].EStopStartup? ==> r.outs[k] == if Announced(r, k) then [] else [EStop(false)]
  {
    assert StepAt(r, k);
    KnownLaw(r, k);
  }

  /** Nobody's e-stop is cancelled by accident: "released" goes out only when a client releases
      it, or from the start-up timer when nothing has been said before. */
  lemma ReleasesAreDeliberate(r: Run, k: nat)
    requires IsRun(r) && k < |r.ops| && EStop(false) in r.outs[k]
    ensures || (r.ops[k].SetEStop? && !r.ops[k].engaged)
            || (r.ops[k].EStopStartup? && !Announced(r, k))
  {
    assert StepAt(r, k);
    KnownLaw(r, k);
    hide GuardCommand;
    hide ScaledCommand;
    hide PyClamp;
  }

  // The mode ------------------------------------------------------------------------------------

  ghost predicate LastModeIs(r: Run, k: int, drive: bool)
    requires IsRun(r) && 0 <= k <= |r.ops|
  {
    exists n :: 0 <= n < k && r.ops[n] == SetMode(drive) && forall h :: n < h < k ==> !r.ops[h].SetMode?
  }

  /** The follower aims the camera exactly since the last mode set, if that was not driving. */
  lemma {:induction false} ModeIsLastSet(r: Run, k: nat)
    requires IsRun(r) && k <= |r.ops|
    ensures !r.states[k].driveMode <==> LastModeIs(r, k, false)
  {
    if k == 0 {
      var e, now :| r.states[0] == BridgeSpec.Initial(r.states[0].cfg, e, now).bridge;
    } else {
      ModeIsLastSet(r, k - 1);
      assert StepAt(r, k - 1);
      ModeStep(r.states[k - 1], r.ops[k - 1]);
      hide Apply;
      if r.ops[k - 1] == SetMode(false) {
        assert LastModeIs(r, k, false);
      } else if LastModeIs(r, k - 1, false) && !r.ops[k - 1].SetMode? {
        var n :| 0 <= n < k - 1 && r.ops[n] == SetMode(false) && forall h :: n < h < k - 1 ==> !r.ops[h].SetMode?;
        assert forall h :: n < h < k ==> !r.ops[h].SetMode?;
      }
    }
  }

  lemma ModeStep(b: Bridge, op: Op)
    ensures Apply(b, op).bridge.driveMode == if op.SetMode? then op.drive else b.driveMode
  {
    hide ScaledCommand;
    hide GuardCommand;
    hide PyClamp;
  }

  /** Driving starts with the camera straight ahead. */
  lemma DrivingRecentres(r: Run, k: nat)
    requires IsRun(r) && k < |r.ops| && r.ops[k].SetMode?
    ensures r.outs[k] == if r.ops[k].drive then [Gizmo(0.0, 0.0)] else []
    ensures r.ops[k].drive ==> r.states[k + 1].gizmo == (0.0, 0.0)
  {
    assert StepAt(r, k);
  }
}
