/** What every run of the motor safety plugin keeps, and its stop latch. */
module SafeRuns {
  import opened Numbers
  import opened Joints
  import opened SafeSpec

  /** The callbacks of one component, in order, with the state around each and its frames. */
  datatype Run = Run(states: seq<Sys>, ops: seq<Op>, outs: seq<seq<Frame>>)

  ghost predicate Initial(s: Sys) {
    && !s.active && s.stopped && s.claims == {}
    && (forall i, k :: 0 <= i < k < |s.joints| ==> s.joints[i].cfg.canId != s.joints[k].cfg.canId)
    && forall i :: 0 <= i < |s.joints| ==>
         var j := s.joints[i];
         j.cfg.Valid() && !j.releasing && !j.positionClaimed && !j.hasStatus
         && j.commandPosition.None? && j.commandVelocity.None? && j.commandEffort.None?
  }

  ghost predicate StepAt(r: Run, i: int)
    requires |r.states| == |r.ops| + 1 == |r.outs| + 1 && 0 <= i < |r.ops|
  {
    Step(r.states[i], r.ops[i], r.states[i + 1], r.outs[i])
  }

  ghost predicate IsRun(r: Run) {
    && |r.states| == |r.ops| + 1 == |r.outs| + 1
    && Initial(r.states[0])
    && forall i :: 0 <= i < |r.ops| ==> StepAt(r, i)
  }

  // The inductive invariant ---------------------------------------------------------

  ghost predicate JointInv(s: Sys, j: Joint) {
    && j.cfg.Valid()
    && (j.releasing ==> s.active && !j.positionClaimed)
    && (s.active ==> j.hasStatus && (j.cfg.positionCommanded ==> j.target.Some?))
    && (j.positionClaimed ==> InterfaceName(j, Position) in s.claims)
  }

  ghost predicate Inv(s: Sys) {
    && (s.active <==> !s.stopped)
    && forall i :: 0 <= i < |s.joints| ==> JointInv(s, s.joints[i])
  }

  /** A callback never adds, removes or reconfigures joints. */
  ghost predicate SameMotors(s: Sys, t: Sys) {
    && |s.joints| == |t.joints|
    && s.brakeMs == t.brakeMs && s.statusTimeoutMs == t.statusTimeoutMs
    && forall i :: 0 <= i < |s.joints| ==> s.joints[i].cfg == t.joints[i].cfg
  }

  lemma SameIds(a: seq<Joint>, b: seq<Joint>)
    requires |a| == |b| && forall i :: 0 <= i < |a| ==> a[i].cfg == b[i].cfg
    ensures Ids(a) == Ids(b)
  {
  }

  lemma StepKeepsInv(s: Sys, op: Op, t: Sys, frames: seq<Frame>)
    requires Inv(s) && Step(s, op, t, frames)
    ensures Inv(t) && SameMotors(s, t)
  {
    match op
    case Activate(_) => ActivationKeepsInv(s, op, t, frames);
    case Read(_, _, _, _) => ReadKeepsInv(s, op, t, frames);
    case Switch(_, _, _, _) => SwitchKeepsInv(s, op, t, frames);
    case Write(_, _) => WriteKeepsInv(s, op, t, frames);
    case Command(_, _, _, _) => WriteKeepsInv(s, op, t, frames);
    case Configure(_, _) => WriteKeepsInv(s, op, t, frames);
    case Error => ExitKeepsInv(s, t, frames, false);
    case _ => ExitKeepsInv(s, t, frames, true);
  }

  /** The fields a read does not touch. */
  ghost predicate SameControl(j: Joint, k: Joint) {
    && k.cfg == j.cfg && k.positionClaimed == j.positionClaimed && k.target == j.target
    && k.releasing == j.releasing && k.releaseAt == j.releaseAt
    && (j.hasStatus ==> k.hasStatus)
  }

  lemma CheckedControl(s: Sys, batch: Batch, drainedAt: int, checkedAt: int, stallAt: int)
    ensures var c := Checked(s, batch, drainedAt, checkedAt, stallAt);
            && c == s.(joints := c.joints) && |c.joints| == |s.joints|
            && forall i :: 0 <= i < |s.joints| ==> SameControl(s.joints[i], c.joints[i])
  {
    var d := Drain(s, batch, drainedAt);
    assert forall i :: 0 <= i < |s.joints| ==> SameControl(s.joints[i], d.joints[i]);
    var c := Checked(s, batch, drainedAt, checkedAt, stallAt);
    forall i | 0 <= i < |s.joints| ensures SameControl(s.joints[i], c.joints[i]) {
      assert c.joints[i] == d.joints[i] || c.joints[i] == StallStep(d.joints[i], stallAt);
    }
  }

  lemma ReadKeepsInv(s: Sys, op: Op, t: Sys, frames: seq<Frame>)
    requires Inv(s) && Step(s, op, t, frames) && op.Read?
    ensures Inv(t) && SameMotors(s, t)
  {
    CheckedControl(s, op.batch, op.drainedAt, op.checkedAt, op.stallAt);
    var c := Checked(s, op.batch, op.drainedAt, op.checkedAt, op.stallAt);
    forall i | 0 <= i < |s.joints| ensures JointInv(t, t.joints[i]) {
      assert JointInv(s, s.joints[i]) && SameControl(s.joints[i], c.joints[i]);
      assert InterfaceName(s.joints[i], Position) == InterfaceName(t.joints[i], Position);
    }
  }

  lemma SwitchKeepsInv(s: Sys, op: Op, t: Sys, frames: seq<Frame>)
    requires Inv(s) && Step(s, op, t, frames) && op.Switch?
    ensures Inv(t) && SameMotors(s, t)
  {
    if op.accepted {
      forall i | 0 <= i < |s.joints| ensures JointInv(t, t.joints[i]) {
        JointAfter(s, op, t, frames, i);
        hide Step;
        SwitchKeepsJoint(s, op, t, i);
      }
    }
  }

  lemma SwitchKeepsJoint(s: Sys, op: Op, t: Sys, i: nat)
    requires op.Switch? && i < |s.joints| == |t.joints| && i < |op.nows| && JointInv(s, s.joints[i])
    requires t.active == s.active && t.claims == NewClaims(s.claims, op.start, op.stop)
    requires t.joints[i] == Switched(s.joints[i], op.start, op.stop, s.active, op.nows[i], s.brakeMs)
    ensures JointInv(t, t.joints[i])
  {
    var j := s.joints[i];
    assert j.cfg.name + "/" <= InterfaceName(j, Position);
    assert InterfaceName(j, Position) == InterfaceName(t.joints[i], Position);
    if InterfaceName(j, Position) in op.stop {
      assert Names(op.stop, j);
    }
  }

  lemma WriteKeepsInv(s: Sys, op: Op, t: Sys, frames: seq<Frame>)
    requires Inv(s) && Step(s, op, t, frames) && (op.Write? || op.Command? || op.Configure?)
    ensures Inv(t) && SameMotors(s, t)
  {
    forall i | 0 <= i < |s.joints|
      ensures i < |t.joints| && JointInv(t, t.joints[i]) && t.joints[i].cfg == s.joints[i].cfg
    {
      JointAfter(s, op, t, frames, i);
      assert JointInv(s, s.joints[i]);
      assert InterfaceName(s.joints[i], Position) == InterfaceName(t.joints[i], Position);
    }
  }

  lemma ExitKeepsInv(s: Sys, t: Sys, frames: seq<Frame>, closes: bool)
    requires Inv(s) && (ExitStep(s, t, frames, closes) || DeactivateStep(s, t, frames))
    ensures Inv(t) && SameMotors(s, t)
  {
    forall i | 0 <= i < |s.joints|
      ensures i < |t.joints| && JointInv(t, t.joints[i]) && t.joints[i].cfg == s.joints[i].cfg
    {
      assert JointInv(s, s.joints[i]);
      assert InterfaceName(s.joints[i], Position) == InterfaceName(t.joints[i], Position);
    }
  }

  lemma ActivationKeepsInv(s: Sys, op: Op, t: Sys, frames: seq<Frame>)
    requires Inv(s) && op.Activate? && Step(s, op, t, frames)
    ensures Inv(t) && SameMotors(s, t)
  {
    ActivationShape(s, op, t, frames);
    hide Step;
    forall i | 0 <= i < |s.joints|
      ensures i < |t.joints| && JointInv(t, t.joints[i]) && s.joints[i].cfg == t.joints[i].cfg
    {
      assert JointInv(s, s.joints[i]);
      if ActivationSucceeds(s, t, frames) {
        assert Started(s.joints[i], t.joints[i]);
      } else if ActivationRefused(s, t, frames) {
        assert SameButStatus(s.joints[i], t.joints[i]);
      } else {
        assert SameButStatus(ResetAll(s.joints)[i], t.joints[i]);
      }
    }
  }

  lemma {:induction false} RunKeepsInv(r: Run, k: nat)
    requires IsRun(r) && k <= |r.ops|
    ensures Inv(r.states[k]) && SameMotors(r.states[0], r.states[k])
  {
    if k == 0 {
    } else {
      RunKeepsInv(r, k - 1);
      assert StepAt(r, k - 1);
      StepKeepsInv(r.states[k - 1], r.ops[k - 1], r.states[k], r.outs[k - 1]);
    }
  }

  // The stop latch ------------------------------------------------------------------

  /** Step i takes the component out of the active state. */
  ghost predicate Leaves(r: Run, i: int)
    requires IsRun(r) && 0 <= i < |r.ops|
  {
    r.states[i].active && !r.states[i + 1].active
  }

  /** No activation succeeds in the steps a, ..., b - 1. */
  ghost predicate NoActivation(r: Run, a: int, b: int)
    requires IsRun(r) && 0 <= a <= b <= |r.ops|
  {
    forall k :: a <= k < b ==> !(!r.states[k].active && r.states[k + 1].active)
  }

  /** Frames that cannot set a motor in motion. */
  predicate IsStopFrame(f: Frame) {
    f.ZeroSpeed? || f.Release? || f.SetOrigin?
  }

  lemma BurstFrames(s: Sys, frames: seq<Frame>)
    requires StopBurst(s, frames)
    ensures forall f :: f in frames ==> f.ZeroSpeed? || f.Release?
  {
    if s.socketOpen {
      var ids := Ids(s.joints);
      var rounds: nat :| frames == BrakeThenRelease(ids, rounds);
      RoundsAreZeroSpeed(ids, rounds);
      assert BrakeThenRelease(ids, rounds) == SpeedRounds(ids, rounds) + ReleaseRound(ids);
    }
  }

  lemma {:induction false} RoundsAreZeroSpeed(ids: seq<nat>, rounds: nat)
    ensures forall f :: f in SpeedRounds(ids, rounds) ==> f.ZeroSpeed?
  {
    if rounds > 0 {
      RoundsAreZeroSpeed(ids, rounds - 1);
    }
  }

  lemma {:induction false} ZeroFramesAreOrigins(joints: seq<Joint>)
    ensures forall f :: f in ZeroFrames(joints) ==>
              exists i :: 0 <= i < |joints| && joints[i].cfg.zeroOnActivate
                && (f == Release(joints[i].cfg.canId) || f == SetOrigin(joints[i].cfg.canId))
  {
    if joints != [] {
      var n := |joints| - 1;
      ZeroFramesAreOrigins(joints[..n]);
      forall f | f in ZeroFrames(joints)
        ensures exists i :: 0 <= i < |joints| && joints[i].cfg.zeroOnActivate
                  && (f == Release(joints[i].cfg.canId) || f == SetOrigin(joints[i].cfg.canId))
      {
        if f in ZeroFrames(joints[..n]) {
          var i :| 0 <= i < n && joints[..n][i].cfg.zeroOnActivate
                   && (f == Release(joints[..n][i].cfg.canId)
                       || f == SetOrigin(joints[..n][i].cfg.canId));
          assert joints[i] == joints[..n][i];
        } else {
          assert joints[n].cfg.zeroOnActivate;
        }
      }
    }
  }

  /** A step that starts inactive sends stop frames only, and origins only while activating. */
  lemma InactiveStepSendsStops(s: Sys, op: Op, t: Sys, frames: seq<Frame>)
    requires Step(s, op, t, frames) && (!s.active || !t.active)
    ensures forall f :: f in frames ==> IsStopFrame(f)
    ensures forall f :: f in frames && f.SetOrigin? ==> op.Activate?
    ensures op.Activate? ==> forall f :: f in frames && f.SetOrigin? ==>
              exists i :: 0 <= i < |s.joints| && s.joints[i].cfg.zeroOnActivate
                          && f.canId == s.joints[i].cfg.canId
  {
    match op
    case Activate(_) =>
      ActivationShape(s, op, t, frames);
      ZeroFramesAreOrigins(s.joints);
      if ActivationFails(s, t, frames) {
        var n: nat, burst :| OriginsThenStop(s, n, burst, frames);
        ZeroFramesAreOrigins(s.joints[..n]);
        BurstFrames(s, burst);
        forall f | f in frames && f.SetOrigin?
          ensures exists i :: 0 <= i < |s.joints| && s.joints[i].cfg.zeroOnActivate
                              && f.canId == s.joints[i].cfg.canId
        {
          assert f in ZeroFrames(s.joints[..n]);
          var i :| 0 <= i < n && s.joints[..n][i].cfg.zeroOnActivate
                   && f == SetOrigin(s.joints[..n][i].cfg.canId);
          assert s.joints[i].cfg.zeroOnActivate;
        }
      }
    case Deactivate => BurstFrames(s, frames);
    case Cleanup => if frames != [] { BurstFrames(s, frames); }
    case Shutdown => if frames != [] { BurstFrames(s, frames); }
    case Error => if frames != [] { BurstFrames(s, frames); }
    case Destroy => if frames != [] { BurstFrames(s, frames); }
    case Read(batch, drainedAt, checkedAt, stallAt) =>
      if Trips(s, batch, drainedAt, checkedAt, stallAt) {
        BurstFrames(Checked(s, batch, drainedAt, checkedAt, stallAt), frames);
      }
    case _ =>
  }

  lemma {:induction false} StaysInactive(r: Run, i: nat, k: nat)
    requires IsRun(r) && i < k <= |r.ops| && Leaves(r, i) && NoActivation(r, i + 1, k)
    ensures !r.states[k].active
  {
    if i + 1 < k {
      StaysInactive(r, i, k - 1);
    }
  }

  /** The stop latch: from the step that leaves the active state until the next successful
      activation, only stop frames are sent, and set-origin only by an activation attempt. */
  lemma StopLatch(r: Run, i: nat, k: nat)
    requires IsRun(r) && i <= k < |r.ops| && Leaves(r, i) && NoActivation(r, i + 1, k + 1)
    ensures !r.states[k + 1].active
    ensures forall f :: f in r.outs[k] ==> IsStopFrame(f)
    ensures forall f :: f in r.outs[k] && f.SetOrigin? ==> r.ops[k].Activate?
  {
    assert StepAt(r, k);
    StaysInactive(r, i, k + 1);
    InactiveStepSendsStops(r.states[k], r.ops[k], r.states[k + 1], r.outs[k]);
  }

  predicate NoneReleasing(joints: seq<Joint>) {
    forall m :: 0 <= m < |joints| ==> !joints[m].releasing
  }

  /** Leaving the active state stops the motors: with the socket open, every motor gets zero
      speed, and the burst ends with exactly one release per motor. */
  lemma ExitBurst(r: Run, i: nat)
    requires IsRun(r) && i < |r.ops| && Leaves(r, i) && r.states[i].socketOpen
    ensures exists rounds: nat ::
              && 1 <= rounds <= r.states[i].brakeMs / 20 + 1
              && r.outs[i] == BrakeThenRelease(Ids(r.states[0].joints), rounds)
    ensures r.states[i + 1].stopped
    ensures NoneReleasing(r.states[i + 1].joints)
  {
    var s, op, t := r.states[i], r.ops[i], r.states[i + 1];
    RunKeepsInv(r, i);
    assert StepAt(r, i);
    StepKeepsInv(s, op, t, r.outs[i]);
    SameIds(r.states[0].joints, s.joints);
    if op.Read? {
      var c := Checked(s, op.batch, op.drainedAt, op.checkedAt, op.stallAt);
      SameIds(s.joints, c.joints);
      assert StopBurst(c, r.outs[i]);
    } else {
      assert StopBurst(s, r.outs[i]);
    }
  }

  /** Motion frames leave the component only in a write of the active state. */
  lemma OnlyActiveWritesMove(r: Run, k: nat, f: Frame)
    requires IsRun(r) && k < |r.ops| && f in r.outs[k] && f.Motion?
    ensures r.ops[k].Write? && r.states[k].active
  {
    assert StepAt(r, k);
    var s, op, t := r.states[k], r.ops[k], r.states[k + 1];
    if !s.active || !t.active {
      InactiveStepSendsStops(s, op, t, r.outs[k]);
    }
  }

  // The last word to each motor -------------------------------------------------------

  /** The last frame for a motor, origins aside: what its drive is doing. */
  function LastDrive(frames: seq<Frame>, id: nat): Option<Frame> {
    if frames == [] then None
    else
      var f := frames[|frames| - 1];
      if f.canId == id && !f.SetOrigin? then Some(f)
      else LastDrive(frames[..|frames| - 1], id)
  }

  function Sent(outs: seq<seq<Frame>>): seq<Frame> {
    if outs == [] then [] else Sent(outs[..|outs| - 1]) + outs[|outs| - 1]
  }

  lemma {:induction false} LastDriveConcat(a: seq<Frame>, b: seq<Frame>, id: nat)
    ensures LastDrive(a + b, id) ==
            if LastDrive(b, id).Some? then LastDrive(b, id) else LastDrive(a, id)
  {
    if b == [] {
      assert a + b == a;
    } else {
      assert (a + b)[..|a + b| - 1] == a + b[..|b| - 1];
      LastDriveConcat(a, b[..|b| - 1], id);
    }
  }

  lemma {:induction false} ReleaseRoundReleases(ids: seq<nat>, id: nat)
    ensures LastDrive(ReleaseRound(ids), id) == if id in ids then Some(Release(id)) else None
  {
    if ids != [] {
      var n := |ids| - 1;
      assert ReleaseRound(ids)[..n] == ReleaseRound(ids[..n]);
      ReleaseRoundReleases(ids[..n], id);
      assert ids == ids[..n] + [ids[n]];
    } else {
      assert ReleaseRound(ids) == [];
    }
  }

  lemma BurstReleases(s: Sys, frames: seq<Frame>, id: nat)
    requires StopBurst(s, frames) && id in Ids(s.joints)
    ensures LastDrive(frames, id) == if s.socketOpen then Some(Release(id)) else None
  {
    if s.socketOpen {
      var ids := Ids(s.joints);
      var rounds: nat :| frames == BrakeThenRelease(ids, rounds);
      BurstEndsInRelease(ids, rounds, id);
    }
  }

  lemma BurstEndsInRelease(ids: seq<nat>, rounds: nat, id: nat)
    requires id in ids
    ensures LastDrive(BrakeThenRelease(ids, rounds), id) == Some(Release(id))
  {
    ReleaseRoundReleases(ids, id);
    LastDriveConcat(SpeedRounds(ids, rounds), ReleaseRound(ids), id);
  }

  lemma {:induction false} OriginsRelease(joints: seq<Joint>, id: nat)
    ensures LastDrive(ZeroFrames(joints), id) in {None, Some(Release(id))}
  {
    if joints != [] {
      var n := |joints| - 1;
      OriginsRelease(joints[..n], id);
      if joints[n].cfg.zeroOnActivate {
        var c := joints[n].cfg.canId;
        var two := [Release(c), SetOrigin(c)];
        assert two[..1] == [Release(c)] && two[..1][..0] == [];
        assert [Release(c)][..0] == [];
        assert LastDrive([Release(c)], id) == if c == id then Some(Release(c)) else None;
        assert LastDrive(two, id) == LastDrive([Release(c)], id);
        assert ZeroFrames(joints) == ZeroFrames(joints[..n]) + two;
        LastDriveConcat(ZeroFrames(joints[..n]), two, id);
      } else {
        assert ZeroFrames(joints) == ZeroFrames(joints[..n]);
      }
    }
  }

  /** An inactive step never leaves a motor driven. */
  lemma InactiveStepReleases(s: Sys, op: Op, t: Sys, frames: seq<Frame>, id: nat)
    requires Step(s, op, t, frames) && !s.active && id in Ids(s.joints)
    ensures LastDrive(frames, id) in {None, Some(Release(id))}
  {
    match op
    case Activate(_) =>
      ActivationShape(s, op, t, frames);
      OriginsRelease(s.joints, id);
      if ActivationFails(s, t, frames) {
        var n: nat, burst :| OriginsThenStop(s, n, burst, frames);
        OriginsRelease(s.joints[..n], id);
        BurstReleases(s, burst, id);
        LastDriveConcat(ZeroFrames(s.joints[..n]), burst, id);
      }
    case Deactivate => BurstReleases(s, frames, id);
    case Cleanup => if frames != [] { BurstReleases(s, frames, id); }
    case Shutdown => if frames != [] { BurstReleases(s, frames, id); }
    case Error => if frames != [] { BurstReleases(s, frames, id); }
    case Destroy => if frames != [] { BurstReleases(s, frames, id); }
    case _ =>
  }

  /** From the exit on, every motor's last drive command is a release: after any number of
      further callbacks without a successful activation, no motor is left driven or braked. */
  lemma {:induction false} MotorsStayReleased(r: Run, i: nat, k: nat, id: nat)
    requires IsRun(r) && i < k <= |r.ops| && Leaves(r, i) && NoActivation(r, i + 1, k)
    requires r.states[i].socketOpen && id in Ids(r.states[0].joints)
    ensures LastDrive(Sent(r.outs[i..k]), id) == Some(Release(id))
    decreases k
  {
    var last := k - 1;
    assert r.outs[i..k] == r.outs[i..last] + [r.outs[last]];
    assert r.outs[i..k][..last - i] == r.outs[i..last];
    LastDriveConcat(Sent(r.outs[i..last]), r.outs[last], id);
    RunKeepsInv(r, last);
    SameIds(r.states[0].joints, r.states[last].joints);
    if last == i {
      ExitBurst(r, i);
      var ids := Ids(r.states[0].joints);
      var rounds: nat :| r.outs[i] == BrakeThenRelease(ids, rounds);
      BurstEndsInRelease(ids, rounds, id);
    } else {
      MotorsStayReleased(r, i, last, id);
      StaysInactive(r, i, last);
      assert StepAt(r, last);
      InactiveStepReleases(r.states[last], r.ops[last], r.states[k], r.outs[last], id);
    }
  }

  // The socket ------------------------------------------------------------------------

  /** Step n closes the status socket: the callbacks that clean up, and a failed configuration. */
  ghost predicate Closes(op: Op) {
    op.Cleanup? || op.Shutdown? || op.Destroy? || (op.Configure? && !(op.bound && op.upstreamOk))
  }

  /** The socket is open exactly since a configuration that succeeded. */
  lemma {:induction false} SocketIsOpenSince(r: Run, k: nat)
    requires IsRun(r) && k <= |r.ops| && !r.states[0].socketOpen
    ensures r.states[k].socketOpen <==>
            exists c :: 0 <= c < k && r.ops[c].Configure? && r.ops[c].bound && r.ops[c].upstreamOk
                        && forall n :: c < n < k ==> !Closes(r.ops[n])
    decreases k
  {
    if k > 0 {
      SocketIsOpenSince(r, k - 1);
      assert StepAt(r, k - 1);
      var op := r.ops[k - 1];
      SocketStep(r.states[k - 1], op, r.states[k], r.outs[k - 1]);
      if op.Configure? && op.bound && op.upstreamOk {
        assert r.states[k].socketOpen;
      } else if r.states[k].socketOpen {
        var c :| 0 <= c < k - 1 && r.ops[c].Configure? && r.ops[c].bound && r.ops[c].upstreamOk
                 && forall n :: c < n < k - 1 ==> !Closes(r.ops[n]);
        assert forall n :: c < n < k ==> !Closes(r.ops[n]);
      }
    }
  }

  lemma SocketStep(s: Sys, op: Op, t: Sys, frames: seq<Frame>)
    requires Step(s, op, t, frames)
    ensures t.socketOpen == if op.Configure? then op.bound && op.upstreamOk
                            else s.socketOpen && !Closes(op)
  {
    hide StopBurst;
    hide WellTimed;
    hide AllRecent;
    hide AllOriginsTaken;
  }
}
