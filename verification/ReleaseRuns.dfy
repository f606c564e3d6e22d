/** Controller switches that let go of a joint: what its motor gets from then on. */
module ReleaseRuns {
  import opened Numbers
  import opened Joints
  import opened SafeSpec
  import opened SafeRuns
  import opened GuardRuns

  // Who holds a joint -----------------------------------------------------------------

  /** The same controllers hold joint i in both states. */
  ghost predicate SameHold(s: Sys, t: Sys, i: nat) {
    && i < |s.joints| && i < |t.joints| && t.joints[i].cfg == s.joints[i].cfg
    && t.joints[i].positionClaimed == s.joints[i].positionClaimed
    && forall f: Interface ::
         InterfaceName(t.joints[i], f) in t.claims <==> InterfaceName(s.joints[i], f) in s.claims
  }

  lemma InterfaceIsNamed(names: seq<string>, j: Joint, f: Interface)
    requires InterfaceName(j, f) in names
    ensures Names(names, j)
  {
    assert j.cfg.name + "/" <= InterfaceName(j, f);
  }

  lemma ClaimsAfter(s: Sys, op: Op, t: Sys, frames: seq<Frame>)
    requires Step(s, op, t, frames)
    ensures t.claims == if op.Switch? && op.accepted then NewClaims(s.claims, op.start, op.stop) else s.claims
  {
  }

  lemma PositionClaimAfter(s: Sys, op: Op, t: Sys, frames: seq<Frame>, i: nat)
    requires Step(s, op, t, frames) && s.active && t.active && i < |s.joints|
    requires op.Switch? && op.accepted ==> !Names(op.start, s.joints[i]) && !Names(op.stop, s.joints[i])
    ensures i < |t.joints| && t.joints[i].positionClaimed == s.joints[i].positionClaimed
  {
    if op.Read? {
      CheckedControl(s, op.batch, op.drainedAt, op.checkedAt, op.stallAt);
    } else {
      JointAfter(s, op, t, frames, i);
    }
  }

  lemma HoldAfter(r: Run, i: nat, k: nat, next: nat)
    requires IsRun(r) && k < |r.ops| && next == k + 1 && LeftAloneAt(r, i, k)
    ensures SameHold(r.states[k], r.states[next], i)
  {
    RunKeepsInv(r, k);
    RunKeepsInv(r, next);
    assert StepAt(r, k);
    hide IsRun;
    hide Inv;
    var s, op, t := r.states[k], r.ops[k], r.states[next];
    ClaimsAfter(s, op, t, r.outs[k]);
    PositionClaimAfter(s, op, t, r.outs[k], i);
    hide Step;
    hide Names;
    forall f: Interface
      ensures InterfaceName(t.joints[i], f) in t.claims <==> InterfaceName(s.joints[i], f) in s.claims
    {
      assert InterfaceName(t.joints[i], f) == InterfaceName(s.joints[i], f);
      if op.Switch? && op.accepted {
        if InterfaceName(s.joints[i], f) in op.start {
          InterfaceIsNamed(op.start, s.joints[i], f);
        }
        if InterfaceName(s.joints[i], f) in op.stop {
          InterfaceIsNamed(op.stop, s.joints[i], f);
        }
      }
    }
  }

  /** Switches that leave a joint alone change nothing about who holds it. */
  lemma {:induction false} HoldStays(r: Run, i: nat, a: nat, b: nat)
    requires IsRun(r) && a <= b <= |r.ops| && LeftAlone(r, i, a, b) && i < |r.states[a].joints|
    ensures SameHold(r.states[a], r.states[b], i)
    decreases b
  {
    if a < b {
      HoldStays(r, i, a, b - 1);
      assert LeftAloneAt(r, i, b - 1);
      hide IsRun;
      hide LeftAlone;
      hide LeftAloneAt;
      HoldAfter(r, i, b - 1, b);
    }
  }

  // The switch ------------------------------------------------------------------------

  /** An accepted switch of an active component that stops joint i and does not start it. */
  ghost predicate LetsGo(s: Sys, op: Op, i: nat) {
    && s.active && op.Switch? && op.accepted && i < |s.joints|
    && Names(op.stop, s.joints[i]) && !Names(op.start, s.joints[i])
  }

  /** A controller goes on holding an interface of the joint. */
  ghost predicate Keeps(s: Sys, op: Op, i: nat, f: Interface)
    requires op.Switch? && i < |s.joints|
  {
    InterfaceName(s.joints[i], f) in s.claims && InterfaceName(s.joints[i], f) !in op.stop
  }

  /** The code releases a joint as soon as one of its interfaces is stopped. It forgets all its
      commands and the position claim, while the upstream plugin keeps the other claims. */
  lemma StopReleases(s: Sys, op: Op, t: Sys, frames: seq<Frame>, i: nat)
    requires LetsGo(s, op, i) && Step(s, op, t, frames)
    ensures i < |op.nows| && i < |t.joints| && t.active && t.joints[i].cfg == s.joints[i].cfg
    ensures t.joints[i].releasing && t.joints[i].releaseAt == op.nows[i] + s.brakeMs * NS_PER_MS
    ensures !t.joints[i].positionClaimed
    ensures forall f: Interface :: InterfaceName(t.joints[i], f) in t.claims <==> Keeps(s, op, i, f)
  {
    JointAfter(s, op, t, frames, i);
    forall f: Interface ensures InterfaceName(t.joints[i], f) in t.claims <==> Keeps(s, op, i, f) {
      assert InterfaceName(t.joints[i], f) == InterfaceName(s.joints[i], f);
      if InterfaceName(s.joints[i], f) in op.start {
        InterfaceIsNamed(op.start, s.joints[i], f);
      }
    }
  }

  /** The frames of joint i from the switch that ended in state n up to state b are those of the
      release: zero speed in every write of the braking time, then one release. */
  ghost predicate OnlyReleased(r: Run, i: nat, n: nat, b: nat)
    requires IsRun(r) && n <= b <= |r.ops| && i < |r.states[n].joints|
  {
    var j := r.states[n].joints[i];
    For(Sent(r.outs[n..b]), j.cfg.canId)
    == BrakedThenReleased(j.cfg.canId, WritesBeforeDue(r, j.releaseAt, n, b), Due(r, j.releaseAt, n, b))
  }

  /** A switch that leaves no velocity or effort interface of the joint to a controller: from
      then on, as long as no switch concerns the joint, its motor gets zero speed in every write
      of the braking time, then exactly one release, and nothing else. A controller that keeps
      the position interface goes on holding it, and none of its commands gets through. */
  lemma StoppedJointIsReleased(r: Run, k: nat, i: nat, b: nat)
    requires IsRun(r) && k < b <= |r.ops| && LetsGo(r.states[k], r.ops[k], i) && LeftAlone(r, i, k + 1, b)
    requires !Keeps(r.states[k], r.ops[k], i, Velocity) && !Keeps(r.states[k], r.ops[k], i, Effort)
    ensures i < |r.states[k + 1].joints| && i < |r.ops[k].nows| && i < |r.states[b].joints|
    ensures r.states[k + 1].joints[i].releaseAt == r.ops[k].nows[i] + r.states[k].brakeMs * NS_PER_MS
    ensures OnlyReleased(r, i, k + 1, b)
    ensures InterfaceName(r.states[b].joints[i], Position) in r.states[b].claims
            <==> Keeps(r.states[k], r.ops[k], i, Position)
  {
    hide Step;
    hide Keeps;
    hide For;
    hide Sent;
    hide Due;
    hide WritesBeforeDue;
    hide BrakedThenReleased;
    hide LeftAlone;
    hide LeftToItself;
    assert StepAt(r, k);
    StopReleases(r.states[k], r.ops[k], r.states[k + 1], r.outs[k], i);
    hide LetsGo;
    hide IsRun;
    HoldStays(r, i, k + 1, b);
    StaysCutOff(r, i, k + 1, b);
    ReleaseSequence(r, i, k + 1, b);
  }

  lemma StaysCutOff(r: Run, i: nat, a: nat, b: nat)
    requires IsRun(r) && a <= b <= |r.ops| && LeftAlone(r, i, a, b) && i < |r.states[a].joints|
    requires CutOff(r.states[a].joints[i], r.states[a].claims)
    ensures LeftToItself(r, i, a, b)
  {
    forall n | a <= n < b
      ensures LeftAloneAt(r, i, n) && CutOff(r.states[n].joints[i], r.states[n].claims)
    {
      assert LeftAlone(r, i, a, n);
      HoldStays(r, i, a, n);
      hide IsRun;
    }
  }

  // A second controller -----------------------------------------------------------------

  /** Another controller that keeps the velocity or effort interface is let through while the
      joint is being released: its motor gets the release frame first, and behind it that
      controller's motion. A position is never let through. */
  lemma PartlyStoppedJointGetsBoth(r: Run, k: nat, i: nat, f: Interface)
    requires IsRun(r) && k < |r.ops| && r.ops[k].Write? && r.states[k].active
    requires i < |r.states[k].joints| && r.states[k].joints[i].releasing
    requires InterfaceName(r.states[k].joints[i], f) in r.states[k].claims
    requires BaseCommand(r.states[k].joints[i], f).Some?
    ensures f != Position
    ensures var j := r.states[k].joints[i];
            var own := For(r.outs[k], j.cfg.canId);
            && |own| >= 2
            && own[0] == (if r.ops[k].now < j.releaseAt then ZeroSpeed(j.cfg.canId) else Release(j.cfg.canId))
            && Motion(j.cfg.canId, f, BaseCommand(j, f).value) in own[1..]
  {
    FramesOfJoint(r, k, i);
    RunKeepsInv(r, k);
    assert JointInv(r.states[k], r.states[k].joints[i]);
    var j, u := r.states[k].joints[i], r.states[k + 1].joints[i];
    assert InterfaceName(u, f) == InterfaceName(j, f) && BaseCommand(u, f) == BaseCommand(j, f);
    hide For;
    hide IsRun;
    assert Motion(j.cfg.canId, f, BaseCommand(j, f).value) in UpstreamFrames(u, r.states[k].claims);
  }

  /** q is a run that goes on where r ends. */
  ghost predicate Continues(q: Run, r: Run) {
    && IsRun(q) && |r.ops| <= |q.ops| && |r.states| == |r.ops| + 1 == |r.outs| + 1
    && q.ops[..|r.ops|] == r.ops && q.states[..|r.states|] == r.states && q.outs[..|r.outs|] == r.outs
  }

  function Appended(r: Run, op: Op, t: Sys, frames: seq<Frame>): Run {
    Run(r.states + [t], r.ops + [op], r.outs + [frames])
  }

  lemma AppendedContinues(q: Run, r: Run, op: Op, t: Sys, frames: seq<Frame>)
    requires Continues(q, r) && Step(q.states[|q.ops|], op, t, frames)
    ensures Continues(Appended(q, op, t, frames), r)
  {
    hide Step;
    hide Initial;
    var a := Appended(q, op, t, frames);
    forall n | 0 <= n < |a.ops| ensures StepAt(a, n) {
      assert n < |q.ops| ==> StepAt(q, n);
    }
    assert a.ops[..|r.ops|] == q.ops[..|r.ops|];
    assert a.states[..|r.states|] == q.states[..|r.states|];
    assert a.outs[..|r.outs|] == q.outs[..|r.outs|];
  }

  /** The last state of a run, when the controllers of joint i have given a speed and an effort;
      and when its release time has come and they are written. */
  function Told(r: Run, i: nat): Sys
    requires |r.states| == |r.ops| + 1 && i < |r.states[|r.ops|].joints|
  {
    var s := r.states[|r.ops|];
    s.(joints := s.joints[i := Commanded(s.joints[i], None, Some(1.0), Some(1.0))])
  }

  function ToldRun(r: Run, i: nat): Run
    requires |r.states| == |r.ops| + 1 && i < |r.states[|r.ops|].joints|
  {
    var s, at := Told(r, i), r.states[|r.ops|].joints[i].releaseAt;
    var t := s.(joints := WriteAll(s.joints, 0.0, at));
    Appended(Appended(r, Op.Command(i, None, Some(1.0), Some(1.0)), s, []), Op.Write(0.0, at), t,
             AllReleaseFrames(s.joints, at) + AllUpstreamFrames(t.joints, s.claims))
  }

  lemma ToldRunContinues(r: Run, i: nat)
    requires IsRun(r) && i < |r.states[|r.ops|].joints| && r.states[|r.ops|].active
    ensures var q, n := ToldRun(r, i), |r.ops|;
            && Continues(q, r) && |q.ops| == n + 2 && LeftAlone(q, i, n, n + 2)
            && q.states[n] == r.states[n] && q.states[n + 1] == Told(r, i)
            && q.ops[n].Command? && q.ops[n + 1].Write?
  {
    var s, t, n := r.states[|r.ops|], Told(r, i), |r.ops|;
    var q := ToldRun(r, i);
    assert r.ops[..n] == r.ops && r.states[..n + 1] == r.states && r.outs[..n] == r.outs;
    assert Continues(r, r);
    ToldSteps(s, i, s.joints[i].releaseAt);
    hide Step;
    hide IsRun;
    hide WriteAll;
    var first := Appended(r, Op.Command(i, None, Some(1.0), Some(1.0)), t, []);
    AppendedContinues(r, r, Op.Command(i, None, Some(1.0), Some(1.0)), t, []);
    AppendedContinues(first, r, Op.Write(0.0, s.joints[i].releaseAt), q.states[n + 2], q.outs[n + 1]);
    assert LeftAloneAt(q, i, n) && LeftAloneAt(q, i, n + 1);
  }

  lemma ToldSteps(s: Sys, i: nat, at: int)
    requires i < |s.joints| && s.active
    ensures var t := s.(joints := s.joints[i := Commanded(s.joints[i], None, Some(1.0), Some(1.0))]);
            var u := t.(joints := WriteAll(t.joints, 0.0, at));
            && Step(s, Op.Command(i, None, Some(1.0), Some(1.0)), t, [])
            && Step(t, Op.Write(0.0, at), u, AllReleaseFrames(t.joints, at) + AllUpstreamFrames(u.joints, t.claims))
  {
    hide WriteAll;
    hide AllReleaseFrames;
    hide AllUpstreamFrames;
  }

  lemma {:induction false} ReleaseHasNoMotion(id: nat, n: nat, released: bool)
    ensures forall f :: f in BrakedThenReleased(id, n, released) ==> !f.Motion?
  {
    if n > 0 {
      ReleaseHasNoMotion(id, n - 1, false);
    }
  }

  lemma ToldJointMoves(r: Run, i: nat, f: Interface)
    requires IsRun(r) && i < |r.states[|r.ops|].joints| && r.states[|r.ops|].active
    requires r.states[|r.ops|].joints[i].releasing && f != Position
    requires InterfaceName(r.states[|r.ops|].joints[i], f) in r.states[|r.ops|].claims
    ensures var q, n := ToldRun(r, i), |r.ops|;
            Continues(q, r) && |q.ops| == n + 2 && LeftAlone(q, i, n, n + 2) && !OnlyReleased(q, i, n, n + 2)
  {
    ToldRunContinues(r, i);
    var q, n := ToldRun(r, i), |r.ops|;
    hide ToldRun;
    var j, u := q.states[n].joints[i], q.states[n + 1].joints[i];
    assert InterfaceName(u, f) == InterfaceName(j, f) && BaseCommand(u, f).Some?;
    PartlyStoppedJointGetsBoth(q, n + 1, i, f);
    SentSplits(q, n, n + 1, n + 2, j.cfg.canId);
    ReleaseHasNoMotion(j.cfg.canId, WritesBeforeDue(q, j.releaseAt, n, n + 2), Due(q, j.releaseAt, n, n + 2));
    hide IsRun;
    hide For;
    hide Sent;
    hide Due;
    hide WritesBeforeDue;
    hide BrakedThenReleased;
    hide BaseCommand;
    var motion := Motion(j.cfg.canId, f, BaseCommand(u, f).value);
    assert motion in For(q.outs[n + 1], j.cfg.canId);
    assert motion in For(Sent(q.outs[n..n + 2]), j.cfg.canId);
  }

  /** Exactly when a stopped joint is only released: in every continuation in which no switch
      concerns it, its motor gets the frames of the release alone if and only if the switch left
      neither its velocity nor its effort interface to a controller. */
  lemma ReleaseIsExact(r: Run, i: nat)
    requires IsRun(r) && |r.ops| > 0 && LetsGo(r.states[|r.ops| - 1], r.ops[|r.ops| - 1], i)
    ensures i < |r.states[|r.ops|].joints|
    ensures var s, op, n := r.states[|r.ops| - 1], r.ops[|r.ops| - 1], |r.ops|;
            !Keeps(s, op, i, Velocity) && !Keeps(s, op, i, Effort) <==>
            forall q, b :: Continues(q, r) && n <= b <= |q.ops| && LeftAlone(q, i, n, b) ==>
              OnlyReleased(q, i, n, b)
  {
    var n := |r.ops|;
    var s, op := r.states[n - 1], r.ops[n - 1];
    assert StepAt(r, n - 1);
    StopReleases(s, op, r.states[n], r.outs[n - 1], i);
    hide Step;
    if !Keeps(s, op, i, Velocity) && !Keeps(s, op, i, Effort) {
      forall q, b | Continues(q, r) && n <= b <= |q.ops| && LeftAlone(q, i, n, b)
        ensures OnlyReleased(q, i, n, b)
      {
        SwitchIsOver(q, r, i, b);
      }
    } else {
      ToldJointMoves(r, i, if Keeps(s, op, i, Velocity) then Velocity else Effort);
    }
  }

  lemma SwitchIsOver(q: Run, r: Run, i: nat, b: nat)
    requires IsRun(r) && |r.ops| > 0 && LetsGo(r.states[|r.ops| - 1], r.ops[|r.ops| - 1], i)
    requires !Keeps(r.states[|r.ops| - 1], r.ops[|r.ops| - 1], i, Velocity)
    requires !Keeps(r.states[|r.ops| - 1], r.ops[|r.ops| - 1], i, Effort)
    requires Continues(q, r) && |r.ops| <= b <= |q.ops| && LeftAlone(q, i, |r.ops|, b)
    ensures i < |q.states[|r.ops|].joints| && OnlyReleased(q, i, |r.ops|, b)
  {
    var n := |r.ops|;
    assert q.ops[n - 1] == r.ops[n - 1] && q.states[n - 1] == r.states[n - 1];
    hide LetsGo;
    hide Keeps;
    StoppedJointIsReleased(q, n - 1, i, b);
  }
}
