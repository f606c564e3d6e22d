/** Position targets never jump: the slew limit over whole runs, across controller switches
    and reactivations.
 */
module SlewRuns {
  import opened Numbers
  import opened Joints
  import opened SafeSpec
  import opened SafeRuns

  // One slew step -------------------------------------------------------------------

  /** How far a position is outside the joint limits. */
  function OutsideBy(x: real, limits: Option<Limits>): real {
    match limits
    case None => 0.0
    case Some(l) => if x < l.low then l.low - x else if l.high < x then x - l.high else 0.0
  }

  ghost predicate ValidLimits(limits: Option<Limits>) {
    limits.Some? ==> limits.value.low <= limits.value.high
  }

  ghost predicate Between(x: real, a: real, b: real) {
    (a <= x <= b) || (b <= x <= a)
  }

  /** A slew step is short, heads for the (limited) wanted position without passing it, and
      never takes the target further outside the limits. */
  lemma SlewedStep(target: real, wanted: real, limits: Option<Limits>, step: real)
    requires step >= 0.0 && ValidLimits(limits)
    ensures var next, goal := Slewed(target, wanted, limits, step), Limited(wanted, limits);
            && Abs(next - target) <= step
            && Between(next, target, goal)
            && Abs(goal - next) == Max(Abs(goal - target) - step, 0.0)
            && OutsideBy(next, limits) <= OutsideBy(target, limits)
            && OutsideBy(goal, limits) == 0.0
  {
  }

  lemma OneStepFurther(target: real, before: real, wanted: real, limits: Option<Limits>,
                       step: real, travel: real)
    requires step >= 0.0 && travel >= 0.0 && ValidLimits(limits)
    requires var goal := Limited(wanted, limits);
             Abs(goal - before) == Max(Abs(goal - target) - travel, 0.0) && Between(before, target, goal)
    ensures var goal, now := Limited(wanted, limits), Slewed(before, wanted, limits, step);
            && Abs(goal - now) == Max(Abs(goal - target) - (travel + step), 0.0)
            && Between(now, target, goal)
  {
    SlewedStep(before, wanted, limits, step);
  }

  lemma StepIsPositive(cfg: JointConfig, period: real)
    requires cfg.Valid() && cfg.positionCommanded
    ensures SlewStep(cfg.maxVelocity, period) >= 0.0
  {
  }

  // Whole runs ----------------------------------------------------------------------

  /** Joint i gets a position target in step k. */
  ghost predicate SendsTarget(r: Run, k: int, i: int)
    requires IsRun(r) && 0 <= k < |r.ops|
  {
    && r.ops[k].Write? && r.states[k].active
    && 0 <= i < |r.states[k].joints|
    && r.states[k].joints[i].cfg.positionCommanded && r.states[k].joints[i].positionClaimed
  }

  /** Step k starts the target of joint i at its measured position: an activation, or a
      controller claiming the joint's position interface. */
  ghost predicate Reseeds(r: Run, k: int, i: int)
    requires IsRun(r) && 0 <= k < |r.ops|
  {
    && 0 <= i < |r.states[k].joints|
    && r.states[k].joints[i].cfg.positionCommanded
    && (|| (!r.states[k].active && r.states[k + 1].active)
        || (&& r.ops[k].Switch? && r.ops[k].accepted
            && InterfaceName(r.states[k].joints[i], Position) in r.ops[k].start))
  }

  ghost predicate Anchors(r: Run, k: int, i: int)
    requires IsRun(r) && 0 <= k < |r.ops|
  {
    SendsTarget(r, k, i) || Reseeds(r, k, i)
  }

  ghost function TargetAfter(r: Run, k: int, i: int): Option<real>
    requires IsRun(r) && 0 <= k <= |r.ops|
  {
    if 0 <= i < |r.states[k].joints| then r.states[k].joints[i].target else None
  }

  lemma {:induction false} PositionFrameOf(joints: seq<Joint>, claims: set<string>, f: Frame)
    requires f in AllUpstreamFrames(joints, claims) && f.Motion? && f.interface == Position
    ensures exists i :: 0 <= i < |joints| && f in UpstreamFrame(joints[i], Position, claims)
  {
    var n := |joints| - 1;
    if f in AllUpstreamFrames(joints[..n], claims) {
      PositionFrameOf(joints[..n], claims, f);
      var i :| 0 <= i < n && f in UpstreamFrame(joints[..n][i], Position, claims);
      assert f in UpstreamFrame(joints[i], Position, claims);
    } else {
      assert f in UpstreamFrame(joints[n], Position, claims);
    }
  }

  lemma {:induction false} ReleaseFramesDoNotMove(joints: seq<Joint>, now: int)
    ensures forall f :: f in AllReleaseFrames(joints, now) ==> f.ZeroSpeed? || f.Release?
  {
    if joints != [] {
      ReleaseFramesDoNotMove(joints[..|joints| - 1], now);
    }
  }

  /** Every position frame is the target of some claimed joint, in the motor's sign. */
  lemma PositionFrame(r: Run, k: nat, f: Frame) returns (i: nat)
    requires IsRun(r) && k < |r.ops| && f in r.outs[k] && f.Motion? && f.interface == Position
    ensures SendsTarget(r, k, i)
    ensures TargetAfter(r, k + 1, i).Some?
    ensures var j := r.states[k].joints[i];
            f == Motion(j.cfg.canId, Position, Times(j.cfg.direction, TargetAfter(r, k + 1, i).value))
  {
    OnlyActiveWritesMove(r, k, f);
    assert StepAt(r, k);
    var s, t := r.states[k], r.states[k + 1];
    ReleaseFramesDoNotMove(s.joints, r.ops[k].now);
    PositionFrameOf(t.joints, s.claims, f);
    var n :| 0 <= n < |t.joints| && f in UpstreamFrame(t.joints[n], Position, s.claims);
    i := n;
    assert t.joints[n] == Written(s.joints[n], r.ops[k].period, r.ops[k].now);
  }

  /** Between anchors a target does not move. */
  lemma TargetMovesOnlyAtAnchors(r: Run, k: nat, i: nat)
    requires IsRun(r) && k < |r.ops| && i < |r.states[0].joints|
    requires r.states[0].joints[i].cfg.positionCommanded && !Anchors(r, k, i)
    ensures TargetAfter(r, k + 1, i) == TargetAfter(r, k, i)
    ensures r.states[k + 1].active ==> r.states[k].active
  {
    RunKeepsInv(r, k);
    assert StepAt(r, k);
    var s, op, t := r.states[k], r.ops[k], r.states[k + 1];
    StepKeepsInv(s, op, t, r.outs[k]);
    match op
    case Activate(_) => RefusalKeepsTarget(s, op, t, r.outs[k], i);
    case Switch(_, _, _, _) => SwitchKeepsTarget(s, op, t, r.outs[k], i);
    case _ => OthersKeepTarget(s, op, t, r.outs[k], i);
  }

  lemma RefusalKeepsTarget(s: Sys, op: Op, t: Sys, frames: seq<Frame>, i: nat)
    requires op.Activate? && Step(s, op, t, frames) && !t.active && i < |s.joints|
    ensures i < |t.joints| && t.joints[i].target == s.joints[i].target
  {
    ActivationShape(s, op, t, frames);
    if ActivationRefused(s, t, frames) {
      assert SameButStatus(s.joints[i], t.joints[i]);
    } else {
      assert SameButStatus(ResetAll(s.joints)[i], t.joints[i]);
    }
  }

  lemma SwitchKeepsTarget(s: Sys, op: Op, t: Sys, frames: seq<Frame>, i: nat)
    requires op.Switch? && Step(s, op, t, frames) && i < |s.joints|
    requires op.accepted ==> InterfaceName(s.joints[i], Position) !in op.start
    ensures i < |t.joints| && t.joints[i].target == s.joints[i].target
  {
    JointAfter(s, op, t, frames, i);
  }

  lemma ReadKeepsTarget(s: Sys, op: Op, t: Sys, frames: seq<Frame>, i: nat)
    requires op.Read? && Step(s, op, t, frames) && i < |s.joints|
    ensures i < |t.joints| && t.joints[i].target == s.joints[i].target
  {
    CheckedControl(s, op.batch, op.drainedAt, op.checkedAt, op.stallAt);
  }

  lemma OthersKeepTarget(s: Sys, op: Op, t: Sys, frames: seq<Frame>, i: nat)
    requires Step(s, op, t, frames) && i < |s.joints| && !op.Activate? && !op.Switch?
    requires op.Write? && s.active ==>
               !(s.joints[i].cfg.positionCommanded && s.joints[i].positionClaimed)
    ensures i < |t.joints| && t.joints[i].target == s.joints[i].target
    ensures t.active ==> s.active
  {
    if op.Read? {
      ReadKeepsTarget(s, op, t, frames, i);
    } else {
      JointAfter(s, op, t, frames, i);
    }
  }

  // A constant command ------------------------------------------------------------------

  /** From state a to state k no target of joint i is seeded, and every target it is sent
      answers the same command. */
  ghost predicate Commands(r: Run, i: int, wanted: real, a: int, k: int)
    requires IsRun(r) && 0 <= a <= k <= |r.ops|
  {
    forall n :: a <= n < k ==> CommandsAt(r, i, wanted, n)
  }

  ghost predicate CommandsAt(r: Run, i: int, wanted: real, n: int)
    requires IsRun(r) && 0 <= n < |r.ops|
  {
    !Reseeds(r, n, i) && (SendsTarget(r, n, i) ==> r.states[n].joints[i].commandPosition == Some(wanted))
  }

  /** The slew steps of the writes from state a to state k, together. */
  ghost function Travel(r: Run, i: nat, a: nat, k: nat): real
    requires IsRun(r) && a <= k <= |r.ops|
  {
    if a == k then 0.0
    else
      Travel(r, i, a, k - 1)
      + if SendsTarget(r, k - 1, i)
        then SlewStep(r.states[k - 1].joints[i].cfg.maxVelocity, r.ops[k - 1].period)
        else 0.0
  }

  /** A constant command over a run, with writes of any periods: the target approaches the
      limited command monotonically, by exactly the slew steps of the writes, and is there
      exactly when these cover the gap; never past it. */
  lemma {:induction false} ConstantCommandIsReached(r: Run, i: nat, wanted: real, a: nat, k: nat)
    requires IsRun(r) && a <= k <= |r.ops| && Commands(r, i, wanted, a, k)
    requires i < |r.states[0].joints| && r.states[0].joints[i].cfg.positionCommanded
    requires TargetAfter(r, a, i).Some?
    ensures TargetAfter(r, k, i).Some? && Travel(r, i, a, k) >= 0.0
    ensures var goal := Limited(wanted, r.states[0].joints[i].cfg.limits);
            var first, now := TargetAfter(r, a, i).value, TargetAfter(r, k, i).value;
            && Abs(goal - now) == Max(Abs(goal - first) - Travel(r, i, a, k), 0.0)
            && Between(now, first, goal)
            && (now == goal <==> Abs(goal - first) <= Travel(r, i, a, k))
    decreases k
  {
    if a < k {
      ConstantCommandIsReached(r, i, wanted, a, k - 1);
      assert CommandsAt(r, i, wanted, k - 1);
      if SendsTarget(r, k - 1, i) {
        SentTargetIsSlewed(r, k - 1, i, wanted);
        var cfg := r.states[0].joints[i].cfg;
        StepIsPositive(cfg, r.ops[k - 1].period);
        hide IsRun;
        OneStepFurther(TargetAfter(r, a, i).value, TargetAfter(r, k - 1, i).value, wanted, cfg.limits,
                       SlewStep(cfg.maxVelocity, r.ops[k - 1].period), Travel(r, i, a, k - 1));
      } else {
        TargetMovesOnlyAtAnchors(r, k - 1, i);
      }
    }
  }

  lemma SentTargetIsSlewed(r: Run, n: nat, i: nat, wanted: real)
    requires IsRun(r) && n < |r.ops| && SendsTarget(r, n, i) && TargetAfter(r, n, i).Some?
    requires r.states[n].joints[i].commandPosition == Some(wanted)
    ensures i < |r.states[0].joints| && r.states[n].joints[i].cfg == r.states[0].joints[i].cfg
    ensures var cfg := r.states[0].joints[i].cfg;
            && cfg.Valid() && cfg.positionCommanded && ValidLimits(cfg.limits)
            && TargetAfter(r, n + 1, i) == Some(Slewed(TargetAfter(r, n, i).value, wanted, cfg.limits,
                                                       SlewStep(cfg.maxVelocity, r.ops[n].period)))
  {
    RunKeepsInv(r, n);
    assert StepAt(r, n);
    assert JointInv(r.states[n], r.states[n].joints[i]);
    assert r.states[n + 1].joints[i] == Written(r.states[n].joints[i], r.ops[n].period, r.ops[n].now);
  }

  /** Without a command the target holds. */
  lemma HoldsWithoutCommand(r: Run, n: nat, i: nat)
    requires IsRun(r) && n < |r.ops| && SendsTarget(r, n, i)
    requires r.states[n].joints[i].commandPosition.None?
    ensures TargetAfter(r, n + 1, i) == TargetAfter(r, n, i) && TargetAfter(r, n, i).Some?
  {
    RunKeepsInv(r, n);
    assert StepAt(r, n);
    assert JointInv(r.states[n], r.states[n].joints[i]);
    assert r.states[n + 1].joints[i] == Written(r.states[n].joints[i], r.ops[n].period, r.ops[n].now);
  }

  /** The targets sent to joint i from state a to state k. */
  ghost function Sends(r: Run, i: nat, a: nat, k: nat): nat
    requires IsRun(r) && a <= k <= |r.ops|
  {
    if a == k then 0 else Sends(r, i, a, k - 1) + if SendsTarget(r, k - 1, i) then 1 else 0
  }

  /** With a regular write period the approach is linear, so the command is reached in the
      first write whose number times the step covers the gap. */
  lemma {:induction false} RegularTravel(r: Run, i: nat, step: real, a: nat, k: nat)
    requires IsRun(r) && a <= k <= |r.ops|
    requires forall n :: a <= n < k && SendsTarget(r, n, i) ==>
               SlewStep(r.states[n].joints[i].cfg.maxVelocity, r.ops[n].period) == step
    ensures Travel(r, i, a, k) == Times(Sends(r, i, a, k) as real, step)
    decreases k
  {
    if a == k {
      TimesSign(0.0, step);
    } else {
      RegularTravel(r, i, step, a, k - 1);
      TimesDistributes(step, Sends(r, i, a, k - 1) as real, 1.0);
      assert Times(1.0, step) == step;
      hide IsRun;
      hide Times;
    }
  }

  lemma {:induction false} LastAnchor(r: Run, k: nat, i: nat) returns (m: nat)
    requires IsRun(r) && k <= |r.ops| && i < |r.states[0].joints|
    requires r.states[0].joints[i].cfg.positionCommanded && r.states[k].active
    ensures m < k && Anchors(r, m, i)
    ensures forall n :: m < n < k ==> !Anchors(r, n, i)
    ensures TargetAfter(r, k, i) == TargetAfter(r, m + 1, i)
    decreases k
  {
    if Anchors(r, k - 1, i) {
      m := k - 1;
    } else {
      TargetMovesOnlyAtAnchors(r, k - 1, i);
      m := LastAnchor(r, k - 1, i);
    }
  }

  /** An anchor that is not a send holds the measured position. */
  lemma ReseedIsMeasured(r: Run, m: nat, i: nat)
    requires IsRun(r) && m < |r.ops| && Reseeds(r, m, i)
    ensures i < |r.states[m + 1].joints|
    ensures TargetAfter(r, m + 1, i) == Measured(r.states[m + 1].joints[i])
  {
    assert StepAt(r, m);
    RunKeepsInv(r, m);
    var s, t := r.states[m], r.states[m + 1];
    StepKeepsInv(s, r.ops[m], t, r.outs[m]);
    if r.ops[m].Switch? {
      var j := s.joints[i];
      assert j.cfg.name + "/" <= InterfaceName(j, Position);
      assert Names(r.ops[m].start, j);
    } else {
      ActivationShape(s, r.ops[m], t, r.outs[m]);
      assert Started(s.joints[i], t.joints[i]);
    }
  }

  /** A write period as it counts for the slew limit: late writes as 50 ms. */
  function CappedPeriod(period: real): real {
    if period < 0.0 then 0.0 else if period > 0.05 then 0.05 else period
  }

  /** The slew limit over whole runs. Every position frame f of step k belongs to a joint i
      whose latest anchor m before k, a position frame or a measured position, is at most one
      slew step away; and f is no further outside the limits than that anchor. */
  lemma SlewBound(r: Run, k: nat, f: Frame) returns (i: nat, m: nat)
    requires IsRun(r) && k < |r.ops| && f in r.outs[k] && f.Motion? && f.interface == Position
    ensures r.ops[k].Write? && i < |r.states[k].joints| && f.canId == r.states[k].joints[i].cfg.canId
    ensures m < k && Anchors(r, m, i) && forall n :: m < n < k ==> !Anchors(r, n, i)
    ensures i < |r.states[m + 1].joints| && TargetAfter(r, m + 1, i).Some?
    ensures Reseeds(r, m, i) ==> TargetAfter(r, m + 1, i) == Measured(r.states[m + 1].joints[i])
    ensures !Reseeds(r, m, i) ==>
              SendsTarget(r, m, i) && Motion(f.canId, Position, Times(r.states[k].joints[i].cfg.direction,
                TargetAfter(r, m + 1, i).value)) in r.outs[m]
    ensures var cfg, anchor := r.states[k].joints[i].cfg, TargetAfter(r, m + 1, i).value;
            var sent := Times(cfg.direction, f.value);
            && Abs(f.value - Times(cfg.direction, anchor)) <= Times(cfg.maxVelocity, CappedPeriod(r.ops[k].period))
            && OutsideBy(sent, cfg.limits) <= OutsideBy(anchor, cfg.limits)
  {
    i := PositionFrame(r, k, f);
    RunKeepsInv(r, k);
    assert StepAt(r, k);
    m := LastAnchor(r, k, i);
    var s, t := r.states[k], r.states[k + 1];
    var j := s.joints[i];
    assert JointInv(s, j);
    assert t.joints[i] == Written(j, r.ops[k].period, r.ops[k].now);
    StepIsPositive(j.cfg, r.ops[k].period);
    if j.commandPosition.Some? {
      SlewedStep(j.target.value, j.commandPosition.value, j.cfg.limits,
                 SlewStep(j.cfg.maxVelocity, r.ops[k].period));
    }
    DirectionIsometry(j.cfg.direction, t.joints[i].target.value, j.target.value);
    RunKeepsInv(r, m);
    RunKeepsInv(r, m + 1);
    if Reseeds(r, m, i) {
      ReseedIsMeasured(r, m, i);
    } else {
      SentTargetIsInFrames(r, m, i);
    }
  }

  lemma DirectionIsometry(d: real, x: real, y: real)
    requires d == 1.0 || d == -1.0
    ensures Abs(Times(d, x) - Times(d, y)) == Abs(x - y)
    ensures Times(d, Times(d, x)) == x
  {
  }

  lemma {:induction false} UpstreamFramesContain(joints: seq<Joint>, claims: set<string>, i: nat)
    requires i < |joints|
    ensures forall f :: f in UpstreamFrame(joints[i], Position, claims) ==>
                          f in AllUpstreamFrames(joints, claims)
    decreases |joints|
  {
    var n := |joints| - 1;
    if i < n {
      UpstreamFramesContain(joints[..n], claims, i);
    }
  }

  /** A claimed position joint does get its target: SendsTarget puts the frame on the bus. */
  lemma SentTargetIsInFrames(r: Run, k: nat, i: nat)
    requires IsRun(r) && k < |r.ops| && SendsTarget(r, k, i)
    ensures TargetAfter(r, k + 1, i).Some?
    ensures var cfg := r.states[k].joints[i].cfg;
            Motion(cfg.canId, Position, Times(cfg.direction, TargetAfter(r, k + 1, i).value)) in r.outs[k]
  {
    RunKeepsInv(r, k);
    assert StepAt(r, k);
    var s, t := r.states[k], r.states[k + 1];
    assert JointInv(s, s.joints[i]);
    var j := Written(s.joints[i], r.ops[k].period, r.ops[k].now);
    assert t.joints[i] == j;
    assert InterfaceName(s.joints[i], Position) == InterfaceName(j, Position);
    assert UpstreamFrame(j, Position, s.claims) ==
           [Motion(j.cfg.canId, Position, Times(j.cfg.direction, j.target.value))];
    UpstreamFramesContain(t.joints, s.claims, i);
  }

  /** The retry of write() for a target that is still NaN never runs: while the component is
      active, every position-commanded joint has a target. */
  lemma TargetsAreKnownWhileActive(r: Run, k: nat, i: nat)
    requires IsRun(r) && k <= |r.ops| && r.states[k].active && i < |r.states[k].joints|
    requires r.states[k].joints[i].cfg.positionCommanded
    ensures r.states[k].joints[i].target.Some?
  {
    RunKeepsInv(r, k);
    assert JointInv(r.states[k], r.states[k].joints[i]);
  }
}
