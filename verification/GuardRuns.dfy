/** The stall guard against the history of a run, and the release of a joint whose controller
    let go of it.
 */
module GuardRuns {
  import opened Numbers
  import opened Joints
  import opened SafeSpec
  import opened SafeRuns
  import opened StatusRuns

  // The stall guard -------------------------------------------------------------------

  /** The steady clock: stall checks of later reads are not earlier. */
  ghost predicate SteadyClock(r: Run) {
    forall p, q :: 0 <= p < q < |r.ops| && r.ops[p].Read? && r.ops[q].Read? ==>
      r.ops[p].stallAt <= r.ops[q].stallAt
  }

  /** Joint i pushes harder than its stall effort at read n. */
  ghost predicate PushesAt(r: Run, i: int, n: int)
    requires IsRun(r) && 0 <= n < |r.ops|
  {
    && r.ops[n].Read? && 0 <= i < |r.states[n].joints|
    && var j := Drain(r.states[n], r.ops[n].batch, r.ops[n].drainedAt).joints[i];
       Abs(j.rawCurrent as real * 0.01 * j.cfg.kt * j.cfg.gearRatio) > j.cfg.stallEffort
  }

  lemma PushesMeaning(r: Run, i: nat, n: nat)
    requires IsRun(r) && n < |r.ops| && r.ops[n].Read? && i < |r.states[n].joints|
    ensures PushesAt(r, i, n) <==> Pushing(Drain(r.states[n], r.ops[n].batch, r.ops[n].drainedAt).joints[i])
  {
    hide IsRun;
  }

  /** ... at read m and at every read from m up to (not including) b. */
  ghost predicate PushesFrom(r: Run, i: int, m: int, b: int)
    requires IsRun(r) && 0 <= m <= b <= |r.ops|
  {
    m < b && r.ops[m].Read? && forall n :: m <= n < b && r.ops[n].Read? ==> PushesAt(r, i, n)
  }

  /** The component is active from the activation in step a up to state b. */
  ghost predicate ActiveSince(r: Run, a: int, b: int)
    requires IsRun(r) && 0 <= a < b <= |r.ops|
  {
    !r.states[a].active && forall n :: a < n <= b ==> r.states[n].active
  }

  /** What the two stall fields of a joint remember: the start of the current push. */
  ghost predicate Remembers(r: Run, i: int, a: int, b: int)
    requires IsRun(r) && 0 <= a < b <= |r.ops| && 0 <= i < |r.states[b].joints|
  {
    var j := r.states[b].joints[i];
    if j.overEffort then
      exists m :: a < m < b && PushesFrom(r, i, m, b) && j.overEffortSince == r.ops[m].stallAt
                  && forall n :: a < n < b && PushesFrom(r, i, n, b) ==> m <= n
    else
      forall n :: a < n < b ==> !PushesFrom(r, i, n, b)
  }

  lemma {:induction false} StallFieldsRemember(r: Run, i: nat, a: nat, b: nat)
    requires IsRun(r) && a < b <= |r.ops| && ActiveSince(r, a, b)
    requires i < |r.states[0].joints| && r.states[0].joints[i].cfg.stallEffort > 0.0
    ensures i < |r.states[b].joints| && Remembers(r, i, a, b)
    decreases b
  {
    RunKeepsInv(r, b);
    RunKeepsInv(r, b - 1);
    if b == a + 1 {
      assert StepAt(r, a);
      ActivationForgetsPushes(r.states[a], r.ops[a], r.states[b], r.outs[a], i);
    } else {
      assert ActiveSince(r, a, b - 1);
      StallFieldsRemember(r, i, a, b - 1);
      if r.ops[b - 1].Read? {
        ReadRemembers(r, i, a, b - 1);
      } else {
        OthersRemember(r, i, a, b - 1);
      }
    }
  }

  lemma ActivationForgetsPushes(s: Sys, op: Op, t: Sys, frames: seq<Frame>, i: nat)
    requires Step(s, op, t, frames) && !s.active && t.active && i < |s.joints|
    ensures i < |t.joints| && !t.joints[i].overEffort
  {
    ActivationShape(s, op, t, frames);
    assert Started(s.joints[i], t.joints[i]);
  }

  lemma OthersKeepPushes(s: Sys, op: Op, t: Sys, frames: seq<Frame>, i: nat)
    requires Step(s, op, t, frames) && !op.Read? && s.active && i < |s.joints|
    ensures i < |t.joints| && t.joints[i].overEffort == s.joints[i].overEffort
    ensures t.joints[i].overEffortSince == s.joints[i].overEffortSince
  {
    JointAfter(s, op, t, frames, i);
  }

  lemma OthersRemember(r: Run, i: nat, a: nat, k: nat)
    requires IsRun(r) && a < k < |r.ops| && ActiveSince(r, a, k + 1) && !r.ops[k].Read?
    requires i < |r.states[k].joints| && Remembers(r, i, a, k)
    ensures i < |r.states[k + 1].joints| && Remembers(r, i, a, k + 1)
  {
    assert StepAt(r, k);
    var b := k + 1;
    OthersKeepPushes(r.states[k], r.ops[k], r.states[k + 1], r.outs[k], i);
    var j := r.states[k].joints[i];
    forall n | a < n < b ensures PushesFrom(r, i, n, b) <==> n < k && PushesFrom(r, i, n, k) {
    }
    if j.overEffort {
      var m :| a < m < k && PushesFrom(r, i, m, k) && j.overEffortSince == r.ops[m].stallAt
               && forall n :: a < n < k && PushesFrom(r, i, n, k) ==> m <= n;
      assert PushesFrom(r, i, m, b);
      forall n | a < n < b && PushesFrom(r, i, n, b) ensures m <= n {
        assert PushesFrom(r, i, n, k);
      }
    } else {
      forall n | a < n < b ensures !PushesFrom(r, i, n, b) {
        assert n < k ==> !PushesFrom(r, i, n, k);
      }
    }
  }

  lemma ReadRemembers(r: Run, i: nat, a: nat, k: nat)
    requires IsRun(r) && a < k < |r.ops| && ActiveSince(r, a, k + 1) && r.ops[k].Read?
    requires i < |r.states[0].joints| && r.states[0].joints[i].cfg.stallEffort > 0.0
    requires i < |r.states[k].joints| && Remembers(r, i, a, k)
    ensures i < |r.states[k + 1].joints| && Remembers(r, i, a, k + 1)
  {
    RunKeepsInv(r, k);
    assert StepAt(r, k);
    var op, b := r.ops[k], k + 1;
    var d := Drain(r.states[k], op.batch, op.drainedAt);
    assert JointInv(r.states[k], r.states[k].joints[i]);
    assert Guarded(d.joints[i]);
    assert r.states[k + 1].joints[i] == StallStep(d.joints[i], op.stallAt);
    assert d.joints[i].overEffort == r.states[k].joints[i].overEffort
           && d.joints[i].overEffortSince == r.states[k].joints[i].overEffortSince;
    PushesMeaning(r, i, k);
    hide Step;
    hide Inv;
    hide Drain;
    forall n | a < n < b
      ensures PushesFrom(r, i, n, b) <==>
                PushesAt(r, i, k) && (n == k || (n < k && PushesFrom(r, i, n, k)))
    {
      if n < k && PushesFrom(r, i, n, b) {
        assert PushesAt(r, i, k);
      }
    }
    if PushesAt(r, i, k) {
      if d.joints[i].overEffort {
        var j := r.states[k].joints[i];
        var m :| a < m < k && PushesFrom(r, i, m, k) && j.overEffortSince == r.ops[m].stallAt
                 && forall n :: a < n < k && PushesFrom(r, i, n, k) ==> m <= n;
        assert PushesFrom(r, i, m, b);
        forall n | a < n < b && PushesFrom(r, i, n, b) ensures m <= n {
          assert n == k || PushesFrom(r, i, n, k);
        }
      } else {
        assert PushesFrom(r, i, k, b);
        forall n | a < n < b && PushesFrom(r, i, n, b) ensures k <= n {
        }
      }
    }
  }

  /** The stall guard equals its history specification: it fires at read k exactly when some
      guarded joint has pushed at every read from some earlier read m of this activation up
      to k, and at least its stall time has passed since m. */
  lemma StallGuardIsExact(r: Run, a: nat, k: nat)
    requires IsRun(r) && SteadyClock(r) && a < k < |r.ops| && ActiveSince(r, a, k)
    requires r.ops[k].Read?
    ensures var op := r.ops[k];
            AnyStalled(Drain(r.states[k], op.batch, op.drainedAt).joints, op.stallAt) <==>
            exists i, m :: StallEvidence(r, a, k, i, m)
  {
    RunKeepsInv(r, k);
    var op := r.ops[k];
    var d := Drain(r.states[k], op.batch, op.drainedAt);
    forall i | 0 <= i < |d.joints|
      ensures Stalled(d.joints[i], op.stallAt) <==> exists m :: StallEvidence(r, a, k, i, m)
    {
      JointStallIsExact(r, a, k, i);
    }
  }

  ghost predicate StallEvidence(r: Run, a: int, k: int, i: int, m: int)
    requires IsRun(r) && 0 <= a < k < |r.ops| && r.ops[k].Read?
  {
    && 0 <= i < |r.states[k].joints| && r.states[k].joints[i].cfg.stallEffort > 0.0
    && a < m < k && PushesFrom(r, i, m, k + 1)
    && r.ops[k].stallAt - r.ops[m].stallAt >= r.states[k].joints[i].cfg.stallTimeMs * NS_PER_MS
  }

  lemma JointStallIsExact(r: Run, a: nat, k: nat, i: nat)
    requires IsRun(r) && SteadyClock(r) && a < k < |r.ops| && ActiveSince(r, a, k)
    requires r.ops[k].Read? && i < |r.states[k].joints|
    ensures var op := r.ops[k];
            Stalled(Drain(r.states[k], op.batch, op.drainedAt).joints[i], op.stallAt) <==>
            exists m :: StallEvidence(r, a, k, i, m)
  {
    RunKeepsInv(r, k);
    var op := r.ops[k];
    var j := r.states[k].joints[i];
    var d := Drain(r.states[k], op.batch, op.drainedAt).joints[i];
    assert JointInv(r.states[k], j);
    assert d.cfg == j.cfg && d.overEffort == j.overEffort && d.overEffortSince == j.overEffortSince;
    assert d.hasStatus;
    if j.cfg.stallEffort > 0.0 {
      StallFieldsRemember(r, i, a, k);
      PushesMeaning(r, i, k);
      hide Inv;
      hide IsRun;
      hide Drain;
      if exists m :: StallEvidence(r, a, k, i, m) {
        var m :| StallEvidence(r, a, k, i, m);
        EvidenceStalls(r, a, k, i, m, d);
      }
      if Stalled(d, op.stallAt) {
        StallHasEvidence(r, a, k, i, d);
      }
    }
  }

  lemma EvidenceStalls(r: Run, a: nat, k: nat, i: nat, m: nat, d: Joint)
    requires IsRun(r) && SteadyClock(r) && a < k < |r.ops| && r.ops[k].Read?
    requires i < |r.states[k].joints| && Remembers(r, i, a, k) && StallEvidence(r, a, k, i, m)
    requires var j := r.states[k].joints[i];
             d.cfg == j.cfg && d.overEffort == j.overEffort && d.overEffortSince == j.overEffortSince
    requires d.hasStatus && (PushesAt(r, i, k) <==> Pushing(d))
    ensures Stalled(d, r.ops[k].stallAt)
  {
    var j := r.states[k].joints[i];
    assert PushesAt(r, i, k) && PushesFrom(r, i, m, k);
    var first :| a < first < k && PushesFrom(r, i, first, k)
                 && j.overEffortSince == r.ops[first].stallAt && first <= m;
    assert r.ops[first].stallAt <= r.ops[m].stallAt;
    MillisThreshold(r.ops[k].stallAt - j.overEffortSince, j.cfg.stallTimeMs);
  }

  lemma StallHasEvidence(r: Run, a: nat, k: nat, i: nat, d: Joint)
    requires IsRun(r) && SteadyClock(r) && a < k < |r.ops| && r.ops[k].Read?
    requires i < |r.states[k].joints| && Remembers(r, i, a, k) && Stalled(d, r.ops[k].stallAt)
    requires var j := r.states[k].joints[i];
             d.cfg == j.cfg && d.overEffort == j.overEffort && d.overEffortSince == j.overEffortSince
    requires r.states[k].joints[i].cfg.stallEffort > 0.0 && (PushesAt(r, i, k) <==> Pushing(d))
    ensures exists m :: StallEvidence(r, a, k, i, m)
  {
    var j := r.states[k].joints[i];
    var first :| a < first < k && PushesFrom(r, i, first, k)
                 && j.overEffortSince == r.ops[first].stallAt;
    assert PushesAt(r, i, k);
    assert PushesFrom(r, i, first, k + 1);
    assert r.ops[first].stallAt <= r.ops[k].stallAt;
    MillisThreshold(r.ops[k].stallAt - j.overEffortSince, j.cfg.stallTimeMs);
    assert StallEvidence(r, a, k, i, first);
  }

  // Releasing one joint ---------------------------------------------------------------

  /** The component stays active and no controller switch concerns joint i in a, ..., b - 1. */
  ghost predicate LeftAlone(r: Run, i: int, a: int, b: int)
    requires IsRun(r) && 0 <= a <= b <= |r.ops|
  {
    forall n :: a <= n < b ==> LeftAloneAt(r, i, n)
  }

  ghost predicate LeftAloneAt(r: Run, i: int, n: int)
    requires IsRun(r) && 0 <= n < |r.ops|
  {
    && r.states[n].active && r.states[n + 1].active && 0 <= i < |r.states[n].joints|
    && (r.ops[n].Switch? && r.ops[n].accepted ==>
          !Names(r.ops[n].start, r.states[n].joints[i])
          && !Names(r.ops[n].stop, r.states[n].joints[i]))
  }

  /** Some write in a, ..., b - 1 came at or after the release time. */
  ghost predicate Due(r: Run, releaseAt: int, a: int, b: int)
    requires IsRun(r) && 0 <= a <= b <= |r.ops|
  {
    exists n :: a <= n < b && r.ops[n].Write? && r.ops[n].now >= releaseAt
  }

  /** A released joint is being released until the first due write, whatever the schedule. */
  lemma {:induction false} ReleasesUntilDue(r: Run, i: nat, a: nat, b: nat)
    requires IsRun(r) && a <= b <= |r.ops| && LeftAlone(r, i, a, b)
    requires i < |r.states[a].joints| && r.states[a].joints[i].releasing
    ensures i < |r.states[b].joints|
    ensures r.states[b].joints[i].releaseAt == r.states[a].joints[i].releaseAt
    ensures r.states[b].joints[i].releasing <==> !Due(r, r.states[a].joints[i].releaseAt, a, b)
    decreases b
  {
    RunKeepsInv(r, a);
    RunKeepsInv(r, b);
    if a < b {
      ReleasesUntilDue(r, i, a, b - 1);
      ReleaseStep(r, i, b - 1);
      var at := r.states[a].joints[i].releaseAt;
      if r.ops[b - 1].Write? && r.ops[b - 1].now >= at {
        assert Due(r, at, a, b);
      }
      assert Due(r, at, a, b) <==>
             Due(r, at, a, b - 1) || (r.ops[b - 1].Write? && r.ops[b - 1].now >= at);
    }
  }

  lemma ReleaseStep(r: Run, i: nat, k: nat)
    requires IsRun(r) && k < |r.ops| && LeftAloneAt(r, i, k)
    ensures i < |r.states[k].joints| && i < |r.states[k + 1].joints|
    ensures var j, j' := r.states[k].joints[i], r.states[k + 1].joints[i];
            && j'.releaseAt == j.releaseAt
            && j'.releasing == (j.releasing && !(r.ops[k].Write? && r.ops[k].now >= j.releaseAt))
  {
    RunKeepsInv(r, k);
    assert StepAt(r, k);
    if r.ops[k].Read? {
      ReadKeepsRelease(r.states[k], r.ops[k], r.states[k + 1], r.outs[k], i);
    } else {
      JointAfter(r.states[k], r.ops[k], r.states[k + 1], r.outs[k], i);
    }
  }

  lemma ReadKeepsRelease(s: Sys, op: Op, t: Sys, frames: seq<Frame>, i: nat)
    requires op.Read? && Step(s, op, t, frames) && i < |s.joints| && t.active
    ensures i < |t.joints| && t.joints[i].releasing == s.joints[i].releasing
    ensures t.joints[i].releaseAt == s.joints[i].releaseAt
  {
    CheckedControl(s, op.batch, op.drainedAt, op.checkedAt, op.stallAt);
  }

  /** The frames of one motor, in order. */
  function For(frames: seq<Frame>, id: nat): seq<Frame> {
    if frames == [] then []
    else
      var rest := For(frames[..|frames| - 1], id);
      var f := frames[|frames| - 1];
      if f.canId == id then rest + [f] else rest
  }

  lemma {:induction false} ForConcat(a: seq<Frame>, b: seq<Frame>, id: nat)
    ensures For(a + b, id) == For(a, id) + For(b, id)
  {
    if b == [] {
      assert a + b == a;
    } else {
      assert (a + b)[..|a + b| - 1] == a + b[..|b| - 1];
      ForConcat(a, b[..|b| - 1], id);
    }
  }

  lemma {:induction false} ForeignFrames(frames: seq<Frame>, id: nat)
    requires forall f :: f in frames ==> f.canId != id
    ensures For(frames, id) == []
  {
    if frames != [] {
      ForeignFrames(frames[..|frames| - 1], id);
    }
  }

  lemma {:induction false} ReleaseFramesFor(joints: seq<Joint>, now: int, i: nat)
    requires i < |joints|
    requires forall a, b :: 0 <= a < b < |joints| ==> joints[a].cfg.canId != joints[b].cfg.canId
    ensures For(AllReleaseFrames(joints, now), joints[i].cfg.canId) == ReleaseFrames(joints[i], now)
    decreases |joints|
  {
    hide For;
    hide ReleaseFrames;
    var n, id := |joints| - 1, joints[i].cfg.canId;
    ForConcat(AllReleaseFrames(joints[..n], now), ReleaseFrames(joints[n], now), id);
    OwnReleaseFrames(joints[n], now, id);
    if i < n {
      ReleaseFramesFor(joints[..n], now, i);
    } else {
      NoReleaseFramesFor(joints[..n], now, id);
    }
  }

  lemma OwnReleaseFrames(j: Joint, now: int, id: nat)
    ensures For(ReleaseFrames(j, now), id) == if j.cfg.canId == id then ReleaseFrames(j, now) else []
  {
    var frames := ReleaseFrames(j, now);
    if frames != [] {
      assert frames[..0] == [];
    }
  }

  lemma {:induction false} NoReleaseFramesFor(joints: seq<Joint>, now: int, id: nat)
    requires forall a :: 0 <= a < |joints| ==> joints[a].cfg.canId != id
    ensures For(AllReleaseFrames(joints, now), id) == []
  {
    if joints != [] {
      var n := |joints| - 1;
      ForConcat(AllReleaseFrames(joints[..n], now), ReleaseFrames(joints[n], now), id);
      NoReleaseFramesFor(joints[..n], now, id);
      ForeignFrames(ReleaseFrames(joints[n], now), id);
    }
  }

  lemma {:induction false} UpstreamFramesFor(joints: seq<Joint>, claims: set<string>, i: nat)
    requires i < |joints|
    requires forall a, b :: 0 <= a < b < |joints| ==> joints[a].cfg.canId != joints[b].cfg.canId
    ensures For(AllUpstreamFrames(joints, claims), joints[i].cfg.canId) == UpstreamFrames(joints[i], claims)
    decreases |joints|
  {
    hide For;
    hide UpstreamFrame;
    var n, id := |joints| - 1, joints[i].cfg.canId;
    var own := UpstreamFrames(joints[n], claims);
    ForConcat(AllUpstreamFrames(joints[..n], claims), own, id);
    OwnUpstreamFrames(joints[n], claims, id);
    if i < n {
      UpstreamFramesFor(joints[..n], claims, i);
    } else {
      NoOwnUpstreamFrames(joints[..n], claims, id);
    }
  }

  lemma OwnUpstreamFrames(j: Joint, claims: set<string>, id: nat)
    ensures For(UpstreamFrames(j, claims), id) ==
            if j.cfg.canId == id then UpstreamFrames(j, claims) else []
  {
    if j.cfg.canId == id {
      AllOwn(UpstreamFrames(j, claims), id);
    } else {
      ForeignFrames(UpstreamFrames(j, claims), id);
    }
  }

  lemma {:induction false} AllOwn(frames: seq<Frame>, id: nat)
    requires forall f :: f in frames ==> f.canId == id
    ensures For(frames, id) == frames
  {
    if frames != [] {
      AllOwn(frames[..|frames| - 1], id);
    }
  }

  lemma {:induction false} NoOwnUpstreamFrames(joints: seq<Joint>, claims: set<string>, id: nat)
    requires forall a :: 0 <= a < |joints| ==> joints[a].cfg.canId != id
    ensures For(AllUpstreamFrames(joints, claims), id) == []
  {
    if joints != [] {
      var n := |joints| - 1;
      hide For;
      hide UpstreamFrame;
      ForConcat(AllUpstreamFrames(joints[..n], claims), UpstreamFrames(joints[n], claims), id);
      NoOwnUpstreamFrames(joints[..n], claims, id);
      OwnUpstreamFrames(joints[n], claims, id);
    }
  }

  /** In a write, a joint's motor gets its release frame, if it is being released, and then the
      upstream frames of the interfaces that controllers hold. */
  lemma FramesOfJoint(r: Run, k: nat, i: nat)
    requires IsRun(r) && k < |r.ops| && r.ops[k].Write? && r.states[k].active
    requires i < |r.states[k].joints|
    ensures i < |r.states[k + 1].joints| && r.states[k + 1].joints[i].cfg == r.states[k].joints[i].cfg
    ensures r.states[k + 1].joints[i] == Written(r.states[k].joints[i], r.ops[k].period, r.ops[k].now)
    ensures For(r.outs[k], r.states[k].joints[i].cfg.canId)
            == ReleaseFrames(r.states[k].joints[i], r.ops[k].now)
               + UpstreamFrames(r.states[k + 1].joints[i], r.states[k].claims)
  {
    hide Inv;
    hide Step;
    hide Written;
    hide For;
    RunKeepsInv(r, k);
    RunKeepsInv(r, k + 1);
    assert StepAt(r, k);
    var s, t, now := r.states[k], r.states[k + 1], r.ops[k].now;
    JointAfter(s, r.ops[k], t, r.outs[k], i);
    WriteFrames(s, r.ops[k], t, r.outs[k]);
    hide IsRun;
    hide ReleaseFrames;
    hide UpstreamFrames;
    hide AllReleaseFrames;
    hide AllUpstreamFrames;
    ForConcat(AllReleaseFrames(s.joints, now), AllUpstreamFrames(t.joints, s.claims), s.joints[i].cfg.canId);
    ReleaseFramesFor(s.joints, now, i);
    UpstreamFramesFor(t.joints, s.claims, i);
  }

  /** No command reaches the joint's motor: no controller holds its velocity or effort
      interface, and write() passes no position on. */
  ghost predicate CutOff(j: Joint, claims: set<string>) {
    !j.positionClaimed && InterfaceName(j, Velocity) !in claims && InterfaceName(j, Effort) !in claims
  }

  /** In a write, such a joint gets its release frame and nothing else. */
  lemma CutOffJointGetsReleaseOnly(r: Run, k: nat, i: nat)
    requires IsRun(r) && k < |r.ops| && r.ops[k].Write? && r.states[k].active
    requires i < |r.states[k].joints| && CutOff(r.states[k].joints[i], r.states[k].claims)
    ensures For(r.outs[k], r.states[k].joints[i].cfg.canId)
            == ReleaseFrames(r.states[k].joints[i], r.ops[k].now)
  {
    FramesOfJoint(r, k, i);
    var j, u := r.states[k].joints[i], r.states[k + 1].joints[i];
    hide For;
    hide IsRun;
    assert BaseCommand(u, Position) == None;
    assert InterfaceName(u, Velocity) == InterfaceName(j, Velocity);
    assert InterfaceName(u, Effort) == InterfaceName(j, Effort);
  }

  lemma WriteFrames(s: Sys, op: Op, t: Sys, frames: seq<Frame>)
    requires Step(s, op, t, frames) && op.Write? && s.active
    ensures frames == AllReleaseFrames(s.joints, op.now) + AllUpstreamFrames(t.joints, s.claims)
  {
  }

  /** A step from active to active that is not a write sends nothing. */
  lemma OtherStepsAreSilent(r: Run, k: nat)
    requires IsRun(r) && k < |r.ops| && r.states[k].active && r.states[k + 1].active && !r.ops[k].Write?
    ensures r.outs[k] == []
  {
    assert StepAt(r, k);
  }

  /** Joint i is left alone, and no command reaches its motor, in a, ..., b - 1. */
  ghost predicate LeftToItself(r: Run, i: int, a: int, b: int)
    requires IsRun(r) && 0 <= a <= b <= |r.ops|
  {
    forall n :: a <= n < b ==> LeftAloneAt(r, i, n) && CutOff(r.states[n].joints[i], r.states[n].claims)
  }

  /** The writes of a, ..., b - 1 up to the first due one, that one excluded. */
  ghost function WritesBeforeDue(r: Run, releaseAt: int, a: nat, b: nat): nat
    requires IsRun(r) && a <= b <= |r.ops|
  {
    if a == b then 0
    else WritesBeforeDue(r, releaseAt, a, b - 1)
         + if r.ops[b - 1].Write? && !Due(r, releaseAt, a, b) then 1 else 0
  }

  function ZeroSpeeds(id: nat, n: nat): seq<Frame> {
    if n == 0 then [] else ZeroSpeeds(id, n - 1) + [ZeroSpeed(id)]
  }

  /** n zero-speed frames, and then one release if `released`. */
  function BrakedThenReleased(id: nat, n: nat, released: bool): seq<Frame> {
    ZeroSpeeds(id, n) + if released then [Release(id)] else []
  }

  lemma OneFrameMore(id: nat, n: nat)
    ensures BrakedThenReleased(id, n, false) + [ZeroSpeed(id)] == BrakedThenReleased(id, n + 1, false)
    ensures BrakedThenReleased(id, n, false) + [Release(id)] == BrakedThenReleased(id, n, true)
  {
  }

  /** The non-blocking release, over every schedule of writes: a joint that a controller let go
      of gets zero speed in every write before its release time, exactly one release in the
      first write at or after it, and nothing from then on. */
  lemma {:induction false} ReleaseSequence(r: Run, i: nat, a: nat, b: nat)
    requires IsRun(r) && a <= b <= |r.ops| && LeftToItself(r, i, a, b)
    requires i < |r.states[a].joints| && r.states[a].joints[i].releasing
    ensures var j := r.states[a].joints[i];
            For(Sent(r.outs[a..b]), j.cfg.canId)
            == BrakedThenReleased(j.cfg.canId, WritesBeforeDue(r, j.releaseAt, a, b),
                                  Due(r, j.releaseAt, a, b))
    decreases b
  {
    hide IsRun;
    hide LeftToItself;
    hide For;
    hide Sent;
    hide Due;
    hide WritesBeforeDue;
    hide BrakedThenReleased;
    RunLengths(r);
    if a == b {
      NothingSent(r, r.states[a].joints[i].releaseAt, a, r.states[a].joints[i].cfg.canId);
    } else {
      LeftToItselfBefore(r, i, a, b - 1, b);
      ReleaseSequence(r, i, a, b - 1);
      ReleaseSequenceGrows(r, i, a, b - 1, b);
    }
  }

  lemma NothingSent(r: Run, releaseAt: int, a: nat, id: nat)
    requires IsRun(r) && a <= |r.ops|
    ensures For(Sent(r.outs[a..a]), id)
            == BrakedThenReleased(id, WritesBeforeDue(r, releaseAt, a, a), Due(r, releaseAt, a, a))
  {
  }

  lemma LeftToItselfBefore(r: Run, i: int, a: nat, k: nat, b: nat)
    requires IsRun(r) && a <= k <= b <= |r.ops| && LeftToItself(r, i, a, b)
    ensures LeftToItself(r, i, a, k)
  {
  }

  lemma WritesGrow(r: Run, releaseAt: int, a: nat, k: nat, next: nat)
    requires IsRun(r) && a <= k < |r.ops| && next == k + 1
    ensures WritesBeforeDue(r, releaseAt, a, next)
            == WritesBeforeDue(r, releaseAt, a, k)
               + if r.ops[k].Write? && !Due(r, releaseAt, a, next) then 1 else 0
  {
    hide IsRun;
    hide Due;
  }

  lemma RunLengths(r: Run)
    requires IsRun(r)
    ensures |r.states| == |r.ops| + 1 && |r.outs| == |r.ops|
  {
  }

  lemma ReleaseSequenceGrows(r: Run, i: nat, a: nat, k: nat, next: nat)
    requires IsRun(r) && a <= k < |r.ops| && next == k + 1 && LeftToItself(r, i, a, next)
    requires i < |r.states[a].joints| && r.states[a].joints[i].releasing
    requires var j := r.states[a].joints[i];
             For(Sent(r.outs[a..k]), j.cfg.canId)
             == BrakedThenReleased(j.cfg.canId, WritesBeforeDue(r, j.releaseAt, a, k), Due(r, j.releaseAt, a, k))
    ensures var j := r.states[a].joints[i];
            For(Sent(r.outs[a..next]), j.cfg.canId)
            == BrakedThenReleased(j.cfg.canId, WritesBeforeDue(r, j.releaseAt, a, next),
                                  Due(r, j.releaseAt, a, next))
  {
    hide IsRun;
    hide For;
    hide Sent;
    hide Due;
    hide LeftToItself;
    hide BrakedThenReleased;
    hide WritesBeforeDue;
    RunLengths(r);
    var id, at := r.states[a].joints[i].cfg.canId, r.states[a].joints[i].releaseAt;
    SentSplits(r, a, k, next, id);
    DueGrows(r, at, a, k, next);
    WritesGrow(r, at, a, k, next);
    ReleaseFrameOfStep(r, i, a, k);
    Longer(id, For(Sent(r.outs[a..k]), id), For(r.outs[k], id), WritesBeforeDue(r, at, a, k),
           Due(r, at, a, k), r.ops[k].Write?, r.ops[k].Write? && r.ops[k].now >= at);
  }

  /** One step of the sequence, on its frames alone. */
  lemma Longer(id: nat, before: seq<Frame>, last: seq<Frame>, n: nat, due: bool, write: bool, late: bool)
    requires before == BrakedThenReleased(id, n, due)
    requires last == if !write || due then [] else if late then [Release(id)] else [ZeroSpeed(id)]
    ensures var dueNow := due || (write && late);
            before + last == BrakedThenReleased(id, n + (if write && !dueNow then 1 else 0), dueNow)
  {
    OneFrameMore(id, n);
    hide BrakedThenReleased;
  }

  lemma ReleaseFrameOfStep(r: Run, i: nat, a: nat, k: nat)
    requires IsRun(r) && a <= k < |r.ops| && LeftToItself(r, i, a, k + 1)
    requires i < |r.states[a].joints| && r.states[a].joints[i].releasing
    ensures var j := r.states[a].joints[i];
            For(r.outs[k], j.cfg.canId) ==
            if !r.ops[k].Write? || Due(r, j.releaseAt, a, k) then []
            else if r.ops[k].now < j.releaseAt then [ZeroSpeed(j.cfg.canId)]
            else [Release(j.cfg.canId)]
  {
    RunKeepsInv(r, a);
    RunKeepsInv(r, k);
    assert LeftAlone(r, i, a, k) && LeftAloneAt(r, i, k);
    ReleasesUntilDue(r, i, a, k);
    hide For;
    hide Due;
    if r.ops[k].Write? {
      CutOffJointGetsReleaseOnly(r, k, i);
    } else {
      OtherStepsAreSilent(r, k);
      ForeignFrames([], r.states[a].joints[i].cfg.canId);
    }
  }

  lemma SentSplits(r: Run, a: nat, k: nat, next: nat, id: nat)
    requires IsRun(r) && a <= k < |r.ops| && next == k + 1
    ensures For(Sent(r.outs[a..next]), id) == For(Sent(r.outs[a..k]), id) + For(r.outs[k], id)
  {
    var all := r.outs[a..next];
    assert all[..|all| - 1] == r.outs[a..k];
    ForConcat(Sent(r.outs[a..k]), r.outs[k], id);
  }

  lemma DueGrows(r: Run, releaseAt: int, a: nat, k: nat, next: nat)
    requires IsRun(r) && a <= k < |r.ops| && next == k + 1
    ensures Due(r, releaseAt, a, next) <==>
            Due(r, releaseAt, a, k) || (r.ops[k].Write? && r.ops[k].now >= releaseAt)
  {
    if r.ops[k].Write? && r.ops[k].now >= releaseAt {
      assert Due(r, releaseAt, a, next);
    }
  }
}
