/** What the plugin knows about its motors, against the status frames drained in a run: the
    watchdog, and how old a status can be when a motor is still driven.
 */
module StatusRuns {
  import opened Numbers
  import opened Joints
  import opened SafeSpec
  import opened SafeRuns

  // The history of drains -----------------------------------------------------------------

  /** The drains of one callback. */
  function PollsOf(s: Sys, op: Op): seq<Poll> {
    if !s.socketOpen then []
    else
      match op
      case Read(batch, drainedAt, _, _) => [Poll(batch, drainedAt)]
      case Activate(a) => if a.upstreamOk then a.polls else []
      case _ => []
  }

  /** All the drains of the first k steps, in order. */
  ghost function PollsBefore(r: Run, k: nat): seq<Poll>
    requires IsRun(r) && k <= |r.ops|
  {
    if k == 0 then [] else PollsBefore(r, k - 1) + PollsOf(r.states[k - 1], r.ops[k - 1])
  }

  /** The last drain that found a usable frame of a motor. */
  function Latest(polls: seq<Poll>, canId: nat): Option<Poll> {
    if polls == [] then None
    else
      var last := polls[|polls| - 1];
      if From(last.batch.frames, canId) != [] then Some(last) else Latest(polls[..|polls| - 1], canId)
  }

  /** The fault a drain reports for a motor: its last nonzero code, or 0 if all are 0. */
  function FaultIn(p: Poll, canId: nat): int {
    LastNonzeroFault(From(p.batch.frames, canId))
  }

  /** Two records of one motor's status. */
  ghost predicate SameStatus(j: Joint, k: Joint) {
    && j.cfg == k.cfg && j.hasStatus == k.hasStatus && j.lastStatus == k.lastStatus
    && j.rawPosition == k.rawPosition && j.rawCurrent == k.rawCurrent
    && j.temperature == k.temperature && j.fault == k.fault
  }

  lemma {:induction false} PolledAlike(j: Joint, k: Joint, polls: seq<Poll>)
    requires SameStatus(j, k)
    ensures SameStatus(Polled(j, polls), Polled(k, polls))
  {
    if polls != [] {
      var n := |polls| - 1;
      PolledAlike(j, k, polls[..n]);
      PolledSame(j, polls[..n]);
      PolledSame(k, polls[..n]);
      hide Polled;
    }
  }

  lemma {:induction false} PolledOn(j: Joint, first: seq<Poll>, second: seq<Poll>)
    ensures Polled(Polled(j, first), second) == Polled(j, first + second)
  {
    if second == [] {
      assert first + second == first;
    } else {
      var n := |second| - 1;
      assert (first + second)[..|first + second| - 1] == first + second[..n];
      PolledOn(j, first, second[..n]);
      hide Drained;
    }
  }

  /** One callback changes a joint's status by its drains, and by nothing else. */
  lemma StatusStep(s: Sys, op: Op, t: Sys, frames: seq<Frame>, i: nat)
    requires Step(s, op, t, frames) && i < |s.joints|
    ensures i < |t.joints| && SameStatus(t.joints[i], Polled(s.joints[i], PollsOf(s, op)))
  {
    match op
    case Activate(_) => ActivationStatus(s, op, t, frames, i);
    case Read(_, _, _, _) => ReadStatus(s, op, t, frames, i);
    case _ => OtherStatus(s, op, t, frames, i);
  }

  lemma OtherStatus(s: Sys, op: Op, t: Sys, frames: seq<Frame>, i: nat)
    requires !op.Activate? && !op.Read? && Step(s, op, t, frames) && i < |s.joints|
    ensures i < |t.joints| && SameStatus(t.joints[i], Polled(s.joints[i], PollsOf(s, op)))
  {
    hide Step;
    hide Switched;
    hide Written;
    JointAfter(s, op, t, frames, i);
    assert Polled(s.joints[i], PollsOf(s, op)) == s.joints[i];
    hide Polled;
    hide PollsOf;
    if op.Switch? && op.accepted && i < |op.nows| {
      SwitchedStatus(s.joints[i], op.start, op.stop, s.active, op.nows[i], s.brakeMs);
    } else if op.Write? {
      WrittenStatus(s.joints[i], op.period, op.now);
    }
  }

  lemma SwitchedStatus(j: Joint, start: seq<string>, stop: seq<string>, active: bool, now: int, brakeMs: nat)
    ensures SameStatus(Switched(j, start, stop, active, now, brakeMs), j)
  {
    hide Names;
  }

  lemma WrittenStatus(j: Joint, period: real, now: int)
    ensures SameStatus(Written(j, period, now), j)
  {
    hide NextTarget;
  }

  lemma ReadStatus(s: Sys, op: Op, t: Sys, frames: seq<Frame>, i: nat)
    requires op.Read? && Step(s, op, t, frames) && i < |s.joints|
    ensures i < |t.joints| && SameStatus(t.joints[i], Polled(s.joints[i], PollsOf(s, op)))
  {
    DrainedIsPolled(s, op, i);
    CheckedStatus(s, op, i);
    hide Polled;
    hide PollsOf;
    hide Drain;
    hide Checked;
    hide StopBurst;
    var c := Checked(s, op.batch, op.drainedAt, op.checkedAt, op.stallAt);
    assert t.joints[i] == c.joints[i] || t.joints[i] == c.joints[i].(releasing := false);
  }

  lemma CheckedStatus(s: Sys, op: Op, i: nat)
    requires op.Read? && i < |s.joints|
    ensures var d := Drain(s, op.batch, op.drainedAt);
            var c := Checked(s, op.batch, op.drainedAt, op.checkedAt, op.stallAt);
            |c.joints| == |d.joints| == |s.joints| && SameStatus(d.joints[i], c.joints[i])
  {
    DrainedIsPolled(s, op, i);
    hide Drain;
    hide PollsOf;
  }

  lemma DrainedIsPolled(s: Sys, op: Op, i: nat)
    requires op.Read? && i < |s.joints|
    ensures var d := Drain(s, op.batch, op.drainedAt);
            i < |d.joints| && d.joints[i] == Polled(s.joints[i], PollsOf(s, op))
  {
    var j, p := s.joints[i], Poll(op.batch, op.drainedAt);
    assert Polled(j, [p]) == Drained(j, p.batch.frames, p.at) by {
      assert [p][..0] == [];
    }
    assert Polled(j, []) == j;
    hide Polled;
    hide Drained;
  }

  lemma ActivationStatus(s: Sys, op: Op, t: Sys, frames: seq<Frame>, i: nat)
    requires op.Activate? && Step(s, op, t, frames) && i < |s.joints|
    ensures i < |t.joints| && SameStatus(t.joints[i], Polled(s.joints[i], PollsOf(s, op)))
  {
    assert Polled(s.joints[i], []) == s.joints[i];
    hide Polled;
    hide WellTimed;
    hide AllRecent;
    hide AllOriginsTaken;
  }

  lemma {:induction false} StatusIsHistory(r: Run, k: nat, i: nat)
    requires IsRun(r) && k <= |r.ops| && i < |r.states[0].joints|
    ensures i < |r.states[k].joints|
    ensures SameStatus(r.states[k].joints[i], Polled(r.states[0].joints[i], PollsBefore(r, k)))
  {
    if k > 0 {
      StatusIsHistory(r, k - 1, i);
      assert StepAt(r, k - 1);
      hide Polled;
      hide Step;
      StatusStep(r.states[k - 1], r.ops[k - 1], r.states[k], r.outs[k - 1], i);
      var polls := PollsOf(r.states[k - 1], r.ops[k - 1]);
      PolledAlike(r.states[k - 1].joints[i], Polled(r.states[0].joints[i], PollsBefore(r, k - 1)), polls);
      PolledOn(r.states[0].joints[i], PollsBefore(r, k - 1), polls);
    } else {
      assert Polled(r.states[0].joints[i], []) == r.states[0].joints[i];
    }
  }

  /** A joint after some drains, seen from the last one that heard its motor. */
  lemma {:induction false} PolledMeaning(j: Joint, polls: seq<Poll>)
    ensures var p, k := Latest(polls, j.cfg.canId), Polled(j, polls);
            && k.cfg == j.cfg
            && (p.None? ==> k == j)
            && (p.Some? ==>
                  var mine := From(p.value.batch.frames, j.cfg.canId);
                  && mine != [] && k.hasStatus && k.lastStatus == p.value.at
                  && k.fault == FaultIn(p.value, j.cfg.canId)
                  && k.rawPosition == Int16(mine[|mine| - 1].data[0], mine[|mine| - 1].data[1])
                  && k.rawCurrent == Int16(mine[|mine| - 1].data[4], mine[|mine| - 1].data[5]))
  {
    if polls != [] {
      PolledMeaning(j, polls[..|polls| - 1]);
      hide LastNonzeroFault;
      hide From;
    }
  }

  /** The status fields of a joint are what the latest drain with a frame of its motor found,
      over every run: when it was, its last nonzero fault, and the last position and current.
      A motor never heard in the run has no status. */
  lemma LastStatusIsLastDrain(r: Run, k: nat, i: nat)
    requires IsRun(r) && k <= |r.ops| && i < |r.states[0].joints|
    ensures i < |r.states[k].joints|
    ensures var j := r.states[k].joints[i];
            var p := Latest(PollsBefore(r, k), j.cfg.canId);
            && (j.hasStatus <==> p.Some?)
            && (p.Some? ==>
                  var mine := From(p.value.batch.frames, j.cfg.canId);
                  && mine != [] && j.lastStatus == p.value.at && j.fault == FaultIn(p.value, j.cfg.canId)
                  && j.rawPosition == Int16(mine[|mine| - 1].data[0], mine[|mine| - 1].data[1])
                  && j.rawCurrent == Int16(mine[|mine| - 1].data[4], mine[|mine| - 1].data[5]))
  {
    hide Polled;
    StatusIsHistory(r, k, i);
    PolledMeaning(r.states[0].joints[i], PollsBefore(r, k));
  }

  // The fault of a batch --------------------------------------------------------------

  /** The fault kept from a batch is its last nonzero code, and 0 only if every code is 0. */
  lemma {:induction false} LastNonzeroFaultMeaning(frames: seq<Received>)
    ensures var fault := LastNonzeroFault(frames);
            if fault == 0 then forall n :: 0 <= n < |frames| ==> frames[n].data[7] == 0
            else exists n :: 0 <= n < |frames| && frames[n].data[7] == fault
                             && forall k :: n < k < |frames| ==> frames[k].data[7] == 0
  {
    if frames != [] {
      var last := |frames| - 1;
      LastNonzeroFaultMeaning(frames[..last]);
      if frames[last].data[7] == 0 && LastNonzeroFault(frames) != 0 {
        var n :| 0 <= n < last && frames[..last][n].data[7] == LastNonzeroFault(frames)
                 && forall k :: n < k < last ==> frames[..last][k].data[7] == 0;
        assert forall k :: n < k < last ==> frames[k] == frames[..last][k];
        assert frames[n].data[7] == LastNonzeroFault(frames);
      }
    }
  }

  // The watchdog ----------------------------------------------------------------------------

  /** Truncation to milliseconds, seen from a threshold. */
  lemma MillisThreshold(ns: int, ms: nat)
    ensures Millis(ns) > ms <==> ns >= (ms + 1) * NS_PER_MS
    ensures ns >= 0 || ms > 0 ==> (Millis(ns) >= ms <==> ns >= ms * NS_PER_MS)
  {
  }

  /** By these drains, a motor was heard without a fault, less than the timeout plus 1 ms
      before `now`. */
  ghost predicate Alive(polls: seq<Poll>, canId: nat, now: int, timeoutMs: nat) {
    var p := Latest(polls, canId);
    p.Some? && FaultIn(p.value, canId) == 0 && now - p.value.at < (timeoutMs + 1) * NS_PER_MS
  }

  /** The watchdog's verdict on one joint, from the frames drained up to and in this read. */
  lemma HealthyIsAlive(r: Run, k: nat, i: nat)
    requires IsRun(r) && k < |r.ops| && r.ops[k].Read? && i < |r.states[k].joints|
    requires r.states[k].active && r.states[k].socketOpen
    ensures var d := Drain(r.states[k], r.ops[k].batch, r.ops[k].drainedAt);
            Healthy(d.joints[i], r.ops[k].checkedAt, d.statusTimeoutMs)
            <==> Alive(PollsBefore(r, k + 1), r.states[k].joints[i].cfg.canId, r.ops[k].checkedAt,
                       r.states[k].statusTimeoutMs)
  {
    hide Polled;
    hide Drained;
    RunKeepsInv(r, k);
    assert JointInv(r.states[k], r.states[k].joints[i]);
    StatusIsHistory(r, k, i);
    var op, start, j := r.ops[k], r.states[0].joints[i], r.states[k].joints[i];
    var p := Poll(op.batch, op.drainedAt);
    var before := PollsBefore(r, k);
    assert PollsBefore(r, k + 1) == before + [p];
    hide IsRun;
    hide Inv;
    PolledAlike(j, Polled(start, before), [p]);
    PolledOnce(j, p);
    PolledOn(start, before, [p]);
    PolledMeaning(start, before + [p]);
    HeardStaysHeard(start, before, p);
    var d := Drain(r.states[k], op.batch, op.drainedAt);
    assert d.joints[i] == Drained(j, p.batch.frames, p.at);
    hide Latest;
    hide FaultIn;
    MillisThreshold(op.checkedAt - d.joints[i].lastStatus, d.statusTimeoutMs);
  }

  lemma PolledOnce(j: Joint, p: Poll)
    ensures Polled(j, [p]) == Drained(j, p.batch.frames, p.at)
  {
    assert [p][..0] == [];
  }

  lemma HeardStaysHeard(j: Joint, before: seq<Poll>, p: Poll)
    ensures (before + [p])[..|before|] == before
    ensures Latest(before, j.cfg.canId).Some? ==> Latest(before + [p], j.cfg.canId).Some?
    ensures Polled(j, before).hasStatus && !j.hasStatus ==> Latest(before, j.cfg.canId).Some?
  {
    assert (before + [p])[..|before|] == before;
    PolledMeaning(j, before);
  }

  /** With an open socket and no read error, an active component goes on exactly when the frames
      drained so far show every motor alive and no joint is stalled; otherwise it stops in
      this very read. */
  lemma WatchdogIsExact(r: Run, k: nat)
    requires IsRun(r) && k < |r.ops| && r.ops[k].Read?
    requires r.states[k].active && r.states[k].socketOpen && !r.ops[k].batch.error
    ensures var s, op := r.states[k], r.ops[k];
            r.states[k + 1].active <==>
              && (forall i :: 0 <= i < |s.joints| ==>
                    Alive(PollsBefore(r, k + 1), s.joints[i].cfg.canId, op.checkedAt, s.statusTimeoutMs))
              && !AnyStalled(Drain(s, op.batch, op.drainedAt).joints, op.stallAt)
  {
    assert StepAt(r, k);
    var d := Drain(r.states[k], r.ops[k].batch, r.ops[k].drainedAt);
    forall i | 0 <= i < |d.joints|
      ensures Healthy(d.joints[i], r.ops[k].checkedAt, d.statusTimeoutMs)
              <==> Alive(PollsBefore(r, k + 1), r.states[k].joints[i].cfg.canId, r.ops[k].checkedAt,
                         r.states[k].statusTimeoutMs)
    {
      HealthyIsAlive(r, k, i);
    }
    hide Alive;
    hide Healthy;
    hide Drained;
  }

  /** A closed socket or a read error stops an active component at once. */
  lemma BrokenSocketStops(r: Run, k: nat)
    requires IsRun(r) && k < |r.ops| && r.ops[k].Read? && r.states[k].active
    requires !r.states[k].socketOpen || r.ops[k].batch.error
    ensures !r.states[k + 1].active
  {
    assert StepAt(r, k);
  }

  // Detection latency -------------------------------------------------------------------------

  /** Neither a read nor an activation in a, ..., b - 1. */
  ghost predicate NoDrain(r: Run, a: int, b: int)
    requires IsRun(r) && 0 <= a <= b <= |r.ops|
  {
    forall n :: a <= n < b ==> !r.ops[n].Read? && !r.ops[n].Activate?
  }

  /** Step c looked at the motors and found them well: a read, or an activation. */
  ghost predicate Passes(r: Run, c: int)
    requires IsRun(r) && 0 <= c < |r.ops|
  {
    (r.ops[c].Read? || r.ops[c].Activate?) && r.states[c + 1].active
  }

  /** When step c looked at joint i. */
  ghost function CheckTime(r: Run, c: int, i: int): int
    requires IsRun(r) && 0 <= c < |r.ops| && Passes(r, c)
  {
    match r.ops[c]
    case Read(_, _, checkedAt, _) => checkedAt
    case Activate(a) => if 0 <= i < |a.checks| then a.checks[i] else 0
  }

  /** The drains it had to go by. An activation goes on draining while it zeroes joints, but no
      longer looks at what it hears. */
  ghost function CheckedPolls(r: Run, c: int): seq<Poll>
    requires IsRun(r) && 0 <= c < |r.ops| && Passes(r, c)
  {
    PollsBefore(r, c)
    + match r.ops[c]
      case Read(_, _, _, _) => PollsOf(r.states[c], r.ops[c])
      case Activate(a) => if a.waited <= |a.polls| then a.polls[..a.waited] else []
  }

  lemma ActiveComesFrom(s: Sys, op: Op, t: Sys, frames: seq<Frame>)
    requires Step(s, op, t, frames) && t.active && !op.Activate?
    ensures s.active
  {
  }

  /** An active component has passed a check, and has not drained since the latest one. */
  lemma {:induction false} LastCheck(r: Run, k: nat) returns (c: nat)
    requires IsRun(r) && k <= |r.ops| && r.states[k].active
    ensures c < k && Passes(r, c) && NoDrain(r, c + 1, k)
  {
    assert k > 0;
    if r.ops[k - 1].Read? || r.ops[k - 1].Activate? {
      c := k - 1;
    } else {
      assert StepAt(r, k - 1);
      ActiveComesFrom(r.states[k - 1], r.ops[k - 1], r.states[k], r.outs[k - 1]);
      c := LastCheck(r, k - 1);
    }
  }

  lemma PassedMeansAlive(r: Run, c: nat, i: nat)
    requires IsRun(r) && c < |r.ops| && Passes(r, c) && i < |r.states[0].joints|
    ensures Alive(CheckedPolls(r, c), r.states[0].joints[i].cfg.canId, CheckTime(r, c, i),
                  r.states[0].statusTimeoutMs)
  {
    RunKeepsInv(r, c);
    assert StepAt(r, c);
    if r.ops[c].Read? {
      ActiveComesFrom(r.states[c], r.ops[c], r.states[c + 1], r.outs[c]);
      if !r.states[c].socketOpen || r.ops[c].batch.error {
        BrokenSocketStops(r, c);
      } else {
        WatchdogIsExact(r, c);
      }
    } else {
      ActivationChecked(r, c, i);
    }
  }

  lemma ActivationChecked(r: Run, c: nat, i: nat)
    requires IsRun(r) && c < |r.ops| && r.ops[c].Activate? && Passes(r, c) && i < |r.states[0].joints|
    ensures Alive(CheckedPolls(r, c), r.states[0].joints[i].cfg.canId, CheckTime(r, c, i),
                  r.states[0].statusTimeoutMs)
  {
    RunKeepsInv(r, c);
    assert StepAt(r, c);
    var s, a, start := r.states[c], r.ops[c].activation, r.states[0].joints[i];
    AcceptedRecent(s, a, r.states[c + 1], r.outs[c], i);
    StatusIsHistory(r, c, i);
    var before, waited := PollsBefore(r, c), a.polls[..a.waited];
    PolledAlike(s.joints[i], Polled(start, before), waited);
    PolledOn(start, before, waited);
    PolledMeaning(start, before + waited);
    hide Polled;
    hide Step;
    hide Inv;
  }

  lemma AcceptedRecent(s: Sys, a: Activation, t: Sys, frames: seq<Frame>, i: nat)
    requires Step(s, Activate(a), t, frames) && t.active && i < |s.joints|
    ensures a.waited <= |a.polls| && |a.checks| == |s.joints|
    ensures RecentAt(Polled(s.joints[i], a.polls[..a.waited]), a.checks[i], s.statusTimeoutMs)
  {
    hide Polled;
    hide WellTimed;
  }

  lemma {:induction false} NoNewPolls(r: Run, a: nat, b: nat)
    requires IsRun(r) && a <= b <= |r.ops| && NoDrain(r, a, b)
    ensures PollsBefore(r, b) == PollsBefore(r, a)
    decreases b
  {
    if a < b {
      NoNewPolls(r, a, b - 1);
    }
  }

  /** Detection latency, over every motion frame of every run. The latest check before it, a read
      or the activation, found each motor alive by the frames it had: so the write comes less
      than the status timeout plus 1 ms plus the time since that check after the motor was last
      heard without a fault. After a read those are all the frames drained so far. */
  lemma MotionFollowsStatus(r: Run, k: nat, f: Frame, i: nat) returns (c: nat)
    requires IsRun(r) && k < |r.ops| && f in r.outs[k] && f.Motion? && i < |r.states[0].joints|
    ensures r.ops[k].Write? && c < k && Passes(r, c) && NoDrain(r, c + 1, k)
    ensures var p := Latest(CheckedPolls(r, c), r.states[0].joints[i].cfg.canId);
            && p.Some? && FaultIn(p.value, r.states[0].joints[i].cfg.canId) == 0
            && r.ops[k].now - p.value.at < (r.states[0].statusTimeoutMs + 1) * NS_PER_MS
                                           + (r.ops[k].now - CheckTime(r, c, i))
    ensures r.ops[c].Read? ==> CheckedPolls(r, c) == PollsBefore(r, k)
  {
    OnlyActiveWritesMove(r, k, f);
    c := LastCheck(r, k);
    PassedMeansAlive(r, c, i);
    AliveAge(CheckedPolls(r, c), r.states[0].joints[i].cfg.canId, CheckTime(r, c, i), r.states[0].statusTimeoutMs);
    if r.ops[c].Read? {
      ReadHasItAll(r, c, k);
    }
    hide IsRun;
    hide Latest;
    hide FaultIn;
    hide CheckedPolls;
    hide CheckTime;
    hide PollsBefore;
  }

  lemma AliveAge(polls: seq<Poll>, canId: nat, now: int, timeoutMs: nat)
    requires Alive(polls, canId, now, timeoutMs)
    ensures var p := Latest(polls, canId);
            p.Some? && FaultIn(p.value, canId) == 0 && now - p.value.at < (timeoutMs + 1) * NS_PER_MS
  {
    hide Latest;
    hide FaultIn;
  }

  lemma ReadHasItAll(r: Run, c: nat, k: nat)
    requires IsRun(r) && c < k <= |r.ops| && Passes(r, c) && r.ops[c].Read? && NoDrain(r, c + 1, k)
    ensures CheckedPolls(r, c) == PollsBefore(r, k)
  {
    NoNewPolls(r, c + 1, k);
    hide IsRun;
  }

  // A fault while zeroing -----------------------------------------------------------------------

  /** What a successful activation leaves of faults: that of the last drain of zero_joints() that
      heard the motor, which nothing has looked at; and none if no such drain did. */
  lemma FaultAfterActivation(r: Run, k: nat, i: nat)
    requires IsRun(r) && k < |r.ops| && !r.states[k].active && r.states[k + 1].active
    requires i < |r.states[0].joints|
    ensures r.ops[k].Activate? && r.ops[k].activation.waited <= |r.ops[k].activation.polls|
    ensures i < |r.states[k + 1].joints|
    ensures var a, id := r.ops[k].activation, r.states[0].joints[i].cfg.canId;
            var p := Latest(a.polls[a.waited..], id);
            r.states[k + 1].joints[i].fault == if p.Some? then FaultIn(p.value, id) else 0
  {
    hide Step;
    hide Inv;
    hide Latest;
    hide FaultIn;
    RunKeepsInv(r, k);
    assert StepAt(r, k);
    hide IsRun;
    if !r.ops[k].Activate? {
      ActiveComesFrom(r.states[k], r.ops[k], r.states[k + 1], r.outs[k]);
    }
    FaultAfterZeroing(r.states[k], r.ops[k].activation, r.states[k + 1], r.outs[k], i);
  }

  lemma FaultAfterZeroing(s: Sys, a: Activation, t: Sys, frames: seq<Frame>, i: nat)
    requires Step(s, Activate(a), t, frames) && t.active && i < |s.joints|
    ensures a.waited <= |a.polls| && i < |t.joints|
    ensures var id := s.joints[i].cfg.canId;
            var p := Latest(a.polls[a.waited..], id);
            t.joints[i].fault == if p.Some? then FaultIn(p.value, id) else 0
  {
    hide Step;
    hide Polled;
    hide Latest;
    AcceptedRecent(s, a, t, frames, i);
    ActivationStatus(s, Activate(a), t, frames, i);
    ActivePolls(s, a, t, frames);
    var waited, zeroing := a.polls[..a.waited], a.polls[a.waited..];
    assert waited + zeroing == a.polls;
    PolledOn(s.joints[i], waited, zeroing);
    PolledMeaning(s.joints[i], waited);
    PolledMeaning(Polled(s.joints[i], waited), zeroing);
  }

  /** A joint that a successful activation has zeroed was heard in a drain that began after its
      origin was sent, at most 1 degree from 0. */
  lemma OriginIsConfirmed(r: Run, k: nat, i: nat)
    requires IsRun(r) && k < |r.ops| && !r.states[k].active && r.states[k + 1].active
    requires i < |r.states[0].joints| && r.states[0].joints[i].cfg.zeroOnActivate
    ensures r.ops[k].Activate? && i < |r.ops[k].activation.sentAt|
    ensures var a, id := r.ops[k].activation, r.states[0].joints[i].cfg.canId;
            var p := Latest(PollsBefore(r, k + 1), id);
            && p.Some? && p.value.at > a.sentAt[i]
            && var mine := From(p.value.batch.frames, id);
               mine != [] && -10 <= Int16(mine[|mine| - 1].data[0], mine[|mine| - 1].data[1]) <= 10
  {
    hide Step;
    hide Latest;
    hide PollsBefore;
    RunKeepsInv(r, k);
    assert StepAt(r, k);
    HeardOnceActive(r, k + 1, i);
    LastStatusIsLastDrain(r, k + 1, i);
    hide IsRun;
    hide Inv;
    if !r.ops[k].Activate? {
      ActiveComesFrom(r.states[k], r.ops[k], r.states[k + 1], r.outs[k]);
    }
    OriginOf(r.states[k], r.ops[k].activation, r.states[k + 1], r.outs[k], i);
  }

  lemma HeardOnceActive(r: Run, k: nat, i: nat)
    requires IsRun(r) && k <= |r.ops| && r.states[k].active && i < |r.states[0].joints|
    ensures i < |r.states[k].joints| && r.states[k].joints[i].hasStatus
    ensures r.states[k].joints[i].cfg == r.states[0].joints[i].cfg
  {
    RunKeepsInv(r, k);
    assert JointInv(r.states[k], r.states[k].joints[i]);
  }

  lemma OriginOf(s: Sys, a: Activation, t: Sys, frames: seq<Frame>, i: nat)
    requires Step(s, Activate(a), t, frames) && t.active && i < |s.joints|
    ensures |a.sentAt| == |s.joints| && i < |t.joints|
    ensures s.joints[i].cfg.zeroOnActivate ==>
              t.joints[i].lastStatus > a.sentAt[i] && -10 <= t.joints[i].rawPosition <= 10
  {
    PolledSame(s.joints[i], a.polls);
    assert OriginTaken(Polled(s.joints[i], a.polls), a.sentAt[i]);
    hide Polled;
    hide WellTimed;
  }

  lemma ActivePolls(s: Sys, a: Activation, t: Sys, frames: seq<Frame>)
    requires Step(s, Activate(a), t, frames) && t.active
    ensures PollsOf(s, Activate(a)) == a.polls
  {
    hide Polled;
  }

  const WELL: Received := Received(1, true, 8, [0, 0, 0, 0, 0, 0, 0, 0])
  const FAULTY: Received := Received(1, true, 8, [0, 0, 0, 0, 0, 0, 0, 3])

  /** One joint that is zeroed on activation. */
  const ZEROED: JointConfig :=
    JointConfig("joint", 1, 1.0, 0.0, 1.0, 1.0, true, false, None, 0.0, 0.0, 0)

  const UNHEARD: Joint :=
    Joint(ZEROED, false, None, false, 0, false, 0, false, 0, 0, 0, 0, 0, None, None, None)

  /** Its motor is well when the activation looks at it, has sent nothing new when its origin is
      set, and reports a fault with the status that confirms the origin. */
  const UNSEEN: Activation :=
    Activation(true, [Poll(Batch([WELL], false), 0), Poll(Batch([], false), 0), Poll(Batch([FAULTY], false), 2)],
               1, [0], [1], true)

  function UnseenFault(): Run {
    var s := Sys([UNHEARD], false, true, false, {}, 100, 300);
    var bound := s.(socketOpen := true);
    var t := bound.(joints := SeedAll(ResetAll(PolledAll([UNHEARD], UNSEEN.polls))), active := true, stopped := false);
    Run([s, bound, t], [Configure(true, true), Activate(UNSEEN)], [[], ZeroFrames([UNHEARD])])
  }

  lemma UnseenBatches()
    ensures From([WELL], 1) == [WELL] && From([], 1) == [] && From([FAULTY], 1) == [FAULTY]
    ensures LastNonzeroFault([WELL]) == 0 && LastNonzeroFault([FAULTY]) == 3
  {
    assert [WELL][..0] == [] && [FAULTY][..0] == [];
  }

  lemma UnseenDrains()
    ensures Polled(UNHEARD, UNSEEN.polls[..1]) == Drained(UNHEARD, [WELL], 0)
    ensures Polled(UNHEARD, UNSEEN.polls)
            == Drained(Drained(Drained(UNHEARD, [WELL], 0), [], 0), [FAULTY], 2)
  {
    hide Drained;
    var first, second := UNSEEN.polls[..1], UNSEEN.polls[..2];
    assert UNSEEN.polls[..|UNSEEN.polls| - 1] == second && second[..|second| - 1] == first;
    assert |first| == 1 && first[..|first| - 1] == [];
    assert Polled(UNHEARD, []) == UNHEARD;
    assert Polled(UNHEARD, first) == Drained(Polled(UNHEARD, []), [WELL], 0);
    assert Polled(UNHEARD, second) == Drained(Polled(UNHEARD, first), [], 0);
    assert Polled(UNHEARD, UNSEEN.polls) == Drained(Polled(UNHEARD, second), [FAULTY], 2);
  }

  lemma UnseenPolls()
    ensures var well, bad := Polled(UNHEARD, UNSEEN.polls[..1]), Polled(UNHEARD, UNSEEN.polls);
            && RecentAt(well, 0, 100) && OriginTaken(bad, 1) && bad.fault == 3
  {
    UnseenBatches();
    UnseenDrains();
    hide Polled;
    hide From;
    hide LastNonzeroFault;
  }

  /** What an activation hears after its check counts for nothing until the first read: it can
      succeed while a motor reports a fault. */
  lemma FaultWhileZeroingIsUnseen()
    ensures var r := UnseenFault();
            && IsRun(r) && r.states[2].active && r.states[2].joints[0].fault == 3
            && FaultIn(r.ops[1].activation.polls[2], 1) == 3
  {
    var r := UnseenFault();
    assert FaultIn(UNSEEN.polls[2], 1) == 3 by {
      assert [FAULTY][..0] == [] && From([FAULTY], 1) == [FAULTY];
    }
    UnseenPolls();
    hide Polled;
    hide FaultIn;
    UnseenSteps();
    hide Step;
    assert Initial(r.states[0]);
  }

  lemma UnseenSteps()
    ensures var r := UnseenFault();
            && Step(r.states[0], r.ops[0], r.states[1], r.outs[0])
            && Step(r.states[1], r.ops[1], r.states[2], r.outs[1])
  {
    var r := UnseenFault();
    UnseenPolls();
    hide Polled;
    hide ZeroFrames;
    hide ReadsZero;
    assert AllRecent(r.states[1], UNSEEN);
    assert AllOriginsTaken(r.states[1], UNSEEN);
    assert UNSEEN.polls[1..] == [UNSEEN.polls[1], UNSEEN.polls[2]];
    assert WellTimed(r.states[1], UNSEEN);
    hide WellTimed;
    hide AllRecent;
    hide AllOriginsTaken;
  }
}
