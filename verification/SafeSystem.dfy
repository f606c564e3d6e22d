/** The callbacks of the motor safety plugin, updating the component's fields in place.

    Every method is proved against the transition relation of `SafeSpec`. The clock only
    promises not to run backwards and to advance by at least the time slept; received frames
    and the success of a send are arbitrary.
 */
module SafeSystem {
  import opened Numbers
  import opened Joints
  import opened SafeSpec

  const ACTIVATION_WAIT := 500 * NS_PER_MS
  const POLL_PERIOD := 5 * NS_PER_MS
  const BRAKE_PERIOD := BRAKE_PERIOD_MS * NS_PER_MS

  lemma DrainAllSame(joints: seq<Joint>, batch: seq<Received>, now: int)
    ensures AllSameButStatus(joints, DrainAll(joints, batch, now))
  {
  }

  lemma ZeroFramesIgnoreStatus(a: seq<Joint>, b: seq<Joint>)
    requires |a| == |b| && forall i :: 0 <= i < |a| ==> a[i].cfg == b[i].cfg
    ensures ZeroFrames(a) == ZeroFrames(b)
  {
    if a != [] {
      ZeroFramesIgnoreStatus(a[..|a| - 1], b[..|b| - 1]);
    }
  }

  lemma {:induction false} PollOnce(j: Joint, polls: seq<Poll>, p: Poll)
    ensures Polled(j, polls + [p]) == Drained(Polled(j, polls), p.batch.frames, p.at)
  {
    assert (polls + [p])[..|polls|] == polls;
  }

  /** One more drain. */
  lemma PollAllOnce(joints: seq<Joint>, polls: seq<Poll>, p: Poll)
    ensures PolledAll(joints, polls + [p]) == DrainAll(PolledAll(joints, polls), p.batch.frames, p.at)
  {
    forall i | 0 <= i < |joints| {
      PollOnce(joints[i], polls, p);
    }
  }

  lemma ResetDrained(j: Joint, frames: seq<Received>, now: int)
    ensures Drained(Reset(j), frames, now) == Reset(Drained(j, frames, now))
  {
  }

  lemma NotPolled(j: Joint)
    ensures Polled(j, []) == j
  {
  }

  lemma {:induction false} PolledTwice(j: Joint, first: seq<Poll>, second: seq<Poll>)
    ensures Polled(Reset(Polled(j, first)), second) == Reset(Polled(j, first + second))
  {
    hide Polled;
    hide Drained;
    hide Reset;
    if second == [] {
      assert first + second == first;
      NotPolled(Reset(Polled(j, first)));
    } else {
      var before, p := second[..|second| - 1], second[|second| - 1];
      PolledTwice(j, first, before);
      assert first + second == (first + before) + [p] && second == before + [p];
      PollOnce(j, first + before, p);
      PollOnce(Reset(Polled(j, first)), before, p);
      ResetDrained(Polled(j, first + before), p.batch.frames, p.at);
    }
  }

  /** The drains of zero_joints() go on where those of wait_for_status() ended. */
  lemma PolledAllTwice(joints: seq<Joint>, first: seq<Poll>, second: seq<Poll>)
    ensures PolledAll(ResetAll(PolledAll(joints, first)), second) == ResetAll(PolledAll(joints, first + second))
  {
    forall i | 0 <= i < |joints| {
      PolledTwice(joints[i], first, second);
    }
  }

  /** Drains in order, all in a period of the clock. */
  ghost predicate InOrder(polls: seq<Poll>, from: int, to: int) {
    && (forall n :: 0 <= n < |polls| ==> from <= polls[n].at <= to)
    && (forall m, n :: 0 <= m < n < |polls| ==> polls[m].at <= polls[n].at)
  }

  ghost predicate AllWithin(times: seq<int>, from: int, to: int) {
    forall n :: 0 <= n < |times| ==> from <= times[n] <= to
  }

  /** The three stretches of an activation follow each other. */
  lemma Timely(s: Sys, a: Activation, waited: seq<Poll>, zeroing: seq<Poll>, start: int, mid: int, turn: int, end: int)
    requires a.polls == waited + zeroing && a.waited == |waited| && start <= mid <= turn <= end
    requires !s.socketOpen ==> a.polls == []
    requires InOrder(waited, start, mid) && AllWithin(a.checks, mid, turn)
    requires InOrder(zeroing, turn, end) && AllWithin(a.sentAt, turn, end)
    requires AroundOrigins(zeroing, a.sentAt, a.sendsOk)
    ensures WellTimed(s, a)
  {
    assert a.polls[|waited|..] == zeroing;
    hide AroundOrigins;
    Stretches(waited, a.polls, start, mid, turn, end);
    assert forall n :: 0 <= n < |waited| ==> a.polls[n] == waited[n];
    assert forall n :: |waited| <= n < |a.polls| ==> a.polls[n] == zeroing[n - |waited|];
  }

  lemma Stretches(waited: seq<Poll>, polls: seq<Poll>, start: int, mid: int, turn: int, end: int)
    requires waited <= polls && start <= mid <= turn <= end
    requires InOrder(waited, start, mid) && InOrder(polls[|waited|..], turn, end)
    ensures InOrder(polls, start, end)
  {
    assert forall n :: 0 <= n < |waited| ==> polls[n] == waited[n];
    assert forall n :: |waited| <= n < |polls| ==> polls[n] == polls[|waited|..][n - |waited|];
  }

  lemma PolledConfigs(joints: seq<Joint>, polls: seq<Poll>)
    ensures forall i :: 0 <= i < |joints| ==> PolledAll(joints, polls)[i].cfg == joints[i].cfg
  {
    forall i | 0 <= i < |joints| ensures PolledAll(joints, polls)[i].cfg == joints[i].cfg {
      PolledSame(joints[i], polls);
    }
  }

  /** An activation that on_activate() gives up before it reads anything. */
  lemma NotTried(s: Sys, now: int)
    requires !s.active
    ensures Step(s, Op.Activate(Activation(false, [], 0, [], [], false)), s, [])
    ensures InOrder([], now, now) && AllWithin([], now, now)
  {
  }

  /** ... that ends with wait_for_status() ... */
  lemma NotRecent(s: Sys, a: Activation, t: Sys, start: int, mid: int, end: int)
    requires !s.active && a == Activation(true, a.polls, |a.polls|, a.checks, [], false)
    requires |a.checks| == |s.joints| && !AllRecent(s, a)
    requires t == s.(joints := PolledAll(s.joints, a.polls)) && (!s.socketOpen ==> a.polls == [])
    requires start <= mid <= end && InOrder(a.polls, start, mid) && AllWithin(a.checks, mid, end)
    ensures Step(s, Op.Activate(a), t, [])
    ensures InOrder(a.polls, start, end) && AllWithin(a.checks, start, end)
  {
    hide PolledAll;
    hide AllRecent;
    hide InOrder;
    hide AllWithin;
    hide AroundOrigins;
    hide WellTimed;
    hide Step;
    NothingHappens(end);
    assert a.polls == a.polls + [];
    Timely(s, a, a.polls, [], start, mid, end, end);
    Stretches(a.polls, a.polls, start, mid, end, end) by {
      assert a.polls[|a.polls|..] == [];
    }
    Wider(a.checks, mid, end, start, end);
    StepIsActivation(s, a, t, []);
  }

  lemma WiderOrder(polls: seq<Poll>, from: int, to: int, end: int)
    requires InOrder(polls, from, to) && to <= end
    ensures InOrder(polls, from, end)
  {
  }

  /** The drains of zero_joints(), from those before the origins and those behind. */
  lemma OriginsAround(before: seq<Poll>, polls: seq<Poll>, sentAt: seq<int>, start: int, mid: int, turn: int)
    requires before <= polls && |before| <= 1 && (before == [] ==> polls == [])
    requires InOrder(before, start, mid) && AllWithin(sentAt, mid, turn)
    requires forall n :: |before| <= n < |polls| ==> polls[n].at >= turn
    ensures AroundOrigins(polls, sentAt, true)
    ensures AroundOrigins(before, sentAt, false)
  {
    assert polls != [] ==> polls[0] == before[0];
  }

  lemma NothingHappens(at: int)
    ensures InOrder([], at, at) && AllWithin([], at, at) && AroundOrigins([], [], false)
  {
  }

  lemma StepIsActivation(s: Sys, a: Activation, t: Sys, frames: seq<Frame>)
    ensures Step(s, Op.Activate(a), t, frames) <==> ActivateStep(s, a, t, frames)
  {
  }

  /** ... or that goes on to zero_joints(). */
  lemma Zeroed(s: Sys, a: Activation, t: Sys, frames: seq<Frame>, start: int, mid: int, turn: int, end: int)
    requires !s.active && a.upstreamOk && |a.checks| == |s.joints| && a.waited <= |a.polls| && AllRecent(s, a)
    requires if a.sendsOk && AllOriginsTaken(s, a)
             then t == s.(joints := SeedAll(ResetAll(PolledAll(s.joints, a.polls))), active := true, stopped := false)
                  && frames == ZeroFrames(s.joints)
             else t == s.(joints := ResetAll(PolledAll(s.joints, a.polls)), stopped := true)
                  && exists n, burst :: OriginsThenStop(s, n, burst, frames)
    requires (!s.socketOpen ==> a.polls == []) && start <= mid <= turn <= end
    requires InOrder(a.polls[..a.waited], start, mid) && AllWithin(a.checks, mid, turn)
    requires InOrder(a.polls[a.waited..], turn, end) && AllWithin(a.sentAt, turn, end)
    requires AroundOrigins(a.polls[a.waited..], a.sentAt, a.sendsOk) && (s.socketOpen ==> a.waited < |a.polls|)
    ensures Step(s, Op.Activate(a), t, frames)
    ensures InOrder(a.polls, start, end) && AllWithin(a.checks, start, end)
  {
    hide PolledAll;
    hide AllRecent;
    hide AllOriginsTaken;
    hide OriginsThenStop;
    hide ZeroFrames;
    hide SeedAll;
    hide ResetAll;
    hide InOrder;
    hide AllWithin;
    hide AroundOrigins;
    hide WellTimed;
    hide Step;
    StepIsActivation(s, a, t, frames);
    var waited, zeroing := a.polls[..a.waited], a.polls[a.waited..];
    assert a.polls == waited + zeroing;
    Timely(s, a, waited, zeroing, start, mid, turn, end);
    Stretches(waited, a.polls, start, mid, turn, end);
    Wider(a.checks, mid, turn, start, end);
  }

  lemma Wider(times: seq<int>, from: int, to: int, start: int, end: int)
    requires AllWithin(times, from, to) && start <= from && to <= end
    ensures AllWithin(times, start, end)
  {
  }

  lemma WaitIsAllRecent(s: Sys, a: Activation, waited: seq<Poll>)
    requires waited <= a.polls && a.waited == |waited| && |a.checks| == |s.joints|
    ensures AllRecent(s, a) <==> forall i :: 0 <= i < |s.joints| ==>
              RecentAt(PolledAll(s.joints, waited)[i], a.checks[i], s.statusTimeoutMs)
  {
    assert a.polls[..a.waited] == waited;
  }

  lemma ZeroingIsAllOrigins(s: Sys, a: Activation)
    ensures AllOriginsTaken(s, a) <==> |a.sentAt| == |s.joints| && forall i :: 0 <= i < |s.joints| ==>
              OriginTaken(ResetAll(PolledAll(s.joints, a.polls))[i], a.sentAt[i])
  {
    forall i | 0 <= i < |s.joints| == |a.sentAt|
      ensures OriginTaken(ResetAll(PolledAll(s.joints, a.polls))[i], a.sentAt[i])
              <==> OriginTaken(Polled(s.joints[i], a.polls), a.sentAt[i])
    {
    }
  }

  lemma FramesOfActivation(joints: seq<Joint>, waited: seq<Poll>, n: nat)
    requires n <= |joints|
    ensures ZeroFrames(ResetAll(PolledAll(joints, waited))[..n]) == ZeroFrames(joints[..n])
  {
    PolledConfigs(joints, waited);
    ZeroFramesIgnoreStatus(ResetAll(PolledAll(joints, waited))[..n], joints[..n]);
  }

  /** A stop after `n` joints were sent their origin is a failed activation. */
  lemma ActivationStops(s: Sys, a: Activation, u: Sys, n: nat, burst: seq<Frame>)
    requires n <= |s.joints| && u == s.(joints := ResetAll(PolledAll(s.joints, a.polls)), stopped := false)
    requires StopBurst(u, burst)
    ensures Stopped(u) == s.(joints := ResetAll(PolledAll(s.joints, a.polls)), stopped := true)
    ensures OriginsThenStop(s, n, burst, ZeroFrames(s.joints[..n]) + burst)
  {
    PolledConfigs(s.joints, a.polls);
    assert NotReleasing(u.joints) == u.joints;
    assert Ids(u.joints) == Ids(s.joints);
  }

  function AfterFrame(j: Joint, f: Received, now: int, heard: bool): Joint {
    j.(hasStatus := true, lastStatus := now,
       rawPosition := Int16(f.data[0], f.data[1]), rawCurrent := Int16(f.data[4], f.data[5]),
       temperature := Int8(f.data[6]),
       fault := if f.data[7] != 0 || !heard then f.data[7] else j.fault)
  }

  /** How the declarative drain grows by one frame: the loop body of drain_status(). */
  lemma DrainedByOne(j: Joint, heard: bool, start: Joint, before: seq<Received>, f: Received,
                     now: int)
    requires Heard(j, heard, start, before, now)
    ensures if IsFrom(f, start.cfg.canId)
            then Heard(AfterFrame(j, f, now, heard), true, start, before + [f], now)
            else Heard(j, heard, start, before + [f], now)
  {
    var after := before + [f];
    assert after[..|after| - 1] == before && after[|after| - 1] == f;
    if IsFrom(f, start.cfg.canId) {
      var old_ := From(before, start.cfg.canId);
      var mine := From(after, start.cfg.canId);
      assert mine == old_ + [f] && mine[|mine| - 1] == f && mine[..|mine| - 1] == old_;
      assert LastNonzeroFault(mine) ==
             if f.data[7] != 0 then f.data[7] else LastNonzeroFault(old_);
    }
  }

  /** The state of drain_status() for one joint after some frames. */
  ghost predicate Heard(j: Joint, heard: bool, start: Joint, frames: seq<Received>, now: int) {
    j == Drained(start, frames, now) && (heard <==> From(frames, start.cfg.canId) != [])
  }

  /** The CAN ID check of on_init(): each joint against the ones before it. */
  method FindSharedCanId(joints: seq<Joint>) returns (clash: Option<(nat, nat)>)
    ensures clash.None? <==>
              forall i, k :: 0 <= i < k < |joints| ==> joints[i].cfg.canId != joints[k].cfg.canId
    ensures clash.Some? ==>
              var (j, i) := clash.value;
              && j < i < |joints| && joints[j].cfg.canId == joints[i].cfg.canId
              && (forall h :: 0 <= h < j ==> joints[h].cfg.canId != joints[i].cfg.canId)
              && (forall h, k :: 0 <= h < k < i ==> joints[h].cfg.canId != joints[k].cfg.canId)
  {
    for i := 0 to |joints|
      invariant forall h, k :: 0 <= h < k < i ==> joints[h].cfg.canId != joints[k].cfg.canId
    {
      for j := 0 to i
        invariant forall h :: 0 <= h < j ==> joints[h].cfg.canId != joints[i].cfg.canId
      {
        if joints[j].cfg.canId == joints[i].cfg.canId {
          return Some((j, i));
        }
      }
    }
    clash := None;
  }

  class SafeSystemHardware {
    var joints: seq<Joint>
    var active: bool
    var stopped: bool
    var socketOpen: bool
    // Interfaces claimed in the upstream plugin
    var claims: set<string>
    const statusTimeoutMs: nat
    const brakeMs: nat
    // The steady clock, as last read
    var clock: int
    // Every frame handed to the bus so far
    ghost var trace: seq<Frame>

    function State(): Sys
      reads this
    {
      Sys(joints, active, stopped, socketOpen, claims, statusTimeoutMs, brakeMs)
    }

    constructor (joints: seq<Joint>, statusTimeoutMs: nat, brakeMs: nat)
      ensures State() == Sys(joints, false, true, false, {}, statusTimeoutMs, brakeMs)
      ensures trace == []
    {
      this.joints, this.active, this.stopped, this.socketOpen := joints, false, true, false;
      this.claims, this.statusTimeoutMs, this.brakeMs := {}, statusTimeoutMs, brakeMs;
      this.clock, this.trace := 0, [];
    }

    // Environment -------------------------------------------------------------------

    method Now() returns (t: int)
      modifies this`clock
      ensures old(clock) <= t == clock
    {
      var passed: int :| 0 <= passed;
      clock := clock + passed;
      t := clock;
    }

    method SleepFor(duration: nat)
      modifies this`clock
      ensures clock >= old(clock) + duration
    {
      var late: int :| 0 <= late;
      clock := clock + duration + late;
    }

    method Send(f: Frame) returns (ok: bool)
      modifies this`trace
      ensures trace == old(trace) + [f]
      ensures ok ==> socketOpen
    {
      trace := trace + [f];
      var accepted: bool := *;
      ok := socketOpen && accepted;
    }

    method Receive() returns (batch: Batch)
    {
      batch := *;
    }

    // Stopping ----------------------------------------------------------------------

    method SendRound(speed: bool)
      modifies this`trace
      ensures trace == old(trace) + if speed then SpeedRound(Ids(joints)) else ReleaseRound(Ids(joints))
    {
      ghost var round := if speed then SpeedRound(Ids(joints)) else ReleaseRound(Ids(joints));
      for i := 0 to |joints|
        invariant trace == old(trace) + round[..i]
      {
        var id := joints[i].cfg.canId;
        var ok := Send(if speed then ZeroSpeed(id) else Release(id));
        assert round[..i + 1] == round[..i] + [round[i]];
      }
    }

    method ClearReleasing()
      modifies this`joints
      ensures joints == NotReleasing(old(joints))
    {
      for i := 0 to |joints|
        invariant |joints| == |old(joints)|
        invariant forall k :: 0 <= k < i ==> joints[k] == old(joints)[k].(releasing := false)
        invariant forall k :: i <= k < |joints| ==> joints[k] == old(joints)[k]
      {
        joints := joints[i := joints[i].(releasing := false)];
      }
    }

    // Zero speed, repeated until the braking time is over
    method Brake() returns (ghost rounds: nat)
      modifies this`clock, this`trace
      ensures 1 <= rounds <= brakeMs / 20 + 1
      ensures trace == old(trace) + SpeedRounds(Ids(joints), rounds)
      ensures clock >= old(clock)
      ensures clock > old(clock) + (brakeMs - 20) * NS_PER_MS
    {
      ghost var ids := Ids(joints);
      var start := Now();
      var end := start + brakeMs * NS_PER_MS;
      rounds := 0;
      while true
        invariant trace == old(trace) + SpeedRounds(ids, rounds)
        invariant rounds * BRAKE_PERIOD <= brakeMs * NS_PER_MS
        invariant start + rounds * BRAKE_PERIOD <= clock
        decreases end - clock
      {
        SendRound(true);
        rounds := rounds + 1;
        var now := Now();
        if now + BRAKE_PERIOD > end {
          return;
        }
        SleepFor(BRAKE_PERIOD);
      }
    }

    method StopMotors() returns (ghost frames: seq<Frame>)
      modifies this`stopped, this`joints, this`clock, this`trace
      ensures State() == Stopped(old(State()))
      ensures trace == old(trace) + frames && StopBurst(old(State()), frames)
      ensures clock >= old(clock)
      // The release comes after (almost) the whole braking time at zero speed
      ensures socketOpen ==> clock > old(clock) + (brakeMs - 20) * NS_PER_MS
    {
      stopped := true;
      ClearReleasing();
      frames := [];
      if !socketOpen {
        return;
      }
      ghost var ids := Ids(old(joints));
      assert Ids(joints) == ids;
      ghost var rounds := Brake();
      ghost var braked := trace;
      SendRound(false);
      frames := BrakeThenRelease(ids, rounds);
      assert trace == old(trace) + SpeedRounds(ids, rounds) + ReleaseRound(ids);
      assert trace == old(trace) + frames;
    }

    method ContinueRelease(i: nat, now: int) returns (ghost frames: seq<Frame>)
      requires i < |joints| && joints[i].releasing
      modifies this`joints, this`trace
      ensures frames == ReleaseFrames(old(joints)[i], now) && trace == old(trace) + frames
      ensures joints == old(joints)[i := old(joints)[i].(releasing := now < old(joints)[i].releaseAt)]
    {
      frames := ReleaseFrames(joints[i], now);
      if now < joints[i].releaseAt {
        var sent := Send(ZeroSpeed(joints[i].cfg.canId));
        return;
      }
      joints := joints[i := joints[i].(releasing := false)];
      var sent := Send(Release(joints[i].cfg.canId));
    }

    // Reading -----------------------------------------------------------------------

    method DrainStatus() returns (ok: bool, ghost batch: Batch, ghost drainedAt: int)
      modifies this`joints, this`clock
      ensures State() == Drain(old(State()), batch, drainedAt)
      ensures AllSameButStatus(old(joints), joints)
      ensures ok <==> !(socketOpen && batch.error && active)
      ensures old(clock) <= drainedAt == clock
    {
      var received := Receive();
      batch, drainedAt := received, clock;
      if !socketOpen {
        batch := Batch([], false);
        return true, batch, drainedAt;
      }
      var now := Now();
      drainedAt := now;
      var heard := seq(|joints|, _ => false);
      for n := 0 to |received.frames|
        modifies this`joints
        invariant |heard| == |joints| == |old(joints)|
        invariant forall i :: 0 <= i < |joints| ==>
                    Heard(joints[i], heard[i], old(joints)[i], received.frames[..n], now)
      {
        var f := received.frames[n];
        assert received.frames[..n + 1] == received.frames[..n] + [f];
        if f.complete && f.dlc >= 8 {
          heard := DrainFrame(f, now, heard, old(joints), received.frames[..n]);
        } else {
          forall i | 0 <= i < |joints| {
            DrainedByOne(joints[i], heard[i], old(joints)[i], received.frames[..n], f, now);
          }
        }
      }
      assert received.frames[..|received.frames|] == received.frames;
      assert joints == DrainAll(old(joints), received.frames, now);
      DrainAllSame(old(joints), received.frames, now);
      ok := !(received.error && active);
    }

    // The inner loop of drain_status(): one frame, matched against every joint
    method DrainFrame(f: Received, now: int, heard: seq<bool>, ghost start: seq<Joint>,
                      ghost before: seq<Received>)
      returns (heard': seq<bool>)
      requires f.complete && f.dlc >= 8
      requires |heard| == |joints| == |start|
      requires forall i :: 0 <= i < |joints| ==> Heard(joints[i], heard[i], start[i], before, now)
      modifies this`joints
      ensures |heard'| == |joints| == |start|
      ensures forall i :: 0 <= i < |joints| ==>
                Heard(joints[i], heard'[i], start[i], before + [f], now)
    {
      heard' := heard;
      var id := f.id % 256;
      for i := 0 to |joints|
        invariant |heard'| == |joints| == |start|
        invariant forall k :: 0 <= k < i ==>
                    Heard(joints[k], heard'[k], start[k], before + [f], now)
        invariant forall k :: i <= k < |joints| ==>
                    joints[k] == old(joints)[k] && heard'[k] == heard[k]
      {
        DrainedByOne(joints[i], heard'[i], start[i], before, f, now);
        if joints[i].cfg.canId == id {
          HearJoint(i, f, now, heard'[i]);
          heard' := heard'[i := true];
        }
      }
    }

    method HearJoint(i: nat, f: Received, now: int, heard: bool)
      requires i < |joints|
      modifies this`joints
      ensures joints == old(joints)[i := AfterFrame(old(joints)[i], f, now, heard)]
    {
      var j := joints[i];
      j := j.(hasStatus := true, lastStatus := now,
              rawPosition := Int16(f.data[0], f.data[1]), rawCurrent := Int16(f.data[4], f.data[5]),
              temperature := Int8(f.data[6]));
      if f.data[7] != 0 || !heard {
        j := j.(fault := f.data[7]);
      }
      joints := joints[i := j];
    }

    method MotorsAreHealthy() returns (healthy: bool, ghost batch: Batch, ghost drainedAt: int,
                                       ghost checkedAt: int)
      modifies this`joints, this`clock
      ensures State() == Drain(old(State()), batch, drainedAt)
      ensures healthy <==> MotorsHealthy(State(), batch.error, checkedAt)
      ensures old(clock) <= drainedAt <= checkedAt <= clock
    {
      checkedAt := clock;
      if !socketOpen {
        batch, drainedAt := Batch([], false), clock;
        return !active, batch, drainedAt, checkedAt;
      }
      var ok;
      ok, batch, drainedAt := DrainStatus();
      checkedAt := clock;
      if !ok {
        return false, batch, drainedAt, checkedAt;
      }
      if !active {
        return true, batch, drainedAt, checkedAt;
      }
      var now := Now();
      checkedAt := now;
      for i := 0 to |joints|
        invariant forall k :: 0 <= k < i ==> Healthy(joints[k], now, statusTimeoutMs)
      {
        if joints[i].fault != 0 {
          return false, batch, drainedAt, checkedAt;
        }
        if Millis(now - joints[i].lastStatus) > statusTimeoutMs {
          return false, batch, drainedAt, checkedAt;
        }
      }
      healthy := true;
    }

    method EffortsOk() returns (ok: bool, ghost stallAt: int)
      modifies this`joints, this`clock
      ensures State() == old(State()).(joints := StallScan(old(joints), stallAt))
      ensures ok <==> !AnyStalled(old(joints), stallAt)
      ensures old(clock) <= stallAt == clock
    {
      var now := Now();
      stallAt := now;
      ghost var first := FirstStalled(joints, now);
      for i := 0 to |joints|
        modifies this`joints
        invariant i <= first
        invariant |joints| == |old(joints)|
        invariant forall k :: 0 <= k < i ==> joints[k] == StallStep(old(joints)[k], now)
        invariant forall k :: i <= k < |joints| ==> joints[k] == old(joints)[k]
      {
        var j := joints[i];
        if j.cfg.stallEffort <= 0.0 || !j.hasStatus {
          continue;
        }
        if EffortMagnitude(j) <= j.cfg.stallEffort {
          joints := joints[i := j.(overEffort := false)];
          continue;
        }
        if !j.overEffort {
          joints := joints[i := j.(overEffort := true, overEffortSince := now)];
          continue;
        }
        if Millis(now - j.overEffortSince) >= j.cfg.stallTimeMs {
          assert Stalled(old(joints)[i], now);
          assert joints == StallScan(old(joints), now);
          return false, stallAt;
        }
      }
      assert first == |joints|;
      assert joints == StallScan(old(joints), now);
      ok := true;
    }

    method Read(upstreamOk: bool) returns (ok: bool, ghost op: Op, ghost frames: seq<Frame>)
      modifies this
      ensures op.Read? && Step(old(State()), op, State(), frames)
      ensures trace == old(trace) + frames
      ensures ok == (upstreamOk && !Trips(old(State()), op.batch, op.drainedAt, op.checkedAt, op.stallAt))
      ensures old(clock) <= op.drainedAt <= op.checkedAt <= op.stallAt <= clock
    {
      var healthy;
      ghost var batch, drainedAt, checkedAt;
      healthy, batch, drainedAt, checkedAt := MotorsAreHealthy();
      op := Op.Read(batch, drainedAt, checkedAt, clock);
      if !healthy {
        active := false;
        frames := StopMotors();
        ok := false;
        assert Trips(old(State()), op.batch, op.drainedAt, op.checkedAt, op.stallAt);
        return;
      }
      if active {
        var fine;
        ghost var stallAt;
        fine, stallAt := EffortsOk();
        op := Op.Read(batch, drainedAt, checkedAt, stallAt);
        if !fine {
          active := false;
          frames := StopMotors();
          ok := false;
          return;
        }
      }
      frames := [];
      ok := upstreamOk;
    }

    // Writing -----------------------------------------------------------------------

    method Write(period: real) returns (ghost op: Op, ghost frames: seq<Frame>)
      modifies this`joints, this`clock, this`trace
      ensures op.Write? && op.period == period && Step(old(State()), op, State(), frames)
      ensures trace == old(trace) + frames
      ensures old(clock) <= op.now == clock
    {
      hide Written;
      hide ReleaseFrames;
      hide UpstreamFrames;
      op, frames := Op.Write(period, clock), [];
      if !active {
        return;
      }
      var dt := Clamp(period, 0.0, MAX_SLEW_PERIOD);
      var now := Now();
      op := Op.Write(period, now);
      WriteJoints(dt, now, period);
      UpstreamWrite();
      frames := AllReleaseFrames(old(joints), now) + AllUpstreamFrames(joints, claims);
    }

    method WriteJoints(dt: real, now: int, ghost period: real)
      requires dt == SlewPeriod(period)
      modifies this`joints, this`trace
      ensures joints == WriteAll(old(joints), period, now)
      ensures trace == old(trace) + AllReleaseFrames(old(joints), now)
    {
      for i := 0 to |joints|
        invariant |joints| == |old(joints)|
        invariant forall k :: 0 <= k < i ==> joints[k] == Written(old(joints)[k], period, now)
        invariant forall k :: i <= k < |joints| ==> joints[k] == old(joints)[k]
        invariant trace == old(trace) + AllReleaseFrames(old(joints)[..i], now)
      {
        ghost var prefix := old(joints)[..i + 1];
        assert prefix[..i] == old(joints)[..i] && prefix[i] == old(joints)[i];
        WriteJoint(i, dt, now, period);
      }
      assert old(joints)[..|old(joints)|] == old(joints);
      assert joints == WriteAll(old(joints), period, now);
    }

    // The body of the loop in write(), for one joint
    method WriteJoint(i: nat, dt: real, now: int, ghost period: real)
      requires i < |joints| && dt == SlewPeriod(period)
      modifies this`joints, this`trace
      ensures joints == old(joints)[i := Written(old(joints)[i], period, now)]
      ensures trace == old(trace) + ReleaseFrames(old(joints)[i], now)
    {
      if joints[i].releasing {
        ghost var released := ContinueRelease(i, now);
      }
      var j := joints[i];
      if j.cfg.positionCommanded && j.positionClaimed {
        if j.target.None? {
          j := j.(target := Measured(j));
        }
        if j.target.Some? && j.commandPosition.Some? {
          var wanted := j.commandPosition.value;
          if j.cfg.limits.Some? {
            wanted := Clamp(wanted, j.cfg.limits.value.low, j.cfg.limits.value.high);
          }
          var step := Times(j.cfg.maxVelocity, dt);
          var target := j.target.value + Clamp(wanted - j.target.value, -step, step);
          j := j.(target := Some(target));
        }
        joints := joints[i := j];
      }
    }

    // The upstream plugin's write(), reduced to its contract
    method UpstreamWrite()
      modifies this`trace
      ensures trace == old(trace) + AllUpstreamFrames(joints, claims)
    {
      for i := 0 to |joints|
        invariant trace == old(trace) + AllUpstreamFrames(joints[..i], claims)
      {
        ghost var prefix := joints[..i + 1];
        assert prefix[..i] == joints[..i] && prefix[i] == joints[i];
        trace := trace + UpstreamFrames(joints[i], claims);
      }
      assert joints[..|joints|] == joints;
    }

    // Controller switches -----------------------------------------------------------

    method PerformCommandModeSwitch(start: seq<string>, stop: seq<string>, upstreamOk: bool)
      returns (ghost op: Op)
      modifies this`joints, this`clock, this`claims
      ensures op.Switch? && op.start == start && op.stop == stop && op.accepted == upstreamOk
      ensures Step(old(State()), op, State(), [])
    {
      ghost var nows: seq<int> := [];
      op := Op.Switch(start, stop, nows, upstreamOk);
      if !upstreamOk {
        return;
      }
      claims := NewClaims(claims, start, stop);
      for i := 0 to |joints|
        modifies this`joints, this`clock
        invariant |joints| == |old(joints)| && |nows| == i
        invariant forall k :: 0 <= k < i ==>
                    joints[k] == Switched(old(joints)[k], start, stop, active, nows[k], brakeMs)
        invariant forall k :: i <= k < |joints| ==> joints[k] == old(joints)[k]
      {
        var j := joints[i];
        var stopped := Names(stop, j);
        var started := Names(start, j);
        if stopped {
          j := j.(commandPosition := None, commandVelocity := None, commandEffort := None,
                  positionClaimed := false);
        }
        var now := clock;
        if stopped && !started && active {
          now := Now();
          j := j.(releasing := true, releaseAt := now + brakeMs * NS_PER_MS);
        }
        if started {
          j := j.(releasing := false, positionClaimed := InterfaceName(j, Position) in start);
          if j.positionClaimed {
            j := j.(target := Measured(j));
          }
        }
        assert j == Switched(old(joints)[i], start, stop, active, now, brakeMs);
        joints := joints[i := j];
        nows := nows + [now];
      }
      op := Op.Switch(start, stop, nows, upstreamOk);
      assert joints == SwitchAll(old(State()), start, stop, nows);
    }

    // Activating --------------------------------------------------------------------

    /** The drain of an activation, with the record of the drains so far. */
    method PollStatus(ghost start: seq<Joint>, ghost polls: seq<Poll>, ghost from: int)
      returns (ok: bool, ghost polls': seq<Poll>)
      requires joints == PolledAll(start, polls) && InOrder(polls, from, clock) && from <= clock
      requires !socketOpen ==> polls == []
      modifies this`joints, this`clock
      ensures joints == PolledAll(start, polls') && InOrder(polls', from, clock)
      ensures clock >= old(clock)
      ensures !socketOpen ==> polls' == []
      ensures socketOpen ==> |polls'| == |polls| + 1 && polls <= polls' && polls'[|polls|].at >= old(clock)
      ensures !active ==> ok
    {
      ghost var batch, at;
      ok, batch, at := DrainStatus();
      polls' := polls;
      if socketOpen {
        PollAllOnce(start, polls, Poll(batch, at));
        polls' := polls + [Poll(batch, at)];
      }
    }

    method Recent(i: nat) returns (recent: bool, ghost at: int)
      requires i < |joints|
      modifies this`clock
      ensures old(clock) <= at == clock
      ensures recent <==> joints[i].hasStatus && at - joints[i].lastStatus <= statusTimeoutMs * NS_PER_MS
    {
      at := clock;
      if !joints[i].hasStatus {
        return false, at;
      }
      var now := Now();
      at := now;
      recent := now - joints[i].lastStatus <= statusTimeoutMs * NS_PER_MS;
    }

    method WaitForStatus() returns (ok: bool, ghost polls: seq<Poll>, ghost polledAt: int, ghost checks: seq<int>)
      modifies this`joints, this`clock
      ensures joints == PolledAll(old(joints), polls)
      ensures !socketOpen ==> polls == []
      ensures old(clock) <= polledAt <= clock && InOrder(polls, old(clock), polledAt)
      ensures |checks| == |joints| && AllWithin(checks, polledAt, clock)
      ensures !active ==>
                (ok <==> forall i :: 0 <= i < |joints| ==> RecentAt(joints[i], checks[i], statusTimeoutMs))
    {
      var deadline := Now();
      deadline := deadline + ACTIVATION_WAIT;
      polls := [];
      assert joints == PolledAll(joints, polls);
      while true
        invariant joints == PolledAll(old(joints), polls)
        invariant !socketOpen ==> polls == []
        invariant clock >= old(clock) && InOrder(polls, old(clock), clock)
        decreases deadline - clock
      {
        ok, polls := PollStatus(old(joints), polls, old(clock));
        if !ok {
          ghost var t := clock;
          polledAt, checks := t, seq(|joints|, _ => t);
          return;
        }
        ghost var drainedAt := clock;
        var all := true;
        for i := 0 to |joints|
          modifies this`clock
          invariant clock >= drainedAt
        {
          if all {
            ghost var at;
            all, at := Recent(i);
          }
        }
        if all {
          break;
        }
        var now := Now();
        if now >= deadline {
          break;
        }
        SleepFor(POLL_PERIOD);
      }
      ok, polledAt, checks := true, clock, [];
      for i := 0 to |joints|
        modifies this`clock
        invariant |checks| == i && polledAt <= clock && AllWithin(checks, polledAt, clock)
        invariant ok <==> forall k :: 0 <= k < i ==> RecentAt(joints[k], checks[k], statusTimeoutMs)
      {
        ghost var at;
        var recent;
        recent, at := Recent(i);
        checks := checks + [at];
        if !recent || joints[i].fault != 0 {
          ok := false;
        }
      }
    }

    method SendOrigins() returns (ok: bool, sent: seq<int>, ghost n: nat)
      modifies this`clock, this`trace
      ensures n <= |joints| && trace == old(trace) + ZeroFrames(joints[..n])
      ensures clock >= old(clock) && AllWithin(sent, old(clock), clock)
      ensures ok ==> n == |joints| == |sent|
    {
      sent, n := [], 0;
      for i := 0 to |joints|
        invariant i == n == |sent|
        invariant trace == old(trace) + ZeroFrames(joints[..i])
        invariant clock >= old(clock) && AllWithin(sent, old(clock), clock)
      {
        ghost var prefix := joints[..i + 1];
        assert prefix[..i] == joints[..i] && prefix[i] == joints[i];
        n := i + 1;
        if joints[i].cfg.zeroOnActivate {
          var released := Send(Release(joints[i].cfg.canId));
          var zeroed := Send(SetOrigin(joints[i].cfg.canId));
          if !released || !zeroed {
            return false, sent, n;
          }
          var now := Now();
          sent := sent + [now];
        } else {
          // Never read: only zeroed joints are compared with their send time
          sent := sent + [clock];
        }
      }
      ok := true;
    }

    /** True exactly when every frame was accepted and every joint to zero has been heard after
        its set-origin command and reads 0 within the tolerance. */
    method ZeroJoints() returns (ok: bool, ghost n: nat, ghost polls: seq<Poll>, ghost sentAt: seq<int>,
                                 ghost sendsOk: bool)
      modifies this`joints, this`clock, this`trace
      ensures joints == PolledAll(old(joints), polls)
      ensures !socketOpen ==> polls == []
      ensures clock >= old(clock) && InOrder(polls, old(clock), clock) && AllWithin(sentAt, old(clock), clock)
      ensures n <= |joints| && trace == old(trace) + ZeroFrames(old(joints)[..n])
      ensures sendsOk ==> n == |joints| == |sentAt|
      ensures AroundOrigins(polls, sentAt, sendsOk) && (socketOpen ==> polls != [])
      ensures !active ==>
                (ok <==> sendsOk && forall i :: 0 <= i < |joints| ==> OriginTaken(joints[i], sentAt[i]))
    {
      n, polls, sentAt, sendsOk := 0, [], [], false;
      assert joints == PolledAll(joints, polls);
      ok, polls := PollStatus(old(joints), polls, old(clock));
      if !ok {
        return;
      }
      ghost var drained, mid := polls, clock;
      var sent;
      ok, sent, n := SendOrigins();
      PolledConfigs(old(joints), polls);
      ZeroFramesIgnoreStatus(old(joints)[..n], joints[..n]);
      sentAt, sendsOk := sent, ok;
      ghost var turn := clock;
      hide PolledAll;
      hide ZeroFrames;
      hide InOrder;
      hide AllWithin;
      hide AroundOrigins;
      OriginsAround(drained, drained, sent, old(clock), mid, turn);
      WiderOrder(drained, old(clock), mid, turn);
      Wider(sent, mid, turn, old(clock), turn);
      if !ok {
        return;
      }
      var any := exists i :: 0 <= i < |joints| && joints[i].cfg.zeroOnActivate;
      if !any {
        return;
      }
      ok, polls := AwaitOrigins(sent, old(joints), polls, old(clock));
      OriginsAround(drained, polls, sent, old(clock), mid, turn);
      Wider(sent, mid, turn, old(clock), clock);
    }

    method AwaitOrigins(sent: seq<int>, ghost start: seq<Joint>, ghost before: seq<Poll>, ghost from: int)
      returns (ok: bool, ghost polls: seq<Poll>)
      requires |sent| == |joints|
      requires joints == PolledAll(start, before) && InOrder(before, from, clock) && from <= clock
      requires !socketOpen ==> before == []
      modifies this`joints, this`clock
      ensures joints == PolledAll(start, polls) && InOrder(polls, from, clock)
      ensures clock >= old(clock)
      ensures !socketOpen ==> polls == []
      ensures before <= polls && forall m :: |before| <= m < |polls| ==> polls[m].at >= old(clock)
      ensures !active ==> (ok <==> forall i :: 0 <= i < |joints| ==> OriginTaken(joints[i], sent[i]))
    {
      var deadline := Now();
      deadline := deadline + ACTIVATION_WAIT;
      polls := before;
      while true
        invariant joints == PolledAll(start, polls) && InOrder(polls, from, clock)
        invariant clock >= old(clock) && from <= clock
        invariant !socketOpen ==> polls == []
        invariant before <= polls && forall m :: |before| <= m < |polls| ==> polls[m].at >= old(clock)
        decreases deadline - clock
      {
        ok, polls := PollStatus(start, polls, from);
        if !ok {
          return;
        }
        var done := true;
        for i := 0 to |joints|
          invariant done <==> forall k :: 0 <= k < i ==> OriginTaken(joints[k], sent[k])
        {
          done := done && (!joints[i].cfg.zeroOnActivate
                           || (joints[i].lastStatus > sent[i] && ReadsZero(joints[i])));
        }
        if done {
          return;
        }
        var now := Now();
        if now >= deadline {
          return false, polls;
        }
        SleepFor(POLL_PERIOD);
      }
    }

    // The previous controllers' commands are forgotten
    method ResetJoints()
      modifies this`joints
      ensures joints == ResetAll(old(joints))
    {
      for i := 0 to |joints|
        invariant |joints| == |old(joints)|
        invariant forall k :: 0 <= k < i ==> joints[k] == Reset(old(joints)[k])
        invariant forall k :: i <= k < |joints| ==> joints[k] == old(joints)[k]
      {
        joints := joints[i := joints[i].(commandPosition := None, commandVelocity := None,
                                         commandEffort := None, overEffort := false,
                                         releasing := false)];
      }
    }

    method SeedTargets()
      modifies this`joints
      ensures joints == SeedAll(old(joints))
    {
      for i := 0 to |joints|
        invariant |joints| == |old(joints)|
        invariant forall k :: 0 <= k < i ==> joints[k] == Seeded(old(joints)[k])
        invariant forall k :: i <= k < |joints| ==> joints[k] == old(joints)[k]
      {
        joints := joints[i := joints[i].(
          target := if joints[i].cfg.positionCommanded then Measured(joints[i]) else None)];
      }
    }

    method OnActivate(upstreamOk: bool) returns (ok: bool, ghost a: Activation, ghost frames: seq<Frame>)
      requires !active
      modifies this
      ensures a.upstreamOk == upstreamOk
      ensures Step(old(State()), Op.Activate(a), State(), frames)
      ensures trace == old(trace) + frames
      ensures ok <==> active
      // Nothing is read from the clock before the call or after it
      ensures InOrder(a.polls, old(clock), clock) && AllWithin(a.checks, old(clock), clock)
    {
      frames := [];
      a := Activation(upstreamOk, [], 0, [], [], false);
      assert old(trace) == old(trace) + frames;
      hide Step;
      hide PolledAll;
      hide AllRecent;
      hide AllOriginsTaken;
      hide ResetAll;
      hide SeedAll;
      hide ZeroFrames;
      hide OriginsThenStop;
      hide InOrder;
      hide AllWithin;
      hide AroundOrigins;
      if !upstreamOk {
        NotTried(State(), clock);
        return false, a, frames;
      }
      ghost var waited, polledAt, checks;
      ok, waited, polledAt, checks := WaitForStatus();
      a := Activation(true, waited, |waited|, checks, [], false);
      WaitIsAllRecent(old(State()), a, waited);
      if !ok {
        NotRecent(old(State()), a, State(), old(clock), polledAt, clock);
        return;
      }
      ghost var turn := clock;
      ResetJoints();
      stopped := false;
      ok, a, frames := ZeroOrStop(old(State()), a, turn);
      assert a.polls[..a.waited] == waited;
      Zeroed(old(State()), a, State(), frames, old(clock), polledAt, turn, clock);
    }

    /** The second half of on_activate(), from the call of zero_joints() on: it goes on with the
        record `b` of the first half. */
    method ZeroOrStop(ghost s: Sys, ghost b: Activation, ghost turn: int)
      returns (ok: bool, ghost a: Activation, ghost frames: seq<Frame>)
      requires !active && turn == clock
      requires b.upstreamOk && b.waited == |b.polls| && |b.checks| == |s.joints| && AllRecent(s, b)
      requires State() == s.(joints := ResetAll(PolledAll(s.joints, b.polls)), stopped := false)
      requires !socketOpen ==> b.polls == []
      modifies this
      ensures trace == old(trace) + frames && clock >= turn
      ensures a.upstreamOk && a.waited == b.waited && a.checks == b.checks && b.polls <= a.polls
      ensures InOrder(a.polls[b.waited..], turn, clock) && AllWithin(a.sentAt, turn, clock)
      ensures AroundOrigins(a.polls[b.waited..], a.sentAt, a.sendsOk) && (socketOpen ==> b.waited < |a.polls|)
      ensures !socketOpen ==> a.polls == []
      ensures socketOpen == s.socketOpen && AllRecent(s, a)
      ensures ok == (a.sendsOk && AllOriginsTaken(s, a))
      ensures if ok
              then State() == s.(joints := SeedAll(ResetAll(PolledAll(s.joints, a.polls))), active := true,
                                 stopped := false)
                   && frames == ZeroFrames(s.joints)
              else State() == s.(joints := ResetAll(PolledAll(s.joints, a.polls)), stopped := true)
                   && exists n, burst :: OriginsThenStop(s, n, burst, frames)
    {
      hide PolledAll;
      hide ReadsZero;
      hide ZeroFrames;
      ghost var n, zeroing, sentAt, sendsOk;
      ok, n, zeroing, sentAt, sendsOk := ZeroJoints();
      a := Activation(true, b.polls + zeroing, b.waited, b.checks, sentAt, sendsOk);
      assert a.polls[b.waited..] == zeroing && a.polls[..a.waited] == b.polls == b.polls[..b.waited];
      PolledAllTwice(s.joints, b.polls, zeroing);
      ZeroingIsAllOrigins(s, a);
      FramesOfActivation(s.joints, b.polls, n);
      ghost var zeroed := State();
      frames := ZeroFrames(s.joints[..n]);
      if ok {
        SeedTargets();
        active := true;
        assert s.joints[..n] == s.joints;
      } else {
        ghost var burst := StopMotors();
        ActivationStops(s, a, zeroed, n, burst);
        frames := frames + burst;
      }
    }

    // The other lifecycle callbacks -------------------------------------------------

    method OnConfigure(bound: bool, upstreamOk: bool) returns (ok: bool)
      modifies this`socketOpen
      ensures Step(old(State()), Op.Configure(bound, upstreamOk), State(), [])
      ensures ok == (bound && upstreamOk)
    {
      socketOpen := bound;
      if !socketOpen {
        return false;
      }
      if !upstreamOk {
        socketOpen := false;
      }
      ok := upstreamOk;
    }

    // The stop of on_cleanup, on_shutdown, on_error and the destructor
    method StopUnlessStopped(close: bool) returns (ghost frames: seq<Frame>)
      modifies this
      ensures ExitStep(old(State()), State(), frames, close)
      ensures trace == old(trace) + frames
    {
      active := false;
      frames := [];
      if !stopped {
        frames := StopMotors();
      }
      if close {
        socketOpen := false;
      }
    }

    method OnDeactivate() returns (ghost frames: seq<Frame>)
      modifies this
      ensures Step(old(State()), Op.Deactivate, State(), frames)
      ensures trace == old(trace) + frames
    {
      active := false;
      frames := StopMotors();
    }

    method OnCleanup() returns (ghost frames: seq<Frame>)
      modifies this
      ensures Step(old(State()), Op.Cleanup, State(), frames)
      ensures trace == old(trace) + frames
    {
      frames := StopUnlessStopped(true);
    }

    method OnShutdown() returns (ghost frames: seq<Frame>)
      modifies this
      ensures Step(old(State()), Op.Shutdown, State(), frames)
      ensures trace == old(trace) + frames
    {
      frames := StopUnlessStopped(true);
    }

    // The destructor
    method Destroy() returns (ghost frames: seq<Frame>)
      modifies this
      ensures Step(old(State()), Op.Destroy, State(), frames)
      ensures trace == old(trace) + frames
    {
      frames := StopUnlessStopped(true);
    }

    method OnError() returns (ghost frames: seq<Frame>)
      modifies this
      ensures Step(old(State()), Op.Error, State(), frames)
      ensures trace == old(trace) + frames
    {
      frames := StopUnlessStopped(false);
    }
  }
}
