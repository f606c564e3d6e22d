/** The motor safety plugin as a transition system: its state, its callbacks and the frames
    each callback puts on the bus.
 */
module SafeSpec {
  import opened Numbers
  import opened Joints

  const BRAKE_PERIOD_MS := 20

  datatype Sys = Sys(
    joints: seq<Joint>,
    active: bool,
    stopped: bool,
    socketOpen: bool,
    // Command interfaces the upstream plugin considers claimed
    claims: set<string>,
    statusTimeoutMs: nat,
    brakeMs: nat)

  /** What one drain finds on the socket: the buffered frames, then nothing or an error. */
  datatype Batch = Batch(frames: seq<Received>, error: bool)

  /** One drain of the status socket, and when it began. */
  datatype Poll = Poll(batch: Batch, at: int)

  /** What one activation reads from its environment. */
  datatype Activation = Activation(
    upstreamOk: bool,
    // The drains of wait_for_status(), and behind them those of zero_joints()
    polls: seq<Poll>,
    waited: nat,
    // When the last check of wait_for_status() looked at each joint
    checks: seq<int>,
    // When each joint was sent its origin, and whether every send was accepted
    sentAt: seq<int>,
    sendsOk: bool)

  /** One callback, with everything it reads from its environment: clock readings, received
      frames, and the outcome of the calls into the upstream plugin. */
  datatype Op =
    | Configure(bound: bool, upstreamOk: bool)
    | Activate(activation: Activation)
    | Deactivate
    | Cleanup
    | Shutdown
    | Error
    | Destroy
    | Switch(start: seq<string>, stop: seq<string>, nows: seq<int>, accepted: bool)
    | Command(joint: nat, position: Option<real>, velocity: Option<real>, effort: Option<real>)
    | Read(batch: Batch, drainedAt: int, checkedAt: int, stallAt: int)
    | Write(period: real, now: int)

  // Stopping ------------------------------------------------------------------------

  function Ids(joints: seq<Joint>): (r: seq<nat>)
    ensures |r| == |joints|
  {
    seq(|joints|, i requires 0 <= i < |joints| => joints[i].cfg.canId)
  }

  function SpeedRound(ids: seq<nat>): (r: seq<Frame>)
    ensures |r| == |ids|
  {
    seq(|ids|, i requires 0 <= i < |ids| => ZeroSpeed(ids[i]))
  }

  function ReleaseRound(ids: seq<nat>): (r: seq<Frame>)
    ensures |r| == |ids|
  {
    seq(|ids|, i requires 0 <= i < |ids| => Release(ids[i]))
  }

  function SpeedRounds(ids: seq<nat>, rounds: nat): seq<Frame> {
    if rounds == 0 then [] else SpeedRounds(ids, rounds - 1) + SpeedRound(ids)
  }

  /** The whole stop: some zero-speed rounds, then one release round. */
  function BrakeThenRelease(ids: seq<nat>, rounds: nat): seq<Frame> {
    SpeedRounds(ids, rounds) + ReleaseRound(ids)
  }

  /** Zero speed to every motor for the braking time, then one release to every motor. */
  ghost predicate StopBurst(s: Sys, frames: seq<Frame>) {
    if !s.socketOpen then frames == []
    else exists rounds: nat ::
        && 1 <= rounds <= s.brakeMs / BRAKE_PERIOD_MS + 1
        && frames == BrakeThenRelease(Ids(s.joints), rounds)
  }

  function NotReleasing(joints: seq<Joint>): (r: seq<Joint>)
    ensures |r| == |joints|
  {
    seq(|joints|, i requires 0 <= i < |joints| => joints[i].(releasing := false))
  }

  function Stopped(s: Sys): Sys {
    s.(stopped := true, joints := NotReleasing(s.joints))
  }

  // Reading -------------------------------------------------------------------------

  function DrainAll(joints: seq<Joint>, batch: seq<Received>, now: int): (r: seq<Joint>)
    ensures |r| == |joints|
  {
    seq(|joints|, i requires 0 <= i < |joints| => Drained(joints[i], batch, now))
  }

  function Drain(s: Sys, batch: Batch, now: int): Sys {
    if s.socketOpen then s.(joints := DrainAll(s.joints, batch.frames, now)) else s
  }

  /** motors_healthy(), on the state after the drain. */
  predicate MotorsHealthy(s: Sys, error: bool, now: int) {
    if !s.active then true
    else if !s.socketOpen || error then false
    else forall i :: 0 <= i < |s.joints| ==> Healthy(s.joints[i], now, s.statusTimeoutMs)
  }

  predicate AnyStalled(joints: seq<Joint>, now: int) {
    exists i :: 0 <= i < |joints| && Stalled(joints[i], now)
  }

  function FirstStalled(joints: seq<Joint>, now: int): (n: nat)
    ensures n <= |joints|
    ensures n < |joints| ==> Stalled(joints[n], now)
    ensures forall i :: 0 <= i < n ==> !Stalled(joints[i], now)
  {
    if joints == [] then 0
    else
      var n := FirstStalled(joints[..|joints| - 1], now);
      if n < |joints| - 1 || Stalled(joints[|joints| - 1], now) then n else n + 1
  }

  /** efforts_ok() updates the joints in order and returns at the first stalled one. */
  function StallScan(joints: seq<Joint>, now: int): (r: seq<Joint>)
    ensures |r| == |joints|
  {
    var n := FirstStalled(joints, now);
    seq(|joints|, i requires 0 <= i < |joints| =>
      if i < n then StallStep(joints[i], now) else joints[i])
  }

  /** The watchdog or the stall guard fires in this read. */
  predicate Trips(s: Sys, batch: Batch, drainedAt: int, checkedAt: int, stallAt: int) {
    var d := Drain(s, batch, drainedAt);
    !MotorsHealthy(d, batch.error, checkedAt) || (s.active && AnyStalled(d.joints, stallAt))
  }

  /** The joints after the drain and the guards of one read. */
  function Checked(s: Sys, batch: Batch, drainedAt: int, checkedAt: int, stallAt: int): Sys {
    var d := Drain(s, batch, drainedAt);
    if MotorsHealthy(d, batch.error, checkedAt) && s.active
    then d.(joints := StallScan(d.joints, stallAt)) else d
  }

  // Writing -------------------------------------------------------------------------

  function WriteAll(joints: seq<Joint>, period: real, now: int): (r: seq<Joint>)
    ensures |r| == |joints|
  {
    seq(|joints|, i requires 0 <= i < |joints| => Written(joints[i], period, now))
  }

  function AllReleaseFrames(joints: seq<Joint>, now: int): seq<Frame> {
    if joints == [] then []
    else AllReleaseFrames(joints[..|joints| - 1], now)
         + ReleaseFrames(joints[|joints| - 1], now)
  }

  function AllUpstreamFrames(joints: seq<Joint>, claims: set<string>): seq<Frame> {
    if joints == [] then []
    else AllUpstreamFrames(joints[..|joints| - 1], claims)
         + UpstreamFrames(joints[|joints| - 1], claims)
  }

  // Activating ----------------------------------------------------------------------

  /** A joint after some drains. */
  function Polled(j: Joint, polls: seq<Poll>): Joint {
    if polls == [] then j
    else
      var last := polls[|polls| - 1];
      Drained(Polled(j, polls[..|polls| - 1]), last.batch.frames, last.at)
  }

  function PolledAll(joints: seq<Joint>, polls: seq<Poll>): (r: seq<Joint>)
    ensures |r| == |joints|
  {
    seq(|joints|, i requires 0 <= i < |joints| => Polled(joints[i], polls))
  }

  function Reset(j: Joint): Joint {
    j.(commandPosition := None, commandVelocity := None, commandEffort := None,
       overEffort := false, releasing := false)
  }

  function ZeroFrames(joints: seq<Joint>): seq<Frame> {
    if joints == [] then []
    else
      var j := joints[|joints| - 1];
      ZeroFrames(joints[..|joints| - 1])
      + if j.cfg.zeroOnActivate then [Release(j.cfg.canId), SetOrigin(j.cfg.canId)] else []
  }

  predicate ReadsZero(j: Joint) {
    Abs(j.rawPosition as real * DEG_PER_COUNT) <= ZERO_TOLERANCE_DEG
  }

  ghost predicate AllSameButStatus(a: seq<Joint>, b: seq<Joint>) {
    |a| == |b| && forall i :: 0 <= i < |a| ==> SameButStatus(a[i], b[i])
  }

  /** wait_for_status() accepts a joint it looks at then. */
  predicate RecentAt(j: Joint, at: int, timeoutMs: nat) {
    j.hasStatus && j.fault == 0 && at - j.lastStatus <= timeoutMs * NS_PER_MS
  }

  /** Every motor had been heard within the timeout, without a fault, when it was checked. */
  predicate AllRecent(s: Sys, a: Activation)
    requires a.waited <= |a.polls| && |a.checks| == |s.joints|
  {
    forall i :: 0 <= i < |s.joints| ==>
      RecentAt(Polled(s.joints[i], a.polls[..a.waited]), a.checks[i], s.statusTimeoutMs)
  }

  /** A joint that was to be zeroed has been heard after its origin was sent, and reads 0. */
  predicate OriginTaken(j: Joint, sentAt: int) {
    j.cfg.zeroOnActivate ==> sentAt < j.lastStatus && ReadsZero(j)
  }

  predicate AllOriginsTaken(s: Sys, a: Activation) {
    |a.sentAt| == |s.joints|
    && forall i :: 0 <= i < |s.joints| ==> OriginTaken(Polled(s.joints[i], a.polls), a.sentAt[i])
  }

  /** zero_joints() drains once before it sends the origins, and again only when it has sent
      them all. */
  ghost predicate AroundOrigins(zeroing: seq<Poll>, sentAt: seq<int>, sendsOk: bool) {
    && (!sendsOk ==> |zeroing| <= 1)
    && (forall m :: zeroing != [] && 0 <= m < |sentAt| ==> zeroing[0].at <= sentAt[m])
    && (forall m, n :: 0 <= m < |sentAt| && 0 < n < |zeroing| ==> sentAt[m] <= zeroing[n].at)
  }

  /** The clock readings of an activation are in order. */
  ghost predicate WellTimed(s: Sys, a: Activation)
    requires a.waited <= |a.polls|
  {
    && (!s.socketOpen ==> a.polls == [])
    && (forall m, n :: 0 <= m < n < |a.polls| ==> a.polls[m].at <= a.polls[n].at)
    && (forall n, i :: 0 <= n < a.waited && 0 <= i < |a.checks| ==> a.polls[n].at <= a.checks[i])
    && (forall n, i :: a.waited <= n < |a.polls| && 0 <= i < |a.checks| ==> a.checks[i] <= a.polls[n].at)
    && (forall m, i :: 0 <= m < |a.sentAt| && 0 <= i < |a.checks| ==> a.checks[i] <= a.sentAt[m])
    && AroundOrigins(a.polls[a.waited..], a.sentAt, a.sendsOk)
  }

  function Seeded(j: Joint): Joint {
    j.(target := if j.cfg.positionCommanded then Measured(j) else None)
  }

  function SeedAll(joints: seq<Joint>): (r: seq<Joint>)
    ensures |r| == |joints|
  {
    seq(|joints|, i requires 0 <= i < |joints| => Seeded(joints[i]))
  }

  /** A joint before and after a successful activation, whatever was heard meanwhile. */
  ghost predicate Started(j: Joint, k: Joint) {
    && SameButStatus(Reset(j), k.(target := j.target))
    && k.hasStatus
    && k.target == (if k.cfg.positionCommanded then Measured(k) else None)
    && (k.cfg.zeroOnActivate ==> ReadsZero(k))
  }

  ghost predicate ActivationSucceeds(s: Sys, t: Sys, frames: seq<Frame>) {
    && t == s.(joints := t.joints, active := true, stopped := false)
    && |t.joints| == |s.joints|
    && (forall i :: 0 <= i < |s.joints| ==> Started(s.joints[i], t.joints[i]))
    && frames == ZeroFrames(s.joints)
  }

  /** The upstream plugin refuses, or a motor is silent or faulty. */
  ghost predicate ActivationRefused(s: Sys, t: Sys, frames: seq<Frame>) {
    && t == s.(joints := t.joints)
    && AllSameButStatus(s.joints, t.joints)
    && frames == []
  }

  /** Zeroing fails halfway: the set-origin frames of some first joints, then a full stop. */
  ghost predicate ActivationFails(s: Sys, t: Sys, frames: seq<Frame>) {
    && t == s.(joints := t.joints, stopped := true)
    && AllSameButStatus(ResetAll(s.joints), t.joints)
    && exists n, burst :: OriginsThenStop(s, n, burst, frames)
  }

  ghost predicate OriginsThenStop(s: Sys, n: nat, burst: seq<Frame>, frames: seq<Frame>) {
    n <= |s.joints| && StopBurst(s, burst) && frames == ZeroFrames(s.joints[..n]) + burst
  }

  function ResetAll(joints: seq<Joint>): (r: seq<Joint>)
    ensures |r| == |joints|
  {
    seq(|joints|, i requires 0 <= i < |joints| => Reset(joints[i]))
  }

  // The transition relation ---------------------------------------------------------

  function SwitchAll(s: Sys, start: seq<string>, stop: seq<string>, nows: seq<int>)
    : (r: seq<Joint>)
    requires |nows| == |s.joints|
    ensures |r| == |s.joints|
  {
    seq(|s.joints|, i requires 0 <= i < |s.joints| =>
      Switched(s.joints[i], start, stop, s.active, nows[i], s.brakeMs))
  }

  function NewClaims(claims: set<string>, start: seq<string>, stop: seq<string>): set<string> {
    (claims - (set n | n in stop)) + (set n | n in start)
  }

  ghost predicate ActivateStep(s: Sys, a: Activation, t: Sys, frames: seq<Frame>) {
    // The lifecycle only activates an inactive component
    && !s.active
    && if !a.upstreamOk then t == s && frames == []
       else
         && a.waited <= |a.polls| && |a.checks| == |s.joints| && WellTimed(s, a)
         && (AllRecent(s, a) && s.socketOpen ==> a.waited < |a.polls|)
         && var polled := PolledAll(s.joints, a.polls);
            if !AllRecent(s, a) then
              a.waited == |a.polls| && t == s.(joints := polled) && frames == []
            else if a.sendsOk && AllOriginsTaken(s, a) then
              && t == s.(joints := SeedAll(ResetAll(polled)), active := true, stopped := false)
              && frames == ZeroFrames(s.joints)
            else
              && t == s.(joints := ResetAll(polled), stopped := true)
              && exists n, burst :: OriginsThenStop(s, n, burst, frames)
  }

  /** The three outcomes of an activation, as far as they do not depend on what was heard. */
  lemma ActivationShape(s: Sys, op: Op, t: Sys, frames: seq<Frame>)
    requires op.Activate? && Step(s, op, t, frames)
    ensures !s.active
    ensures t.active ==> ActivationSucceeds(s, t, frames)
    ensures !t.active ==> ActivationRefused(s, t, frames) || ActivationFails(s, t, frames)
  {
    hide WellTimed;
    hide Polled;
    var a := op.activation;
    AllPolledSame(s.joints, a.polls);
    if t.active {
      forall i | 0 <= i < |s.joints| ensures Started(s.joints[i], t.joints[i]) {
        PolledKeeps(s.joints[i], a.polls, a.waited);
        assert RecentAt(Polled(s.joints[i], a.polls[..a.waited]), a.checks[i], s.statusTimeoutMs);
        assert OriginTaken(Polled(s.joints[i], a.polls), a.sentAt[i]);
      }
    }
  }

  lemma AllPolledSame(joints: seq<Joint>, polls: seq<Poll>)
    ensures AllSameButStatus(joints, PolledAll(joints, polls))
    ensures AllSameButStatus(ResetAll(joints), ResetAll(PolledAll(joints, polls)))
  {
    forall i | 0 <= i < |joints| ensures SameButStatus(joints[i], Polled(joints[i], polls)) {
      PolledSame(joints[i], polls);
    }
    hide Polled;
  }

  /** Draining changes the status fields only. */
  lemma {:induction false} PolledSame(j: Joint, polls: seq<Poll>)
    ensures SameButStatus(j, Polled(j, polls))
  {
    if polls != [] {
      PolledSame(j, polls[..|polls| - 1]);
    }
  }

  /** Once heard, a motor stays heard. */
  lemma {:induction false} PolledKeeps(j: Joint, polls: seq<Poll>, n: nat)
    requires n <= |polls|
    ensures Polled(j, polls[..n]).hasStatus ==> Polled(j, polls).hasStatus
    decreases |polls|
  {
    if n == |polls| {
      assert polls[..n] == polls;
    } else {
      assert polls[..|polls| - 1][..n] == polls[..n];
      PolledKeeps(j, polls[..|polls| - 1], n);
    }
  }

  /** The callbacks that stop the component for good, unless it is stopped already. */
  ghost predicate ExitStep(s: Sys, t: Sys, frames: seq<Frame>, closes: bool) {
    if s.stopped then
      && frames == []
      && t == s.(active := false, socketOpen := s.socketOpen && !closes)
    else
      && StopBurst(s, frames)
      && t == Stopped(s).(active := false, socketOpen := s.socketOpen && !closes)
  }

  ghost predicate DeactivateStep(s: Sys, t: Sys, frames: seq<Frame>) {
    t == Stopped(s).(active := false) && StopBurst(s, frames)
  }

  ghost predicate SwitchStep(s: Sys, t: Sys, start: seq<string>, stop: seq<string>, nows: seq<int>) {
    && |nows| == |s.joints|
    && t == s.(joints := SwitchAll(s, start, stop, nows), claims := NewClaims(s.claims, start, stop))
  }

  function Commanded(j: Joint, position: Option<real>, velocity: Option<real>, effort: Option<real>)
    : Joint
  {
    j.(commandPosition := position, commandVelocity := velocity, commandEffort := effort)
  }

  ghost predicate CommandStep(s: Sys, t: Sys, i: nat, position: Option<real>, velocity: Option<real>,
                              effort: Option<real>)
  {
    && i < |s.joints|
    && t == s.(joints := s.joints[i := Commanded(s.joints[i], position, velocity, effort)])
  }

  ghost predicate ReadStep(s: Sys, t: Sys, frames: seq<Frame>, batch: Batch, drainedAt: int,
                           checkedAt: int, stallAt: int)
  {
    var c := Checked(s, batch, drainedAt, checkedAt, stallAt);
    if Trips(s, batch, drainedAt, checkedAt, stallAt)
    then t == Stopped(c).(active := false) && StopBurst(c, frames)
    else t == c && frames == []
  }

  ghost predicate WriteStep(s: Sys, t: Sys, frames: seq<Frame>, period: real, now: int) {
    if !s.active then t == s && frames == []
    else
      && t == s.(joints := WriteAll(s.joints, period, now))
      && frames == AllReleaseFrames(s.joints, now) + AllUpstreamFrames(t.joints, s.claims)
  }

  ghost predicate Step(s: Sys, op: Op, t: Sys, frames: seq<Frame>) {
    match op
    case Configure(bound, upstreamOk) => t == s.(socketOpen := bound && upstreamOk) && frames == []
    case Activate(a) => ActivateStep(s, a, t, frames)
    case Deactivate => DeactivateStep(s, t, frames)
    case Cleanup => ExitStep(s, t, frames, true)
    case Shutdown => ExitStep(s, t, frames, true)
    case Error => ExitStep(s, t, frames, false)
    // Nothing runs after the destructor, whatever active_ was
    case Destroy => ExitStep(s, t, frames, true)
    case Switch(start, stop, nows, accepted) =>
      frames == [] && if accepted then SwitchStep(s, t, start, stop, nows) else t == s
    case Command(i, position, velocity, effort) =>
      frames == [] && CommandStep(s, t, i, position, velocity, effort)
    case Read(batch, drainedAt, checkedAt, stallAt) =>
      ReadStep(s, t, frames, batch, drainedAt, checkedAt, stallAt)
    case Write(period, now) => WriteStep(s, t, frames, period, now)
  }

  /** What one callback makes of one joint, activations and reads aside. */
  lemma JointAfter(s: Sys, op: Op, t: Sys, frames: seq<Frame>, i: nat)
    requires Step(s, op, t, frames) && !op.Activate? && !op.Read? && i < |s.joints|
    ensures |t.joints| == |s.joints|
    ensures op.Switch? ==>
              t.joints[i] == if op.accepted && i < |op.nows|
                             then Switched(s.joints[i], op.start, op.stop, s.active, op.nows[i], s.brakeMs)
                             else s.joints[i]
    ensures op.Write? ==>
              t.joints[i] == if s.active then Written(s.joints[i], op.period, op.now) else s.joints[i]
    ensures op.Command? ==>
              t.joints[i] == if i == op.joint
                             then Commanded(s.joints[i], op.position, op.velocity, op.effort)
                             else s.joints[i]
    ensures !op.Switch? && !op.Write? && !op.Command? ==>
              t.joints[i] == s.joints[i] || t.joints[i] == s.joints[i].(releasing := false)
  {
    hide Switched;
    hide Written;
  }
}
