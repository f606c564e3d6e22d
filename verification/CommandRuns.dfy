/** What the plugin tells each motor, against the commands its controllers gave: the value of every
    motion frame, and how old a command can be.
 */
module CommandRuns {
  import opened Numbers
  import opened Joints
  import opened SafeSpec
  import opened SafeRuns
  import opened GuardRuns

  // The frames of a write -----------------------------------------------------------------

  /** The motion frames to one motor on one interface, in order. */
  function Moves(frames: seq<Frame>, id: nat, interface: Interface): seq<Frame> {
    if frames == [] then []
    else
      var rest, f := Moves(frames[..|frames| - 1], id, interface), frames[|frames| - 1];
      if f.Motion? && f.canId == id && f.interface == interface then rest + [f] else rest
  }

  lemma {:induction false} MovesConcat(a: seq<Frame>, b: seq<Frame>, id: nat, interface: Interface)
    ensures Moves(a + b, id, interface) == Moves(a, id, interface) + Moves(b, id, interface)
  {
    if b == [] {
      assert a + b == a;
    } else {
      assert (a + b)[..|a + b| - 1] == a + b[..|b| - 1];
      MovesConcat(a, b[..|b| - 1], id, interface);
    }
  }

  lemma {:induction false} MovesAreOwn(frames: seq<Frame>, id: nat, interface: Interface)
    ensures Moves(frames, id, interface) == Moves(For(frames, id), id, interface)
  {
    if frames != [] {
      var before, f := frames[..|frames| - 1], frames[|frames| - 1];
      MovesAreOwn(before, id, interface);
      if f.canId == id {
        MovesConcat(For(before, id), [f], id, interface);
        assert [f][..0] == [];
      }
    }
  }

  lemma {:induction false} NoMoves(frames: seq<Frame>, id: nat, interface: Interface)
    ensures Moves(frames, id, interface) == [] <==>
            forall f :: f in frames ==> !(f.Motion? && f.canId == id && f.interface == interface)
  {
    if frames != [] {
      NoMoves(frames[..|frames| - 1], id, interface);
    }
  }

  lemma {:induction false} MovesHold(frames: seq<Frame>, f: Frame)
    requires f in frames && f.Motion?
    ensures f in Moves(frames, f.canId, f.interface)
  {
    if f in frames[..|frames| - 1] {
      MovesHold(frames[..|frames| - 1], f);
    }
  }

  lemma MovesOfOne(f: Frame, id: nat, interface: Interface)
    ensures Moves([f], id, interface) ==
            if f.Motion? && f.canId == id && f.interface == interface then [f] else []
  {
    assert [f][..0] == [];
  }

  lemma UpstreamMoves(j: Joint, claims: set<string>, g: Interface)
    ensures Moves(UpstreamFrames(j, claims), j.cfg.canId, g) == UpstreamFrame(j, g, claims)
  {
    var p, v := UpstreamFrame(j, Position, claims), UpstreamFrame(j, Velocity, claims);
    var e := UpstreamFrame(j, Effort, claims);
    MovesConcat(p + v, e, j.cfg.canId, g);
    MovesConcat(p, v, j.cfg.canId, g);
    OneInterface(j, claims, Position, g);
    OneInterface(j, claims, Velocity, g);
    OneInterface(j, claims, Effort, g);
    hide UpstreamFrame;
    hide Moves;
  }

  lemma OneInterface(j: Joint, claims: set<string>, f: Interface, g: Interface)
    ensures Moves(UpstreamFrame(j, f, claims), j.cfg.canId, g)
            == if f == g then UpstreamFrame(j, f, claims) else []
  {
    var frames := UpstreamFrame(j, f, claims);
    if frames != [] {
      MovesOfOne(frames[0], j.cfg.canId, g);
      assert frames == [frames[0]];
    }
  }

  lemma MovesOfJoint(r: Run, k: nat, i: nat, g: Interface)
    requires IsRun(r) && k < |r.ops| && r.ops[k].Write? && r.states[k].active && i < |r.states[k].joints|
    ensures i < |r.states[k + 1].joints|
    ensures Moves(r.outs[k], r.states[k].joints[i].cfg.canId, g)
            == UpstreamFrame(r.states[k + 1].joints[i], g, r.states[k].claims)
    ensures r.states[k + 1].joints[i] == Written(r.states[k].joints[i], r.ops[k].period, r.ops[k].now)
  {
    hide IsRun;
    hide Written;
    hide For;
    hide Moves;
    hide UpstreamFrames;
    hide UpstreamFrame;
    hide ReleaseFrames;
    RunLengths(r);
    FramesOfJoint(r, k, i);
    var j, u := r.states[k].joints[i], r.states[k + 1].joints[i];
    var own := ReleaseFrames(j, r.ops[k].now);
    MovesAreOwn(r.outs[k], j.cfg.canId, g);
    MovesConcat(own, UpstreamFrames(u, r.states[k].claims), j.cfg.canId, g);
    ReleaseMovesNothing(j, r.ops[k].now, g);
    UpstreamMoves(u, r.states[k].claims, g);
  }

  lemma ReleaseMovesNothing(j: Joint, now: int, g: Interface)
    ensures Moves(ReleaseFrames(j, now), j.cfg.canId, g) == []
  {
    NoMoves(ReleaseFrames(j, now), j.cfg.canId, g);
  }

  /** A command of a controller that is on the bus: the frame with its value in the motor's own
      sign, if a controller holds the interface and has given a command; and no frame otherwise. */
  function Told(cfg: JointConfig, interface: Interface, held: bool, command: Option<real>): seq<Frame> {
    if held && command.Some? then [Motion(cfg.canId, interface, cfg.direction * command.value)] else []
  }

  /** All the motion frames of a write to the motor of joint i: on each interface that controllers
      hold, the joint's command (for positions, its slew-limited target) once, in the motor's own
      sign, and nothing else. */
  lemma WriteTellsCommands(r: Run, k: nat, i: nat)
    requires IsRun(r) && k < |r.ops| && r.ops[k].Write? && r.states[k].active && i < |r.states[k].joints|
    ensures i < |r.states[k + 1].joints|
    ensures var s, j := r.states[k], r.states[k].joints[i];
            var cfg := j.cfg;
            && Moves(r.outs[k], cfg.canId, Velocity)
               == Told(cfg, Velocity, cfg.name + "/velocity" in s.claims, j.commandVelocity)
            && Moves(r.outs[k], cfg.canId, Effort)
               == Told(cfg, Effort, cfg.name + "/effort" in s.claims, j.commandEffort)
            && Moves(r.outs[k], cfg.canId, Position)
               == Told(cfg, Position, cfg.positionCommanded && j.positionClaimed,
                       r.states[k + 1].joints[i].target)
  {
    RunKeepsInv(r, k);
    assert JointInv(r.states[k], r.states[k].joints[i]);
    hide IsRun;
    hide Inv;
    MovesOfJoint(r, k, i, Velocity);
    MovesOfJoint(r, k, i, Effort);
    MovesOfJoint(r, k, i, Position);
    hide Moves;
    hide NextTarget;
  }

  lemma {:induction false} UpstreamFrameOf(joints: seq<Joint>, claims: set<string>, f: Frame) returns (i: nat)
    requires f in AllUpstreamFrames(joints, claims)
    ensures i < |joints| && f in UpstreamFrames(joints[i], claims)
  {
    var n := |joints| - 1;
    if f in AllUpstreamFrames(joints[..n], claims) {
      i := UpstreamFrameOf(joints[..n], claims, f);
    } else {
      i := n;
    }
  }

  /** The joint that a motion frame is for. */
  lemma MotionHasJoint(r: Run, k: nat, f: Frame) returns (i: nat)
    requires IsRun(r) && k < |r.ops| && f in r.outs[k] && f.Motion?
    ensures r.ops[k].Write? && r.states[k].active
    ensures i < |r.states[k].joints| && f.canId == r.states[k].joints[i].cfg.canId
  {
    OnlyActiveWritesMove(r, k, f);
    assert StepAt(r, k);
    RunKeepsInv(r, k);
    RunKeepsInv(r, k + 1);
    hide Step;
    hide Inv;
    hide IsRun;
    hide UpstreamFrames;
    var s, t := r.states[k], r.states[k + 1];
    MotionIsUpstream(s, r.ops[k], t, r.outs[k], f);
    i := UpstreamFrameOf(t.joints, s.claims, f);
    UpstreamIsOwn(t.joints[i], s.claims, f);
  }

  lemma MotionIsUpstream(s: Sys, op: Op, t: Sys, frames: seq<Frame>, f: Frame)
    requires Step(s, op, t, frames) && op.Write? && s.active && f in frames && f.Motion?
    ensures f in AllUpstreamFrames(t.joints, s.claims)
  {
    WriteFrames(s, op, t, frames);
    ReleasesAreNoMotion(s.joints, op.now);
    hide Step;
    hide AllUpstreamFrames;
    hide AllReleaseFrames;
  }

  lemma UpstreamIsOwn(j: Joint, claims: set<string>, f: Frame)
    requires f in UpstreamFrames(j, claims)
    ensures f.canId == j.cfg.canId
  {
  }

  lemma {:induction false} ReleasesAreNoMotion(joints: seq<Joint>, now: int)
    ensures forall f :: f in AllReleaseFrames(joints, now) ==> !f.Motion?
  {
    if joints != [] {
      ReleasesAreNoMotion(joints[..|joints| - 1], now);
    }
  }

  // The age of a command --------------------------------------------------------------------

  /** Step n makes the plugin forget the commands of joint i: an activation that gets past
      wait_for_status(), or a switch that stops the joint. */
  ghost predicate Forgets(r: Run, n: int, i: int)
    requires IsRun(r) && 0 <= n < |r.ops|
  {
    0 <= i < |r.states[n].joints| && ForgetsIn(r.states[n], r.ops[n], i)
  }

  ghost predicate ForgetsIn(s: Sys, op: Op, i: int)
    requires 0 <= i < |s.joints|
  {
    || (op.Activate? && op.activation.upstreamOk && op.activation.waited <= |op.activation.polls|
        && |op.activation.checks| == |s.joints| && AllRecent(s, op.activation))
    || (op.Switch? && op.accepted && exists n :: 0 <= n < |op.stop| && s.joints[i].cfg.name + "/" <= op.stop[n])
  }

  ghost predicate Gives(r: Run, n: int, i: int)
    requires 0 <= n < |r.ops|
  {
    r.ops[n].Command? && r.ops[n].joint == i
  }

  /** Step c is the last command for joint i before state k, and was not forgotten since. */
  ghost predicate CommandFrom(r: Run, i: int, c: int, k: int)
    requires IsRun(r) && k <= |r.ops|
  {
    0 <= c < k && Gives(r, c, i) && forall n :: c < n < k ==> Kept(r, n, i)
  }

  ghost predicate Kept(r: Run, n: int, i: int)
    requires IsRun(r) && 0 <= n < |r.ops|
  {
    !Gives(r, n, i) && !Forgets(r, n, i)
  }

  ghost predicate Commanding(j: Joint) {
    j.commandPosition.Some? || j.commandVelocity.Some? || j.commandEffort.Some?
  }

  ghost predicate SameCommands(j: Joint, k: Joint) {
    j.commandPosition == k.commandPosition && j.commandVelocity == k.commandVelocity
    && j.commandEffort == k.commandEffort
  }

  ghost predicate HasCommands(j: Joint, op: Op)
    requires op.Command?
  {
    j.commandPosition == op.position && j.commandVelocity == op.velocity && j.commandEffort == op.effort
  }

  /** What one callback does to the commands of a joint. */
  ghost predicate CommandsAfter(s: Sys, op: Op, t: Sys, i: nat)
    requires i < |s.joints|
  {
    && i < |t.joints|
    && if op.Command? && op.joint == i then HasCommands(t.joints[i], op)
       else if ForgetsIn(s, op, i) then !Commanding(t.joints[i])
       else SameCommands(s.joints[i], t.joints[i])
  }

  lemma CommandStepped(s: Sys, op: Op, t: Sys, frames: seq<Frame>, i: nat)
    requires Step(s, op, t, frames) && i < |s.joints|
    ensures CommandsAfter(s, op, t, i)
  {
    match op
    case Activate(a) => ActivationCommands(s, a, t, frames, i);
    case Read(_, _, _, _) => ReadCommands(s, op, t, frames, i);
    case Switch(_, _, _, _) => SwitchCommands(s, op, t, frames, i);
    case _ => OtherCommands(s, op, t, frames, i);
  }

  lemma ActivationCommands(s: Sys, a: Activation, t: Sys, frames: seq<Frame>, i: nat)
    requires Step(s, Activate(a), t, frames) && i < |s.joints|
    ensures CommandsAfter(s, Activate(a), t, i)
  {
    PolledSame(s.joints[i], a.polls);
    hide Polled;
    hide WellTimed;
    hide AllRecent;
    hide AllOriginsTaken;
    hide OriginsThenStop;
    hide ZeroFrames;
  }

  lemma ReadCommands(s: Sys, op: Op, t: Sys, frames: seq<Frame>, i: nat)
    requires op.Read? && Step(s, op, t, frames) && i < |s.joints|
    ensures CommandsAfter(s, op, t, i)
  {
    CheckedCommands(s, op, i);
    hide Checked;
    hide StopBurst;
    hide Trips;
    var c := Checked(s, op.batch, op.drainedAt, op.checkedAt, op.stallAt);
    assert t.joints[i] == c.joints[i] || t.joints[i] == c.joints[i].(releasing := false);
  }

  lemma CheckedCommands(s: Sys, op: Op, i: nat)
    requires op.Read? && i < |s.joints|
    ensures var c := Checked(s, op.batch, op.drainedAt, op.checkedAt, op.stallAt);
            |c.joints| == |s.joints| && SameCommands(s.joints[i], c.joints[i])
  {
    DrainedCommands(s, op.batch, op.drainedAt, i);
    hide Drain;
  }

  lemma DrainedCommands(s: Sys, batch: Batch, at: int, i: nat)
    requires i < |s.joints|
    ensures var d := Drain(s, batch, at); |d.joints| == |s.joints| && SameCommands(s.joints[i], d.joints[i])
  {
  }

  lemma SwitchCommands(s: Sys, op: Op, t: Sys, frames: seq<Frame>, i: nat)
    requires op.Switch? && Step(s, op, t, frames) && i < |s.joints|
    ensures CommandsAfter(s, op, t, i)
  {
    JointAfter(s, op, t, frames, i);
  }

  lemma OtherCommands(s: Sys, op: Op, t: Sys, frames: seq<Frame>, i: nat)
    requires !op.Activate? && !op.Read? && !op.Switch? && Step(s, op, t, frames) && i < |s.joints|
    ensures CommandsAfter(s, op, t, i)
  {
    JointAfter(s, op, t, frames, i);
  }

  lemma CommandStepAt(r: Run, k: nat, next: nat, i: nat)
    requires IsRun(r) && k < |r.ops| && next == k + 1 && i < |r.states[0].joints|
    ensures i < |r.states[k].joints| && CommandsAfter(r.states[k], r.ops[k], r.states[next], i)
  {
    RunKeepsInv(r, k);
    assert StepAt(r, k);
    hide Step;
    CommandStepped(r.states[k], r.ops[k], r.states[next], r.outs[k], i);
  }

  /** Every command a joint still has is that of the last Command step for it, with no
      activation and no stop of the joint in between. */
  lemma {:induction false} LastCommand(r: Run, k: nat, i: nat) returns (c: nat)
    requires IsRun(r) && k <= |r.ops| && i < |r.states[0].joints|
    requires i < |r.states[k].joints| && Commanding(r.states[k].joints[i])
    ensures CommandFrom(r, i, c, k) && HasCommands(r.states[k].joints[i], r.ops[c])
    decreases k
  {
    if k == 0 {
      assert false;
    } else {
      CommandStepAt(r, k - 1, k, i);
      hide IsRun;
      hide ForgetsIn;
      if Gives(r, k - 1, i) {
        c := k - 1;
      } else {
        c := LastCommand(r, k - 1, i);
        assert Kept(r, k - 1, i);
      }
    }
  }

  /** And such a command is kept. */
  lemma {:induction false} CommandIsKept(r: Run, i: nat, c: nat, k: nat)
    requires IsRun(r) && k <= |r.ops| && i < |r.states[0].joints| && CommandFrom(r, i, c, k)
    ensures i < |r.states[k].joints| && HasCommands(r.states[k].joints[i], r.ops[c])
    decreases k
  {
    CommandStepAt(r, k - 1, k, i);
    hide IsRun;
    hide ForgetsIn;
    if c < k - 1 {
      assert Kept(r, k - 1, i);
      CommandIsKept(r, i, c, k - 1);
    }
  }

  /** An activation that succeeds forgets. */
  lemma ActivationForgets(r: Run, n: nat, i: nat)
    requires IsRun(r) && n < |r.ops| && !r.states[n].active && r.states[n + 1].active
    requires i < |r.states[n].joints|
    ensures Forgets(r, n, i)
  {
    assert StepAt(r, n);
    hide WellTimed;
    hide AllRecent;
    hide AllOriginsTaken;
    hide StopBurst;
  }

  /** Whether step c gave this value to the interface of a velocity or effort frame. */
  ghost predicate Asks(op: Op, interface: Interface, direction: real, value: real)
    requires op.Command?
  {
    match interface
    case Velocity => op.velocity.Some? && value == direction * op.velocity.value
    case Effort => op.effort.Some? && value == direction * op.effort.value
    case Position => true
  }

  /** No motor is driven by an old command: each velocity or effort frame of a run is for a joint
      whose interface a controller holds, and carries, in the motor's own sign, the value of the
      last command for it, given since the last successful activation and since the last switch
      that stopped the joint. */
  lemma NoStaleCommands(r: Run, k: nat, f: Frame) returns (i: nat, c: nat)
    requires IsRun(r) && k < |r.ops| && f in r.outs[k] && f.Motion? && f.interface != Position
    ensures i < |r.states[k].joints| && f.canId == r.states[k].joints[i].cfg.canId
    ensures r.states[k].joints[i].cfg.name + (if f.interface == Velocity then "/velocity" else "/effort")
            in r.states[k].claims
    ensures CommandFrom(r, i, c, k)
    ensures Asks(r.ops[c], f.interface, r.states[k].joints[i].cfg.direction, f.value)
    ensures forall n :: c < n < k ==> !(!r.states[n].active && r.states[n + 1].active)
  {
    i := MotionHasJoint(r, k, f);
    RunKeepsInv(r, k);
    WriteTellsCommands(r, k, i);
    MovesHold(r.outs[k], f);
    hide Moves;
    c := LastCommand(r, k, i);
    forall n | c < n < k ensures !(!r.states[n].active && r.states[n + 1].active) {
      assert Kept(r, n, i);
      if !r.states[n].active && r.states[n + 1].active {
        RunKeepsInv(r, n);
        ActivationForgets(r, n, i);
      }
    }
  }

  /** Conversely, a command that was given since then does reach the motor in every write. */
  lemma FreshCommandsAreSent(r: Run, k: nat, i: nat, c: nat)
    requires IsRun(r) && k < |r.ops| && r.ops[k].Write? && r.states[k].active
    requires i < |r.states[0].joints| && CommandFrom(r, i, c, k)
    ensures var cfg, op, claims := r.states[0].joints[i].cfg, r.ops[c], r.states[k].claims;
            && (op.velocity.Some? && cfg.name + "/velocity" in claims ==>
                  Motion(cfg.canId, Velocity, cfg.direction * op.velocity.value) in r.outs[k])
            && (op.effort.Some? && cfg.name + "/effort" in claims ==>
                  Motion(cfg.canId, Effort, cfg.direction * op.effort.value) in r.outs[k])
  {
    RunKeepsInv(r, k);
    CommandIsKept(r, i, c, k);
    WriteTellsCommands(r, k, i);
    hide IsRun;
    var id := r.states[0].joints[i].cfg.canId;
    MovesAreFrames(r.outs[k], id, Velocity);
    MovesAreFrames(r.outs[k], id, Effort);
    hide Moves;
  }

  lemma {:induction false} MovesAreFrames(frames: seq<Frame>, id: nat, interface: Interface)
    ensures forall f :: f in Moves(frames, id, interface) ==> f in frames
  {
    if frames != [] {
      MovesAreFrames(frames[..|frames| - 1], id, interface);
    }
  }
}
