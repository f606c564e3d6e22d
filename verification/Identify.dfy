/** Asking which joint moved when a motor was wiggled, for one CAN ID after the other. */
module Identify {
  import opened Numbers

  /** One reply, as ask_joint() reads it; End is end of file. */
  datatype Reply = End | R | S | Q | Number(n: nat) | Text(text: string)

  datatype Answer = Repeat | Skip | Quit | Joint(joint: string)

  type Assigned = map<string, nat>

  /** The joint a reply names, by its number from 1 or by its name. */
  function Named(reply: Reply, joints: seq<string>): Option<string> {
    match reply
    case Number(n) => if 1 <= n <= |joints| then Some(joints[n - 1]) else None
    case Text(text) => if text in joints then Some(text) else None
    case _ => None
  }

  predicate Free(joint: string, canId: nat, owners: Assigned) {
    joint in owners ==> owners[joint] == canId
  }

  /** The answer a reply gives, if it is accepted. */
  function AnswerOf(reply: Reply, canId: nat, joints: seq<string>, owners: Assigned): Option<Answer> {
    match reply
    case End => Some(Quit)
    case Q => Some(Quit)
    case R => Some(Repeat)
    case S => Some(Skip)
    case _ =>
      var joint := Named(reply, joints);
      if joint.Some? && Free(joint.value, canId, owners) then Some(Joint(joint.value)) else None
  }

  /** The first accepted answer, and the replies after it; no more replies is end of file. */
  function Asked(replies: seq<Reply>, canId: nat, joints: seq<string>, owners: Assigned)
    : (r: (Answer, seq<Reply>))
    ensures replies == [] || |r.1| < |replies|
    ensures replies == [] ==> r == (Quit, [])
  {
    if replies == [] then (Quit, [])
    else
      var answer := AnswerOf(replies[0], canId, joints, owners);
      if answer.Some? then (answer.value, replies[1..]) else Asked(replies[1..], canId, joints, owners)
  }

  method AskJoint(replies: seq<Reply>, canId: nat, joints: seq<string>, owners: Assigned)
    returns (answer: Answer, rest: seq<Reply>)
    ensures (answer, rest) == Asked(replies, canId, joints, owners)
  {
    rest := replies;
    while rest != []
      invariant Asked(rest, canId, joints, owners) == Asked(replies, canId, joints, owners)
      decreases |rest|
    {
      var reply := rest[0];
      rest := rest[1..];
      var joint: Option<string>;
      match reply {
        case End => return Quit, rest;
        case Q => return Quit, rest;
        case R => return Repeat, rest;
        case S => return Skip, rest;
        case Number(n) => joint := if 1 <= n <= |joints| then Some(joints[n - 1]) else None;
        case Text(text) => joint := if text in joints then Some(text) else None;
      }
      if joint.Some? {
        if !(joint.value in owners && owners[joint.value] != canId) {
          return Joint(joint.value), rest;
        }
      }
    }
    answer := Quit;
  }

  // The assignment --------------------------------------------------------------------

  /** A joint given to an ID; whatever the ID had before is free again. */
  function Given(owners: Assigned, canId: nat, joint: string): Assigned {
    (map j | j in owners && owners[j] != canId :: owners[j])[joint := canId]
  }

  /** The joint answers of a session, in order. */
  datatype Decision = Decision(canId: nat, joint: string)

  function AfterAll(decisions: seq<Decision>): Assigned {
    if decisions == [] then map[]
    else
      var last := decisions[|decisions| - 1];
      Given(AfterAll(decisions[..|decisions| - 1]), last.canId, last.joint)
  }

  /** The first answer that is not a wish to see the motor move again. */
  function Settled(replies: seq<Reply>, canId: nat, joints: seq<string>, owners: Assigned): (Answer, seq<Reply>)
    decreases |replies|
  {
    var (answer, rest) := Asked(replies, canId, joints, owners);
    if answer == Repeat && rest != replies then Settled(rest, canId, joints, owners) else (answer, rest)
  }

  /** The decisions of a session that goes on with these IDs and replies: one for every ID that
      gets a joint, until the first quit. */
  function Session(ids: seq<nat>, joints: seq<string>, replies: seq<Reply>, owners: Assigned): seq<Decision> {
    if ids == [] then []
    else
      var (answer, rest) := Settled(replies, ids[0], joints, owners);
      match answer
      case Quit => []
      case Joint(joint) =>
        [Decision(ids[0], joint)] + Session(ids[1..], joints, rest, Given(owners, ids[0], joint))
      case _ => Session(ids[1..], joints, rest, owners)
  }

  /** Every decision gave a joint that was free then. */
  ghost predicate Allowed(decisions: seq<Decision>) {
    forall i :: 0 <= i < |decisions| ==>
      Free(decisions[i].joint, decisions[i].canId, AfterAll(decisions[..i]))
  }

  /** The assignment loop of cmd_identify(): any list of IDs, any replies. */
  method AssignJoints(ids: seq<nat>, joints: seq<string>, replies: seq<Reply>)
    returns (owners: Assigned, ghost decisions: seq<Decision>)
    ensures decisions == Session(ids, joints, replies, map[])
    ensures owners == AfterAll(decisions) && Allowed(decisions)
    ensures forall j :: j in owners ==> j in joints && owners[j] in ids
    ensures forall a, b :: a in owners && b in owners && owners[a] == owners[b] ==> a == b
  {
    owners, decisions := map[], [];
    var rest := replies;
    hide Asked;
    hide AnswerOf;
    hide AfterAll;
    hide Allowed;
    hide Session;
    hide Settled;
    hide Free;
    NothingDecided();
    for i := 0 to |ids|
      invariant decisions + Session(ids[i..], joints, rest, owners) == Session(ids, joints, replies, map[])
      invariant owners == AfterAll(decisions) && Allowed(decisions)
      invariant forall k :: 0 <= k < |decisions| ==> decisions[k].joint in joints && decisions[k].canId in ids
    {
      var answer := Repeat;
      ghost var before := rest;
      while answer == Repeat
        invariant answer == Repeat ==> Settled(rest, ids[i], joints, owners) == Settled(before, ids[i], joints, owners)
        invariant answer != Repeat ==> (answer, rest) == Settled(before, ids[i], joints, owners)
        invariant answer.Joint? ==> answer.joint in joints && Free(answer.joint, ids[i], owners)
        decreases |rest|, answer == Repeat
      {
        AnswerIsAllowed(rest, ids[i], joints, owners);
        AskedOnce(rest, ids[i], joints, owners);
        answer, rest := AskJoint(rest, ids[i], joints, owners);
      }
      SessionStep(ids, i, joints, before, owners);
      if answer == Quit {
        break;
      }
      if answer.Joint? {
        owners := map j | j in owners && owners[j] != ids[i] :: owners[j];
        owners := owners[answer.joint := ids[i]];
        OneMoreDecision(decisions, Decision(ids[i], answer.joint));
        decisions := decisions + [Decision(ids[i], answer.joint)];
      }
    }
    SessionIsOver(joints, rest, owners);
    assert ids[|ids|..] == [];
    AssignmentIsProper(decisions, ids, joints);
  }

  lemma AskedOnce(replies: seq<Reply>, canId: nat, joints: seq<string>, owners: Assigned)
    ensures var (answer, rest) := Asked(replies, canId, joints, owners);
            && (answer == Repeat ==>
                  |rest| < |replies|
                  && Settled(replies, canId, joints, owners) == Settled(rest, canId, joints, owners))
            && (answer != Repeat ==> Settled(replies, canId, joints, owners) == (answer, rest))
  {
    hide AnswerOf;
  }

  lemma SessionStep(ids: seq<nat>, i: nat, joints: seq<string>, replies: seq<Reply>, owners: Assigned)
    requires i < |ids|
    ensures var (answer, rest) := Settled(replies, ids[i], joints, owners);
            Session(ids[i..], joints, replies, owners) ==
            match answer
            case Quit => []
            case Joint(joint) =>
              [Decision(ids[i], joint)] + Session(ids[i + 1..], joints, rest, Given(owners, ids[i], joint))
            case _ => Session(ids[i + 1..], joints, rest, owners)
  {
    assert ids[i..][1..] == ids[i + 1..];
    hide Settled;
    hide Given;
  }

  lemma SessionIsOver(joints: seq<string>, replies: seq<Reply>, owners: Assigned)
    ensures Session([], joints, replies, owners) == []
  {
  }

  lemma NothingDecided()
    ensures AfterAll([]) == map[] && Allowed([])
  {
  }

  lemma AssignmentIsProper(decisions: seq<Decision>, ids: seq<nat>, joints: seq<string>)
    requires Allowed(decisions)
    requires forall k :: 0 <= k < |decisions| ==> decisions[k].joint in joints && decisions[k].canId in ids
    ensures var owners := AfterAll(decisions);
            && (forall j :: j in owners ==> j in joints && owners[j] in ids)
            && (forall a, b :: a in owners && b in owners && owners[a] == owners[b] ==> a == b)
  {
    var owners := AfterAll(decisions);
    hide AfterAll;
    forall j | j in owners ensures j in joints && owners[j] in ids {
      AssignedByLastDecision(decisions, j, owners[j]);
    }
    forall a, b | a in owners && b in owners && owners[a] == owners[b] ensures a == b {
      AssignedByLastDecision(decisions, a, owners[a]);
      AssignedByLastDecision(decisions, b, owners[b]);
    }
  }

  lemma {:induction false} AnswerIsAllowed(replies: seq<Reply>, canId: nat, joints: seq<string>, owners: Assigned)
    ensures var answer := Asked(replies, canId, joints, owners).0;
            answer.Joint? ==> answer.joint in joints && Free(answer.joint, canId, owners)
  {
    if replies != [] && AnswerOf(replies[0], canId, joints, owners).None? {
      AnswerIsAllowed(replies[1..], canId, joints, owners);
    }
  }

  lemma OneMoreDecision(decisions: seq<Decision>, d: Decision)
    requires Allowed(decisions) && Free(d.joint, d.canId, AfterAll(decisions))
    ensures Allowed(decisions + [d])
    ensures AfterAll(decisions + [d]) == Given(AfterAll(decisions), d.canId, d.joint)
  {
    var all := decisions + [d];
    assert all[..|decisions|] == decisions;
    forall i | 0 <= i < |all| ensures Free(all[i].joint, all[i].canId, AfterAll(all[..i])) {
      assert i < |decisions| ==> all[..i] == decisions[..i];
    }
  }

  /** The last joint decided for an ID. */
  function LastFor(decisions: seq<Decision>, canId: nat): Option<string> {
    if decisions == [] then None
    else
      var last := decisions[|decisions| - 1];
      if last.canId == canId then Some(last.joint) else LastFor(decisions[..|decisions| - 1], canId)
  }

  /** A joint ends up with an ID exactly when it is the last joint decided for that ID. So every
      ID has at most one joint, and no decision was taken over by another motor. */
  lemma {:induction false} AssignedByLastDecision(decisions: seq<Decision>, joint: string, canId: nat)
    requires Allowed(decisions)
    ensures joint in AfterAll(decisions) && AfterAll(decisions)[joint] == canId
            <==> LastFor(decisions, canId) == Some(joint)
    ensures LastFor(decisions, canId).Some? ==>
              Decision(canId, LastFor(decisions, canId).value) in decisions
  {
    if decisions != [] {
      var n := |decisions| - 1;
      var before, last := decisions[..n], decisions[n];
      assert Allowed(before) by {
        assert forall i :: 0 <= i < n ==> before[..i] == decisions[..i];
      }
      AssignedByLastDecision(before, joint, canId);
      assert Free(last.joint, last.canId, AfterAll(decisions[..n]));
    }
  }

  /** What an answer says, if it is understood: a joint by its name or its number from 1, or, for
      None, that the motor is to be skipped. */
  function Says(answer: Reply, joints: seq<string>): Option<string> {
    match answer
    case Text(text) => Some(text)
    case Number(n) => if 1 <= n <= |joints| then Some(joints[n - 1]) else None
    case _ => None
  }

  predicate Understood(answer: Reply, joints: seq<string>) {
    match answer
    case Text(text) => text in joints
    case Number(n) => 1 <= n <= |joints|
    case _ => answer == S
  }

  /** Replies that decide nothing: the motor is to move again, or the reply names no joint. */
  predicate Asides(replies: seq<Reply>, joints: seq<string>) {
    forall i :: 0 <= i < |replies| ==>
      replies[i] == R || ((replies[i].Number? || replies[i].Text?) && !Understood(replies[i], joints))
  }

  function Script(answers: seq<Reply>, asides: seq<seq<Reply>>): seq<Reply>
    requires |answers| == |asides|
  {
    if answers == [] then [] else asides[0] + [answers[0]] + Script(answers[1..], asides[1..])
  }

  function Decided(ids: seq<nat>, answers: seq<Reply>, joints: seq<string>): seq<Decision>
    requires |ids| == |answers|
  {
    if ids == [] then []
    else
      var joint := Says(answers[0], joints);
      (if joint.Some? then [Decision(ids[0], joint.value)] else []) + Decided(ids[1..], answers[1..], joints)
  }

  /** A session with one understood answer for every ID decides exactly what the answers say, when
      they name different joints; whatever requests to see a motor move again, and answers that are
      not understood, come in between. */
  lemma {:induction false} EveryAnswerCounts(ids: seq<nat>, joints: seq<string>, answers: seq<Reply>,
                                             asides: seq<seq<Reply>>, owners: Assigned)
    requires |answers| == |asides| == |ids|
    requires forall i :: 0 <= i < |ids| ==> Asides(asides[i], joints) && Understood(answers[i], joints)
    requires forall i :: 0 <= i < |ids| && Says(answers[i], joints).Some? ==>
               Says(answers[i], joints).value !in owners
    requires forall i, k :: 0 <= i < k < |ids| && Says(answers[i], joints).Some? ==>
               Says(answers[i], joints) != Says(answers[k], joints)
    ensures Session(ids, joints, Script(answers, asides), owners) == Decided(ids, answers, joints)
    decreases |ids|
  {
    if ids != [] {
      var rest := Script(answers[1..], asides[1..]);
      var joint := Says(answers[0], joints);
      AsidesDoNotMatter(asides[0], answers[0], rest, ids[0], joints, owners);
      var next := if joint.Some? then Given(owners, ids[0], joint.value) else owners;
      EveryAnswerCounts(ids[1..], joints, answers[1..], asides[1..], next);
    }
  }

  lemma {:induction false} AsidesDoNotMatter(asides: seq<Reply>, answer: Reply, rest: seq<Reply>, canId: nat,
                                             joints: seq<string>, owners: Assigned)
    requires Asides(asides, joints) && Understood(answer, joints)
    requires Says(answer, joints).Some? ==> Says(answer, joints).value !in owners
    ensures Settled(asides + [answer] + rest, canId, joints, owners)
            == (if Says(answer, joints).Some? then Joint(Says(answer, joints).value) else Skip, rest)
    decreases |asides|
  {
    var all := asides + [answer] + rest;
    if asides == [] {
      assert all == [answer] + rest && all[1..] == rest;
    } else {
      assert all[0] == asides[0] && all[1..] == asides[1..] + [answer] + rest;
      AsidesDoNotMatter(asides[1..], answer, rest, canId, joints, owners);
    }
  }

  /** Quitting, or the end of the input, ends the session; what was decided stays. */
  lemma {:induction false} QuittingEnds(ids: seq<nat>, joints: seq<string>, asides: seq<Reply>, quit: Reply,
                                        rest: seq<Reply>, owners: Assigned)
    requires Asides(asides, joints) && (quit == Q || quit == End)
    ensures Session(ids, joints, asides + [quit] + rest, owners) == []
    decreases |asides|
  {
    if ids != [] {
      QuitIsHeard(asides, quit, rest, ids[0], joints, owners);
    }
  }

  lemma {:induction false} QuitIsHeard(asides: seq<Reply>, quit: Reply, rest: seq<Reply>, canId: nat,
                                       joints: seq<string>, owners: Assigned)
    requires Asides(asides, joints) && (quit == Q || quit == End)
    ensures Settled(asides + [quit] + rest, canId, joints, owners) == (Quit, rest)
    decreases |asides|
  {
    var all := asides + [quit] + rest;
    if asides == [] {
      assert all == [quit] + rest && all[1..] == rest;
    } else {
      assert all[0] == asides[0] && all[1..] == asides[1..] + [quit] + rest;
      QuitIsHeard(asides[1..], quit, rest, canId, joints, owners);
    }
  }

  /** A joint that another motor has is refused, and the question asked again. */
  lemma TakenJointIsRefused(answer: Reply, rest: seq<Reply>, canId: nat, joints: seq<string>, owners: Assigned)
    requires Understood(answer, joints) && Says(answer, joints).Some?
    requires Says(answer, joints).value in owners && owners[Says(answer, joints).value] != canId
    ensures Asked([answer] + rest, canId, joints, owners) == Asked(rest, canId, joints, owners)
  {
    assert ([answer] + rest)[1..] == rest;
  }
}
